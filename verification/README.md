# transcribe.py export pipeline, in Dafny

`transcribe_file` runs a speech-recognition engine on a media file. It then
writes three text files from the segments the engine yields:

- `<prefix>.srt`: SubRip subtitles, with numbered blocks and `HH:MM:SS,mmm` times.
- `<prefix>.vtt`: WebVTT subtitles, with a `WEBVTT` header and `HH:MM:SS.mmm` times.
- `<prefix>.txt`: a plain transcript with one trimmed line per segment.

The function returns a manifest with the three paths, the detected language,
its probability, and the segment count. This project models the part that
runs after recognition, and proves what it promises.

The model has these modules:

- `Text`: the string primitives the code relies on. These are Python's
  `str.strip()` whitespace set, `{n:0w}` zero-padded integer formatting, and
  writing lines each followed by a newline (`Join`). The proofs also split a
  written file back into its lines (`Lines`); the code itself never reads a
  file.
- `Timestamp`: `srt_ts` and `vtt_ts` over exact real second offsets.
  - Python's `//`, `%`, `int()` and `round()` are written out as floor
    division, floor remainder, truncation and round-half-even.
  - The millisecond field is computed apart from the seconds field, as in the
    code. So a fraction of 0.9995 or more prints `1000` and is not carried
    into the seconds.
- `Segments`: the segment value and the drain loop. The drain loop is a
  method that returns the counts at which a progress notice is printed,
  instead of printing them.
- `Export`: each file's text is defined as its list of lines, each line
  followed by `\n`. The three writing loops are methods proved to build
  exactly that text. Lemmas relate the three files to each other and to the
  segment list.
- `Paths`: the output prefix, taken from the override or from pathlib's
  `name` and `suffix` of the source path, and the three output paths.
- `Transcribe`: the whole call as a pure function `Run` of the files before
  it. A `FileSystem` class keeps the files as a map, and `TranscribeFile`
  runs against that class and is proved to agree with `Run`. The engine is an
  input value: the segments it yields, whether it raises after them, and its
  info.

On these points the model follows the code:

- A negative time is not clamped to zero. The formulas are total. The hours
  of a negative time are negative and its milliseconds are at most 0, while
  the minutes and the seconds stay within 0..59: -0.5 s prints as
  `-1:59:59,-500` and -1.0 s as `-1:59:59,000`.
- Milliseconds come from `t - int(t)`, the fraction left after truncation.
- When an output cannot be opened, the outputs after it keep whatever they
  held before the run.

## Model

| member | source | states |
|---|---|---|
| Text.Strip | transcribe.py:65 | the result is an infix of the text; what is cut from each end is whitespace only; neither end of the result is whitespace |
| Text.StripIdempotent | transcribe.py:65 | stripping an already stripped text changes nothing |
| Text.FormatIntReadBack | transcribe.py:9 | `{n:0w}` of a non-negative number is all digits, at least `w` long, and its decimal value is `n`; a negative number prints `-` and then the digits of its magnitude |
| Text.FormatIntWidth | transcribe.py:9 | a non-negative number below `10^w` prints in exactly `w` characters |
| Text.LinesJoin | transcribe.py:63-76 | splitting a written file at its newlines gives back the lines written, when no line holds a newline |
| Text.Digits | transcribe.py:65 | the decimal digits of `{i}`: at least one digit, all digits, and no leading zero unless the number is 0 |
| Text.FormatInt | transcribe.py:9 | a definition with no contract of its own (`{n:0w}`: sign, then digits padded with zeros); Text.FormatIntReadBack and Text.FormatIntWidth state its properties |
| Timestamp.RoundHalfEven | transcribe.py:8 | `round` is within one half of its argument, and a tie goes to the even integer |
| Timestamp.RoundHalfEvenUnique | transcribe.py:8 | those two properties determine `round` completely |
| Timestamp.Trunc | transcribe.py:8 | `int(x)` is the integer next to `x` on the side toward zero |
| Timestamp.Fields | transcribe.py:8 | a definition with no contract of its own (the four fields of line 8); Timestamp.ClockDecomposition, Timestamp.MillisecondRange and Timestamp.FieldsNonNegative state its properties |
| Timestamp.Render | transcribe.py:9 | a definition with no contract of its own (the f-string of line 9 with the separator as a parameter); Timestamp.ParseRender states that it reads back |
| Timestamp.SrtTs | transcribe.py:6-9 | a definition with no contract of its own (`srt_ts`); Timestamp.ParseSrtTs, Timestamp.SrtVttDifferInSeparator and Timestamp.MissingIsZero state its properties |
| Timestamp.VttTs | transcribe.py:11-14 | a definition with no contract of its own (`vtt_ts`); Timestamp.ParseVttTs, Timestamp.SrtVttDifferInSeparator and Timestamp.MissingIsZero state its properties |
| Timestamp.FloorDiv | transcribe.py:8 | `a // b` for a whole divisor `b` is the largest integer `q` with `q * b` not above `a` |
| Timestamp.FloorMod | transcribe.py:8 | `a % b` lies in `[0, b)`, its whole part is the floor of `a` modulo `b`, and it completes `a // b` to `a` |
| Timestamp.ClockDecomposition | transcribe.py:8 | `h*3600 + m*60 + s` equals the floor of `t`, with minutes and seconds in 0..59, for every `t` |
| Timestamp.ScaledFraction | transcribe.py:8 | a fraction in `[0, 1)` scaled to milliseconds rounds into 0..1000, and to 1000 exactly from 0.9995 on |
| Timestamp.MillisecondRange | transcribe.py:8 | for `t >= 0` the ms field is in 0..1000, and it is 1000 exactly when the fraction is at least 0.9995; the seconds field is still the floor of `t` modulo 60 |
| Timestamp.FieldsNonNegative | transcribe.py:8 | for `t >= 0` all four fields are non-negative, with minutes and seconds below 60 |
| Timestamp.ParseRender | transcribe.py:9 | a clock with those field ranges prints as `HH..:MM:SS<sep>mmm..` with two-digit minutes and seconds, and reading the string back gives the same fields |
| Timestamp.ParseSrtTs | transcribe.py:6-9 | `srt_ts(t)` for `t >= 0` reads back to the fields of `t`, with `,` before the milliseconds |
| Timestamp.ParseVttTs | transcribe.py:11-14 | `vtt_ts(t)` for `t >= 0` reads back to the fields of `t`, with `.` before the milliseconds |
| Timestamp.SrtVttDifferInSeparator | transcribe.py:6-14 | `srt_ts(t)` holds exactly one `,`, and `vtt_ts(t)` is `srt_ts(t)` with that `,` replaced by `.`, for every `t`, missing or not |
| Timestamp.MissingIsZero | transcribe.py:6-14 | a missing time prints as `00:00:00,000` and `00:00:00.000` |
| Timestamp.ExampleOneHour | transcribe.py:6-9 | 3661.5 s prints as `01:01:01,500` |
| Timestamp.ExampleMillisecondOverflow | transcribe.py:6-9 | 59.9996 s prints as `00:00:59,1000`: the ms field is 1000 and the seconds are not carried |
| Timestamp.ExampleMillisecondOverflowVtt | transcribe.py:11-14 | 1.9996 s prints as `00:00:01.1000` in WebVTT |
| Timestamp.ExampleZero | transcribe.py:6-9 | 0.0 s prints as `00:00:00,000` |
| Timestamp.ExampleQuarter | transcribe.py:6-9 | 1.25 s prints as `00:00:01,250` |
| Timestamp.ExampleWhole | transcribe.py:6-9 | 3.0 s prints as `00:00:03,000` |
| Timestamp.ExampleNegative | transcribe.py:6-9 | -0.5 s has the fields -1 h, 59 min, 59 s, -500 ms and prints as `-1:59:59,-500` |
| Timestamp.ExampleNegativeWhole | transcribe.py:6-9 | -1.0 s has the fields -1 h, 59 min, 59 s, 0 ms and prints as `-1:59:59,000` |
| Segments.Drain | transcribe.py:54-59 | the list is the engine's sequence, in arrival order, and `n` is its length; a notice follows count `k` exactly when `1 <= k <= n` and `k` is a multiple of the interval; notices are in increasing order; there are none for interval 0 and `n / every` of them for a positive interval |
| Segments.NoticeDue | transcribe.py:57 | a definition with no contract of its own (the test of line 57, false for an interval of 0); Segments.Drain states which counts get a notice |
| Segments.CountStep | transcribe.py:57 | one more segment adds one multiple of the interval exactly when the new count is one |
| Export.WriteSrt | transcribe.py:63-65 | the SRT loop writes exactly the SRT text of the segment list |
| Export.WriteVtt | transcribe.py:68-71 | the WebVTT header and loop write exactly the WebVTT text of the segment list |
| Export.WriteTxt | transcribe.py:74-76 | the TXT loop writes exactly the transcript of the segment list |
| Export.SrtLines | transcribe.py:63-65 | a definition with no contract of its own (four lines per segment); Export.SrtBlockAt, Export.ExportsAgree and Export.WriteSrt state its properties |
| Export.VttLines | transcribe.py:68-71 | a definition with no contract of its own (two header lines, then three per segment); Export.VttBlockAt, Export.ExportsAgree and Export.WriteVtt state its properties |
| Export.TxtLines | transcribe.py:74-76 | a definition with no contract of its own (one trimmed text per segment); Export.ExportsAgree and Export.WriteTxt state its properties |
| Export.SrtBody | transcribe.py:63-65 | a definition with no contract of its own (the SRT lines, each followed by a newline); Export.WriteSrt, Export.SrtBodySnoc and Export.FilesReadBack state its properties |
| Export.VttBody | transcribe.py:68-71 | a definition with no contract of its own (the WebVTT lines, each followed by a newline); Export.WriteVtt, Export.VttBodySnoc and Export.FilesReadBack state its properties |
| Export.TxtBody | transcribe.py:74-76 | a definition with no contract of its own (the TXT lines, each followed by a newline); Export.WriteTxt, Export.TxtBodySnoc and Export.FilesReadBack state its properties |
| Export.SrtBodySnoc | transcribe.py:64-65 | adding a segment appends one block numbered with its 1-based position and leaves the earlier text unchanged |
| Export.VttBodySnoc | transcribe.py:69-71 | adding a segment appends one cue and leaves the earlier text unchanged |
| Export.TxtBodySnoc | transcribe.py:75-76 | adding a segment appends its trimmed text and one newline |
| Export.SrtBlockAt | transcribe.py:64-65 | SRT lines `4k..4k+3` are the block of segment `k`, numbered `k+1`, so the numbers are 1..N in order with no gaps, empty texts included |
| Export.VttBlockAt | transcribe.py:68-71 | WebVTT lines `2+3k..2+3k+2` are the cue of segment `k` |
| Export.ExportsAgree | transcribe.py:63-76 | the three files come from the one list: SRT has 4N lines, WebVTT has 2+3N lines starting with `WEBVTT` and a blank line, TXT has N lines; the text line of segment `k` is the same trimmed text in all three, at the matching place |
| Export.TimeLinesAgree | transcribe.py:63-71 | each WebVTT time line is the SRT time line with each `,` separator turned into `.` |
| Export.FilesReadBack | transcribe.py:63-76 | when no trimmed text holds a newline, splitting each written file at its newlines gives back exactly its line list |
| Export.MultiLineTextSplits | transcribe.py:74-76 | one segment whose text is `a\nb` gives a transcript that splits into the two lines `a` and `b`, so the line counts above need single-line texts |
| Export.EmptyExports | transcribe.py:63-76 | with no segments the SRT and TXT files are empty and the WebVTT file is exactly `WEBVTT\n\n` |
| Export.ExampleDemoTxt | transcribe.py:74-76 | segments " Hello " and "world" give the transcript `Hello\nworld\n` |
| Export.ExampleDemoSrt | transcribe.py:63-65 | the same segments give two SRT blocks: `1`, `00:00:00,000 --> 00:00:01,250`, `Hello`, blank line; then `2`, `00:00:01,250 --> 00:00:03,000`, `world`, blank line; the file is those eight lines, each followed by a newline |
| Paths.RFind | transcribe.py:36 | the index of the last occurrence of a character, or -1 |
| Paths.Name | transcribe.py:36 | a path's name holds no `/` and is never `.`; Paths.NameSimple, Paths.NameOfChild and Paths.NameIgnoresTrailing state which component it is |
| Paths.NameSimple | transcribe.py:36 | a path with no `/` that is neither empty nor `.` is its own name |
| Paths.NameOfChild | transcribe.py:36 | the name of `d/n` is `n` for any directory part `d`, when `n` is a non-empty component other than `.` |
| Paths.NameIgnoresTrailing | transcribe.py:36 | a trailing `/` or `/.` does not change a path's name |
| Paths.Suffix | transcribe.py:36 | a suffix is empty, or it is a `.` followed by at least one character and no further `.`, and it ends the name |
| Paths.Stem | transcribe.py:36 | the name is the stem followed by the suffix, and a non-empty name has a non-empty stem |
| Paths.OutPrefix | transcribe.py:36 | a non-empty override is used as it is; otherwise the prefix is the source's name without its suffix; a source with no name raises `ValueError`; the prefix is never empty |
| Paths.PathsFor | transcribe.py:37-39 | the three output paths are pairwise distinct |
| Paths.SuffixRoundTrip | transcribe.py:36-39 | for a prefix without `/`, the output path's name is the whole path, its suffix is the extension, and its stem is the prefix |
| Paths.OutputsStripToPrefix | transcribe.py:36-39 | for a prefix without `/`, deriving the prefix again from any of its output paths gives back the prefix |
| Paths.ExampleDefaultPrefix | transcribe.py:36 | `demo.mp4` gives the prefix `demo` with no override or an empty one; a non-empty override wins |
| Paths.DefaultPrefixSimple | transcribe.py:36 | with no override or an empty one, a source `<stem><ext>` without a directory gets the prefix `<stem>` |
| Paths.PrefixWithoutDot | transcribe.py:36 | with no override, a source name without a dot or a `/` is its own prefix |
| Paths.ExampleNoExtension | transcribe.py:36 | `audio` gives the prefix `audio` |
| Paths.DefaultPrefixOfChild | transcribe.py:36 | with no override, a source `d/<stem><ext>` gets the prefix `<stem>`: the directory part is dropped |
| Paths.ExampleNestedPrefix | transcribe.py:36 | `videos/demo.mp4` gives the prefix `demo`: the directory is dropped, so the outputs go to the working directory and not next to the source |
| Paths.ExampleRootHasNoPrefix | transcribe.py:36 | `/` has no name, so deriving its prefix raises |
| Transcribe.FileSystem.WriteText | transcribe.py:63 | opening with `"w"` either fails on a read-only path and changes nothing, or replaces the whole contents of the path |
| Transcribe.FileSystem.Exists | transcribe.py:33 | a definition with no contract of its own (`exists()` as membership in the file map); Transcribe.TranscribeFile and Transcribe.RunFaults state what a missing source does |
| Transcribe.TranscribeFile | transcribe.py:32-87 | the call returns and leaves exactly what `Run` says; no notice is printed before the source is found and the prefix derived; after that a notice follows each multiple of the interval, in order |
| Transcribe.WriteOutputs | transcribe.py:62-76 | a definition with no contract of its own (the three opens in order, stopping at the first that fails); Transcribe.WriteOutputsSpec, Transcribe.WriteOutputsFrame and Transcribe.WriteOutputsIdempotent state its properties |
| Transcribe.Run | transcribe.py:32-87 | a definition with no contract of its own (the whole call on a file map); Transcribe.RunSucceeds, Transcribe.RunFrame, Transcribe.RunFaults and Transcribe.RunIdempotent state its properties |
| Transcribe.WriteOutputsSpec | transcribe.py:62-76 | writing succeeds exactly when no output is read-only, and then each output holds its text; a failed open names a read-only output, leaves it unchanged, keeps the outputs before it written and leaves the ones after it untouched |
| Transcribe.WriteOutputsFrame | transcribe.py:62-76 | writing removes no file and changes no file except the three outputs |
| Transcribe.WriteOutputsIdempotent | transcribe.py:62-76 | writing the same texts again changes nothing and fails in the same way |
| Transcribe.RunSucceeds | transcribe.py:32-87 | a run succeeds exactly when the source exists, a prefix can be derived, the engine does not raise, and no output is read-only; the manifest then names the prefix's three paths, passes the language and probability through, counts every segment, and each output holds its text |
| Transcribe.RunFrame | transcribe.py:32-76 | a run removes no file and changes no file except its own three outputs |
| Transcribe.RunFaults | transcribe.py:32-76 | a missing source, a nameless source or an engine fault leaves every file as it was; a failed open leaves the outputs before it written and the rest untouched |
| Transcribe.RunIdempotent | transcribe.py:62-87 | running again with the same arguments gives the same result and the same files, because outputs are overwritten and never appended to |
| Transcribe.ManifestCountsAgree | transcribe.py:80-87 | with single-line texts, `segments_count` equals the TXT line count, a quarter of the SRT line count, and the WebVTT cue count |
| Transcribe.ExampleDemoRun | transcribe.py:32-87 | `demo.mp4` with the two demo segments returns the manifest for `demo.srt`, `demo.vtt` and `demo.txt` with two segments, and `demo.txt` holds `Hello\nworld\n` |

## Left out

- Model loading and `model.transcribe` (transcribe.py:41-52) are a foreign library. The engine is an input: its segments, whether pulling past them raises, and its info, which is passed through unchanged. A fault in the middle of the stream is the same as a shorter stream followed by a fault.
- Floating point is not modelled. Times are exact reals, so the binary representation of a value such as 59.9996 (just above or below the written decimal) does not enter. `round` is exact round-half-even on that real.
- The `print` calls (transcribe.py:41, 44, 58, 62, 67, 73, 78) are not modelled. The progress notices come back as the list of counts at which line 58 prints.
- UTF-8 encoding and real file handles are not modelled. A file is the string written to it. An open that fails is a path in the file system's read-only set, and it fails before anything is written to that path. A failure half-way through a write, which would leave partial contents, is not modelled.
- Path normalisation by `Path(…)` and `str(…)` is not modelled. Files and manifest paths are keyed by the plain strings `prefix + ".srt"` and so on, so `a//b` is not the same key as `a/b`.
- `exists()` is modelled as "the path is a key of the file map". Directories and symbolic links are not modelled.
- Paths.Name: only `/` separates path components, as on POSIX. On Windows `pathlib` also splits at `\`, so there `videos\demo.mp4` has the name `demo.mp4`, while this model gives `videos\demo.mp4`.
- Paths.OutPrefix: newer Python versions raise `ValueError` when the stem is `.` (a name such as `..mp4`); the model returns `.` as the prefix instead.
- The `model_name`, `language`, `task`, `device`, `compute_type`, `vad` and `threads` arguments (transcribe.py:19-25) and the `beam_size` and `best_of` arguments (transcribe.py:27-28) only configure the engine, so they do not appear.
- The command-line wrapper `_cli` (transcribe.py:90-120), its argument checks and exit codes, and `main.py` are not part of this model.
- The line counts in Export.FilesReadBack and Transcribe.ManifestCountsAgree assume that no trimmed text holds a newline. Export.MultiLineTextSplits shows that a text with a newline breaks the count.
