/** `transcribe_file`: check that the source exists, derive the output
    prefix, drain the engine's segments (with progress notices), write the
    SRT, VTT and TXT exports in that order, and return the manifest.

    The file system is a map from path to contents plus the set of paths
    that cannot be opened for writing; the engine is the list of segments it
    yields, whether it raises after them, and its run-level info. */
module Transcribe {
  import opened Wrappers
  import opened Text
  import opened Segments
  import opened Export
  import opened Paths

  /** `info.language` and `info.language_probability`; `getattr(…, None)`
      makes each of them optional. */
  datatype Info = Info(language: Option<string>, languageProbability: Option<real>)

  /** One run of the speech engine: the segments its generator yields, in
      order; whether pulling past the last of them raises; and its info. */
  datatype EngineRun = EngineRun(segments: seq<Segment>, faultsAfter: bool, info: Info)

  /** The exceptions `transcribe_file` lets escape. */
  datatype Error =
    | NotFound(path: string)      // FileNotFoundError: the source does not exist
    | InvalidPath(path: string)   // ValueError from `with_suffix` on a nameless source
    | EngineFault                 // the segment generator raised
    | WriteFault(path: string)    // an output could not be opened for writing

  /** The dictionary `transcribe_file` returns. */
  datatype Manifest = Manifest(
    srt: string, vtt: string, txt: string,
    language: Option<string>, languageProbability: Option<real>,
    segmentsCount: nat)

  /** What a run returns or raises, and the files afterwards. */
  datatype Outcome = Outcome(result: Result<Manifest, Error>, files: map<string, string>)

  /** The files on disk. Writing a path replaces its whole contents
      (`open("w")` truncates); a path in `readOnly` cannot be opened. */
  class FileSystem {
    var files: map<string, string>
    const readOnly: set<string>

    constructor (files: map<string, string>, readOnly: set<string>)
      ensures this.files == files && this.readOnly == readOnly
    {
      this.files := files;
      this.readOnly := readOnly;
    }

    /** `Path.exists()`. */
    predicate Exists(path: string)
      reads this
    {
      path in files
    }

    /** Open `path` for writing, write `content`, close it. */
    method WriteText(path: string, content: string) returns (ok: bool)
      modifies this
      ensures ok <==> path !in readOnly
      ensures files == if ok then old(files)[path := content] else old(files)
    {
      if path in readOnly {
        return false;
      }
      files := files[path := content];
      return true;
    }
  }

  /** The paths a run may write, as derived from its arguments. */
  function OutputSet(src: string, outPrefix: Option<string>): set<string> {
    match OutPrefix(src, outPrefix)
    case Ok(prefix) => {PathsFor(prefix).srt, PathsFor(prefix).vtt, PathsFor(prefix).txt}
    case Err(_) => {}
  }

  /** Whether a run gets as far as asking the engine for segments. */
  predicate Started(files: map<string, string>, src: string, outPrefix: Option<string>) {
    src in files && OutPrefix(src, outPrefix).Ok?
  }

  /** The contents of the three exports of one segment list. */
  datatype Exports = Exports(srt: string, vtt: string, txt: string)

  function ExportsOf(segs: seq<Segment>): Exports {
    Exports(SrtBody(segs), VttBody(segs), TxtBody(segs))
  }

  /** The three `with …open("w")` blocks: each output is written in turn,
      and the first one that cannot be opened stops the run (`failed`). */
  datatype Written = Written(failed: Option<string>, files: map<string, string>)

  function WriteOutputs(files: map<string, string>, readOnly: set<string>,
                        p: OutputPaths, e: Exports): Written
  {
    if p.srt in readOnly then Written(Some(p.srt), files)
    else
      var f1 := files[p.srt := e.srt];
      if p.vtt in readOnly then Written(Some(p.vtt), f1)
      else
        var f2 := f1[p.vtt := e.vtt];
        if p.txt in readOnly then Written(Some(p.txt), f2)
        else Written(None, f2[p.txt := e.txt])
  }

  /** The whole run as one function of the files before it. */
  function Run(files: map<string, string>, readOnly: set<string>, src: string,
               outPrefix: Option<string>, engine: EngineRun): Outcome
  {
    if src !in files then Outcome(Err(NotFound(src)), files)
    else match OutPrefix(src, outPrefix)
      case Err(_) => Outcome(Err(InvalidPath(src)), files)
      case Ok(prefix) =>
        if engine.faultsAfter then Outcome(Err(EngineFault), files)
        else
          var p := PathsFor(prefix);
          var w := WriteOutputs(files, readOnly, p, ExportsOf(engine.segments));
          if w.failed.Some? then Outcome(Err(WriteFault(w.failed.value)), w.files)
          else
            Outcome(Ok(Manifest(p.srt, p.vtt, p.txt, engine.info.language,
                                engine.info.languageProbability, |engine.segments|)),
                    w.files)
  }

  /** Writing succeeds exactly when no output is read-only, and then each
      output holds its export; a failed open names a read-only output,
      leaves it as it was, the outputs before it written and the ones after
      it untouched; nothing else changes. */
  lemma WriteOutputsSpec(files: map<string, string>, readOnly: set<string>,
                         p: OutputPaths, e: Exports)
    requires p.srt != p.vtt && p.vtt != p.txt && p.srt != p.txt
    ensures var w := WriteOutputs(files, readOnly, p, e);
      (w.failed.None? <==> {p.srt, p.vtt, p.txt} !! readOnly) &&
      (w.failed.None? ==>
         w.files == files[p.srt := e.srt][p.vtt := e.vtt][p.txt := e.txt] &&
         w.files[p.srt] == e.srt && w.files[p.vtt] == e.vtt && w.files[p.txt] == e.txt) &&
      (w.failed == Some(p.srt) ==>
         p.srt in readOnly && w.files == files) &&
      (w.failed == Some(p.vtt) ==>
         p.srt !in readOnly && p.vtt in readOnly && w.files == files[p.srt := e.srt]) &&
      (w.failed == Some(p.txt) ==>
         p.srt !in readOnly && p.vtt !in readOnly && p.txt in readOnly &&
         w.files == files[p.srt := e.srt][p.vtt := e.vtt]) &&
      (w.failed.Some? ==> w.failed.value in {p.srt, p.vtt, p.txt})
  {
  }

  /** Writing never removes a file and changes none but the outputs. */
  lemma WriteOutputsFrame(files: map<string, string>, readOnly: set<string>,
                          p: OutputPaths, e: Exports)
    ensures var w := WriteOutputs(files, readOnly, p, e);
      files.Keys <= w.files.Keys &&
      forall q :: q != p.srt && q != p.vtt && q != p.txt ==>
        (q in w.files <==> q in files) && (q in files ==> w.files[q] == files[q])
  {
  }

  /** Writing the same exports again changes nothing and fails the same way. */
  lemma WriteOutputsIdempotent(files: map<string, string>, readOnly: set<string>,
                               p: OutputPaths, e: Exports)
    requires p.srt != p.vtt && p.vtt != p.txt && p.srt != p.txt
    ensures var w := WriteOutputs(files, readOnly, p, e);
      WriteOutputs(w.files, readOnly, p, e) == w
  {
    var f1 := files[p.srt := e.srt];
    var f2 := f1[p.vtt := e.vtt];
    var f3 := f2[p.txt := e.txt];
    assert f1[p.srt := e.srt] == f1;
    assert f2[p.srt := e.srt] == f2;
    assert f2[p.vtt := e.vtt] == f2;
    assert f3[p.srt := e.srt] == f3;
    assert f3[p.vtt := e.vtt] == f3;
    assert f3[p.txt := e.txt] == f3;
  }

  /** `transcribe_file(src, out_prefix=…, progress_every=…)` against the
      file system `fs`, with the engine's behaviour given as `engine`.
      Returns the manifest or the exception, and the segment counts at which
      a progress notice was printed. */
  method TranscribeFile(fs: FileSystem, src: string, outPrefix: Option<string>,
                        engine: EngineRun, progressEvery: int)
    returns (r: Result<Manifest, Error>, notices: seq<nat>)
    modifies fs
    ensures Outcome(r, fs.files) == Run(old(fs.files), fs.readOnly, src, outPrefix, engine)
    ensures !Started(old(fs.files), src, outPrefix) ==> notices == []
    ensures Started(old(fs.files), src, outPrefix) ==>
      forall k :: k in notices <==> 1 <= k <= |engine.segments| && NoticeDue(k, progressEvery)
    ensures forall i, j :: 0 <= i < j < |notices| ==> notices[i] < notices[j]
  {
    notices := [];
    if !fs.Exists(src) {
      return Err(NotFound(src)), notices;
    }
    var prefix := OutPrefix(src, outPrefix);
    if prefix.Err? {
      return Err(InvalidPath(src)), notices;
    }
    var p := PathsFor(prefix.value);
    var segs, n;
    segs, n, notices := Drain(engine.segments, progressEvery);
    if engine.faultsAfter {
      return Err(EngineFault), notices;
    }
    var body := WriteSrt(segs);
    var ok := fs.WriteText(p.srt, body);
    if !ok {
      return Err(WriteFault(p.srt)), notices;
    }
    body := WriteVtt(segs);
    ok := fs.WriteText(p.vtt, body);
    if !ok {
      return Err(WriteFault(p.vtt)), notices;
    }
    body := WriteTxt(segs);
    ok := fs.WriteText(p.txt, body);
    if !ok {
      return Err(WriteFault(p.txt)), notices;
    }
    r := Ok(Manifest(p.srt, p.vtt, p.txt, engine.info.language,
                     engine.info.languageProbability, n));
  }

  /** A run fails exactly when the source is missing, it has no name to
      derive a prefix from, the engine raises, or an output cannot be
      opened; on success the manifest names the three outputs of the prefix,
      passes the engine's info through, counts every segment, and each
      output holds its export. */
  lemma RunSucceeds(files: map<string, string>, readOnly: set<string>, src: string,
                    outPrefix: Option<string>, engine: EngineRun)
    ensures var o := Run(files, readOnly, src, outPrefix, engine);
      o.result.Ok? <==>
        Started(files, src, outPrefix) && !engine.faultsAfter &&
        OutputSet(src, outPrefix) !! readOnly
    ensures var o := Run(files, readOnly, src, outPrefix, engine);
      o.result.Ok? ==>
        var m := o.result.value;
        var p := PathsFor(OutPrefix(src, outPrefix).value);
        m.srt == p.srt && m.vtt == p.vtt && m.txt == p.txt &&
        m.language == engine.info.language &&
        m.languageProbability == engine.info.languageProbability &&
        m.segmentsCount == |engine.segments| &&
        m.srt in o.files && o.files[m.srt] == SrtBody(engine.segments) &&
        m.vtt in o.files && o.files[m.vtt] == VttBody(engine.segments) &&
        m.txt in o.files && o.files[m.txt] == TxtBody(engine.segments)
  {
    if Started(files, src, outPrefix) && !engine.faultsAfter {
      var p := PathsFor(OutPrefix(src, outPrefix).value);
      WriteOutputsSpec(files, readOnly, p, ExportsOf(engine.segments));
    }
  }

  /** A run writes nothing but its own three outputs, and the files that
      were there before are still there. */
  lemma RunFrame(files: map<string, string>, readOnly: set<string>, src: string,
                 outPrefix: Option<string>, engine: EngineRun)
    ensures var o := Run(files, readOnly, src, outPrefix, engine);
      files.Keys <= o.files.Keys &&
      forall q :: q !in OutputSet(src, outPrefix) ==>
        (q in o.files <==> q in files) && (q in files ==> o.files[q] == files[q])
  {
    if Started(files, src, outPrefix) && !engine.faultsAfter {
      var p := PathsFor(OutPrefix(src, outPrefix).value);
      WriteOutputsFrame(files, readOnly, p, ExportsOf(engine.segments));
    }
  }

  /** Errors raised before any output is opened leave the files as they
      were; a failed open leaves that output as it was, the outputs before
      it fully written and the ones after it untouched. */
  lemma RunFaults(files: map<string, string>, readOnly: set<string>, src: string,
                  outPrefix: Option<string>, engine: EngineRun)
    ensures var o := Run(files, readOnly, src, outPrefix, engine);
      o.result.Err? && !o.result.error.WriteFault? ==> o.files == files
    ensures var o := Run(files, readOnly, src, outPrefix, engine);
      o.result.Err? && o.result.error.WriteFault? ==>
        var q := o.result.error.path;
        var segs := engine.segments;
        var p := PathsFor(OutPrefix(src, outPrefix).value);
        Started(files, src, outPrefix) && !engine.faultsAfter && q in readOnly &&
        (q == p.srt ==> o.files == files) &&
        (q == p.vtt ==> p.srt !in readOnly && o.files == files[p.srt := SrtBody(segs)]) &&
        (q == p.txt ==> p.srt !in readOnly && p.vtt !in readOnly &&
                        o.files == files[p.srt := SrtBody(segs)][p.vtt := VttBody(segs)])
  {
    if Started(files, src, outPrefix) && !engine.faultsAfter {
      var p := PathsFor(OutPrefix(src, outPrefix).value);
      WriteOutputsSpec(files, readOnly, p, ExportsOf(engine.segments));
    }
  }

  /** Running again with the same arguments gives the same result and the
      same files: outputs are overwritten, never appended to. */
  lemma RunIdempotent(files: map<string, string>, readOnly: set<string>, src: string,
                      outPrefix: Option<string>, engine: EngineRun)
    ensures var o := Run(files, readOnly, src, outPrefix, engine);
      Run(o.files, readOnly, src, outPrefix, engine) == o
  {
    if Started(files, src, outPrefix) && !engine.faultsAfter {
      var p := PathsFor(OutPrefix(src, outPrefix).value);
      var e := ExportsOf(engine.segments);
      WriteOutputsFrame(files, readOnly, p, e);
      WriteOutputsIdempotent(files, readOnly, p, e);
    }
  }

  /** When no segment text spans lines, the manifest's count is the number
      of lines of the TXT output, of SRT blocks and of VTT cues. */
  lemma ManifestCountsAgree(files: map<string, string>, readOnly: set<string>, src: string,
                            outPrefix: Option<string>, engine: EngineRun)
    requires SingleLineTexts(engine.segments)
    ensures var o := Run(files, readOnly, src, outPrefix, engine);
      o.result.Ok? ==>
        var m := o.result.value;
        m.srt in o.files && m.vtt in o.files && m.txt in o.files &&
        |Lines(o.files[m.txt])| == m.segmentsCount &&
        |Lines(o.files[m.srt])| == 4 * m.segmentsCount &&
        |Lines(o.files[m.vtt])| == 2 + 3 * m.segmentsCount
  {
    RunSucceeds(files, readOnly, src, outPrefix, engine);
    FilesReadBack(engine.segments);
    ExportsAgree(engine.segments);
  }

  /** A two-segment example, end to end: `demo.mp4` with no override writes
      `demo.srt`, `demo.vtt` and `demo.txt`, reports two segments, and the
      transcript is the two trimmed texts. */
  lemma ExampleDemoRun(segs: seq<Segment>, files: map<string, string>, src: string)
    requires |segs| == 2
    requires segs[0] == Segment(Some(0.0), Some(1.25), " Hello ")
    requires segs[1] == Segment(Some(1.25), Some(3.0), "world")
    requires src == "demo.mp4" && src in files
    ensures var o := Run(files, {}, src, None, EngineRun(segs, false, Info(Some("en"), None)));
      o.result == Ok(Manifest("demo.srt", "demo.vtt", "demo.txt", Some("en"), None, 2)) &&
      "demo.txt" in o.files && o.files["demo.txt"] == "Hello\nworld\n"
  {
    var engine := EngineRun(segs, false, Info(Some("en"), None));
    ExampleDefaultPrefix(src);
    DemoPaths("demo");
    RunSucceeds(files, {}, src, None, engine);
    ExampleDemoTxt(segs);
  }

  lemma DemoPaths(prefix: string)
    requires prefix == "demo"
    ensures PathsFor(prefix) == OutputPaths("demo.srt", "demo.vtt", "demo.txt")
  {
  }
}
