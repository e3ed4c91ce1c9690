/** The three files `transcribe_file` writes from the one drained segment
    list: the SRT subtitles, the WebVTT subtitles and the plain transcript.
    Each file's text is given as the list of its lines (every line is written
    with a newline after it); the writing loops build the same text block by
    block. */
module Export {
  import opened Wrappers
  import opened Text
  import opened Timestamp
  import opened Segments

  /** `srt_ts(start) --> srt_ts(end)` */
  function SrtTimeLine(s: Segment): string {
    SrtTs(s.start) + " --> " + SrtTs(s.end)
  }

  /** `vtt_ts(start) --> vtt_ts(end)` */
  function VttTimeLine(s: Segment): string {
    VttTs(s.start) + " --> " + VttTs(s.end)
  }

  /** The lines of SRT block number `i`: the index, the time line, the
      stripped text and a blank line. */
  function SrtBlockLines(i: nat, s: Segment): seq<string> {
    [Digits(i), SrtTimeLine(s), Strip(s.text), ""]
  }

  /** The lines of a WebVTT cue: the time line, the stripped text and a blank
      line. */
  function VttBlockLines(s: Segment): seq<string> {
    [VttTimeLine(s), Strip(s.text), ""]
  }

  const VttHeaderLines: seq<string> := ["WEBVTT", ""]

  function Flatten(groups: seq<seq<string>>): seq<string> {
    if groups == [] then [] else groups[0] + Flatten(groups[1..])
  }

  /** One block of lines per segment, in arrival order; `block` is given
      the segment's 1-based position and the segment. */
  function Blocks(segs: seq<Segment>, block: (nat, Segment) -> seq<string>): seq<seq<string>> {
    seq(|segs|, k requires 0 <= k < |segs| => block(k + 1, segs[k]))
  }

  function SrtBlocks(segs: seq<Segment>): seq<seq<string>> {
    Blocks(segs, SrtBlockLines)
  }

  function VttBlocks(segs: seq<Segment>): seq<seq<string>> {
    Blocks(segs, (_, s) => VttBlockLines(s))
  }

  lemma BlocksSnoc(segs: seq<Segment>, block: (nat, Segment) -> seq<string>, i: nat)
    requires i < |segs|
    ensures Blocks(segs[..i + 1], block) == Blocks(segs[..i], block) + [block(i + 1, segs[i])]
  {
    var a, b := Blocks(segs[..i + 1], block), Blocks(segs[..i], block) + [block(i + 1, segs[i])];
    forall k | 0 <= k < |a|
      ensures a[k] == b[k]
    {
      assert segs[..i + 1][k] == segs[k];
      if k < i {
        assert segs[..i][k] == segs[k];
      }
    }
  }

  /** The lines of the `.srt` file: blocks numbered from 1 in arrival order. */
  function SrtLines(segs: seq<Segment>): seq<string> {
    Flatten(SrtBlocks(segs))
  }

  /** The lines of the `.vtt` file: the header, then one cue per segment. */
  function VttLines(segs: seq<Segment>): seq<string> {
    VttHeaderLines + Flatten(VttBlocks(segs))
  }

  /** The lines of the `.txt` file: one stripped text per segment. */
  function TxtLines(segs: seq<Segment>): seq<string> {
    seq(|segs|, k requires 0 <= k < |segs| => Strip(segs[k].text))
  }

  function SrtBody(segs: seq<Segment>): string {
    Join(SrtLines(segs))
  }

  function VttBody(segs: seq<Segment>): string {
    Join(VttLines(segs))
  }

  function TxtBody(segs: seq<Segment>): string {
    Join(TxtLines(segs))
  }

  lemma {:induction false} FlattenAppend(groups: seq<seq<string>>, g: seq<string>)
    ensures Flatten(groups + [g]) == Flatten(groups) + g
  {
    if groups == [] {
      assert groups + [g] == [g];
    } else {
      assert (groups + [g])[0] == groups[0];
      assert (groups + [g])[1..] == groups[1..] + [g];
      FlattenAppend(groups[1..], g);
    }
  }

  predicate Uniform(groups: seq<seq<string>>, w: nat) {
    forall k :: 0 <= k < |groups| ==> |groups[k]| == w
  }

  lemma {:induction false} FlattenLength(groups: seq<seq<string>>, w: nat)
    requires Uniform(groups, w)
    ensures |Flatten(groups)| == w * |groups|
  {
    if groups != [] {
      FlattenLength(groups[1..], w);
      assert w * |groups| == w + w * (|groups| - 1);
    }
  }

  /** Flattening groups that all have `w` lines puts group `k` at positions
      `w * k` up to `w * k + w`. */
  lemma {:induction false} FlattenAt(groups: seq<seq<string>>, w: nat, k: nat)
    requires Uniform(groups, w) && k < |groups|
    ensures w * k + w <= |Flatten(groups)| && Flatten(groups)[w * k..w * k + w] == groups[k]
  {
    FlattenLength(groups, w);
    var rest := Flatten(groups[1..]);
    assert Flatten(groups) == groups[0] + rest;
    if k == 0 {
      assert Flatten(groups)[..w] == groups[0];
    } else {
      FlattenAt(groups[1..], w, k - 1);
      assert w * k == w + w * (k - 1);
      assert Flatten(groups)[w * k..w * k + w] == rest[w * (k - 1)..w * (k - 1) + w];
    }
  }

  /** When every block has `w` lines, the block of segment `k` sits at
      positions `w * k` up to `w * k + w` of the flattened lines. */
  lemma BlockAt(segs: seq<Segment>, block: (nat, Segment) -> seq<string>, w: nat, k: nat)
    requires forall j :: 0 <= j < |segs| ==> |block(j + 1, segs[j])| == w
    requires k < |segs|
    ensures |Flatten(Blocks(segs, block))| == w * |segs|
    ensures w * k + w <= |Flatten(Blocks(segs, block))|
    ensures Flatten(Blocks(segs, block))[w * k..w * k + w] == block(k + 1, segs[k])
  {
    var blocks := Blocks(segs, block);
    forall j | 0 <= j < |blocks|
      ensures |blocks[j]| == w
    {
      assert blocks[j] == block(j + 1, segs[j]);
    }
    FlattenLength(blocks, w);
    FlattenAt(blocks, w, k);
    assert blocks[k] == block(k + 1, segs[k]);
  }

  /** SRT block `k` (counting from 0) is the four lines numbered `k + 1`. */
  lemma SrtBlockAt(segs: seq<Segment>, k: nat)
    requires k < |segs|
    ensures |SrtLines(segs)| == 4 * |segs|
    ensures SrtLines(segs)[4 * k..4 * k + 4] == SrtBlockLines(k + 1, segs[k])
  {
    BlockAt(segs, SrtBlockLines, 4, k);
  }

  /** WebVTT cue `k` follows the two header lines, three lines each. */
  lemma VttBlockAt(segs: seq<Segment>, k: nat)
    requires k < |segs|
    ensures |VttLines(segs)| == 2 + 3 * |segs|
    ensures VttLines(segs)[2 + 3 * k..2 + 3 * k + 3] == VttBlockLines(segs[k])
  {
    VttBlocksUniform(segs);
    HeaderCueAt(VttBlocks(segs), k);
  }

  /** After the two header lines, three-line cue `k` sits at `2 + 3 * k`. */
  lemma HeaderCueAt(blocks: seq<seq<string>>, k: nat)
    requires Uniform(blocks, 3) && k < |blocks|
    ensures |VttHeaderLines + Flatten(blocks)| == 2 + 3 * |blocks|
    ensures (VttHeaderLines + Flatten(blocks))[2 + 3 * k..2 + 3 * k + 3] == blocks[k]
  {
    FlattenLength(blocks, 3);
    FlattenAt(blocks, 3, k);
    HeaderThenBlock(VttHeaderLines, Flatten(blocks), blocks[k], 3 * k);
  }

  /** Every WebVTT cue has three lines, and cue `k` is that of segment `k`. */
  lemma VttBlocksUniform(segs: seq<Segment>)
    ensures |VttBlocks(segs)| == |segs| && Uniform(VttBlocks(segs), 3)
    ensures forall k :: 0 <= k < |segs| ==> VttBlocks(segs)[k] == VttBlockLines(segs[k])
  {
  }

  lemma HeaderThenBlock(h: seq<string>, body: seq<string>, block: seq<string>, i: nat)
    requires |h| == 2 && i + |block| <= |body| && body[i..i + |block|] == block
    ensures (h + body)[2 + i..2 + i + |block|] == block
  {
    assert (h + body)[2 + i..2 + i + |block|] == body[i..i + |block|];
  }

  /** Shapes of the three files and their agreement: the SRT file has four
      lines per segment (an index counting from 1 without gaps, the time line,
      the text and a blank line), the WebVTT file its two header lines and
      three per segment, the transcript one per segment; all three carry the
      same stripped texts in the same order. */
  lemma ExportsAgree(segs: seq<Segment>)
    ensures |SrtLines(segs)| == 4 * |segs|
    ensures |VttLines(segs)| == 2 + 3 * |segs| && VttLines(segs)[..2] == ["WEBVTT", ""]
    ensures |TxtLines(segs)| == |segs|
    ensures forall k :: 0 <= k < |segs| ==>
      SrtLines(segs)[4 * k..4 * k + 4] == [Digits(k + 1), SrtTimeLine(segs[k]), TxtLines(segs)[k], ""]
    ensures forall k :: 0 <= k < |segs| ==>
      VttLines(segs)[2 + 3 * k..2 + 3 * k + 3] == [VttTimeLine(segs[k]), TxtLines(segs)[k], ""]
    ensures forall k :: 0 <= k < |segs| ==> TxtLines(segs)[k] == Strip(segs[k].text)
  {
    FlattenLength(SrtBlocks(segs), 4);
    FlattenLength(VttBlocks(segs), 3);
    forall k | 0 <= k < |segs|
      ensures SrtLines(segs)[4 * k..4 * k + 4] == [Digits(k + 1), SrtTimeLine(segs[k]), TxtLines(segs)[k], ""]
      ensures VttLines(segs)[2 + 3 * k..2 + 3 * k + 3] == [VttTimeLine(segs[k]), TxtLines(segs)[k], ""]
    {
      SrtBlockAt(segs, k);
      VttBlockAt(segs, k);
    }
  }

  /** The two time lines of a segment differ only in the millisecond
      separators: the WebVTT line is the SRT one with the `,` of each
      timestamp turned into `.`. */
  lemma TimeLinesAgree(s: Segment)
    ensures VttTimeLine(s) == ReplaceFirst(SrtTs(s.start), ',', '.') + " --> " + ReplaceFirst(SrtTs(s.end), ',', '.')
  {
    SrtVttDifferInSeparator(s.start);
    SrtVttDifferInSeparator(s.end);
  }

  /** Every line of the three files is free of newlines as long as the
      stripped texts are: the index and time lines never hold one. */
  predicate SingleLineTexts(segs: seq<Segment>) {
    forall k :: 0 <= k < |segs| ==> NoNewline(Strip(segs[k].text))
  }

  predicate AllSingleLines(lines: seq<string>) {
    forall k :: 0 <= k < |lines| ==> NoNewline(lines[k])
  }

  lemma {:induction false} FlattenSingleLines(groups: seq<seq<string>>)
    requires forall k :: 0 <= k < |groups| ==> AllSingleLines(groups[k])
    ensures AllSingleLines(Flatten(groups))
  {
    if groups != [] {
      FlattenSingleLines(groups[1..]);
      assert Flatten(groups) == groups[0] + Flatten(groups[1..]);
    }
  }

  lemma RenderSingle(c: Clock, sep: char)
    requires sep != '\n'
    ensures NoNewline(Render(c, sep))
  {
    FormatIntReadBack(c.h, 2);
    FormatIntReadBack(c.m, 2);
    FormatIntReadBack(c.s, 2);
    FormatIntReadBack(c.ms, 3);
    NumeralExcludes(FormatInt(c.h, 2), '\n');
    NumeralExcludes(FormatInt(c.m, 2), '\n');
    NumeralExcludes(FormatInt(c.s, 2), '\n');
    NumeralExcludes(FormatInt(c.ms, 3), '\n');
  }

  /** Time lines never hold a newline. */
  lemma SrtTimeLineSingle(s: Segment)
    ensures NoNewline(SrtTimeLine(s))
  {
    RenderSingle(Fields(s.start.GetOr(0.0)), ',');
    RenderSingle(Fields(s.end.GetOr(0.0)), ',');
  }

  lemma VttTimeLineSingle(s: Segment)
    ensures NoNewline(VttTimeLine(s))
  {
    RenderSingle(Fields(s.start.GetOr(0.0)), '.');
    RenderSingle(Fields(s.end.GetOr(0.0)), '.');
  }

  lemma SrtBlockSingle(i: nat, s: Segment)
    requires NoNewline(Strip(s.text))
    ensures AllSingleLines(SrtBlockLines(i, s))
  {
    SrtTimeLineSingle(s);
    NumeralExcludes(Digits(i), '\n');
    FourSingle(Digits(i), SrtTimeLine(s), Strip(s.text), "");
  }

  /** Four lines none of which holds a newline. */
  lemma FourSingle(a: string, b: string, c: string, d: string)
    requires NoNewline(a) && NoNewline(b) && NoNewline(c) && NoNewline(d)
    ensures AllSingleLines([a, b, c, d])
  {
  }

  lemma VttBlockSingle(s: Segment)
    requires NoNewline(Strip(s.text))
    ensures AllSingleLines(VttBlockLines(s))
  {
    VttTimeLineSingle(s);
  }

  lemma SrtLinesSingle(segs: seq<Segment>)
    requires SingleLineTexts(segs)
    ensures AllSingleLines(SrtLines(segs))
  {
    var blocks := SrtBlocks(segs);
    forall k | 0 <= k < |blocks|
      ensures AllSingleLines(blocks[k])
    {
      assert blocks[k] == SrtBlockLines(k + 1, segs[k]);
      SrtBlockSingle(k + 1, segs[k]);
    }
    FlattenSingleLines(blocks);
  }

  lemma VttLinesSingle(segs: seq<Segment>)
    requires SingleLineTexts(segs)
    ensures AllSingleLines(VttLines(segs))
  {
    var blocks := VttBlocks(segs);
    forall k | 0 <= k < |blocks|
      ensures AllSingleLines(blocks[k])
    {
      VttBlockSingle(segs[k]);
    }
    FlattenSingleLines(blocks);
    assert AllSingleLines(VttHeaderLines);
    AllSingleLinesAppend(VttHeaderLines, Flatten(blocks));
  }

  lemma AllSingleLinesAppend(a: seq<string>, b: seq<string>)
    requires AllSingleLines(a) && AllSingleLines(b)
    ensures AllSingleLines(a + b)
  {
    forall k | 0 <= k < |a + b|
      ensures NoNewline((a + b)[k])
    {
      if k < |a| {
        assert (a + b)[k] == a[k];
      } else {
        assert (a + b)[k] == b[k - |a|];
      }
    }
  }

  /** Splitting each written file at its newlines gives back exactly the
      lines above, provided no stripped text holds a newline of its own. */
  lemma FilesReadBack(segs: seq<Segment>)
    requires SingleLineTexts(segs)
    ensures Lines(SrtBody(segs)) == SrtLines(segs)
    ensures Lines(VttBody(segs)) == VttLines(segs)
    ensures Lines(TxtBody(segs)) == TxtLines(segs)
  {
    SrtLinesSingle(segs);
    VttLinesSingle(segs);
    LinesJoin(SrtLines(segs));
    LinesJoin(VttLines(segs));
    LinesJoin(TxtLines(segs));
  }

  /** A text with a newline inside breaks the one-line-per-segment shape of
      the transcript: one segment, two lines. */
  lemma MultiLineTextSplits(segs: seq<Segment>)
    requires |segs| == 1 && segs[0].text == "a\nb"
    ensures Lines(TxtBody(segs)) == ["a", "b"]
  {
    var text := segs[0].text;
    assert Strip(text) == text by {
      assert LeadingSpaces(text) == 0;
      assert TrailingSpaces(text) == 0;
    }
    assert TxtLines(segs) == [text];
    assert [text][1..] == [];
    var body := TxtBody(segs);
    assert body == text + "\n" + Join([]);
    assert body == text + "\n";
    JoinTwo("a", "b");
    assert text + "\n" == "a" + "\n" + "b" + "\n";
    assert body == Join(["a", "b"]);
    LinesJoin(["a", "b"]);
  }

  lemma JoinTwo(a: string, b: string)
    ensures Join([a, b]) == a + "\n" + b + "\n"
  {
    assert [a, b][1..] == [b];
    assert [b][1..] == [];
    assert Join([b]) == b + "\n";
    assert a + "\n" + (b + "\n") == a + "\n" + b + "\n";
  }

  /** A written SRT block is the join of its four lines. */
  lemma JoinSrtBlock(a: string, b: string, c: string)
    ensures Join([a, b, c, ""]) == a + "\n" + b + "\n" + c + "\n\n"
  {
    var tail := Join([""]);
    assert tail == "\n" by {
      assert [""][1..] == [];
    }
    assert [a, b, c, ""][1..] == [b, c, ""];
    assert [b, c, ""][1..] == [c, ""];
    assert [c, ""][1..] == [""];
    assert Join([c, ""]) == c + "\n" + "\n";
    assert Join([b, c, ""]) == b + "\n" + (c + "\n" + "\n");
    assert Join([a, b, c, ""]) == a + "\n" + (b + "\n" + (c + "\n" + "\n"));
  }

  /** A written WebVTT cue is the join of its three lines. */
  lemma JoinVttBlock(b: string, c: string)
    ensures Join([b, c, ""]) == b + "\n" + c + "\n\n"
  {
    assert Join([""]) == "\n" by {
      assert [""][1..] == [];
    }
    assert [b, c, ""][1..] == [c, ""];
    assert [c, ""][1..] == [""];
    assert Join([c, ""]) == c + "\n" + "\n";
    assert Join([b, c, ""]) == b + "\n" + (c + "\n" + "\n");
  }

  lemma SrtBodySnoc(segs: seq<Segment>, i: nat)
    requires i < |segs|
    ensures SrtBody(segs[..i + 1]) == SrtBody(segs[..i]) + Join(SrtBlockLines(i + 1, segs[i]))
  {
    BlocksSnoc(segs, SrtBlockLines, i);
    FlattenAppend(SrtBlocks(segs[..i]), SrtBlockLines(i + 1, segs[i]));
    JoinAppend(SrtLines(segs[..i]), SrtBlockLines(i + 1, segs[i]));
  }

  lemma JoinRegroup(h: seq<string>, b0: seq<string>, block: seq<string>)
    ensures Join(h + (b0 + block)) == Join(h + b0) + Join(block)
  {
    assert h + (b0 + block) == (h + b0) + block;
    JoinAppend(h + b0, block);
  }

  lemma VttBodySnoc(segs: seq<Segment>, i: nat)
    requires i < |segs|
    ensures VttBody(segs[..i + 1]) == VttBody(segs[..i]) + Join(VttBlockLines(segs[i]))
  {
    var h := VttHeaderLines;
    var block := VttBlockLines(segs[i]);
    var b0 := Flatten(VttBlocks(segs[..i]));
    var b1 := Flatten(VttBlocks(segs[..i + 1]));
    BlocksSnoc(segs, (_, s) => VttBlockLines(s), i);
    FlattenAppend(VttBlocks(segs[..i]), block);
    assert b1 == b0 + block;
    JoinRegroup(h, b0, block);
  }

  lemma JoinSnoc(lines: seq<string>, x: string)
    ensures Join(lines + [x]) == Join(lines) + x + "\n"
  {
    JoinAppend(lines, [x]);
    assert [x][1..] == [];
  }

  lemma TxtBodySnoc(segs: seq<Segment>, i: nat)
    requires i < |segs|
    ensures TxtBody(segs[..i + 1]) == TxtBody(segs[..i]) + Strip(segs[i].text) + "\n"
  {
    var a, b := TxtLines(segs[..i + 1]), TxtLines(segs[..i]) + [Strip(segs[i].text)];
    forall k | 0 <= k < |a|
      ensures a[k] == b[k]
    {
      assert segs[..i + 1][k] == segs[k];
      if k < i {
        assert segs[..i][k] == segs[k];
      }
    }
    assert a == b;
    JoinSnoc(TxtLines(segs[..i]), Strip(segs[i].text));
  }

  /** The `.srt` writing loop: `f"{i}\n{start} --> {end}\n{text}\n\n"` for
      `i` counting from 1 over the drained segments. */
  method WriteSrt(segs: seq<Segment>) returns (out: string)
    ensures out == SrtBody(segs)
  {
    out := "";
    for i := 0 to |segs|
      invariant out == SrtBody(segs[..i])
    {
      var s := segs[i];
      var timeLine := SrtTs(s.start) + " --> " + SrtTs(s.end);
      var block := Digits(i + 1) + "\n" + timeLine + "\n" + Strip(s.text) + "\n\n";
      SrtBodySnoc(segs, i);
      JoinSrtBlock(Digits(i + 1), timeLine, Strip(s.text));
      out := out + block;
    }
    assert segs[..|segs|] == segs;
  }

  /** The `.vtt` writing: the header `WEBVTT\n\n`, then
      `f"{start} --> {end}\n{text}\n\n"` per segment. */
  method WriteVtt(segs: seq<Segment>) returns (out: string)
    ensures out == VttBody(segs)
  {
    out := "WEBVTT\n\n";
    assert VttBlocks(segs[..0]) == [];
    assert VttLines(segs[..0]) == ["WEBVTT", ""];
    assert Join(["WEBVTT", ""]) == "WEBVTT\n\n" by {
      assert ["WEBVTT", ""][1..] == [""];
    }
    for i := 0 to |segs|
      invariant out == VttBody(segs[..i])
    {
      var s := segs[i];
      var timeLine := VttTs(s.start) + " --> " + VttTs(s.end);
      var block := timeLine + "\n" + Strip(s.text) + "\n\n";
      VttBodySnoc(segs, i);
      JoinVttBlock(timeLine, Strip(s.text));
      out := out + block;
    }
    assert segs[..|segs|] == segs;
  }

  /** The `.txt` writing loop: each stripped text and a newline. */
  method WriteTxt(segs: seq<Segment>) returns (out: string)
    ensures out == TxtBody(segs)
  {
    out := "";
    for i := 0 to |segs|
      invariant out == TxtBody(segs[..i])
    {
      TxtBodySnoc(segs, i);
      out := out + Strip(segs[i].text) + "\n";
    }
    assert segs[..|segs|] == segs;
  }

  /** With no segments the subtitle and transcript files are empty and the
      WebVTT file is only its header. */
  lemma EmptyExports()
    ensures SrtBody([]) == "" && TxtBody([]) == "" && VttBody([]) == "WEBVTT\n\n"
  {
    assert SrtBlocks([]) == [];
    assert VttBlocks([]) == [];
    assert TxtLines([]) == [];
    assert VttLines([]) == ["WEBVTT", ""];
    assert ["WEBVTT", ""][1..] == [""];
  }

  /** A two-segment example: the first segment has padding around its
      text. The example lemmas pin their inputs by preconditions rather than
      take literal arguments, which keeps the verifier from evaluating the
      formatters on literals. */
  lemma StripHello(text: string)
    requires text == " Hello "
    ensures Strip(text) == "Hello"
  {
    assert LeadingSpaces(text) == 1;
    assert TrailingSpaces(text[1..]) == 1;
  }

  lemma StripWorld(text: string)
    requires text == "world"
    ensures Strip(text) == "world"
  {
    assert LeadingSpaces(text) == 0;
    assert TrailingSpaces(text) == 0;
  }

  /** The transcript of two segments is their two trimmed texts. */
  lemma TxtBodyOfTwo(segs: seq<Segment>)
    requires |segs| == 2
    ensures TxtBody(segs) == Strip(segs[0].text) + "\n" + Strip(segs[1].text) + "\n"
  {
    var a, b := Strip(segs[0].text), Strip(segs[1].text);
    assert TxtLines(segs) == [a, b];
    JoinTwo(a, b);
  }

  /** The transcript holds one trimmed line per segment. */
  lemma ExampleDemoTxt(segs: seq<Segment>)
    requires |segs| == 2
    requires segs[0] == Segment(Some(0.0), Some(1.25), " Hello ")
    requires segs[1] == Segment(Some(1.25), Some(3.0), "world")
    ensures TxtBody(segs) == "Hello\nworld\n"
  {
    DemoParts1(segs[0]);
    DemoParts2(segs[1]);
    DemoTxtOfTexts(segs);
  }

  /** Two segments trimmed to `Hello` and `world` give `Hello\nworld\n`. */
  lemma DemoTxtOfTexts(segs: seq<Segment>)
    requires |segs| == 2 && Strip(segs[0].text) == "Hello" && Strip(segs[1].text) == "world"
    ensures TxtBody(segs) == "Hello\nworld\n"
  {
    TxtBodyOfTwo(segs);
    assert "Hello" + "\n" + "world" + "\n" == "Hello\nworld\n";
  }

  /** The formatted parts of the first demo segment. */
  lemma DemoParts1(s: Segment)
    requires s == Segment(Some(0.0), Some(1.25), " Hello ")
    ensures SrtTimeLine(s) == "00:00:00,000" + " --> " + "00:00:01,250"
    ensures Strip(s.text) == "Hello"
  {
    ExampleZero(s.start.value);
    ExampleQuarter(s.end.value);
    StripHello(s.text);
  }

  /** The formatted parts of the second demo segment. */
  lemma DemoParts2(s: Segment)
    requires s == Segment(Some(1.25), Some(3.0), "world")
    ensures SrtTimeLine(s) == "00:00:01,250" + " --> " + "00:00:03,000"
    ensures Strip(s.text) == "world"
  {
    ExampleQuarter(s.start.value);
    ExampleWhole(s.end.value);
    StripWorld(s.text);
  }

  /** The first two SRT block numbers. */
  lemma BlockNumbers()
    ensures Digits(1) == "1" && Digits(2) == "2"
  {
  }

  lemma DemoBlock1(s: Segment)
    requires s == Segment(Some(0.0), Some(1.25), " Hello ")
    ensures SrtBlockLines(1, s) == ["1", "00:00:00,000" + " --> " + "00:00:01,250", "Hello", ""]
  {
    DemoParts1(s);
    BlockNumbers();
  }

  lemma DemoBlock2(s: Segment)
    requires s == Segment(Some(1.25), Some(3.0), "world")
    ensures SrtBlockLines(2, s) == ["2", "00:00:01,250" + " --> " + "00:00:03,000", "world", ""]
  {
    DemoParts2(s);
    BlockNumbers();
  }

  lemma FlattenTwo(groups: seq<seq<string>>)
    requires |groups| == 2
    ensures Flatten(groups) == groups[0] + groups[1]
  {
    assert groups[1..][1..] == [];
    assert Flatten(groups[1..]) == groups[1] + Flatten([]);
  }

  /** Two segments give two blocks, numbered 1 and 2. */
  lemma BlocksOfTwo(segs: seq<Segment>, block: (nat, Segment) -> seq<string>)
    requires |segs| == 2
    ensures Blocks(segs, block) == [block(1, segs[0]), block(2, segs[1])]
  {
  }

  /** The SRT lines of two segments are their two blocks. */
  lemma SrtLinesOfTwo(segs: seq<Segment>)
    requires |segs| == 2
    ensures SrtLines(segs) == SrtBlockLines(1, segs[0]) + SrtBlockLines(2, segs[1])
  {
    BlocksOfTwo(segs, SrtBlockLines);
    FlattenTwo(SrtBlocks(segs));
  }

  /** The SubRip file holds two numbered blocks, each line of which is
      followed by a newline. */
  lemma ExampleDemoSrt(segs: seq<Segment>)
    requires |segs| == 2
    requires segs[0] == Segment(Some(0.0), Some(1.25), " Hello ")
    requires segs[1] == Segment(Some(1.25), Some(3.0), "world")
    ensures SrtLines(segs) == ["1", "00:00:00,000" + " --> " + "00:00:01,250", "Hello", ""]
                            + ["2", "00:00:01,250" + " --> " + "00:00:03,000", "world", ""]
    ensures SrtBody(segs) == ("1" + "\n" + ("00:00:00,000" + " --> " + "00:00:01,250") + "\n" + "Hello" + "\n\n")
                          + ("2" + "\n" + ("00:00:01,250" + " --> " + "00:00:03,000") + "\n" + "world" + "\n\n")
  {
    SrtLinesOfTwo(segs);
    DemoBlock1(segs[0]);
    DemoBlock2(segs[1]);
    DemoSrtText(SrtLines(segs));
  }

  /** The demo's SubRip lines, joined. */
  lemma DemoSrtText(lines: seq<string>)
    requires lines == ["1", "00:00:00,000" + " --> " + "00:00:01,250", "Hello", ""]
                    + ["2", "00:00:01,250" + " --> " + "00:00:03,000", "world", ""]
    ensures Join(lines) == ("1" + "\n" + ("00:00:00,000" + " --> " + "00:00:01,250") + "\n" + "Hello" + "\n\n")
                         + ("2" + "\n" + ("00:00:01,250" + " --> " + "00:00:03,000") + "\n" + "world" + "\n\n")
  {
    var b1, b2 := ["1", "00:00:00,000" + " --> " + "00:00:01,250", "Hello", ""], ["2", "00:00:01,250" + " --> " + "00:00:03,000", "world", ""];
    JoinAppend(b1, b2);
    JoinSrtBlock("1", "00:00:00,000" + " --> " + "00:00:01,250", "Hello");
    JoinSrtBlock("2", "00:00:01,250" + " --> " + "00:00:03,000", "world");
  }
}
