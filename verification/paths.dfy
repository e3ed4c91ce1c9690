/** How `transcribe_file` names its three outputs: the override prefix when
    one is given, otherwise the source's file name without its last suffix
    (pathlib's `with_suffix("").name`), followed by `.srt`, `.vtt`, `.txt`. */
module Paths {
  import opened Wrappers

  /** Python's `s.rfind(c)`: the index of the last `c`, or -1. */
  function RFind(s: string, c: char): (i: int)
    ensures -1 <= i < |s|
    ensures i >= 0 ==> s[i] == c
    ensures forall j :: i < j < |s| ==> s[j] != c
  {
    if s == [] then -1
    else if s[|s| - 1] == c then |s| - 1
    else RFind(s[..|s| - 1], c)
  }

  /** pathlib's `name` of a POSIX path: its last component, where empty
      components (from repeated or trailing slashes) and `.` components do
      not count; "" when no component is left (as for "", "." and "/"). */
  function Name(p: string): (r: string)
    ensures '/' !in r && r != "."
    decreases |p|
  {
    var i := RFind(p, '/');
    var last := p[i + 1..];
    if last != "" && last != "." then last
    else if i < 0 then ""
    else Name(p[..i])
  }

  /** pathlib's `suffix` of a name: from its last `.` on, when that dot is
      neither the first nor the last character; otherwise "". */
  function Suffix(name: string): (r: string)
    ensures r == [] || (|r| >= 2 && r[0] == '.' && '.' !in r[1..])
    ensures |r| < |name| || r == []
    ensures name[|name| - |r|..] == r
  {
    var i := RFind(name, '.');
    if 0 < i < |name| - 1 then name[i..] else ""
  }

  /** The name without its last suffix: what `with_suffix("")` leaves. */
  function Stem(name: string): (r: string)
    ensures name == r + Suffix(name)
    ensures name != [] ==> r != []
  {
    name[..|name| - |Suffix(name)|]
  }

  /** `with_suffix` raises `ValueError` for a path whose name is empty. */
  datatype PathError = EmptyName(path: string)

  /** `out_prefix or src.with_suffix("").name`: a non-empty override wins
      (and then the source's name is never looked at); otherwise the stem of
      the source's name, or the `ValueError` of a source without a name. */
  function OutPrefix(src: string, outPrefix: Option<string>): (r: Result<string, PathError>)
    ensures r.Ok? ==> r.value != ""
    ensures outPrefix.Some? && outPrefix.value != "" ==> r == Ok(outPrefix.value)
    ensures (outPrefix.None? || outPrefix.value == "") ==>
      (r.Err? <==> Name(src) == "") && (r.Ok? ==> r.value + Suffix(Name(src)) == Name(src))
  {
    if outPrefix.Some? && outPrefix.value != "" then Ok(outPrefix.value)
    else if Name(src) == "" then Err(EmptyName(src))
    else Ok(Stem(Name(src)))
  }

  /** The three output paths of one run. */
  datatype OutputPaths = OutputPaths(srt: string, vtt: string, txt: string)

  function PathsFor(prefix: string): (p: OutputPaths)
    ensures p.srt != p.vtt && p.vtt != p.txt && p.srt != p.txt
  {
    var p := OutputPaths(prefix + ".srt", prefix + ".vtt", prefix + ".txt");
    assert p.srt[|prefix| + 1] == 's' && p.vtt[|prefix| + 1] == 'v' && p.txt[|prefix| + 1] == 't';
    p
  }

  /** For a prefix without a slash, the name of an output path is the
      prefix plus its extension, and taking its suffix off gives the prefix
      back. */
  lemma SuffixRoundTrip(prefix: string, ext: string)
    requires prefix != "" && '/' !in prefix
    requires |ext| >= 2 && ext[0] == '.' && '.' !in ext[1..] && '/' !in ext
    ensures Name(prefix + ext) == prefix + ext
    ensures Suffix(prefix + ext) == ext
    ensures Stem(prefix + ext) == prefix
  {
    var p := prefix + ext;
    assert RFind(p, '/') == -1 by {
      forall j | 0 <= j < |p| ensures p[j] != '/' {
        if j < |prefix| { assert p[j] == prefix[j]; }
        else { assert p[j] == ext[j - |prefix|]; }
      }
    }
    assert p[0..] == p;
    assert p[|prefix|] == '.';
    var i := RFind(p, '.');
    assert i == |prefix|;
    assert p[i..] == ext;
  }

  /** Every output path strips back to the prefix. */
  lemma OutputsStripToPrefix(prefix: string)
    requires prefix != "" && '/' !in prefix
    ensures var p := PathsFor(prefix);
      Stem(Name(p.srt)) == prefix && Stem(Name(p.vtt)) == prefix && Stem(Name(p.txt)) == prefix
  {
    SuffixRoundTrip(prefix, ".srt");
    SuffixRoundTrip(prefix, ".vtt");
    SuffixRoundTrip(prefix, ".txt");
  }

  /** A name with no slash, other than `.`, is its own name. */
  lemma NameSimple(n: string)
    requires n != "" && n != "." && '/' !in n
    ensures Name(n) == n
  {
    assert RFind(n, '/') == -1;
    assert n[0..] == n;
  }

  /** With no override, or an empty one, a source `<stem><ext>` in the
      working directory gets the prefix `<stem>`. */
  lemma DefaultPrefixSimple(stem: string, ext: string)
    requires stem != "" && '/' !in stem
    requires |ext| >= 2 && ext[0] == '.' && '.' !in ext[1..] && '/' !in ext
    ensures OutPrefix(stem + ext, None) == Ok(stem)
    ensures OutPrefix(stem + ext, Some("")) == Ok(stem)
  {
    SuffixRoundTrip(stem, ext);
  }

  /** The default prefix of `demo.mp4`, with no override or an empty one,
      is `demo`; a non-empty override is taken as it is. */
  lemma ExampleDefaultPrefix(src: string)
    requires src == "demo.mp4"
    ensures OutPrefix(src, None) == Ok("demo")
    ensures OutPrefix(src, Some("")) == Ok("demo")
    ensures OutPrefix(src, Some("out/x")) == Ok("out/x")
  {
    assert src == "demo" + ".mp4";
    DefaultPrefixSimple("demo", ".mp4");
  }

  /** A source name without a dot has no suffix, so it is its own
      prefix. */
  lemma PrefixWithoutDot(n: string)
    requires n != "" && '/' !in n && '.' !in n
    ensures OutPrefix(n, None) == Ok(n)
  {
    NameSimple(n);
    var i := RFind(n, '.');
    assert i == -1;
    assert n[..|n|] == n;
  }

  /** `audio`, with no extension, gives the prefix `audio`. */
  lemma ExampleNoExtension(src: string)
    requires src == "audio"
    ensures OutPrefix(src, None) == Ok("audio")
  {
    PrefixWithoutDot(src);
  }

  /** The slash between a directory and a proper component is the last one,
      so the name of `d/n` is `n`, whatever `d` is. */
  lemma NameOfChild(d: string, n: string)
    requires n != "" && n != "." && '/' !in n
    ensures Name(d + "/" + n) == n
  {
    var p := d + "/" + n;
    NoSlashAfter(d, n);
    RFindUnique(p, '/', |d|);
    assert p[|d| + 1..] == n;
  }

  /** A trailing slash, or a trailing `/.`, does not change the name. */
  lemma NameIgnoresTrailing(d: string)
    ensures Name(d + "/") == Name(d)
    ensures Name(d + "/.") == Name(d)
  {
    var p := d + "/";
    RFindUnique(p, '/', |d|);
    assert p[..|d|] == d;
    assert p[|d| + 1..] == "";
    var q := d + "/.";
    assert q == d + "/" + ".";
    NoSlashAfter(d, ".");
    RFindUnique(q, '/', |d|);
    assert q[..|d|] == d;
    assert q[|d| + 1..] == ".";
  }

  /** In `d/n`, with no slash in `n`, nothing after `d` is a slash but the
      separator. */
  lemma NoSlashAfter(d: string, n: string)
    requires '/' !in n
    ensures var p := d + "/" + n;
      p[|d|] == '/' && forall j :: |d| < j < |p| ==> p[j] != '/'
  {
    var p := d + "/" + n;
    forall j | |d| < j < |p| ensures p[j] != '/' {
      assert p[j] == n[j - |d| - 1];
    }
  }

  /** A position holding `c` with no `c` after it is what `RFind` finds. */
  lemma RFindUnique(s: string, c: char, k: nat)
    requires k < |s| && s[k] == c
    requires forall j :: k < j < |s| ==> s[j] != c
    ensures RFind(s, c) == k
  {
  }

  /** The default prefix of a source inside a directory is the stem of its
      last component: the directory is dropped. */
  lemma DefaultPrefixOfChild(d: string, stem: string, ext: string)
    requires stem != "" && '/' !in stem
    requires |ext| >= 2 && ext[0] == '.' && '.' !in ext[1..] && '/' !in ext
    ensures OutPrefix(d + "/" + (stem + ext), None) == Ok(stem)
  {
    SuffixRoundTrip(stem, ext);
    assert '/' !in stem + ext by {
      forall j | 0 <= j < |stem + ext| ensures (stem + ext)[j] != '/' {
        if j < |stem| { assert (stem + ext)[j] == stem[j]; }
        else { assert (stem + ext)[j] == ext[j - |stem|]; }
      }
    }
    assert (stem + ext)[|stem|] == '.';
    NameOfChild(d, stem + ext);
  }

  /** `videos/demo.mp4` gives `demo`, so its outputs go to the working
      directory and not next to the source. */
  lemma ExampleNestedPrefix(src: string)
    requires src == "videos/demo.mp4"
    ensures OutPrefix(src, None) == Ok("demo")
  {
    assert src == "videos" + "/" + ("demo" + ".mp4");
    DefaultPrefixOfChild("videos", "demo", ".mp4");
  }

  /** The root has no name, so it has no default prefix. */
  lemma ExampleRootHasNoPrefix()
    ensures OutPrefix("/", None) == Err(EmptyName("/"))
  {
    assert RFind("/", '/') == 0;
    assert "/"[..0] == "";
  }
}
