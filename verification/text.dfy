/** String helpers that Python provides built in: `str.strip()`, `str(n)`,
    the zero-padding format spec `{n:0w}`, and writing a file line by line. */
module Text {

  /** Python's `str.isspace()` for one character: the characters that
      `str.strip()` with no argument removes. */
  predicate IsSpace(c: char) {
    var k := c as int;
    (9 <= k <= 13) || (0x1C <= k <= 0x20) || k == 0x85 || k == 0xA0 || k == 0x1680
    || (0x2000 <= k <= 0x200A) || k == 0x2028 || k == 0x2029 || k == 0x202F
    || k == 0x205F || k == 0x3000
  }

  /** Number of leading whitespace characters of `s`. */
  function LeadingSpaces(s: string): (k: nat)
    ensures k <= |s|
    ensures forall i :: 0 <= i < k ==> IsSpace(s[i])
    ensures k == |s| || !IsSpace(s[k])
  {
    if s != [] && IsSpace(s[0]) then 1 + LeadingSpaces(s[1..]) else 0
  }

  /** Number of trailing whitespace characters of `s`. */
  function TrailingSpaces(s: string): (k: nat)
    ensures k <= |s|
    ensures forall i :: |s| - k <= i < |s| ==> IsSpace(s[i])
    ensures k == |s| || !IsSpace(s[|s| - 1 - k])
  {
    if s != [] && IsSpace(s[|s| - 1]) then 1 + TrailingSpaces(s[..|s| - 1]) else 0
  }

  /** Python's `s.strip()`: the longest infix of `s` that neither starts nor
      ends with whitespace, obtained by dropping whitespace at both ends. */
  function Strip(s: string): (r: string)
    ensures LeadingSpaces(s) + |r| <= |s|
    ensures r == s[LeadingSpaces(s)..LeadingSpaces(s) + |r|]
    ensures forall i :: LeadingSpaces(s) + |r| <= i < |s| ==> IsSpace(s[i])
    ensures r == [] || (!IsSpace(r[0]) && !IsSpace(r[|r| - 1]))
  {
    var rest := s[LeadingSpaces(s)..];
    rest[..|rest| - TrailingSpaces(rest)]
  }

  /** Stripping twice removes nothing more than stripping once. */
  lemma StripIdempotent(s: string)
    ensures Strip(Strip(s)) == Strip(s)
  {
    var r := Strip(s);
    if r != [] {
      assert LeadingSpaces(r) == 0;
      assert TrailingSpaces(r) == 0;
    }
  }

  predicate IsDigit(c: char) {
    '0' <= c <= '9'
  }

  predicate AllDigits(s: string) {
    forall i :: 0 <= i < |s| ==> IsDigit(s[i])
  }

  function DigitChar(d: nat): (c: char)
    requires d < 10
    ensures IsDigit(c) && c as int - '0' as int == d
  {
    ('0' as int + d) as char
  }

  /** Python's `str(n)` for a non-negative integer: its decimal digits,
      without leading zeros. */
  function Digits(n: nat): (r: string)
    ensures 1 <= |r| && AllDigits(r)
    ensures |r| == 1 || r[0] != '0'
    decreases n
  {
    if n < 10 then [DigitChar(n)] else Digits(n / 10) + [DigitChar(n % 10)]
  }

  /** The number a string of decimal digits denotes (leading zeros allowed). */
  function DecValue(s: string): nat
    requires AllDigits(s)
  {
    if s == [] then 0 else DecValue(s[..|s| - 1]) * 10 + (s[|s| - 1] as int - '0' as int)
  }

  /** Reading back the digits of `n` gives `n`. */
  lemma {:induction false} DecValueDigits(n: nat)
    ensures DecValue(Digits(n)) == n
  {
    if n >= 10 {
      var d := Digits(n);
      assert d[..|d| - 1] == Digits(n / 10);
      DecValueDigits(n / 10);
    }
  }

  /** Leading zeros do not change the value of a digit string. */
  lemma {:induction false} DecValueLeadingZero(s: string)
    requires AllDigits(s)
    ensures AllDigits(['0'] + s) && DecValue(['0'] + s) == DecValue(s)
  {
    if s != [] {
      assert (['0'] + s)[..|s|] == ['0'] + s[..|s| - 1];
      DecValueLeadingZero(s[..|s| - 1]);
    }
  }

  /** `n < 10^k` needs at most `k` digits. */
  lemma {:induction false} DigitsLength(n: nat, k: nat)
    requires 1 <= k && n < Pow10(k)
    ensures |Digits(n)| <= k
  {
    if n >= 10 {
      assert Pow10(1) == 10;
      DigitsLength(n / 10, k - 1);
    }
  }

  function Pow10(k: nat): (r: nat)
    ensures r >= 1
  {
    if k == 0 then 1 else 10 * Pow10(k - 1)
  }

  /** `s` padded on the left with '0' to at least `width` characters. */
  function ZeroPad(s: string, width: nat): (r: string)
    ensures |r| == if |s| >= width then |s| else width
  {
    if |s| >= width then s else Zeros(width - |s|) + s
  }

  function Zeros(k: nat): (r: string)
    ensures |r| == k
  {
    seq(k, _ => '0')
  }

  /** Prepending zeros keeps a digit string's value. */
  lemma {:induction false} ZerosValue(k: nat, s: string)
    requires AllDigits(s)
    ensures AllDigits(Zeros(k) + s) && DecValue(Zeros(k) + s) == DecValue(s)
  {
    if k > 0 {
      assert Zeros(k) + s == ['0'] + (Zeros(k - 1) + s);
      ZerosValue(k - 1, s);
      DecValueLeadingZero(Zeros(k - 1) + s);
    } else {
      assert Zeros(k) + s == s;
    }
  }

  lemma ZeroPadValue(s: string, width: nat)
    requires AllDigits(s)
    ensures AllDigits(ZeroPad(s, width)) && DecValue(ZeroPad(s, width)) == DecValue(s)
  {
    if |s| < width {
      ZerosValue(width - |s|, s);
    }
  }

  /** Python's format spec `{n:0<width>}` for an integer: the sign, then the
      digits zero-padded so that sign and digits together fill `width`. */
  function FormatInt(n: int, width: nat): string {
    if n < 0 then "-" + ZeroPad(Digits(-n), if width > 0 then width - 1 else 0)
    else ZeroPad(Digits(n), width)
  }

  /** A formatted integer is made of digits and a sign, is at least `width`
      long when non-negative, and reads back as the number it prints. */
  lemma FormatIntReadBack(n: int, width: nat)
    ensures Numeral(FormatInt(n, width))
    ensures n >= 0 ==> AllDigits(FormatInt(n, width)) && DecValue(FormatInt(n, width)) == n
    ensures n >= 0 ==> |FormatInt(n, width)| >= width
    ensures n < 0 ==> var r := FormatInt(n, width);
      |r| >= 2 && r[0] == '-' && AllDigits(r[1..]) && DecValue(r[1..]) == -n
  {
    if n < 0 {
      var w := if width > 0 then width - 1 else 0;
      assert FormatInt(n, width) == "-" + ZeroPad(Digits(-n), w);
      SignedReadBack(-n, w);
    } else {
      assert FormatInt(n, width) == ZeroPad(Digits(n), width);
      UnsignedReadBack(n, width);
    }
  }

  /** Zero-padded digits of `m` read back as `m`. */
  lemma UnsignedReadBack(m: nat, w: nat)
    ensures var r := ZeroPad(Digits(m), w);
      Numeral(r) && AllDigits(r) && DecValue(r) == m && |r| >= w
  {
    ZeroPadValue(Digits(m), w);
    DecValueDigits(m);
  }

  /** A minus sign before zero-padded digits of `m` reads back as `m`. */
  lemma SignedReadBack(m: nat, w: nat)
    requires m > 0
    ensures var r := "-" + ZeroPad(Digits(m), w);
      Numeral(r) && |r| >= 2 && r[0] == '-' && AllDigits(r[1..]) && DecValue(r[1..]) == m
  {
    var digits := ZeroPad(Digits(m), w);
    ZeroPadValue(Digits(m), w);
    DecValueDigits(m);
    var r := "-" + digits;
    assert r[1..] == digits;
    assert forall i :: 1 <= i < |r| ==> r[i] == digits[i - 1];
  }

  /** The characters of a printed integer: digits and a minus sign. */
  predicate Numeral(s: string) {
    forall i :: 0 <= i < |s| ==> IsDigit(s[i]) || s[i] == '-'
  }

  lemma NumeralExcludes(s: string, c: char)
    requires Numeral(s) && !IsDigit(c) && c != '-'
    ensures c !in s
  {
  }

  /** A non-negative number below `10^width` is written in exactly `width`
      characters. */
  lemma FormatIntWidth(n: int, width: nat)
    requires 0 <= n < Pow10(width) && width >= 1
    ensures |FormatInt(n, width)| == width
  {
    DigitsLength(n, width);
  }

  /** The index of the first `c` in `s`, or `|s|` when there is none. */
  function IndexOf(s: string, c: char): (i: nat)
    ensures i <= |s| && c !in s[..i]
    ensures i < |s| ==> s[i] == c
  {
    if s == [] then 0 else if s[0] == c then 0 else 1 + IndexOf(s[1..], c)
  }

  /** `s` with its first `c` replaced by `d` (unchanged when `s` has no `c`). */
  function ReplaceFirst(s: string, c: char, d: char): (r: string)
    ensures |r| == |s|
    ensures forall i :: 0 <= i < |s| && i != IndexOf(s, c) ==> r[i] == s[i]
    ensures IndexOf(s, c) < |s| ==> r[IndexOf(s, c)] == d
  {
    var k := IndexOf(s, c);
    if k < |s| then s[..k] + [d] + s[k + 1..] else s
  }

  /** The text of a file written as `lines`, each followed by a newline. */
  function Join(lines: seq<string>): string {
    if lines == [] then "" else lines[0] + "\n" + Join(lines[1..])
  }

  lemma {:induction false} JoinAppend(a: seq<string>, b: seq<string>)
    ensures Join(a + b) == Join(a) + Join(b)
  {
    if a == [] {
      assert a + b == b;
    } else {
      assert (a + b)[0] == a[0];
      assert (a + b)[1..] == a[1..] + b;
      JoinAppend(a[1..], b);
    }
  }

  /** The lines of a text: its pieces between newlines; a last piece without
      a newline after it is a line too. */
  function Lines(s: string): seq<string>
    decreases |s|
  {
    if s == [] then []
    else
      var i := IndexOf(s, '\n');
      if i == |s| then [s] else [s[..i]] + Lines(s[i + 1..])
  }

  predicate NoNewline(line: string) {
    '\n' !in line
  }

  /** Splitting a joined text gives its lines back, as long as no line holds a
      newline of its own. */
  lemma {:induction false} LinesJoin(lines: seq<string>)
    requires forall k :: 0 <= k < |lines| ==> NoNewline(lines[k])
    ensures Lines(Join(lines)) == lines
  {
    if lines != [] {
      var s := Join(lines);
      var l := lines[0];
      assert s == l + "\n" + Join(lines[1..]);
      assert s[..|l|] == l;
      assert s[|l|] == '\n';
      IndexOfPrefix(s, l, '\n');
      assert s[|l| + 1..] == Join(lines[1..]);
      LinesJoin(lines[1..]);
    }
  }

  lemma IndexOfPrefix(s: string, prefix: string, c: char)
    requires |prefix| < |s| && s[..|prefix|] == prefix && c !in prefix && s[|prefix|] == c
    ensures IndexOf(s, c) == |prefix|
  {
  }
}
