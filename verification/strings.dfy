/** The parts of Python's `str` that the transcript formatters use: whitespace as
    `str.isspace` defines it, `strip`/`lstrip`/`rstrip`, `split()` with no
    argument, `sep.join(...)`, `startswith`/`endswith`, and the decimal rendering
    of integers (`str(n)` and the `{n:,}` thousands-grouped form). */
module Strings {

  /** `c.isspace()`: the characters CPython treats as whitespace (the same set
      that `\s` matches in a `str` regular expression and that `split()` splits on). */
  predicate IsSpace(c: char) {
    var n := c as int;
    || n == 0x20 || 0x09 <= n <= 0x0D || 0x1C <= n <= 0x1F || n == 0x85 || n == 0xA0
    || n == 0x1680 || 0x2000 <= n <= 0x200A || n == 0x2028 || n == 0x2029
    || n == 0x202F || n == 0x205F || n == 0x3000
  }

  predicate AllSpace(s: string) {
    forall i :: 0 <= i < |s| ==> IsSpace(s[i])
  }

  /** Every character from `lo` up to, not including, `hi` is whitespace. */
  predicate SpacesIn(s: string, lo: int, hi: int)
    requires 0 <= lo <= hi <= |s|
  {
    forall i :: lo <= i < hi ==> IsSpace(s[i])
  }

  predicate NoSpace(s: string) {
    forall i :: 0 <= i < |s| ==> !IsSpace(s[i])
  }

  predicate StartsWith(s: string, prefix: string) {
    |prefix| <= |s| && s[..|prefix|] == prefix
  }

  predicate EndsWith(s: string, suffix: string) {
    |suffix| <= |s| && s[|s| - |suffix|..] == suffix
  }

  lemma EndsWithTrans(s: string, t: string, u: string)
    requires EndsWith(s, t) && EndsWith(t, u)
    ensures EndsWith(s, u)
  {
    assert s[|s| - |u|..] == s[|s| - |t|..][|t| - |u|..];
  }

  /** `s.lstrip()`: drops the leading whitespace and nothing else. */
  function LStrip(s: string): (r: string)
    ensures |r| <= |s| && r == s[|s| - |r|..]
    ensures SpacesIn(s, 0, |s| - |r|)
    ensures r == [] || !IsSpace(r[0])
    ensures r == [] <==> AllSpace(s)
  {
    var k := SpaceRun(s);
    assert AllSpace(s) ==> k == |s|;
    s[k..]
  }

  /** `s.rstrip()`: drops the trailing whitespace and nothing else. */
  function RStrip(s: string): (r: string)
    ensures |r| <= |s| && r == s[..|r|]
    ensures SpacesIn(s, |r|, |s|)
    ensures r == [] || !IsSpace(r[|r| - 1])
    ensures r == [] <==> AllSpace(s)
  {
    var k := TrailingRun(s);
    assert AllSpace(s) ==> k == |s|;
    assert k == |s| ==> s[..0] + s[0..] == s;
    s[..|s| - k]
  }

  /** `s.strip()`: the part of `s` left after dropping whitespace at both
      ends, and only whitespace. */
  function Strip(s: string): (r: string)
    ensures r == [] || (!IsSpace(r[0]) && !IsSpace(r[|r| - 1]))
    ensures r == [] <==> AllSpace(s)
    ensures exists i, j :: 0 <= i <= j <= |s| && r == s[i..j] && AllSpace(s[..i]) && AllSpace(s[j..])
  {
    var l := LStrip(s);
    var r := RStrip(l);
    var i := |s| - |l|;
    assert r == s[i..i + |r|] && AllSpace(s[..i]) && AllSpace(s[i + |r|..]);
    assert AllSpace(l) <==> l == [] by {
      if l != [] {
        assert !IsSpace(l[0]);
      }
    }
    assert r != [] ==> r[0] == l[0];
    r
  }

  /** Strip of a string that has no surrounding whitespace is the string itself. */
  lemma StripTrimmed(s: string)
    requires s == [] || (!IsSpace(s[0]) && !IsSpace(s[|s| - 1]))
    ensures Strip(s) == s
  {
  }

  /** Length of the leading whitespace run. */
  function SpaceRun(s: string): (k: nat)
    ensures k <= |s|
    ensures SpacesIn(s, 0, k)
    ensures k == |s| || !IsSpace(s[k])
  {
    if s == [] || !IsSpace(s[0]) then 0
    else
      1 + SpaceRun(s[1..])
  }

  /** Length of the trailing whitespace run. */
  function TrailingRun(s: string): (k: nat)
    ensures k <= |s|
    ensures SpacesIn(s, |s| - k, |s|)
    ensures k == |s| || !IsSpace(s[|s| - k - 1])
  {
    if s == [] || !IsSpace(s[|s| - 1]) then 0
    else
      1 + TrailingRun(s[..|s| - 1])
  }

  /** Length of the leading run of non-whitespace characters. */
  function WordEnd(s: string): (k: nat)
    ensures k <= |s|
    ensures NoSpace(s[..k])
    ensures k == |s| || IsSpace(s[k])
    ensures s != [] && !IsSpace(s[0]) ==> k > 0
  {
    if s == [] || IsSpace(s[0]) then 0
    else
      var k := 1 + WordEnd(s[1..]);
      assert s[..k] == [s[0]] + s[1..][..k - 1];
      k
  }

  /** `s.split()`: the maximal runs of non-whitespace characters, in order. */
  function Words(s: string): (ws: seq<string>)
    ensures ws == [] <==> AllSpace(s)
    decreases |s|
  {
    var t := LStrip(s);
    if t == [] then []
    else
      var k := WordEnd(t);
      assert !AllSpace(s) by { assert !IsSpace(t[0]); assert t[0] == s[|s| - |t|]; }
      [t[..k]] + Words(t[k..])
  }

  /** Leading whitespace adds one to the length of the leading run. */
  lemma {:induction false} SpaceRunAppend(x: string, y: string)
    requires AllSpace(x)
    ensures SpaceRun(x + y) == |x| + SpaceRun(y)
  {
    if x != [] {
      assert (x + y)[1..] == x[1..] + y;
      SpaceRunAppend(x[1..], y);
    } else {
      assert x + y == y;
    }
  }

  /** Whitespace in front does not change the words. */
  lemma WordsSkip(x: string, y: string)
    requires AllSpace(x)
    ensures Words(x + y) == Words(y)
  {
    SpaceRunAppend(x, y);
    assert LStrip(x + y) == (x + y)[|x| + SpaceRun(y)..] == y[SpaceRun(y)..];
  }

  /** A non-empty string without whitespace is a single word. */
  lemma WordsOfWord(w: string)
    requires w != [] && NoSpace(w)
    ensures Words(w) == [w]
  {
    assert SpaceRun(w) == 0;
    assert LStrip(w) == w;
    var k := WordEnd(w);
    assert k == |w|;
    assert w[..k] == w && w[k..] == [];
  }

  /** A string that opens with a non-whitespace character opens with its
      first word. */
  lemma WordsUnfold(u: string)
    requires u != [] && !IsSpace(u[0])
    ensures WordEnd(u) > 0 && Words(u) == [u[..WordEnd(u)]] + Words(u[WordEnd(u)..])
  {
    assert SpaceRun(u) == 0;
    assert LStrip(u) == u;
  }

  /** Concatenation is associative; stated for any element type so that the
      solver does not look inside the elements. */
  lemma SeqAssoc<T>(a: seq<T>, b: seq<T>, c: seq<T>)
    ensures a + (b + c) == (a + b) + c
  {
  }

  /** The first word ends at the first whitespace character, and nowhere else. */
  lemma {:induction false} WordEndIs(s: string, k: nat)
    requires k <= |s| && NoSpace(s[..k]) && (k == |s| || IsSpace(s[k]))
    ensures WordEnd(s) == k
  {
    if k > 0 {
      assert s[0] == s[..k][0];
      assert s[1..][..k - 1] == s[..k][1..];
      WordEndIs(s[1..], k - 1);
    }
  }

  /** A word followed by nothing or by whitespace is the first of the words. */
  lemma WordsPrefixWord(w: string, v: string)
    requires w != [] && NoSpace(w)
    requires v == [] || IsSpace(v[0])
    ensures Words(w + v) == [w] + Words(v)
  {
    var u := w + v;
    assert u[..|w|] == w && u[|w|..] == v;
    WordEndIs(u, |w|);
    WordsUnfold(u);
  }

  /** A whitespace character separates the words before it from the words
      after it. With `WordsOfWord` this fixes `Words` on every string: each
      one is empty, a single word, or splits at a whitespace character. */
  lemma {:induction false} WordsSplit(a: string, c: char, b: string)
    requires IsSpace(c)
    ensures Words(a + [c] + b) == Words(a) + Words(b)
    decreases |a|
  {
    if AllSpace(a) {
      var x := a + [c];
      assert AllSpace(x);
      SeqAssoc(a, [c], b);
      WordsSkip(x, b);
      assert Words(a) == [];
      assert Words(a) + Words(b) == Words(b);
    } else {
      var t := LStrip(a);
      var j := |a| - |t|;
      var y := t + [c] + b;
      assert a == a[..j] + t;
      assert a + [c] + b == a[..j] + y;
      WordsSkip(a[..j], y);
      WordsSkip(a[..j], t);
      WordsSplitWord(t, c, b);
    }
  }

  /** The step of `WordsSplit` when the text opens with a word. */
  lemma {:induction false} WordsSplitWord(t: string, c: char, b: string)
    requires IsSpace(c) && t != [] && !IsSpace(t[0])
    ensures Words(t + [c] + b) == Words(t) + Words(b)
    decreases |t|, 1
  {
    var k := WordEnd(t);
    var w, r := t[..k], t[k..];
    var x := r + [c] + b;
    assert t == w + r;
    assert t + [c] + b == w + x;
    WordsPrefixWord(w, r);
    WordsPrefixWord(w, x);
    WordsSplit(r, c, b);
    SeqAssoc([w], Words(r), Words(b));
  }

  /** Every word is non-empty and holds no whitespace. */
  lemma {:induction false} WordsShape(s: string)
    ensures forall i :: 0 <= i < |Words(s)| ==> Words(s)[i] != [] && NoSpace(Words(s)[i])
    decreases |s|
  {
    var t := LStrip(s);
    if t != [] {
      var k := WordEnd(t);
      var rest := Words(t[k..]);
      WordsShape(t[k..]);
      assert Words(s) == [t[..k]] + rest;
      forall i | 0 <= i < |Words(s)|
        ensures Words(s)[i] != [] && NoSpace(Words(s)[i])
      {
        if i > 0 {
          assert Words(s)[i] == rest[i - 1];
        }
      }
    }
  }

  /** `sep.join(parts)`. */
  function JoinWith(sep: string, parts: seq<string>): (r: string)
    ensures |parts| == 1 ==> r == parts[0]
  {
    if |parts| == 0 then ""
    else if |parts| == 1 then parts[0]
    else parts[0] + sep + JoinWith(sep, parts[1..])
  }

  /** `"\n".join(lines)`: the text written to the transcript file. */
  function JoinLines(lines: seq<string>): string {
    JoinWith("\n", lines)
  }

  /** `c * n` for a one-character string. */
  function Repeat(c: char, n: nat): (r: string)
    ensures |r| == n && forall i :: 0 <= i < n ==> r[i] == c
  {
    if n == 0 then "" else [c] + Repeat(c, n - 1)
  }

  function DigitChar(d: nat): (c: char)
    requires d < 10
  {
    (48 + d) as char
  }

  predicate IsDigit(c: char) {
    48 <= c as int <= 57
  }

  /** The value of one decimal digit character. */
  function DigitValue(c: char): (d: nat)
    requires IsDigit(c)
    ensures d < 10
  {
    c as int - 48
  }

  /** `str(n)` for a non-negative integer: the shortest decimal numeral. */
  function NatToString(n: nat): (r: string)
    ensures 1 <= |r| && forall i :: 0 <= i < |r| ==> IsDigit(r[i])
    ensures |r| > 1 ==> r[0] != '0'
    ensures n < 10 <==> |r| == 1
  {
    if n < 10 then [DigitChar(n)] else NatToString(n / 10) + [DigitChar(n % 10)]
  }

  /** `int(s)` for a string of decimal digits (leading zeros allowed). */
  function ParseNat(s: string): nat
    requires forall i :: 0 <= i < |s| ==> IsDigit(s[i])
  {
    if s == [] then 0
    else ParseNat(s[..|s| - 1]) * 10 + DigitValue(s[|s| - 1])
  }

  /** Reading back a rendered numeral gives the number: `int(str(n)) == n`. */
  lemma {:induction false} ParseNatToString(n: nat)
    ensures ParseNat(NatToString(n)) == n
  {
    var r := NatToString(n);
    if n >= 10 {
      assert r[..|r| - 1] == NatToString(n / 10);
      ParseNatToString(n / 10);
    }
  }

  /** A leading zero does not change the value read. */
  lemma {:induction false} ParseNatLeadingZero(s: string)
    requires forall i :: 0 <= i < |s| ==> IsDigit(s[i])
    ensures ParseNat("0" + s) == ParseNat(s)
  {
    if s != [] {
      assert ("0" + s)[..|"0" + s| - 1] == "0" + s[..|s| - 1];
      ParseNatLeadingZero(s[..|s| - 1]);
    } else {
      assert ("0" + s)[..0] == [];
    }
  }

  /** The last three digits of `n`, zero padded (`{n % 1000:03d}`). */
  function ThreeDigits(n: nat): (r: string)
    requires n < 1000
    ensures |r| == 3
  {
    [DigitChar(n / 100), DigitChar((n / 10) % 10), DigitChar(n % 10)]
  }

  /** `f"{n:,}"`: the decimal numeral with a comma between every group of three digits. */
  function Grouped(n: nat): (r: string)
    ensures n < 1000 ==> r == NatToString(n)
  {
    if n < 1000 then NatToString(n) else Grouped(n / 1000) + "," + ThreeDigits(n % 1000)
  }

  /** Removing the commas from the grouped numeral and reading it gives back `n`. */
  lemma {:induction false} GroupedValue(n: nat)
    ensures forall i :: 0 <= i < |Ungroup(Grouped(n))| ==> IsDigit(Ungroup(Grouped(n))[i])
    ensures ParseNat(Ungroup(Grouped(n))) == n
  {
    if n < 1000 {
      UngroupNoComma(NatToString(n));
      ParseNatToString(n);
    } else {
      var h := Grouped(n / 1000);
      var t := ThreeDigits(n % 1000);
      GroupedValue(n / 1000);
      UngroupAppend(h, "," + t);
      UngroupAppend(",", t);
      UngroupNoComma(t);
      assert Ungroup(",") == [] by { assert ","[1..] == []; }
      var u := Ungroup(h);
      assert Grouped(n) == h + ("," + t);
      assert Ungroup(Grouped(n)) == u + t;
      ParseNatAppend(u, t);
      ThreeDigitsValue(n % 1000);
      assert Pow10(3) == 1000;
    }
  }

  /** The string without its commas. */
  function Ungroup(s: string): (r: string)
    ensures |r| <= |s|
  {
    if s == [] then [] else (if s[0] == ',' then [] else [s[0]]) + Ungroup(s[1..])
  }

  lemma {:induction false} UngroupAppend(a: string, b: string)
    ensures Ungroup(a + b) == Ungroup(a) + Ungroup(b)
  {
    if a == [] {
      assert a + b == b;
    } else {
      assert (a + b)[1..] == a[1..] + b;
      UngroupAppend(a[1..], b);
    }
  }

  lemma {:induction false} UngroupNoComma(s: string)
    requires forall i :: 0 <= i < |s| ==> IsDigit(s[i])
    ensures Ungroup(s) == s
  {
    if s != [] {
      UngroupNoComma(s[1..]);
    }
  }

  function Pow10(k: nat): (p: nat)
    ensures p >= 1
  {
    if k == 0 then 1 else 10 * Pow10(k - 1)
  }

  lemma ThreeDigitsValue(m: nat)
    requires m < 1000
    ensures ParseNat(ThreeDigits(m)) == m
  {
    var t := ThreeDigits(m);
    var q := m / 10;
    ParseNatThree(t);
    assert DigitValue(t[0]) == q / 10 && DigitValue(t[1]) == q % 10 && DigitValue(t[2]) == m % 10;
    assert q == (q / 10) * 10 + q % 10;
    assert m == q * 10 + m % 10;
  }

  /** The value of a three-digit numeral. */
  lemma ParseNatThree(t: string)
    requires |t| == 3 && IsDigit(t[0]) && IsDigit(t[1]) && IsDigit(t[2])
    ensures ParseNat(t) == (DigitValue(t[0]) * 10 + DigitValue(t[1])) * 10 + DigitValue(t[2])
  {
    var a, b := [t[0]], [t[0], t[1]];
    assert a[..0] == [] && b[..1] == a && t[..2] == b;
    assert ParseNat(a) == DigitValue(t[0]);
    assert ParseNat(b) == DigitValue(t[0]) * 10 + DigitValue(t[1]);
  }

  /** Reading a concatenation of numerals: the left part is shifted by the right part's length. */
  lemma {:induction false} ParseNatAppend(u: string, t: string)
    requires forall i :: 0 <= i < |u| ==> IsDigit(u[i])
    requires forall i :: 0 <= i < |t| ==> IsDigit(t[i])
    ensures ParseNat(u + t) == ParseNat(u) * Pow10(|t|) + ParseNat(t)
    decreases |t|
  {
    if t == [] {
      assert u + t == u;
    } else {
      var t' := t[..|t| - 1];
      assert (u + t)[..|u + t| - 1] == u + t';
      ParseNatAppend(u, t');
      var a := ParseNat(u);
      var b := ParseNat(t');
      var d := DigitValue(t[|t| - 1]);
      assert ParseNat(u + t) == (a * Pow10(|t'|) + b) * 10 + d;
      assert ParseNat(t) == b * 10 + d;
      assert Pow10(|t|) == 10 * Pow10(|t'|);
      ShiftDigit(a, b, Pow10(|t'|), d);
    }
  }

  lemma ShiftDigit(a: int, b: int, p: int, d: int)
    ensures (a * p + b) * 10 + d == a * (10 * p) + (b * 10 + d)
  {
  }
}
