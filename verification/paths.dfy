/** The POSIX path helpers the pipelines build their file names with:
    `os.path.basename`, `os.path.splitext`, `os.path.join`, and the ASCII part
    of `str.lower` used on extensions. */
module Paths {
  import opened Strings

  /** `os.path.basename(p)`: everything after the last `/`. */
  function Basename(p: string): (r: string)
    ensures |r| <= |p| && r == p[|p| - |r|..]
  {
    if p == [] || p[|p| - 1] == '/' then []
    else
      var r := Basename(p[..|p| - 1]) + [p[|p| - 1]];
      assert p[|p| - |r|..] == p[..|p| - 1][|p| - |r|..] + [p[|p| - 1]];
      r
  }

  /** The base name holds no `/` and is either the whole path or preceded by a `/`. */
  lemma {:induction false} BasenameSpec(p: string)
    ensures EndsWith(p, Basename(p))
    ensures '/' !in Basename(p)
    ensures |Basename(p)| == |p| || p[|p| - |Basename(p)| - 1] == '/'
  {
    if p != [] && p[|p| - 1] != '/' {
      var q := p[..|p| - 1];
      BasenameSpec(q);
      var r := Basename(p);
      assert r == Basename(q) + [p[|p| - 1]];
      assert forall i :: 0 <= i < |r| - 1 ==> r[i] == Basename(q)[i];
      if |r| < |p| {
        assert p[|p| - |r| - 1] == q[|q| - |Basename(q)| - 1];
      }
    }
  }

  /** Index of the last occurrence of `c` in `s`, or -1 (`str.rfind`). */
  function RFind(s: string, c: char): (i: int)
    ensures -1 <= i < |s|
    ensures i >= 0 ==> s[i] == c
    ensures forall j :: i < j < |s| ==> s[j] != c
  {
    if s == [] then -1
    else if s[|s| - 1] == c then |s| - 1
    else RFind(s[..|s| - 1], c)
  }

  /** Some character strictly between positions `lo` and `hi` is not a dot:
      the loop of `genericpath._splitext` that skips leading dots. */
  predicate HasNonDotBetween(p: string, lo: int, hi: int)
    requires -1 <= lo && hi <= |p|
  {
    exists k :: lo < k < hi && p[k] != '.'
  }

  /** A dot that comes after some other character than a dot in the file
      name: the dot `splitext` cuts at, when it is the last one. */
  predicate DotAfterName(b: string) {
    exists i, j :: 0 <= i < j < |b| && b[i] != '.' && b[j] == '.'
  }

  /** `os.path.splitext(p)`: the extension starts at the last dot of the last
      path component, unless that component has only dots before it. */
  function SplitExt(p: string): (r: (string, string))
    ensures r.0 + r.1 == p
    ensures r.1 == [] || (r.1[0] == '.' && '.' !in r.1[1..] && '/' !in r.1)
  {
    var sep := RFind(p, '/');
    var dot := RFind(p, '.');
    if dot > sep && HasNonDotBetween(p, sep, dot) then
      assert p[..dot] + p[dot..] == p;
      (p[..dot], p[dot..])
    else
      (p, [])
  }

  /** The extension is non-empty exactly when the file name has a dot after
      some character that is not a dot; with the ensures of `SplitExt`, it is
      then the part from the last dot on. */
  lemma SplitExtCuts(p: string)
    ensures SplitExt(p).1 != [] <==> DotAfterName(Basename(p))
  {
    BasenameAfterSep(p);
    var sep, dot := RFind(p, '/'), RFind(p, '.');
    if dot > sep && HasNonDotBetween(p, sep, dot) {
      CutHasDot(p, sep, dot);
    } else {
      NoCutNoDot(p, sep, dot);
    }
  }

  /** The base name starts right after the last `/`. */
  lemma BasenameAfterSep(p: string)
    ensures RFind(p, '/') == |p| - |Basename(p)| - 1
  {
    var sep := RFind(p, '/');
    var b := Basename(p);
    var off := |p| - |b|;
    BasenameSpec(p);
  }

  /** A cut after a non-dot puts that character and the dot in the base name. */
  lemma CutHasDot(p: string, sep: int, dot: int)
    requires sep == |p| - |Basename(p)| - 1 && sep < dot < |p| && p[dot] == '.'
    requires HasNonDotBetween(p, sep, dot)
    ensures DotAfterName(Basename(p))
  {
    var b := Basename(p);
    var off := |p| - |b|;
    var k :| sep < k < dot && p[k] != '.';
    assert b[k - off] == p[k] && b[dot - off] == p[dot];
  }

  /** Without a cut, every dot of the base name has only dots before it. */
  lemma NoCutNoDot(p: string, sep: int, dot: int)
    requires sep == |p| - |Basename(p)| - 1 && -1 <= dot < |p|
    requires forall j :: dot < j < |p| ==> p[j] != '.'
    requires !(dot > sep && HasNonDotBetween(p, sep, dot))
    ensures !DotAfterName(Basename(p))
  {
    var b := Basename(p);
    var off := |p| - |b|;
    forall i, j | 0 <= i < j < |b| && b[i] != '.'
      ensures b[j] != '.'
    {
      assert b[i] == p[off + i] && b[j] == p[off + j];
    }
  }

  /** `os.path.join(a, b)` on POSIX: an absolute `b` replaces `a`; otherwise a
      single `/` is inserted unless `a` is empty or already ends with one. */
  function Join(a: string, b: string): (r: string)
    ensures StartsWith(b, "/") ==> r == b
    ensures !StartsWith(b, "/") ==> EndsWith(r, b)
  {
    if StartsWith(b, "/") then b
    else if a == [] || EndsWith(a, "/") then a + b
    else a + "/" + b
  }

  /** Whatever `a` is, the joined path ends with `b`. */
  lemma JoinEnds(a: string, b: string)
    ensures EndsWith(Join(a, b), b)
  {
    if StartsWith(b, "/") {
      assert Join(a, b)[|Join(a, b)| - |b|..] == b;
    }
  }

  /** `os.path.join(parts[0], parts[1], ...)`. */
  function JoinAll(base: string, parts: seq<string>): string
    decreases |parts|
  {
    if parts == [] then base else JoinAll(Join(base, parts[0]), parts[1..])
  }

  lemma JoinAllTwo(base: string, a: string, b: string)
    ensures JoinAll(base, [a, b]) == Join(Join(base, a), b)
  {
    assert [a, b][1..] == [b];
    assert JoinAll(base, [a, b]) == JoinAll(Join(base, a), [b]);
    assert [b][1..] == [];
    assert JoinAll(Join(base, a), [b]) == JoinAll(Join(Join(base, a), b), []);
  }

  /** `str.lower()` on the ASCII letters; other characters are left as they are. */
  function Lower(s: string): (r: string)
    ensures |r| == |s|
  {
    if s == [] then []
    else
      var c := s[0];
      [if 'A' <= c <= 'Z' then (c as int + 32) as char else c] + Lower(s[1..])
  }
}
