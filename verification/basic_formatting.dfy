/** `_apply_basic_formatting` of the refactored processor
    (audio_processor_refactored.py:321-405). The text is squeezed and stripped;
    an empty result is returned as is. Otherwise the first letter is
    capitalised, a group of heuristic rewrites (question marks, sentence
    breaks, spacing around punctuation, capitalisation of sentences; lines
    348-385) is applied, a final period is added when the text does not end in
    `.`, `!` or `?`, and a series of clean-up substitutions and a last strip
    follow. The heuristic rewrites are a parameter of the model; everything
    before and after them is modelled as written. */
module BasicFormatting {
  import opened Common
  import opened Strings
  import opened SentenceSplit

  // ---------------------------------------------------------------------------
  // The last non-whitespace character, the property the clean-up keeps.

  /** The last character of `s` that is not whitespace, if any. */
  function LastSolid(s: string): (r: Option<char>)
    ensures r.Some? ==> !IsSpace(r.value)
  {
    if s == [] then None
    else if !IsSpace(s[|s| - 1]) then Some(s[|s| - 1])
    else LastSolid(s[..|s| - 1])
  }

  /** There is no solid character exactly in a blank text. */
  lemma {:induction false} LastSolidNone(s: string)
    ensures LastSolid(s) == None <==> AllSpace(s)
  {
    if s != [] && IsSpace(s[|s| - 1]) {
      LastSolidNone(s[..|s| - 1]);
      assert forall i :: 0 <= i < |s| - 1 ==> s[i] == s[..|s| - 1][i];
    }
  }

  /** The last solid character of a concatenation comes from the right part
      when it has one, and from the left part otherwise. */
  lemma {:induction false} LastSolidAppend(a: string, b: string)
    ensures LastSolid(a + b) == if LastSolid(b).Some? then LastSolid(b) else LastSolid(a)
    decreases |b|
  {
    if b == [] {
      assert a + b == a;
    } else {
      assert (a + b)[..|a + b| - 1] == a + b[..|b| - 1];
      LastSolidAppend(a, b[..|b| - 1]);
    }
  }

  /** Parts with the same last solid characters give concatenations with the
      same last solid character. */
  lemma LastSolidCongruence(a: string, b: string, c: string, d: string)
    requires LastSolid(a) == LastSolid(c) && LastSolid(b) == LastSolid(d)
    ensures LastSolid(a + b) == LastSolid(c + d)
  {
    LastSolidAppend(a, b);
    LastSolidAppend(c, d);
  }

  /** The same, for a text cut in two at `k`. */
  lemma LastSolidSplit(s: string, k: nat)
    requires k <= |s|
    ensures LastSolid(s) == if LastSolid(s[k..]).Some? then LastSolid(s[k..]) else LastSolid(s[..k])
  {
    assert s == s[..k] + s[k..];
    LastSolidAppend(s[..k], s[k..]);
  }

  /** Leading whitespace does not matter. */
  lemma LastSolidSpaces(p: string, s: string)
    requires AllSpace(p)
    ensures LastSolid(p + s) == LastSolid(s)
  {
    LastSolidNone(p);
    LastSolidAppend(p, s);
  }

  // The single steps of the clean-up passes: each replaces the part of the text
  // after a prefix by a text with the same last solid character.

  /** A leading whitespace run has no solid character. */
  lemma LeadingSpacesNone(s: string, k: nat)
    requires k <= |s| && SpacesIn(s, 0, k)
    ensures LastSolid(s[..k]) == None
  {
    assert AllSpace(s[..k]);
    LastSolidNone(s[..k]);
  }

  /** A prefix kept as it is. */
  lemma LastSolidTail(s: string, k: nat, d: string)
    requires k <= |s| && LastSolid(d) == LastSolid(s[k..])
    ensures LastSolid(s[..k] + d) == LastSolid(s)
  {
    LastSolidSplit(s, k);
    LastSolidAppend(s[..k], d);
  }

  /** The first character kept as it is. */
  lemma LastSolidCons(s: string, d: string)
    requires s != [] && LastSolid(d) == LastSolid(s[1..])
    ensures LastSolid([s[0]] + d) == LastSolid(s)
  {
    LastSolidTail(s, 1, d);
    assert s[..1] == [s[0]];
  }

  /** A leading whitespace run replaced by one space. */
  lemma LastSolidRunToSpace(s: string, k: nat, d: string)
    requires k <= |s| && SpacesIn(s, 0, k) && LastSolid(d) == LastSolid(s[k..])
    ensures LastSolid(" " + d) == LastSolid(s)
  {
    LastSolidSplit(s, k);
    LeadingSpacesNone(s, k);
    LastSolidAppend(" ", d);
    assert LastSolid(" ") == None by {
      assert " "[..0] == [];
    }
  }

  /** The first character dropped, when it is whitespace or a solid character
      follows it. */
  lemma LastSolidDropFirst(s: string, d: string)
    requires |s| >= 1 && LastSolid(d) == LastSolid(s[1..])
    requires IsSpace(s[0]) || (|s| >= 2 && !IsSpace(s[1]))
    ensures LastSolid(d) == LastSolid(s)
  {
    LastSolidSplit(s, 1);
    if IsSpace(s[0]) {
      LeadingSpacesNone(s, 1);
    } else {
      LastSolidNone(s[1..]);
      assert s[1..][0] == s[1];
    }
  }

  /** A space put between the first two characters, the second one solid. */
  lemma LastSolidSpread(s: string, d: string)
    requires |s| >= 2 && !IsSpace(s[1]) && LastSolid(d) == LastSolid(s[2..])
    ensures LastSolid([s[0], ' ', s[1]] + d) == LastSolid(s)
  {
    LastSolidSplit(s, 2);
    LastSolidAppend([s[0], ' ', s[1]], d);
    assert LastSolid(s[..2]) == Some(s[1]) by {
      assert s[..2][1] == s[1];
    }
  }

  /** What `strip` leaves ends with the last solid character. */
  lemma StripEndsSolid(s: string)
    ensures LastSolid(s) == None <==> Strip(s) == []
    ensures LastSolid(s).Some? ==> Strip(s)[|Strip(s)| - 1] == LastSolid(s).value
  {
    LastSolidNone(s);
    if LastSolid(s).Some? {
      var l := LStrip(s);
      LStripLastSolid(s);
      LastSolidNone(l);
      RStripLastSolid(l);
    }
  }

  lemma RStripLastSolid(s: string)
    requires !AllSpace(s)
    ensures RStrip(s) != [] && LastSolid(s) == Some(RStrip(s)[|RStrip(s)| - 1])
  {
    var r := RStrip(s);
    assert s == r + s[|r|..];
    assert AllSpace(s[|r|..]);
    LastSolidNone(s[|r|..]);
    LastSolidAppend(r, s[|r|..]);
  }

  lemma LStripLastSolid(s: string)
    ensures LastSolid(LStrip(s)) == LastSolid(s)
  {
    var l := LStrip(s);
    LeadingSpacesNone(s, |s| - |l|);
    LastSolidSplit(s, |s| - |l|);
  }

  // ---------------------------------------------------------------------------
  // Line 334 and line 392: `re.sub(r'\s+', ' ', text)`.

  /** Every whitespace run replaced by a single space. */
  function Squeeze(s: string): (r: string)
    ensures |r| <= |s|
    decreases |s|
  {
    if s == [] then []
    else if IsSpace(s[0]) then
      var k := SpaceRun(s);
      " " + Squeeze(s[k..])
    else [s[0]] + Squeeze(s[1..])
  }

  /** The only whitespace left is single spaces: no other whitespace character
      and never two in a row. */
  predicate SingleSpaced(s: string) {
    forall i :: 0 <= i < |s| && IsSpace(s[i]) ==> s[i] == ' ' && (i + 1 == |s| || !IsSpace(s[i + 1]))
  }

  /** The non-whitespace characters of `s`, in order. */
  function Solids(s: string): (r: string)
    ensures NoSpace(r)
  {
    if s == [] then [] else (if IsSpace(s[0]) then [] else [s[0]]) + Solids(s[1..])
  }

  lemma {:induction false} SolidsAppend(a: string, b: string)
    ensures Solids(a + b) == Solids(a) + Solids(b)
  {
    if a == [] {
      assert a + b == b;
    } else {
      assert (a + b)[1..] == a[1..] + b;
      SolidsAppend(a[1..], b);
    }
  }

  lemma {:induction false} SolidsAllSpace(s: string)
    requires AllSpace(s)
    ensures Solids(s) == []
  {
    if s != [] {
      SolidsAllSpace(s[1..]);
    }
  }

  /** Squeezing keeps every non-whitespace character, in order. */
  lemma {:induction false} SqueezeSolids(s: string)
    ensures Solids(Squeeze(s)) == Solids(s)
    decreases |s|
  {
    if s != [] {
      if IsSpace(s[0]) {
        var k := SpaceRun(s);
        var rest := Squeeze(s[k..]);
        SqueezeSolids(s[k..]);
        assert s == s[..k] + s[k..];
        SolidsAppend(s[..k], s[k..]);
        SolidsAllSpace(s[..k]);
        SolidsAppend(" ", rest);
        assert Solids(" ") == [] by { assert " "[1..] == []; }
      } else {
        var rest := Squeeze(s[1..]);
        SqueezeSolids(s[1..]);
        assert s == [s[0]] + s[1..];
        SolidsAppend([s[0]], s[1..]);
        SolidsAppend([s[0]], rest);
      }
    }
  }

  /** Squeezing leaves only single spaces, and starts with whitespace exactly
      when the text does. */
  lemma {:induction false} SqueezeSingleSpaced(s: string)
    ensures SingleSpaced(Squeeze(s))
    ensures Squeeze(s) == [] <==> s == []
    ensures Squeeze(s) != [] ==> (IsSpace(Squeeze(s)[0]) <==> IsSpace(s[0]))
    decreases |s|
  {
    if s != [] {
      if IsSpace(s[0]) {
        var k := SpaceRun(s);
        var rest := Squeeze(s[k..]);
        SqueezeSingleSpaced(s[k..]);
        var r := Squeeze(s);
        assert r == " " + rest;
        forall i | 0 <= i < |r| && IsSpace(r[i]) ensures r[i] == ' ' && (i + 1 == |r| || !IsSpace(r[i + 1])) {
          if i > 0 {
            assert r[i] == rest[i - 1];
            if i + 1 < |r| {
              assert r[i + 1] == rest[i];
            }
          } else if |r| > 1 {
            assert r[1] == rest[0];
            assert s[k..][0] == s[k];
          }
        }
      } else {
        var rest := Squeeze(s[1..]);
        SqueezeSingleSpaced(s[1..]);
        var r := Squeeze(s);
        assert r == [s[0]] + rest;
        forall i | 0 <= i < |r| && IsSpace(r[i]) ensures r[i] == ' ' && (i + 1 == |r| || !IsSpace(r[i + 1])) {
          assert r[i] == rest[i - 1];
          if i + 1 < |r| {
            assert r[i + 1] == rest[i];
          }
        }
      }
    }
  }

  /** Squeezing keeps the last solid character. */
  lemma {:induction false} SqueezeLastSolid(s: string)
    ensures LastSolid(Squeeze(s)) == LastSolid(s)
    decreases |s|
  {
    if s != [] {
      if IsSpace(s[0]) {
        var k := SpaceRun(s);
        SqueezeLastSolid(s[k..]);
        LastSolidRunToSpace(s, k, Squeeze(s[k..]));
      } else {
        SqueezeLastSolid(s[1..]);
        LastSolidCons(s, Squeeze(s[1..]));
      }
    }
  }

  // ---------------------------------------------------------------------------
  // Line 341: `text[0].upper() + text[1:]`.

  /** `c.upper()` for the Latin letters: ASCII, the Latin-1 letters (`ß`
      becomes `SS`, `ÿ` becomes `Ÿ`, `µ` becomes Greek capital mu); any other
      character is left as it is. */
  function Upper(c: char): (r: string)
    ensures 1 <= |r| <= 2
    ensures 'a' <= c <= 'z' ==> |r| == 1 && 'A' <= r[0] <= 'Z' && r[0] as int - 'A' as int == c as int - 'a' as int
    ensures c as int < 0x80 && !('a' <= c <= 'z') ==> r == [c]
  {
    var n := c as int;
    if 'a' <= c <= 'z' || (0xE0 <= n <= 0xFE && n != 0xF7) then [(n - 32) as char]
    else if n == 0xDF then "SS"
    else if n == 0xFF then [0x178 as char]
    else if n == 0xB5 then [0x39C as char]
    else [c]
  }

  /** Upper-casing twice is upper-casing once: every character `Upper`
      gives stays as it is. */
  lemma UpperIdempotent(c: char)
    ensures forall k :: 0 <= k < |Upper(c)| ==> Upper(Upper(c)[k]) == [Upper(c)[k]]
  {
  }

  /** The first character upper-cased, the rest as it was. */
  function Capitalize(t: string): string
    requires t != []
  {
    Upper(t[0]) + t[1..]
  }

  /** Capitalising changes only the first character, into one or two that
      are already upper case: an ASCII lower-case letter becomes its capital,
      and any other ASCII character stays. */
  lemma CapitalizeSpec(t: string)
    requires t != []
    ensures var r := Capitalize(t);
      && |t| <= |r| <= |t| + 1
      && r[|r| - |t| + 1..] == t[1..]
      && r[..|r| - |t| + 1] == Upper(t[0])
      && (forall k :: 0 <= k < |r| - |t| + 1 ==> Upper(r[k]) == [r[k]])
      && ('a' <= t[0] <= 'z' ==> r[0] as int == t[0] as int - 32)
      && (t[0] as int < 0x80 && !('a' <= t[0] <= 'z') ==> r == t)
  {
    var r := Capitalize(t);
    var u := Upper(t[0]);
    UpperIdempotent(t[0]);
    assert r[..|u|] == u;
    forall k | 0 <= k < |r| - |t| + 1
      ensures Upper(r[k]) == [r[k]]
    {
      assert r[k] == u[k];
    }
  }

  // ---------------------------------------------------------------------------
  // Lines 388-389: a final period unless the text already ends in `.`, `!` or `?`.

  function EnsureStop(t: string): string {
    if t != [] && !(RStrip(t) != [] && IsStop(RStrip(t)[|RStrip(t)| - 1])) then RStrip(t) + "."
    else t
  }

  /** After the check, a non-empty text always ends, apart from trailing
      whitespace, in a stop mark; one that already did is left untouched, and
      the empty text stays empty. */
  lemma EnsureStopSpec(t: string)
    ensures t == [] ==> EnsureStop(t) == []
    ensures t != [] ==> LastSolid(EnsureStop(t)).Some? && IsStop(LastSolid(EnsureStop(t)).value)
    ensures LastSolid(t).Some? && IsStop(LastSolid(t).value) ==> EnsureStop(t) == t
  {
    LastSolidNone(t);
    if !AllSpace(t) {
      RStripLastSolid(t);
    }
    if t != [] && !(RStrip(t) != [] && IsStop(RStrip(t)[|RStrip(t)| - 1])) {
      LastSolidAppend(RStrip(t), ".");
      assert LastSolid(".") == Some('.');
    }
  }

  // ---------------------------------------------------------------------------
  // Lines 393-403: clean-up substitutions.

  /** Marks that are not whitespace, as in the three patterns below. */
  predicate SolidMarks(marks: set<char>) {
    forall c :: c in marks ==> !IsSpace(c)
  }

  /** The whitespace run at the start of `s` (possibly empty) is followed by one
      of the marks. */
  predicate BeforeMark(s: string, marks: set<char>)
    decreases |s|
  {
    s != [] && if IsSpace(s[0]) then BeforeMark(s[1..], marks) else s[0] in marks
  }

  /** The same, through the length of the run. */
  lemma {:induction false} BeforeMarkRun(s: string, marks: set<char>)
    ensures BeforeMark(s, marks) <==> SpaceRun(s) < |s| && s[SpaceRun(s)] in marks
    decreases |s|
  {
    if s != [] && IsSpace(s[0]) {
      BeforeMarkRun(s[1..], marks);
      assert SpaceRun(s) == 1 + SpaceRun(s[1..]);
    }
  }

  /** `re.sub(r'\s+([<marks>])', r'\1', s)`: a whitespace run right before one of
      the marks is removed (lines 393, 399 and 400). Written one character at a
      time: a whitespace character goes when the run it belongs to ends in a
      mark. When the marks are not whitespace, as in all three uses, the greedy
      run cannot give back a character to match the mark, so this is the same
      as removing whole runs. */
  function DropSpaceBefore(s: string, marks: set<char>): (r: string)
    ensures |r| <= |s|
    decreases |s|
  {
    if s == [] then []
    else if IsSpace(s[0]) && BeforeMark(s, marks) then DropSpaceBefore(s[1..], marks)
    else [s[0]] + DropSpaceBefore(s[1..], marks)
  }

  /** No whitespace character directly before a mark. */
  predicate NoSpaceBefore(r: string, marks: set<char>) {
    forall i :: 0 <= i < |r| - 1 ==> !(IsSpace(r[i]) && r[i + 1] in marks)
  }

  /** After the substitution no whitespace is left right before a mark. */
  lemma {:induction false} DropSpaceBeforeClean(s: string, marks: set<char>)
    requires SolidMarks(marks)
    ensures NoSpaceBefore(DropSpaceBefore(s, marks), marks)
    decreases |s|
  {
    if s != [] {
      DropSpaceBeforeClean(s[1..], marks);
      var rest := DropSpaceBefore(s[1..], marks);
      if !(IsSpace(s[0]) && BeforeMark(s, marks)) {
        var r := [s[0]] + rest;
        if IsSpace(s[0]) && |s| > 1 {
          assert !BeforeMark(s[1..], marks);
          assert rest[0] == s[1] by {
            assert s[1..][0] == s[1];
          }
          assert s[1] !in marks;
        }
        forall i | 0 <= i < |r| - 1 ensures !(IsSpace(r[i]) && r[i + 1] in marks) {
          if i > 0 {
            assert r[i] == rest[i - 1] && r[i + 1] == rest[i];
          }
        }
      }
    }
  }

  /** The substitution removes whitespace only. */
  lemma {:induction false} DropSpaceBeforeSolids(s: string, marks: set<char>)
    ensures Solids(DropSpaceBefore(s, marks)) == Solids(s)
    decreases |s|
  {
    if s != [] {
      DropSpaceBeforeSolids(s[1..], marks);
      SolidsAppend([s[0]], s[1..]);
      assert s == [s[0]] + s[1..];
      if !(IsSpace(s[0]) && BeforeMark(s, marks)) {
        SolidsAppend([s[0]], DropSpaceBefore(s[1..], marks));
      }
    }
  }

  /** The punctuation the clean-up looks at: `[.,!?;:]`. */
  predicate IsPunct(c: char) {
    c == '.' || c == ',' || c == '!' || c == '?' || c == ';' || c == ':'
  }

  /** `re.sub(r'([.,!?;:])\1+', r'\1', s)` (line 396): a run of the same
      punctuation mark becomes one mark. Written one character at a time: a
      mark goes when the next character is the same mark. */
  function Dedup(s: string): (r: string)
    ensures |r| <= |s|
    decreases |s|
  {
    if s == [] then []
    else if |s| >= 2 && IsPunct(s[0]) && s[1] == s[0] then Dedup(s[1..])
    else [s[0]] + Dedup(s[1..])
  }

  /** Two copies of the same mark in a row. */
  predicate NoRepeatedPunct(r: string) {
    forall i :: 0 <= i < |r| - 1 ==> !(IsPunct(r[i]) && r[i + 1] == r[i])
  }

  /** Dedup keeps the first character. */
  lemma DedupHead(s: string)
    requires s != []
    ensures Dedup(s) != [] && Dedup(s)[0] == s[0]
    decreases |s|
  {
    if |s| >= 2 && IsPunct(s[0]) && s[1] == s[0] {
      DedupHead(s[1..]);
    }
  }

  /** After the substitution no mark is directly repeated. */
  lemma {:induction false} DedupClean(s: string)
    ensures NoRepeatedPunct(Dedup(s))
    decreases |s|
  {
    if s != [] {
      DedupClean(s[1..]);
      var rest := Dedup(s[1..]);
      if !(|s| >= 2 && IsPunct(s[0]) && s[1] == s[0]) {
        var r := [s[0]] + rest;
        if |s| >= 2 {
          DedupHead(s[1..]);
        }
        forall i | 0 <= i < |r| - 1 ensures !(IsPunct(r[i]) && r[i + 1] == r[i]) {
          if i > 0 {
            assert r[i] == rest[i - 1] && r[i + 1] == rest[i];
          }
        }
      }
    }
  }

  /** `[A-Za-zÀ-ÿ]`. */
  predicate IsLatinLetter(c: char) {
    'A' <= c <= 'Z' || 'a' <= c <= 'z' || 0xC0 <= c as int <= 0xFF
  }

  /** `re.sub(r'([.,!?;:])([A-Za-zÀ-ÿ])', r'\1 \2', s)` (line 403): a space
      between a punctuation mark and a letter that follows it directly. */
  function SpaceAfterPunct(s: string): (r: string)
    ensures |r| >= |s|
    ensures s != [] ==> r != [] && r[0] == s[0]
    decreases |s|
  {
    if s == [] then []
    else if |s| >= 2 && IsPunct(s[0]) && IsLatinLetter(s[1]) then [s[0], ' ', s[1]] + SpaceAfterPunct(s[2..])
    else [s[0]] + SpaceAfterPunct(s[1..])
  }

  /** No punctuation mark is directly followed by a letter. */
  predicate PunctSpaced(s: string) {
    forall i :: 0 <= i < |s| - 1 ==> !(IsPunct(s[i]) && IsLatinLetter(s[i + 1]))
  }

  /** After the substitution no mark touches the letter after it, only spaces
      were added, and a text where no mark touched a letter is left alone. */
  lemma SpaceAfterPunctSpec(s: string)
    ensures PunctSpaced(SpaceAfterPunct(s))
    ensures Solids(SpaceAfterPunct(s)) == Solids(s)
    ensures PunctSpaced(s) ==> SpaceAfterPunct(s) == s
  {
    SpaceAfterPunctSpaced(s);
    SpaceAfterPunctSolids(s);
    if PunctSpaced(s) {
      SpaceAfterPunctKeeps(s);
    }
  }

  lemma {:induction false} SpaceAfterPunctSpaced(s: string)
    ensures PunctSpaced(SpaceAfterPunct(s))
    decreases |s|
  {
    if s == [] {
    } else if |s| >= 2 && IsPunct(s[0]) && IsLatinLetter(s[1]) {
      var rest := SpaceAfterPunct(s[2..]);
      SpaceAfterPunctSpaced(s[2..]);
      var r := [s[0], ' ', s[1]] + rest;
      forall i | 0 <= i < |r| - 1
        ensures !(IsPunct(r[i]) && IsLatinLetter(r[i + 1]))
      {
        if i >= 3 {
          assert r[i] == rest[i - 3] && r[i + 1] == rest[i - 2];
        }
      }
    } else {
      var rest := SpaceAfterPunct(s[1..]);
      SpaceAfterPunctSpaced(s[1..]);
      var r := [s[0]] + rest;
      forall i | 0 <= i < |r| - 1
        ensures !(IsPunct(r[i]) && IsLatinLetter(r[i + 1]))
      {
        if i >= 1 {
          assert r[i] == rest[i - 1] && r[i + 1] == rest[i];
        }
      }
    }
  }

  lemma {:induction false} SpaceAfterPunctSolids(s: string)
    ensures Solids(SpaceAfterPunct(s)) == Solids(s)
    decreases |s|
  {
    if s == [] {
    } else if |s| >= 2 && IsPunct(s[0]) && IsLatinLetter(s[1]) {
      var rest := SpaceAfterPunct(s[2..]);
      SpaceAfterPunctSolids(s[2..]);
      var head: string := [s[0], ' ', s[1]];
      SolidsAppend(head, rest);
      assert s == s[..2] + s[2..];
      SolidsAppend(s[..2], s[2..]);
      assert !IsSpace(s[0]) && !IsSpace(s[1]);
      assert head[1..] == [' ', s[1]] && head[1..][1..] == [s[1]] && [s[1]][1..] == [];
      assert s[..2][1..] == [s[1]];
      assert Solids(head) == [s[0], s[1]] == Solids(s[..2]);
    } else {
      SpaceAfterPunctSolids(s[1..]);
      var r := [s[0]] + SpaceAfterPunct(s[1..]);
      assert r[1..] == SpaceAfterPunct(s[1..]);
    }
  }

  lemma {:induction false} SpaceAfterPunctKeeps(s: string)
    requires PunctSpaced(s)
    ensures SpaceAfterPunct(s) == s
    decreases |s|
  {
    if s != [] {
      forall i | 0 <= i < |s[1..]| - 1
        ensures !(IsPunct(s[1..][i]) && IsLatinLetter(s[1..][i + 1]))
      {
        assert s[1..][i] == s[i + 1] && s[1..][i + 1] == s[i + 2];
      }
      SpaceAfterPunctKeeps(s[1..]);
      assert s == [s[0]] + s[1..];
    }
  }

  /** Lines 392-403 in order. */
  function Tidy(t: string): string {
    var a := Squeeze(t);
    var b := DropSpaceBefore(a, {'.', '!', '?'});
    var c := Dedup(b);
    var d := DropSpaceBefore(c, {','});
    var e := DropSpaceBefore(d, {'.'});
    SpaceAfterPunct(e)
  }

  lemma {:induction false} DropSpaceBeforeLastSolid(s: string, marks: set<char>)
    ensures LastSolid(DropSpaceBefore(s, marks)) == LastSolid(s)
    decreases |s|
  {
    if s != [] {
      DropSpaceBeforeLastSolid(s[1..], marks);
      if IsSpace(s[0]) && BeforeMark(s, marks) {
        LastSolidDropFirst(s, DropSpaceBefore(s[1..], marks));
      } else {
        LastSolidCons(s, DropSpaceBefore(s[1..], marks));
      }
    }
  }

  lemma {:induction false} DedupLastSolid(s: string)
    ensures LastSolid(Dedup(s)) == LastSolid(s)
    decreases |s|
  {
    if s != [] {
      DedupLastSolid(s[1..]);
      if |s| >= 2 && IsPunct(s[0]) && s[1] == s[0] {
        LastSolidDropFirst(s, Dedup(s[1..]));
      } else {
        LastSolidCons(s, Dedup(s[1..]));
      }
    }
  }

  lemma {:induction false} SpaceAfterPunctLastSolid(s: string)
    ensures LastSolid(SpaceAfterPunct(s)) == LastSolid(s)
    decreases |s|
  {
    if s != [] {
      if |s| >= 2 && IsPunct(s[0]) && IsLatinLetter(s[1]) {
        SpaceAfterPunctLastSolid(s[2..]);
        LastSolidSpread(s, SpaceAfterPunct(s[2..]));
      } else {
        SpaceAfterPunctLastSolid(s[1..]);
        LastSolidCons(s, SpaceAfterPunct(s[1..]));
      }
    }
  }

  /** The clean-up never changes the last solid character. */
  lemma TidyLastSolid(t: string)
    ensures LastSolid(Tidy(t)) == LastSolid(t)
  {
    var a := Squeeze(t);
    var b := DropSpaceBefore(a, {'.', '!', '?'});
    var c := Dedup(b);
    var d := DropSpaceBefore(c, {','});
    var e := DropSpaceBefore(d, {'.'});
    SqueezeLastSolid(t);
    DropSpaceBeforeLastSolid(a, {'.', '!', '?'});
    DedupLastSolid(b);
    DropSpaceBeforeLastSolid(c, {','});
    DropSpaceBeforeLastSolid(d, {'.'});
    SpaceAfterPunctLastSolid(e);
  }

  // ---------------------------------------------------------------------------
  // The whole function.

  /** The steps after the rewrites: the final stop, the spacing passes and the
      last strip. */
  function Finish(w: string): string {
    Strip(Tidy(EnsureStop(w)))
  }

  /** `_apply_basic_formatting(text)`, with the heuristic rewrites of lines
      348-385 (question marks, sentence breaks, connector casing and the
      per-sentence capitals) given as `rewrite`. */
  function ApplyBasicFormatting(text: string, rewrite: string -> string): string {
    var t := Strip(Squeeze(text));
    if t == [] then t else Finish(rewrite(Capitalize(t)))
  }

  /** The squeezed, stripped text is empty exactly when the text is blank. */
  lemma SqueezeStripBlank(text: string)
    ensures Strip(Squeeze(text)) == [] <==> AllSpace(text)
  {
    SqueezeLastSolid(text);
    StripEndsSolid(Squeeze(text));
    LastSolidNone(text);
  }

  /** A blank text formats to the empty string. */
  lemma ApplyBasicFormattingBlank(text: string, rewrite: string -> string)
    requires AllSpace(text)
    ensures ApplyBasicFormatting(text, rewrite) == []
  {
    SqueezeStripBlank(text);
  }

  /** A formatted text: no surrounding whitespace, and a `.`, `!` or `?` at the end. */
  predicate Finished(r: string) {
    r != [] && !IsSpace(r[0]) && !IsSpace(r[|r| - 1]) && IsStop(r[|r| - 1])
  }

  /** The result of the last steps is empty exactly when the rewrites returned
      the empty string; otherwise it has no surrounding whitespace and ends in
      `.`, `!` or `?`. */
  lemma FinishSpec(w: string)
    ensures Finish(w) == [] <==> w == []
    ensures Finish(w) != [] ==> Finished(Finish(w))
  {
    var e := EnsureStop(w);
    EnsureStopSpec(w);
    TidyLastSolid(e);
    StripEndsSolid(Tidy(e));
    if w == [] {
      assert Tidy(e) == [];
    }
  }

  /** A text that is not blank has its capitalised squeezed form handed to the
      rewrites, and formats to the empty string exactly when the rewrites
      return the empty string. */
  lemma ApplyBasicFormattingSpec(text: string, rewrite: string -> string)
    requires !AllSpace(text)
    ensures Strip(Squeeze(text)) != []
    ensures ApplyBasicFormatting(text, rewrite) == [] <==> rewrite(Capitalize(Strip(Squeeze(text)))) == []
  {
    SqueezeStripBlank(text);
    var w := rewrite(Capitalize(Strip(Squeeze(text))));
    assert ApplyBasicFormatting(text, rewrite) == Finish(w);
    FinishSpec(w);
  }

  /** Whatever the rewrites do, a non-empty result has no surrounding whitespace
      and ends in `.`, `!` or `?`. */
  lemma ApplyBasicFormattingEnds(text: string, rewrite: string -> string)
    ensures ApplyBasicFormatting(text, rewrite) != [] ==> Finished(ApplyBasicFormatting(text, rewrite))
  {
    var t := Strip(Squeeze(text));
    if t != [] {
      var w := rewrite(Capitalize(t));
      assert ApplyBasicFormatting(text, rewrite) == Finish(w);
      FinishSpec(w);
    }
  }
}
