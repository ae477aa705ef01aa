/** The two regular-expression splits that cut a transcript into pieces before
    the paragraph loop:
    - `re.split(r'[.,]\s+', text)` (audio_processor.py:203): a separator is a
      period or comma followed by a run of whitespace;
    - `re.split(r'(?<=[.!?])\s+', text)` (audio_processor_refactored.py:442): a
      separator is a run of whitespace that follows `.`, `!` or `?`.
    `re.split` scans left to right and takes the leftmost, longest match, so the
    separators never overlap; it drops them and returns the text around them. */
module SentenceSplit {
  import opened Common
  import opened Strings

  /** The pieces and, between consecutive pieces, the separators that were dropped. */
  datatype Split = Split(pieces: seq<string>, seps: seq<string>)

  /** Pieces and separators put back together: `pieces[0] + seps[0] + pieces[1] + ...`. */
  function Interleave(pieces: seq<string>, seps: seq<string>): string
    requires |pieces| == |seps| + 1
  {
    if seps == [] then pieces[0]
    else pieces[0] + seps[0] + Interleave(pieces[1..], seps[1..])
  }

  /** Prepending a character to the first piece prepends it to the whole text. */
  lemma InterleaveCons(c: char, pieces: seq<string>, seps: seq<string>)
    requires |pieces| == |seps| + 1
    ensures Interleave([[c] + pieces[0]] + pieces[1..], seps) == [c] + Interleave(pieces, seps)
  {
    var ps := [[c] + pieces[0]] + pieces[1..];
    assert ps[0] == [c] + pieces[0];
    if seps != [] {
      assert ps[1..] == pieces[1..];
      var rest := Interleave(pieces[1..], seps[1..]);
      assert Interleave(ps, seps) == ([c] + pieces[0]) + seps[0] + rest;
      assert Interleave(pieces, seps) == pieces[0] + seps[0] + rest;
      ConsAppend(c, pieces[0], seps[0], rest);
    }
  }

  /** An empty first piece followed by a separator puts the separator in front. */
  lemma InterleaveSep(sep: string, pieces: seq<string>, seps: seq<string>)
    requires |pieces| == |seps| + 1
    ensures Interleave([""] + pieces, [sep] + seps) == sep + Interleave(pieces, seps)
  {
    var ps, ss := [""] + pieces, [sep] + seps;
    assert ps[0] == "" && ps[1..] == pieces;
    assert ss[0] == sep && ss[1..] == seps;
    assert Interleave(ps, ss) == ps[0] + ss[0] + Interleave(pieces, seps);
    assert "" + sep == sep;
  }

  // ---------------------------------------------------------------------------
  // `[.,]\s+`

  /** Length of the `[.,]\s+` match that starts at the beginning of `s`, or 0. */
  function ClauseMatch(s: string): (m: nat)
    ensures m <= |s|
    ensures m == 0 || m >= 2
  {
    if |s| >= 2 && (s[0] == '.' || s[0] == ',') && IsSpace(s[1]) then 1 + SpaceRun(s[1..]) else 0
  }

  /** The match is the longest separator at the start of `s`: a match is a
      separator whose whitespace cannot be extended, and there is no match
      exactly when no separator starts there. */
  lemma ClauseMatchSpec(s: string)
    ensures var m := ClauseMatch(s);
      m > 0 ==> ClauseSep(s[..m]) && (m == |s| || !IsSpace(s[m]))
    ensures ClauseMatch(s) == 0 <==> forall k :: 2 <= k <= |s| ==> !ClauseSep(s[..k])
  {
    var m := ClauseMatch(s);
    if m > 0 {
      assert s[..m][1..] == s[1..][..m - 1];
      assert ClauseSep(s[..2]);
    } else if |s| >= 2 {
      forall k | 2 <= k <= |s|
        ensures !ClauseSep(s[..k])
      {
        assert s[..k][0] == s[0] && s[..k][1] == s[1];
      }
    }
  }

  /** A separator of the first split: a period or comma, then whitespace only. */
  predicate ClauseSep(sep: string) {
    |sep| >= 2 && (sep[0] == '.' || sep[0] == ',') && AllSpace(sep[1..])
  }

  /** No separator starts anywhere inside the piece. */
  predicate NoClauseSep(piece: string) {
    forall i :: 0 <= i < |piece| ==> ClauseMatch(piece[i..]) == 0
  }

  /** `re.split(r'[.,]\s+', s)`. */
  function SplitClauses(s: string): (r: Split)
    ensures |r.pieces| == |r.seps| + 1
    decreases |s|
  {
    if s == [] then Split([""], [])
    else
      var m := ClauseMatch(s);
      if m > 0 then
        var rest := SplitClauses(s[m..]);
        Split([""] + rest.pieces, [s[..m]] + rest.seps)
      else
        var rest := SplitClauses(s[1..]);
        Split([[s[0]] + rest.pieces[0]] + rest.pieces[1..], rest.seps)
  }

  /** Round-trip step when the text opens with a separator. */
  lemma ClausesSepStep(s: string, m: nat)
    requires s != [] && m == ClauseMatch(s) && m > 0
    requires Interleave(SplitClauses(s[m..]).pieces, SplitClauses(s[m..]).seps) == s[m..]
    ensures Interleave(SplitClauses(s).pieces, SplitClauses(s).seps) == s
  {
    var rest := SplitClauses(s[m..]);
    assert SplitClauses(s) == Split([""] + rest.pieces, [s[..m]] + rest.seps);
    InterleaveSep(s[..m], rest.pieces, rest.seps);
    assert s[..m] + s[m..] == s;
  }

  /** Round-trip step when the text opens with an ordinary character. */
  lemma ClausesCharStep(s: string)
    requires s != [] && ClauseMatch(s) == 0
    requires Interleave(SplitClauses(s[1..]).pieces, SplitClauses(s[1..]).seps) == s[1..]
    ensures Interleave(SplitClauses(s).pieces, SplitClauses(s).seps) == s
  {
    var rest := SplitClauses(s[1..]);
    assert SplitClauses(s) == Split([[s[0]] + rest.pieces[0]] + rest.pieces[1..], rest.seps);
    InterleaveCons(s[0], rest.pieces, rest.seps);
    assert [s[0]] + s[1..] == s;
  }

  /** Putting the dropped separators back between the pieces gives the text back. */
  lemma {:induction false} SplitClausesRoundTrip(s: string)
    ensures Interleave(SplitClauses(s).pieces, SplitClauses(s).seps) == s
    decreases |s|
  {
    if s != [] {
      var m := ClauseMatch(s);
      if m > 0 {
        SplitClausesRoundTrip(s[m..]);
        ClausesSepStep(s, m);
      } else {
        SplitClausesRoundTrip(s[1..]);
        ClausesCharStep(s);
      }
    }
  }

  /** Every dropped separator is a match of `[.,]\s+`. */
  lemma {:induction false} SplitClausesSeps(s: string)
    ensures forall k :: 0 <= k < |SplitClauses(s).seps| ==> ClauseSep(SplitClauses(s).seps[k])
    decreases |s|
  {
    if s != [] {
      var m := ClauseMatch(s);
      if m > 0 {
        SplitClausesSeps(s[m..]);
        assert s[..m][1..] == s[1..][..m - 1];
        var seps := SplitClauses(s).seps;
        assert seps == [s[..m]] + SplitClauses(s[m..]).seps;
        forall k | 0 <= k < |seps| ensures ClauseSep(seps[k]) {
          if k > 0 {
            assert seps[k] == SplitClauses(s[m..]).seps[k - 1];
          }
        }
      } else {
        SplitClausesSeps(s[1..]);
      }
    }
  }

  /** The first piece of the split is a prefix of the text. */
  lemma {:induction false} SplitClausesFirst(s: string)
    ensures StartsWith(s, SplitClauses(s).pieces[0])
    decreases |s|
  {
    if s != [] && ClauseMatch(s) == 0 {
      SplitClausesFirst(s[1..]);
    }
  }

  /** No piece contains a match of `[.,]\s+`: every separator was taken out. */
  lemma {:induction false} SplitClausesPieces(s: string)
    ensures forall k :: 0 <= k < |SplitClauses(s).pieces| ==> NoClauseSep(SplitClauses(s).pieces[k])
    decreases |s|
  {
    if s != [] {
      var m := ClauseMatch(s);
      if m > 0 {
        SplitClausesPieces(s[m..]);
        var rest := SplitClauses(s[m..]);
        var ps := SplitClauses(s).pieces;
        assert ps == [""] + rest.pieces;
        forall k | 0 <= k < |ps| ensures NoClauseSep(ps[k]) {
          if k > 0 {
            assert ps[k] == rest.pieces[k - 1];
          }
        }
      } else {
        var rest := SplitClauses(s[1..]);
        SplitClausesPieces(s[1..]);
        SplitClausesFirst(s[1..]);
        var p0 := [s[0]] + rest.pieces[0];
        forall i | 0 <= i < |p0| ensures ClauseMatch(p0[i..]) == 0 {
          if i > 0 {
            assert p0[i..] == rest.pieces[0][i - 1..];
            assert NoClauseSep(rest.pieces[0]);
          } else if |p0| >= 2 {
            assert p0[1] == s[1];
            assert p0[1..] == rest.pieces[0];
          }
        }
        var ps := SplitClauses(s).pieces;
        assert ps == [p0] + rest.pieces[1..];
        forall k | 0 <= k < |ps| ensures NoClauseSep(ps[k]) {
          if k > 0 {
            assert ps[k] == rest.pieces[k];
          }
        }
      }
    }
  }

  // ---------------------------------------------------------------------------
  // `(?<=[.!?])\s+`

  /** A sentence-ending mark. */
  predicate IsStop(c: char) {
    c == '.' || c == '!' || c == '?'
  }

  /** A separator of the second split: a non-empty whitespace run. */
  predicate SentenceSep(sep: string) {
    sep != [] && AllSpace(sep)
  }

  /** No whitespace inside the piece directly follows a sentence-ending mark. */
  predicate NoSentenceSep(piece: string) {
    forall i :: 1 <= i < |piece| ==> !(IsStop(piece[i - 1]) && IsSpace(piece[i]))
  }

  /** The split of the rest of the text, where `afterStop` tells whether the
      character just before `s` was a sentence-ending mark (the look-behind). */
  function SplitSentencesFrom(s: string, afterStop: bool): (r: Split)
    ensures |r.pieces| == |r.seps| + 1
    decreases |s|
  {
    if s == [] then Split([""], [])
    else if afterStop && IsSpace(s[0]) then
      var k := SpaceRun(s);
      var rest := SplitSentencesFrom(s[k..], false);
      Split([""] + rest.pieces, [s[..k]] + rest.seps)
    else
      var rest := SplitSentencesFrom(s[1..], IsStop(s[0]));
      Split([[s[0]] + rest.pieces[0]] + rest.pieces[1..], rest.seps)
  }

  /** `re.split(r'(?<=[.!?])\s+', s)`. */
  function SplitSentences(s: string): (r: Split)
    ensures |r.pieces| == |r.seps| + 1
  {
    SplitSentencesFrom(s, false)
  }

  /** Putting the dropped whitespace runs back between the sentences gives the text back. */
  lemma {:induction false} SplitSentencesRoundTrip(s: string, afterStop: bool)
    ensures Interleave(SplitSentencesFrom(s, afterStop).pieces, SplitSentencesFrom(s, afterStop).seps) == s
    decreases |s|
  {
    if s != [] {
      if afterStop && IsSpace(s[0]) {
        var k := SpaceRun(s);
        var rest := SplitSentencesFrom(s[k..], false);
        SplitSentencesRoundTrip(s[k..], false);
        InterleaveSep(s[..k], rest.pieces, rest.seps);
        assert s[..k] + s[k..] == s;
      } else {
        var rest := SplitSentencesFrom(s[1..], IsStop(s[0]));
        SplitSentencesRoundTrip(s[1..], IsStop(s[0]));
        InterleaveCons(s[0], rest.pieces, rest.seps);
        assert [s[0]] + s[1..] == s;
      }
    }
  }

  /** Every dropped separator is a non-empty whitespace run. */
  lemma {:induction false} SplitSentencesSeps(s: string, afterStop: bool)
    ensures forall k :: 0 <= k < |SplitSentencesFrom(s, afterStop).seps| ==>
      SentenceSep(SplitSentencesFrom(s, afterStop).seps[k])
    decreases |s|
  {
    if s != [] {
      if afterStop && IsSpace(s[0]) {
        var k := SpaceRun(s);
        SplitSentencesSeps(s[k..], false);
        var rest := SplitSentencesFrom(s[k..], false);
        var seps := SplitSentencesFrom(s, afterStop).seps;
        assert seps == [s[..k]] + rest.seps;
        forall j | 0 <= j < |seps| ensures SentenceSep(seps[j]) {
          if j > 0 {
            assert seps[j] == rest.seps[j - 1];
          }
        }
      } else {
        SplitSentencesSeps(s[1..], IsStop(s[0]));
      }
    }
  }

  /** The first sentence is a prefix of the text, and it is empty when the text
      opens with a separator. */
  lemma {:induction false} SplitSentencesFirst(s: string, afterStop: bool)
    ensures StartsWith(s, SplitSentencesFrom(s, afterStop).pieces[0])
    ensures afterStop && s != [] && IsSpace(s[0]) ==> SplitSentencesFrom(s, afterStop).pieces[0] == []
    decreases |s|
  {
    if s != [] && !(afterStop && IsSpace(s[0])) {
      SplitSentencesFirst(s[1..], IsStop(s[0]));
    }
  }

  /** No sentence contains whitespace right after a sentence-ending mark: every
      such run was taken out as a separator. */
  lemma {:induction false} SplitSentencesPieces(s: string, afterStop: bool)
    ensures forall k :: 0 <= k < |SplitSentencesFrom(s, afterStop).pieces| ==>
      NoSentenceSep(SplitSentencesFrom(s, afterStop).pieces[k])
    decreases |s|
  {
    if s != [] {
      if afterStop && IsSpace(s[0]) {
        var k := SpaceRun(s);
        SplitSentencesPieces(s[k..], false);
        var rest := SplitSentencesFrom(s[k..], false);
        var ps := SplitSentencesFrom(s, afterStop).pieces;
        assert ps == [""] + rest.pieces;
        forall j | 0 <= j < |ps| ensures NoSentenceSep(ps[j]) {
          if j > 0 {
            assert ps[j] == rest.pieces[j - 1];
          }
        }
      } else {
        var rest := SplitSentencesFrom(s[1..], IsStop(s[0]));
        SplitSentencesPieces(s[1..], IsStop(s[0]));
        SplitSentencesFirst(s[1..], IsStop(s[0]));
        var p0 := [s[0]] + rest.pieces[0];
        forall i | 1 <= i < |p0| ensures !(IsStop(p0[i - 1]) && IsSpace(p0[i])) {
          if i > 1 {
            assert NoSentenceSep(rest.pieces[0]);
            assert p0[i - 1] == rest.pieces[0][i - 2] && p0[i] == rest.pieces[0][i - 1];
          } else {
            assert p0[1] == s[1];
          }
        }
        var ps := SplitSentencesFrom(s, afterStop).pieces;
        assert ps == [p0] + rest.pieces[1..];
        forall j | 0 <= j < |ps| ensures NoSentenceSep(ps[j]) {
          if j > 0 {
            assert ps[j] == rest.pieces[j];
          }
        }
      }
    }
  }

  /** The look-behind holds at the end of `p`: its last character is a stop
      mark, or `p` is empty and the character before it (`afterStop`) was one. */
  predicate StopBehind(p: string, afterStop: bool) {
    if p == [] then afterStop else EndsWithStop(p)
  }

  /** The piece ends with a stop mark. */
  predicate EndsWithStop(p: string) {
    p != [] && IsStop(p[|p| - 1])
  }

  /** A piece that follows a separator does not open with whitespace: the
      separator took the whole run. */
  predicate NoLeadingSpace(p: string) {
    p == [] || !IsSpace(p[0])
  }

  /** Every separator follows a stop mark (the look-behind): the piece before
      the first one ends with a stop mark, or is empty after one, and every
      later piece before a separator ends with a stop mark. */
  lemma {:induction false} SplitSentencesStops(s: string, afterStop: bool)
    ensures SplitSentencesFrom(s, afterStop).seps != [] ==>
      StopBehind(SplitSentencesFrom(s, afterStop).pieces[0], afterStop)
    ensures forall k :: 1 <= k < |SplitSentencesFrom(s, afterStop).seps| ==>
      EndsWithStop(SplitSentencesFrom(s, afterStop).pieces[k])
    decreases |s|
  {
    if s != [] {
      var r := SplitSentencesFrom(s, afterStop);
      if afterStop && IsSpace(s[0]) {
        var n := SpaceRun(s);
        var rest := SplitSentencesFrom(s[n..], false);
        SplitSentencesStops(s[n..], false);
        assert r.pieces == [""] + rest.pieces && r.seps == [s[..n]] + rest.seps;
        forall k | 1 <= k < |r.seps| ensures EndsWithStop(r.pieces[k]) {
          assert r.pieces[k] == rest.pieces[k - 1];
        }
      } else {
        var rest := SplitSentencesFrom(s[1..], IsStop(s[0]));
        SplitSentencesStops(s[1..], IsStop(s[0]));
        var p0 := [s[0]] + rest.pieces[0];
        assert r.pieces == [p0] + rest.pieces[1..] && r.seps == rest.seps;
        if r.seps != [] {
          assert p0[|p0| - 1] == if rest.pieces[0] == [] then s[0] else rest.pieces[0][|rest.pieces[0]| - 1];
        }
        forall k | 1 <= k < |r.seps| ensures EndsWithStop(r.pieces[k]) {
          assert r.pieces[k] == rest.pieces[k];
        }
      }
    }
  }

  /** No piece after a separator opens with whitespace: `\s+` is greedy. */
  lemma {:induction false} SplitSentencesGreedy(s: string, afterStop: bool)
    ensures forall j :: 1 <= j < |SplitSentencesFrom(s, afterStop).pieces| ==>
      NoLeadingSpace(SplitSentencesFrom(s, afterStop).pieces[j])
    decreases |s|
  {
    if s != [] {
      var r := SplitSentencesFrom(s, afterStop);
      if afterStop && IsSpace(s[0]) {
        var n := SpaceRun(s);
        var rest := SplitSentencesFrom(s[n..], false);
        SplitSentencesGreedy(s[n..], false);
        SplitSentencesFirst(s[n..], false);
        assert r.pieces == [""] + rest.pieces;
        forall j | 1 <= j < |r.pieces| ensures NoLeadingSpace(r.pieces[j]) {
          assert r.pieces[j] == rest.pieces[j - 1];
          if j == 1 && rest.pieces[0] != [] {
            assert rest.pieces[0][0] == s[n];
          }
        }
      } else {
        var rest := SplitSentencesFrom(s[1..], IsStop(s[0]));
        SplitSentencesGreedy(s[1..], IsStop(s[0]));
        assert r.pieces == [[s[0]] + rest.pieces[0]] + rest.pieces[1..];
        forall j | 1 <= j < |r.pieces| ensures NoLeadingSpace(r.pieces[j]) {
          assert r.pieces[j] == rest.pieces[j];
        }
      }
    }
  }

  /** No piece after a separator of `[.,]\s+` opens with whitespace: the
      separator took the whole run. */
  lemma {:induction false} SplitClausesGreedy(s: string)
    ensures forall j :: 1 <= j < |SplitClauses(s).pieces| ==> NoLeadingSpace(SplitClauses(s).pieces[j])
    decreases |s|
  {
    if s != [] {
      var m := ClauseMatch(s);
      if m > 0 {
        SplitClausesGreedy(s[m..]);
        ClausesGreedySepStep(s, m);
      } else {
        SplitClausesGreedy(s[1..]);
        ClausesGreedyCharStep(s);
      }
    }
  }

  lemma ClausesGreedySepStep(s: string, m: nat)
    requires s != [] && m == ClauseMatch(s) && m > 0
    requires forall j :: 1 <= j < |SplitClauses(s[m..]).pieces| ==> NoLeadingSpace(SplitClauses(s[m..]).pieces[j])
    ensures forall j :: 1 <= j < |SplitClauses(s).pieces| ==> NoLeadingSpace(SplitClauses(s).pieces[j])
  {
    var rest := SplitClauses(s[m..]);
    var ps := SplitClauses(s).pieces;
    SplitClausesFirst(s[m..]);
    assert m == |s| || !IsSpace(s[m]) by {
      if m < |s| {
        assert s[m] == s[1..][m - 1];
      }
    }
    assert ps == [""] + rest.pieces;
    forall j | 1 <= j < |ps| ensures NoLeadingSpace(ps[j]) {
      assert ps[j] == rest.pieces[j - 1];
      if j == 1 && rest.pieces[0] != [] {
        assert rest.pieces[0][0] == s[m];
      }
    }
  }

  lemma ClausesGreedyCharStep(s: string)
    requires s != [] && ClauseMatch(s) == 0
    requires forall j :: 1 <= j < |SplitClauses(s[1..]).pieces| ==> NoLeadingSpace(SplitClauses(s[1..]).pieces[j])
    ensures forall j :: 1 <= j < |SplitClauses(s).pieces| ==> NoLeadingSpace(SplitClauses(s).pieces[j])
  {
    var rest := SplitClauses(s[1..]);
    var ps := SplitClauses(s).pieces;
    assert ps == [[s[0]] + rest.pieces[0]] + rest.pieces[1..];
    forall j | 1 <= j < |ps| ensures NoLeadingSpace(ps[j]) {
      assert ps[j] == rest.pieces[j];
    }
  }

  /** What `re.split(r'(?<=[.!?])\s+', s)` promises, for the whole text: the
      sentences and separators put together give the text back, every separator
      is a whitespace run that directly follows a stop mark and is followed by
      no further whitespace, and no sentence contains a run after a stop mark. */
  lemma SplitSentencesSpec(s: string)
    ensures var r := SplitSentences(s);
      && Interleave(r.pieces, r.seps) == s
      && (forall k :: 0 <= k < |r.seps| ==> SentenceSep(r.seps[k]))
      && (forall k :: 0 <= k < |r.pieces| ==> NoSentenceSep(r.pieces[k]))
      && (forall k :: 0 <= k < |r.seps| ==> EndsWithStop(r.pieces[k]))
      && (forall j :: 1 <= j < |r.pieces| ==> NoLeadingSpace(r.pieces[j]))
  {
    SplitSentencesRoundTrip(s, false);
    SplitSentencesSeps(s, false);
    SplitSentencesPieces(s, false);
    SplitSentencesStops(s, false);
    SplitSentencesGreedy(s, false);
  }

  /** The same for `re.split(r'[.,]\s+', s)`: every separator is a period or
      comma with the whole whitespace run after it. */
  lemma SplitClausesSpec(s: string)
    ensures var r := SplitClauses(s);
      && Interleave(r.pieces, r.seps) == s
      && (forall k :: 0 <= k < |r.seps| ==> ClauseSep(r.seps[k]))
      && (forall k :: 0 <= k < |r.pieces| ==> NoClauseSep(r.pieces[k]))
      && (forall j :: 1 <= j < |r.pieces| ==> NoLeadingSpace(r.pieces[j]))
  {
    SplitClausesRoundTrip(s);
    SplitClausesSeps(s);
    SplitClausesPieces(s);
    SplitClausesGreedy(s);
  }
}
