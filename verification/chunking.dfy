/** The paragraph loop shared by both `_format_simple_text` variants
    (audio_processor.py:205-231, audio_processor_refactored.py:444-486): walk the
    pieces of the text in order, skip the blank ones, append the others to the
    pending paragraph, and flush the pending paragraph as soon as a break rule
    holds of it; a non-empty leftover is flushed at the end. The two variants
    differ only in the break rule, which is a parameter here. Pieces are kept as
    they came from the split (unstripped), because both break rules count the
    unstripped lengths. */
module Chunking {
  import opened Common
  import opened Strings

  /** `piece.strip()` is non-empty (by `Strings.Strip`'s contract, exactly when
      the piece is not all whitespace): the piece takes part in a paragraph. */
  predicate NonBlank(piece: string) {
    !AllSpace(piece)
  }

  /** Loop state: the paragraphs flushed so far, and the pending one. */
  datatype Chunks = Chunks(done: seq<seq<string>>, pending: seq<string>)

  /** One loop iteration. */
  function Step(c: Chunks, piece: string, brk: seq<string> -> bool): Chunks {
    if !NonBlank(piece) then c
    else
      var p := c.pending + [piece];
      if brk(p) then Chunks(c.done + [p], []) else Chunks(c.done, p)
  }

  /** The loop over all pieces. */
  function Fold(pieces: seq<string>, brk: seq<string> -> bool, c: Chunks): Chunks
    decreases |pieces|
  {
    if pieces == [] then c else Fold(pieces[1..], brk, Step(c, pieces[0], brk))
  }

  /** The paragraphs emitted, the final leftover included. */
  function Paragraphs(pieces: seq<string>, brk: seq<string> -> bool): seq<seq<string>> {
    var c := Fold(pieces, brk, Chunks([], []));
    if c.pending == [] then c.done else c.done + [c.pending]
  }

  /** No non-empty prefix of `p` (up to `p` itself when `upTo == |p|`) satisfies the break rule. */
  predicate NoEarlyBreak(p: seq<string>, upTo: nat, brk: seq<string> -> bool)
    requires upTo <= |p|
  {
    forall j :: 1 <= j <= upTo ==> !brk(p[..j])
  }

  /** A well-formed paragraph: non-empty, made of non-blank pieces, and the break
      rule did not hold before its last piece was added. */
  predicate Paragraph(p: seq<string>, brk: seq<string> -> bool) {
    && p != []
    && (forall i :: 0 <= i < |p| ==> NonBlank(p[i]))
    && NoEarlyBreak(p, |p| - 1, brk)
  }

  /** The loop invariant: every flushed paragraph is well formed and was flushed
      because its break rule held; the pending paragraph is made of non-blank
      pieces and the rule has not held for any of its prefixes. */
  predicate Inv(c: Chunks, brk: seq<string> -> bool) {
    && (forall i :: 0 <= i < |c.done| ==> Paragraph(c.done[i], brk) && brk(c.done[i]))
    && (forall i :: 0 <= i < |c.pending| ==> NonBlank(c.pending[i]))
    && NoEarlyBreak(c.pending, |c.pending|, brk)
  }

  lemma StepInv(c: Chunks, piece: string, brk: seq<string> -> bool)
    requires Inv(c, brk)
    ensures Inv(Step(c, piece, brk), brk)
  {
    if NonBlank(piece) {
      var p := c.pending + [piece];
      forall j | 1 <= j <= |p| - 1 ensures !brk(p[..j]) {
        assert p[..j] == c.pending[..j];
      }
      assert forall i :: 0 <= i < |p| ==> NonBlank(p[i]);
      if !brk(p) {
        assert p[..|p|] == p;
      }
    }
  }

  lemma StepContent(c: Chunks, piece: string, brk: seq<string> -> bool)
    ensures var c' := Step(c, piece, brk);
      Flatten(c'.done) + c'.pending == Flatten(c.done) + c.pending + Filter([piece], NonBlank)
  {
    assert [piece][1..] == [];
    if NonBlank(piece) {
      var p := c.pending + [piece];
      FlattenAppend(c.done, [p]);
      FlattenSingle(p);
    }
  }

  lemma {:induction false} FoldInv(pieces: seq<string>, brk: seq<string> -> bool, c: Chunks)
    requires Inv(c, brk)
    ensures Inv(Fold(pieces, brk, c), brk)
    decreases |pieces|
  {
    if pieces != [] {
      StepInv(c, pieces[0], brk);
      FoldInv(pieces[1..], brk, Step(c, pieces[0], brk));
    }
  }

  /** The loop loses, adds and reorders nothing: what it has gathered at the
      end is what it started with followed by the non-blank pieces. */
  lemma {:induction false} FoldContent(pieces: seq<string>, brk: seq<string> -> bool, c: Chunks)
    ensures var c' := Fold(pieces, brk, c);
      Flatten(c'.done) + c'.pending == Flatten(c.done) + c.pending + Filter(pieces, NonBlank)
    decreases |pieces|
  {
    if pieces != [] {
      var s := Step(c, pieces[0], brk);
      var before, head, rest := Flatten(c.done) + c.pending, Filter([pieces[0]], NonBlank), Filter(pieces[1..], NonBlank);
      StepContent(c, pieces[0], brk);
      FoldContent(pieces[1..], brk, s);
      assert pieces == [pieces[0]] + pieces[1..];
      FilterAppend([pieces[0]], pieces[1..], NonBlank);
      assert before + head + rest == before + (head + rest);
    }
  }

  /** What the paragraph loop guarantees, for any break rule: the paragraphs hold
      exactly the non-blank pieces, in order, each once; every paragraph is
      well formed; and every paragraph but the last was flushed because its break
      rule held (the last one may be the leftover). */
  lemma ParagraphsSpec(pieces: seq<string>, brk: seq<string> -> bool)
    ensures var ps := Paragraphs(pieces, brk);
      && Flatten(ps) == Filter(pieces, NonBlank)
      && (forall i :: 0 <= i < |ps| ==> Paragraph(ps[i], brk))
      && (forall i :: 0 <= i < |ps| - 1 ==> brk(ps[i]))
  {
    var c := Fold(pieces, brk, Chunks([], []));
    FoldInv(pieces, brk, Chunks([], []));
    FoldContent(pieces, brk, Chunks([], []));
    assert Flatten(c.done) + c.pending == Filter(pieces, NonBlank);
    if c.pending != [] {
      var ps := c.done + [c.pending];
      FlattenAppend(c.done, [c.pending]);
      FlattenSingle(c.pending);
      assert ps[|ps| - 1] == c.pending;
      assert forall i :: 0 <= i < |c.done| ==> ps[i] == c.done[i];
    } else {
      assert Flatten(c.done) + [] == Flatten(c.done);
    }
  }

  /** Total number of characters of the pieces (`char_count` in both loops). */
  function CharCount(p: seq<string>): nat {
    if p == [] then 0 else CharCount(p[..|p| - 1]) + |p[|p| - 1]|
  }

  /** Total number of words of the pieces (`word_count` in the refactored loop). */
  function WordCount(p: seq<string>): nat {
    if p == [] then 0 else WordCount(p[..|p| - 1]) + |Words(p[|p| - 1])|
  }
}
