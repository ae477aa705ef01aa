/** `_format_transcript` of the refactored processor
    (audio_processor_refactored.py:229-319). Segments with an empty stripped
    text are skipped; the others are gathered into blocks. A block closes after
    a segment when more than 30 seconds have passed since the block's first
    segment started, when the next segment starts more than 2 seconds later, or
    when the segment is the last of the list. Each block is written as a
    `[MM:SS - MM:SS]` line, its texts joined by spaces and formatted, and a
    blank line. A summary closes the page.

    As written, a block still open when the loop ends is never written: when
    the last segment's text is empty, the texts gathered since the last break
    are missing from the page (`TrailingEmptySegmentDropsText`). */
module BlockLayout {
  import opened Common
  import opened Strings
  import opened TimeFormat
  import opened Engine
  import opened Layout
  import opened BasicFormatting
  import ParagraphLayout

  /** A written block: the indices of its first and last segments, and the
      stripped texts it gathered. */
  datatype Block = Block(first: nat, last: nat, texts: seq<string>)

  /** Loop state: the blocks written, the texts gathered for the open block and
      the index of the open block's first segment. */
  datatype Grouping = Grouping(done: seq<Block>, pending: seq<string>, open: Option<nat>)

  /** `next_segment_gap`: 0 after the last segment. */
  function Gap(segs: seq<Segment>, i: nat): real
    requires i < |segs|
  {
    if i + 1 < |segs| then segs[i + 1].start - segs[i].end else 0.0
  }

  /** `should_break` after segment `i`, for a block that opened at segment `first`. */
  predicate ShouldBreak(segs: seq<Segment>, first: nat, i: nat)
    requires first < |segs| && i < |segs|
  {
    segs[i].end - segs[first].start > 30.0 || Gap(segs, i) > 2.0 || i == |segs| - 1
  }

  /** The segments with their texts stripped, as the loop reads them (line 261). */
  function StripTexts(segs: seq<Segment>): (r: seq<Segment>)
    ensures |r| == |segs|
  {
    if segs == [] then [] else [StripText(segs[0])] + StripTexts(segs[1..])
  }

  /** Stripping keeps every segment's times and strips its text. */
  lemma {:induction false} StripTextsAt(segs: seq<Segment>, i: nat)
    requires i < |segs|
    ensures StripTexts(segs)[i] == Segment(segs[i].start, segs[i].end, Strip(segs[i].text))
  {
    if i > 0 {
      StripTextsAt(segs[1..], i - 1);
    }
  }

  function StripText(seg: Segment): Segment {
    Segment(seg.start, seg.end, Strip(seg.text))
  }

  /** The text of segment `i`; the grouping below runs on stripped segments. */
  function TextOf(segs: seq<Segment>, i: nat): string
    requires i < |segs|
  {
    segs[i].text
  }

  /** One iteration of the loop of lines 258-300. */
  function Step(segs: seq<Segment>, i: nat, g: Grouping): Grouping
    requires i < |segs|
    requires g.open.Some? ==> g.open.value < |segs|
  {
    var text := TextOf(segs, i);
    if text == [] then g
    else
      var f := if g.open.None? then i else g.open.value;
      var texts := g.pending + [text];
      if ShouldBreak(segs, f, i) then Grouping(g.done + [Block(f, i, texts)], [], None)
      else Grouping(g.done, texts, Some(f))
  }

  /** The stripped non-empty texts of the segments before `i`, in order. */
  function KeptUpTo(segs: seq<Segment>, i: nat): seq<string>
    requires i <= |segs|
  {
    if i == 0 then []
    else KeptUpTo(segs, i - 1) + (if TextOf(segs, i - 1) != [] then [TextOf(segs, i - 1)] else [])
  }

  /** The stripped non-empty texts of the segments from `lo` up to, not
      including, `hi`, in order. */
  function KeptBetween(segs: seq<Segment>, lo: nat, hi: nat): seq<string>
    requires lo <= hi <= |segs|
    decreases hi - lo
  {
    if hi == lo then []
    else KeptBetween(segs, lo, hi - 1) + (if TextOf(segs, hi - 1) != [] then [TextOf(segs, hi - 1)] else [])
  }

  /** The kept texts before `hi` are those before `lo` followed by those between. */
  lemma {:induction false} KeptUpToSplit(segs: seq<Segment>, lo: nat, hi: nat)
    requires lo <= hi <= |segs|
    ensures KeptUpTo(segs, hi) == KeptUpTo(segs, lo) + KeptBetween(segs, lo, hi)
    decreases hi - lo
  {
    if hi > lo {
      KeptUpToSplit(segs, lo, hi - 1);
    }
  }

  /** Segment `j` has text once stripped. */
  predicate HasText(segs: seq<Segment>, j: nat)
    requires j < |segs|
  {
    TextOf(segs, j) != []
  }

  /** No segment from `lo` up to, not including, `hi` has text. */
  predicate NoTextBetween(segs: seq<Segment>, lo: nat, hi: nat) {
    forall j :: lo <= j < hi && j < |segs| ==> !HasText(segs, j)
  }

  /** The segment after the last of the first `k` blocks (0 when `k` is 0). */
  function EndBefore(blocks: seq<Block>, k: nat): nat
    requires k <= |blocks|
  {
    if k == 0 then 0 else blocks[k - 1].last + 1
  }

  /** The blocks as the loop writes them: each is well formed, starts after
      the previous one ends, holds exactly the texts of its own segments, and
      no segment with text lies before the first block or between two blocks. */
  predicate Tiled(segs: seq<Segment>, blocks: seq<Block>) {
    blocks == [] ||
    (var n := |blocks| - 1;
     && Tiled(segs, blocks[..n])
     && GoodBlock(segs, blocks[n])
     && EndBefore(blocks, n) <= blocks[n].first
     && NoTextBetween(segs, EndBefore(blocks, n), blocks[n].first)
     && blocks[n].texts == KeptBetween(segs, blocks[n].first, blocks[n].last + 1))
  }

  function AllTexts(blocks: seq<Block>): seq<string> {
    if blocks == [] then [] else AllTexts(blocks[..|blocks| - 1]) + blocks[|blocks| - 1].texts
  }

  /** A block as the loop writes it: its first and last segments have text, it
      closed because the break rule held after its last segment and not after
      any earlier segment with text, and it gathered at least one text. */
  predicate GoodBlock(segs: seq<Segment>, b: Block) {
    && b.first <= b.last < |segs|
    && TextOf(segs, b.first) != [] && TextOf(segs, b.last) != []
    && ShouldBreak(segs, b.first, b.last)
    && NoBreakBetween(segs, b.first, b.last)
    && b.texts != []
  }

  /** The break rule does not hold after any segment with text from `first` up to, not including, `upTo`. */
  predicate NoBreakBetween(segs: seq<Segment>, first: nat, upTo: nat)
    requires first < |segs| && upTo <= |segs|
  {
    forall j :: first <= j < upTo && TextOf(segs, j) != [] ==> !ShouldBreak(segs, first, j)
  }

  /** The blocks come in segment order and do not overlap. */
  predicate Ordered(blocks: seq<Block>) {
    forall k :: 0 <= k < |blocks| - 1 ==> blocks[k].last < blocks[k + 1].first
  }

  /** The blocks written before segment `i` are well formed and in order. */
  predicate DoneGood(segs: seq<Segment>, i: nat, done: seq<Block>) {
    Tiled(segs, done) && EndBefore(done, |done|) <= i
  }

  /** Block `k` of a tiled list, stated on its own. */
  lemma {:induction false} TiledAt(segs: seq<Segment>, blocks: seq<Block>, k: nat)
    requires Tiled(segs, blocks) && k < |blocks|
    ensures GoodBlock(segs, blocks[k])
    ensures EndBefore(blocks, k) <= blocks[k].first
    ensures NoTextBetween(segs, EndBefore(blocks, k), blocks[k].first)
    ensures blocks[k].texts == KeptBetween(segs, blocks[k].first, blocks[k].last + 1)
    ensures blocks[k].last < EndBefore(blocks, |blocks|)
    decreases |blocks|
  {
    var n := |blocks| - 1;
    if k < n {
      var pre := blocks[..n];
      TiledAt(segs, pre, k);
      assert pre[k] == blocks[k];
      assert EndBefore(pre, k) == EndBefore(blocks, k) by {
        if k > 0 {
          assert pre[k - 1] == blocks[k - 1];
        }
      }
      assert pre[n - 1] == blocks[n - 1];
    }
  }

  /** The open block, if any, started at a segment with text after the last
      written block, and the break rule has not held since. */
  predicate OpenGood(segs: seq<Segment>, i: nat, g: Grouping)
    requires i <= |segs|
  {
    && (g.open.None? <==> g.pending == [])
    && (g.open.None? ==> EndBefore(g.done, |g.done|) <= i && NoTextBetween(segs, EndBefore(g.done, |g.done|), i))
    && (g.open.Some? ==>
          && g.open.value < i
          && TextOf(segs, g.open.value) != []
          && NoBreakBetween(segs, g.open.value, i)
          && EndBefore(g.done, |g.done|) <= g.open.value
          && NoTextBetween(segs, EndBefore(g.done, |g.done|), g.open.value)
          && AllTexts(g.done) == KeptUpTo(segs, g.open.value))
  }

  /** The loop invariant after the segments before `i`: no text is lost or
      reordered so far. */
  predicate Inv(segs: seq<Segment>, i: nat, g: Grouping) {
    && i <= |segs|
    && DoneGood(segs, i, g.done)
    && OpenGood(segs, i, g)
    && AllTexts(g.done) + g.pending == KeptUpTo(segs, i)
  }

  lemma DoneGoodLater(segs: seq<Segment>, i: nat, done: seq<Block>)
    requires DoneGood(segs, i, done)
    ensures DoneGood(segs, i + 1, done)
  {
  }

  lemma DoneGoodAppend(segs: seq<Segment>, i: nat, done: seq<Block>, b: Block)
    requires DoneGood(segs, i, done) && GoodBlock(segs, b) && b.last == i
    requires EndBefore(done, |done|) <= b.first
    requires NoTextBetween(segs, EndBefore(done, |done|), b.first)
    requires b.texts == KeptBetween(segs, b.first, b.last + 1)
    ensures DoneGood(segs, i + 1, done + [b])
  {
    var done' := done + [b];
    assert done'[..|done|] == done;
    assert EndBefore(done', |done|) == EndBefore(done, |done|) by {
      if done != [] {
        assert done'[|done| - 1] == done[|done| - 1];
      }
    }
  }

  lemma AllTextsAppend(blocks: seq<Block>, b: Block)
    ensures AllTexts(blocks + [b]) == AllTexts(blocks) + b.texts
  {
    assert (blocks + [b])[..|blocks|] == blocks;
  }

  lemma KeptUpToNext(segs: seq<Segment>, i: nat)
    requires i < |segs|
    ensures KeptUpTo(segs, i + 1) == KeptUpTo(segs, i) + (if TextOf(segs, i) != [] then [TextOf(segs, i)] else [])
  {
  }

  /** The gathered texts are those of the segments since the open block's first. */
  lemma PendingBetween(segs: seq<Segment>, i: nat, g: Grouping, f: nat)
    requires i < |segs| && Inv(segs, i, g)
    requires f == (if g.open.None? then i else g.open.value)
    ensures f <= i && g.pending == KeptBetween(segs, f, i)
  {
    KeptUpToSplit(segs, f, i);
    var a := AllTexts(g.done);
    assert a == KeptUpTo(segs, f);
    assert a + g.pending == a + KeptBetween(segs, f, i);
    assert g.pending == (a + g.pending)[|a|..];
  }

  /** The texts of the open block, once segment `i` with text joins it. */
  lemma PendingNext(segs: seq<Segment>, i: nat, g: Grouping, f: nat)
    requires i < |segs| && Inv(segs, i, g) && TextOf(segs, i) != []
    requires f == (if g.open.None? then i else g.open.value)
    ensures f <= i && g.pending + [TextOf(segs, i)] == KeptBetween(segs, f, i + 1)
    ensures NoTextBetween(segs, EndBefore(g.done, |g.done|), f)
    ensures EndBefore(g.done, |g.done|) <= f
  {
    assert KeptBetween(segs, f, i + 1) == KeptBetween(segs, f, i) + [TextOf(segs, i)];
    PendingBetween(segs, i, g, f);
    if g.open.None? {
    }
  }

  /** A segment without text changes nothing. */
  lemma SkipInv(segs: seq<Segment>, i: nat, g: Grouping)
    requires i < |segs| && Inv(segs, i, g) && TextOf(segs, i) == []
    ensures Inv(segs, i + 1, g)
  {
    KeptUpToNext(segs, i);
    DoneGoodLater(segs, i, g.done);
    if g.open.Some? {
      var f := g.open.value;
      forall j | f <= j < i + 1 && TextOf(segs, j) != [] ensures !ShouldBreak(segs, f, j) {
        assert j < i;
      }
      assert KeptBetween(segs, f, i + 1) == KeptBetween(segs, f, i);
    } else {
      var e := EndBefore(g.done, |g.done|);
      assert NoTextBetween(segs, e, i + 1) by {
        forall j | e <= j < i + 1 && j < |segs| ensures !HasText(segs, j) {
          if j < i {
            assert NoTextBetween(segs, e, i);
          }
        }
      }
    }
  }

  /** A segment with text that does not close the block joins it. */
  lemma ContinueInv(segs: seq<Segment>, i: nat, g: Grouping, f: nat)
    requires i < |segs| && Inv(segs, i, g) && TextOf(segs, i) != []
    requires f == (if g.open.None? then i else g.open.value)
    requires !ShouldBreak(segs, f, i)
    ensures Inv(segs, i + 1, Grouping(g.done, g.pending + [TextOf(segs, i)], Some(f)))
  {
    DoneGoodLater(segs, i, g.done);
    ContinueOpen(segs, i, g, f);
    JoinTexts(segs, i, g);
  }

  lemma ContinueOpen(segs: seq<Segment>, i: nat, g: Grouping, f: nat)
    requires i < |segs| && Inv(segs, i, g) && TextOf(segs, i) != []
    requires f == (if g.open.None? then i else g.open.value)
    requires !ShouldBreak(segs, f, i)
    ensures OpenGood(segs, i + 1, Grouping(g.done, g.pending + [TextOf(segs, i)], Some(f)))
  {
    PendingNext(segs, i, g, f);
    NoBreakNext(segs, i, g, f);
  }

  lemma NoBreakNext(segs: seq<Segment>, i: nat, g: Grouping, f: nat)
    requires i < |segs| && Inv(segs, i, g)
    requires f == (if g.open.None? then i else g.open.value)
    requires !ShouldBreak(segs, f, i)
    ensures NoBreakBetween(segs, f, i + 1)
  {
    if g.open.Some? {
      assert NoBreakBetween(segs, f, i);
    }
  }

  /** The texts so far, once segment `i` with text is gathered. */
  lemma JoinTexts(segs: seq<Segment>, i: nat, g: Grouping)
    requires i < |segs| && Inv(segs, i, g) && TextOf(segs, i) != []
    ensures AllTexts(g.done) + (g.pending + [TextOf(segs, i)]) == KeptUpTo(segs, i + 1)
  {
    KeptUpToNext(segs, i);
  }

  /** A segment with text that closes the block writes it. */
  lemma CloseInv(segs: seq<Segment>, i: nat, g: Grouping, f: nat)
    requires i < |segs| && Inv(segs, i, g) && TextOf(segs, i) != []
    requires f == (if g.open.None? then i else g.open.value)
    requires ShouldBreak(segs, f, i)
    ensures Inv(segs, i + 1, Grouping(g.done + [Block(f, i, g.pending + [TextOf(segs, i)])], [], None))
  {
    var b := Block(f, i, g.pending + [TextOf(segs, i)]);
    CloseBlock(segs, i, g, f);
    DoneGoodAppend(segs, i, g.done, b);
    JoinTexts(segs, i, g);
    AllTextsAppend(g.done, b);
    assert EndBefore(g.done + [b], |g.done| + 1) == i + 1;
  }

  lemma CloseBlock(segs: seq<Segment>, i: nat, g: Grouping, f: nat)
    requires i < |segs| && Inv(segs, i, g) && TextOf(segs, i) != []
    requires f == (if g.open.None? then i else g.open.value)
    requires ShouldBreak(segs, f, i)
    ensures GoodBlock(segs, Block(f, i, g.pending + [TextOf(segs, i)]))
    ensures g.pending + [TextOf(segs, i)] == KeptBetween(segs, f, i + 1)
    ensures EndBefore(g.done, |g.done|) <= f
    ensures NoTextBetween(segs, EndBefore(g.done, |g.done|), f)
  {
    PendingNext(segs, i, g, f);
    assert NoBreakBetween(segs, f, i);
  }

  lemma StepInv(segs: seq<Segment>, i: nat, g: Grouping)
    requires i < |segs| && Inv(segs, i, g)
    ensures Inv(segs, i + 1, Step(segs, i, g))
  {
    if TextOf(segs, i) == [] {
      SkipInv(segs, i, g);
    } else {
      var f := if g.open.None? then i else g.open.value;
      if ShouldBreak(segs, f, i) {
        CloseInv(segs, i, g, f);
      } else {
        ContinueInv(segs, i, g, f);
      }
    }
  }

  /** The loop from segment `i` on. */
  /** What the loop needs to run on: an open block started at an earlier segment. */
  predicate Sane(segs: seq<Segment>, i: nat, g: Grouping) {
    i <= |segs| && (g.open.Some? ==> g.open.value < i)
  }

  function Loop(segs: seq<Segment>, i: nat, g: Grouping): Grouping
    requires Sane(segs, i, g)
    decreases |segs| - i
  {
    if i == |segs| then g
    else Loop(segs, i + 1, Step(segs, i, g))
  }

  lemma {:induction false} LoopInv(segs: seq<Segment>, i: nat, g: Grouping)
    requires i <= |segs| && Inv(segs, i, g)
    ensures Inv(segs, |segs|, Loop(segs, i, g))
    decreases |segs| - i
  {
    if i < |segs| {
      StepInv(segs, i, g);
      var g' := Step(segs, i, g);
      LoopInv(segs, i + 1, g');
      LoopUnfold(segs, i, g);
      assert Loop(segs, i, g) == Loop(segs, i + 1, g');
    } else {
      assert Loop(segs, i, g) == g;
    }
  }

  lemma LoopUnfold(segs: seq<Segment>, i: nat, g: Grouping)
    requires i < |segs| && Sane(segs, i, g)
    ensures Loop(segs, i, g) == Loop(segs, i + 1, Step(segs, i, g))
  {
  }

  function Start(): Grouping {
    Grouping([], [], None)
  }

  lemma StartInv(segs: seq<Segment>)
    ensures Inv(segs, 0, Start())
  {
  }

  /** The loop's final state. */
  function GroupSegments(segs: seq<Segment>): Grouping {
    Loop(segs, 0, Start())
  }

  /** The blocks written. */
  function Blocks(segs: seq<Segment>): seq<Block> {
    GroupSegments(segs).done
  }

  /** Every block starts no later than it ends, within the segment list. */
  lemma BlocksInRange(segs: seq<Segment>)
    ensures InRange(segs, Blocks(segs))
    ensures forall k :: 0 <= k < |Blocks(segs)| ==> Blocks(segs)[k].first <= Blocks(segs)[k].last
  {
    BlocksSpec(segs);
  }

  /** Every block is well formed, holds exactly the texts of its own
      segments and starts after the previous one ends; no segment with text
      lies before the first block, between two blocks, or (when nothing is left
      open) after the last; and the blocks' texts followed by whatever was
      still gathered when the loop ended are exactly the non-empty stripped
      segment texts, in order. */
  lemma BlocksSpec(segs: seq<Segment>)
    ensures forall k :: 0 <= k < |Blocks(segs)| ==>
      && GoodBlock(segs, Blocks(segs)[k])
      && Blocks(segs)[k].texts == KeptBetween(segs, Blocks(segs)[k].first, Blocks(segs)[k].last + 1)
      && NoTextBetween(segs, EndBefore(Blocks(segs), k), Blocks(segs)[k].first)
    ensures GroupSegments(segs).open.None? ==> NoTextBetween(segs, EndBefore(Blocks(segs), |Blocks(segs)|), |segs|)
    ensures Ordered(Blocks(segs))
    ensures AllTexts(Blocks(segs)) + GroupSegments(segs).pending == KeptUpTo(segs, |segs|)
    ensures InRange(segs, Blocks(segs))
  {
    StartInv(segs);
    LoopInv(segs, 0, Start());
    TiledSpec(segs, Blocks(segs));
  }

  /** The quantified reading of `Tiled`. */
  lemma TiledSpec(segs: seq<Segment>, blocks: seq<Block>)
    requires Tiled(segs, blocks)
    ensures forall k :: 0 <= k < |blocks| ==>
      && GoodBlock(segs, blocks[k])
      && blocks[k].texts == KeptBetween(segs, blocks[k].first, blocks[k].last + 1)
      && NoTextBetween(segs, EndBefore(blocks, k), blocks[k].first)
    ensures Ordered(blocks)
    ensures InRange(segs, blocks)
  {
    TiledEach(segs, blocks);
    TiledOrdered(segs, blocks);
  }

  lemma TiledEach(segs: seq<Segment>, blocks: seq<Block>)
    requires Tiled(segs, blocks)
    ensures forall k :: 0 <= k < |blocks| ==>
      && GoodBlock(segs, blocks[k])
      && blocks[k].texts == KeptBetween(segs, blocks[k].first, blocks[k].last + 1)
      && NoTextBetween(segs, EndBefore(blocks, k), blocks[k].first)
  {
    forall k | 0 <= k < |blocks|
      ensures GoodBlock(segs, blocks[k])
      ensures blocks[k].texts == KeptBetween(segs, blocks[k].first, blocks[k].last + 1)
      ensures NoTextBetween(segs, EndBefore(blocks, k), blocks[k].first)
    {
      TiledAt(segs, blocks, k);
    }
  }

  lemma TiledOrdered(segs: seq<Segment>, blocks: seq<Block>)
    requires Tiled(segs, blocks)
    ensures Ordered(blocks)
  {
    forall k | 0 <= k < |blocks| - 1 ensures blocks[k].last < blocks[k + 1].first {
      TiledAt(segs, blocks, k + 1);
    }
  }

  /** A segment with text before the end of a tiled list lies inside one of its blocks. */
  lemma {:induction false} TiledCovers(segs: seq<Segment>, blocks: seq<Block>, j: nat)
    requires Tiled(segs, blocks) && j < |segs| && HasText(segs, j)
    requires j < EndBefore(blocks, |blocks|)
    ensures exists k :: 0 <= k < |blocks| && blocks[k].first <= j <= blocks[k].last
    decreases |blocks|
  {
    var n := |blocks| - 1;
    if j < blocks[n].first {
      var pre := blocks[..n];
      assert EndBefore(pre, n) == EndBefore(blocks, n) by {
        if n > 0 {
          assert pre[n - 1] == blocks[n - 1];
        }
      }
      TiledCovers(segs, pre, j);
      var k :| 0 <= k < n && pre[k].first <= j <= pre[k].last;
      assert blocks[k] == pre[k];
    } else {
      assert blocks[n].first <= j <= blocks[n].last;
    }
  }

  /** When the last segment has text, nothing is left open: every segment
      with text lies inside a block, and the blocks hold every non-empty
      segment text. */
  lemma NoTextLost(segs: seq<Segment>)
    requires segs != [] && TextOf(segs, |segs| - 1) != []
    ensures GroupSegments(segs).open.None? && GroupSegments(segs).pending == []
    ensures forall j :: 0 <= j < |segs| && TextOf(segs, j) != [] ==>
      exists k :: 0 <= k < |Blocks(segs)| && Blocks(segs)[k].first <= j <= Blocks(segs)[k].last
    ensures AllTexts(Blocks(segs)) == KeptUpTo(segs, |segs|)
  {
    var g := GroupSegments(segs);
    StartInv(segs);
    LoopInv(segs, 0, Start());
    // The last segment closes any block, so none can still be open.
    assert g.open.Some? ==> ShouldBreak(segs, g.open.value, |segs| - 1);
    assert g.open.None?;
    forall j | 0 <= j < |segs| && TextOf(segs, j) != []
      ensures exists k :: 0 <= k < |g.done| && g.done[k].first <= j <= g.done[k].last
    {
      assert HasText(segs, j);
      TiledCovers(segs, g.done, j);
    }
    assert Blocks(segs) == g.done;
  }

  /** Stripping two segments strips each. */
  lemma StripPair(a: Segment, b: Segment)
    ensures StripTexts([a, b]) == [StripText(a), StripText(b)]
  {
    assert [a, b][1..] == [b];
    assert [b][1..] == [];
  }

  /** The loop on a text followed by an empty one closes no block. */
  lemma NoBlockPair(w: string)
    requires w != []
    ensures var segs := [Segment(0.0, 1.0, w), Segment(1.0, 2.0, "")];
      Blocks(segs) == [] && KeptUpTo(segs, 2) == [w]
  {
    var segs := [Segment(0.0, 1.0, w), Segment(1.0, 2.0, "")];
    var g0 := Start();
    StartInv(segs);
    var g1 := Grouping([], [w], Some(0));
    PairFirstStep(w, segs);
    StepInv(segs, 0, g0);
    LoopStep(segs, 0, g0);
    assert Step(segs, 1, g1) == g1;
    StepInv(segs, 1, g1);
    LoopStep(segs, 1, g1);
    LoopEnd(segs, g1);
    assert KeptUpTo(segs, 1) == [w];
  }

  /** The first segment of the pair opens a block without closing it. */
  lemma PairFirstStep(w: string, segs: seq<Segment>)
    requires w != [] && segs == [Segment(0.0, 1.0, w), Segment(1.0, 2.0, "")]
    ensures Step(segs, 0, Start()) == Grouping([], [w], Some(0))
  {
    assert Gap(segs, 0) == 0.0;
    assert !ShouldBreak(segs, 0, 0);
  }

  lemma LoopStep(segs: seq<Segment>, i: nat, g: Grouping)
    requires i < |segs| && Inv(segs, i, g)
    ensures Inv(segs, i + 1, Step(segs, i, g))
    ensures Loop(segs, i, g) == Loop(segs, i + 1, Step(segs, i, g))
  {
    StepInv(segs, i, g);
    assert Sane(segs, i, g);
  }

  lemma LoopEnd(segs: seq<Segment>, g: Grouping)
    requires Inv(segs, |segs|, g)
    ensures Loop(segs, |segs|, g) == g
  {
  }

  /** As written, a text gathered before an empty last segment is lost: a
      segment saying `w` (say "hola") followed by a blank one gives no block
      at all, although `w` is a kept text. */
  lemma TrailingEmptySegmentDropsText(w: string, blank: string)
    requires w != [] && !IsSpace(w[0]) && !IsSpace(w[|w| - 1]) && AllSpace(blank)
    ensures var segs := StripTexts([Segment(0.0, 1.0, w), Segment(1.0, 2.0, blank)]);
      Blocks(segs) == [] && KeptUpTo(segs, 2) == [w]
  {
    var a, b := Segment(0.0, 1.0, w), Segment(1.0, 2.0, blank);
    StripPair(a, b);
    assert StripText(a) == a by {
      StripTrimmed(w);
    }
    assert StripText(b) == Segment(1.0, 2.0, "");
    NoBlockPair(w);
  }

  // ---------------------------------------------------------------------------
  // Rendering.

  /** `[MM:SS - MM:SS]` from the block's first start to its last end. */
  function Stamp(segs: seq<Segment>, b: Block): string
    requires b.first < |segs| && b.last < |segs|
  {
    "[" + FormatTime(segs[b.first].start) + " - " + FormatTime(segs[b.last].end) + "]"
  }

  /** Every block refers to segments of the list. */
  predicate InRange(segs: seq<Segment>, blocks: seq<Block>) {
    forall k :: 0 <= k < |blocks| ==> blocks[k].first < |segs| && blocks[k].last < |segs|
  }

  function Stamps(segs: seq<Segment>, blocks: seq<Block>): (r: seq<string>)
    requires InRange(segs, blocks)
    ensures |r| == |blocks|
    ensures forall k :: 0 <= k < |blocks| ==> r[k] == Stamp(segs, blocks[k])
  {
    if blocks == [] then [] else [Stamp(segs, blocks[0])] + Stamps(segs, blocks[1..])
  }

  /** A block's texts joined by spaces and given the basic formatting (lines 286-287). */
  function BlockText(b: Block, rewrite: string -> string): string {
    ApplyBasicFormatting(JoinWith(" ", b.texts), rewrite)
  }

  function BlockTexts(blocks: seq<Block>, rewrite: string -> string): (r: seq<string>)
    ensures |r| == |blocks|
    ensures forall k :: 0 <= k < |blocks| ==> r[k] == BlockText(blocks[k], rewrite)
  {
    Map(blocks, b => BlockText(b, rewrite))
  }

  /** A stamp line, a text line and a blank line per block (lines 293-295). */
  function Triples(stamps: seq<string>, texts: seq<string>): (r: seq<string>)
    requires |stamps| == |texts|
    ensures |r| == 3 * |stamps|
  {
    if stamps == [] then [] else [stamps[0], texts[0], ""] + Triples(stamps[1..], texts[1..])
  }

  /** Block `k` takes lines `3k`, `3k + 1` and `3k + 2`. */
  lemma {:induction false} TriplesAt(stamps: seq<string>, texts: seq<string>, k: nat)
    requires |stamps| == |texts| && k < |stamps|
    ensures Triples(stamps, texts)[3 * k] == stamps[k]
    ensures Triples(stamps, texts)[3 * k + 1] == texts[k]
    ensures Triples(stamps, texts)[3 * k + 2] == ""
  {
    var head := [stamps[0], texts[0], ""];
    var rest := Triples(stamps[1..], texts[1..]);
    assert Triples(stamps, texts) == head + rest;
    if k > 0 {
      TriplesAt(stamps[1..], texts[1..], k - 1);
    }
  }

  function Body(segs: seq<Segment>, blocks: seq<Block>, rewrite: string -> string): (r: seq<string>)
    requires InRange(segs, blocks)
    ensures |r| == 3 * |blocks|
  {
    Triples(Stamps(segs, blocks), BlockTexts(blocks, rewrite))
  }

  /** The closing summary (lines 303-309). */
  function Summary(fullText: string, segs: seq<Segment>): seq<string>
    requires segs != []
  {
    [ Rule(), "RESUMEN:",
      "- Total de caracteres: " + Grouped(|fullText|),
      "- Total de palabras: " + Grouped(|Words(fullText)|),
      "- Duración total: " + FormatTime(segs[|segs| - 1].end),
      "- Segmentos procesados: " + NatToString(|segs|),
      Rule() ]
  }

  function TimedLines(fullText: string, segs: seq<Segment>, rewrite: string -> string): seq<string>
    requires segs != []
  {
    var stripped := StripTexts(segs);
    BlocksInRange(stripped);
    Header(TimedTitle) + Body(stripped, Blocks(stripped), rewrite) + Summary(fullText, segs)
  }

  /** The pieces of the timed page, as three sequences. */
  lemma TimedLinesParts(fullText: string, segs: seq<Segment>, rewrite: string -> string)
    requires segs != []
    ensures var stripped := StripTexts(segs);
      && InRange(stripped, Blocks(stripped))
      && TimedLines(fullText, segs, rewrite)
         == Header(TimedTitle) + Body(stripped, Blocks(stripped), rewrite) + Summary(fullText, segs)
  {
    BlocksInRange(StripTexts(segs));
  }

  /** The timed page opens with its header and has three lines per block
      between the header and the seven-line summary. */
  lemma TimedLinesHeader(fullText: string, segs: seq<Segment>, rewrite: string -> string)
    requires segs != []
    ensures |TimedLines(fullText, segs, rewrite)| == 11 + 3 * |Blocks(StripTexts(segs))|
    ensures TimedLines(fullText, segs, rewrite)[..4] == Header(TimedTitle)
  {
    var stripped := StripTexts(segs);
    TimedLinesParts(fullText, segs, rewrite);
    ConcatEnds(Header(TimedTitle), Body(stripped, Blocks(stripped), rewrite), Summary(fullText, segs));
  }

  /** The timed page closes with the seven-line summary. */
  lemma TimedLinesSummary(fullText: string, segs: seq<Segment>, rewrite: string -> string)
    requires segs != []
    ensures var lines := TimedLines(fullText, segs, rewrite);
      && |lines| >= 7
      && lines[|lines| - 7..] == Summary(fullText, segs)
  {
    var stripped := StripTexts(segs);
    TimedLinesParts(fullText, segs, rewrite);
    var header, body, summary := Header(TimedTitle), Body(stripped, Blocks(stripped), rewrite), Summary(fullText, segs);
    ConcatEnds(header, body, summary);
  }

  /** The stamp, formatted-text and blank lines of block `k` as the body's
      lines `3k` to `3k + 2`. */
  lemma BodyLines(segs: seq<Segment>, rewrite: string -> string, k: nat)
    requires InRange(segs, Blocks(segs)) && k < |Blocks(segs)|
    ensures var body := Body(segs, Blocks(segs), rewrite);
      && |body| == 3 * |Blocks(segs)|
      && body[3 * k] == Stamp(segs, Blocks(segs)[k])
      && body[3 * k + 1] == BlockText(Blocks(segs)[k], rewrite)
      && body[3 * k + 2] == ""
  {
    var blocks := Blocks(segs);
    var stamps := Stamps(segs, blocks);
    var texts := BlockTexts(blocks, rewrite);
    TriplesAt(stamps, texts, k);
  }

  /** The block's stamp runs from its first segment's start to its last
      segment's end. */
  lemma StampOf(segs: seq<Segment>, b: Block)
    requires b.first < |segs| && b.last < |segs|
    ensures Stamp(StripTexts(segs), b) ==
      "[" + FormatTime(segs[b.first].start) + " - " + FormatTime(segs[b.last].end) + "]"
  {
    StripTextsAt(segs, b.first);
    StripTextsAt(segs, b.last);
  }

  /** Block `k` is written at lines `4 + 3k` to `6 + 3k`: its time stamp, from
      its first segment's start to its last segment's end, its formatted text
      and a blank line. */
  lemma TimedLinesBlock(fullText: string, segs: seq<Segment>, rewrite: string -> string, k: nat)
    requires segs != [] && k < |Blocks(StripTexts(segs))|
    ensures var blocks := Blocks(StripTexts(segs));
      && blocks[k].first <= blocks[k].last < |segs|
      && TimedLines(fullText, segs, rewrite)[4 + 3 * k] ==
           "[" + FormatTime(segs[blocks[k].first].start) + " - " + FormatTime(segs[blocks[k].last].end) + "]"
      && TimedLines(fullText, segs, rewrite)[5 + 3 * k] == BlockText(blocks[k], rewrite)
      && TimedLines(fullText, segs, rewrite)[6 + 3 * k] == ""
  {
    var stripped := StripTexts(segs);
    TimedLinesParts(fullText, segs, rewrite);
    var blocks := Blocks(stripped);
    BodyLines(stripped, rewrite, k);
    var head, body, summary := Header(TimedTitle), Body(stripped, blocks, rewrite), Summary(fullText, segs);
    var lines := TimedLines(fullText, segs, rewrite);
    FramedAt(head, body, summary, lines, 3 * k);
    FramedAt(head, body, summary, lines, 3 * k + 1);
    FramedAt(head, body, summary, lines, 3 * k + 2);
    BlocksInRange(stripped);
    StampOf(segs, blocks[k]);
  }

  /** `_format_transcript(result)` of the refactored processor. A malformed
      segment makes the loop raise, and the handler returns the stripped full
      text; without segments the full text, formatted, gets the paragraph
      layout. */
  function FormatTranscript(res: EngineResult, rewrite: string -> string): string {
    var fullText := Strip(res.text);
    if !WellFormed(res.segments) then fullText
    else if res.segments == [] then ParagraphLayout.FormatSimpleText(ApplyBasicFormatting(fullText, rewrite))
    else JoinLines(TimedLines(fullText, Segments(res.segments), rewrite))
  }

  /** What the refactored `_format_transcript` returns: the stripped full text
      when a segment lacks a key; the paragraph layout of the formatted full
      text when there are no segments; otherwise the timed page: the header,
      three lines per block (its time stamp from its first segment's start to
      its last segment's end, its formatted text, a blank line) and the
      seven-line summary. */
  lemma FormatTranscriptSpec(res: EngineResult, rewrite: string -> string)
    ensures !WellFormed(res.segments) ==> FormatTranscript(res, rewrite) == Strip(res.text)
    ensures WellFormed(res.segments) && res.segments == [] ==>
      FormatTranscript(res, rewrite) == ParagraphLayout.FormatSimpleText(ApplyBasicFormatting(Strip(res.text), rewrite))
    ensures WellFormed(res.segments) && res.segments != [] ==>
      var segs := Segments(res.segments);
      var blocks := Blocks(StripTexts(segs));
      var lines := TimedLines(Strip(res.text), segs, rewrite);
      && FormatTranscript(res, rewrite) == JoinLines(lines)
      && |lines| == 11 + 3 * |blocks|
      && lines[..4] == Header(TimedTitle)
      && (forall k :: 0 <= k < |blocks| ==>
            && blocks[k].first <= blocks[k].last < |segs|
            && lines[4 + 3 * k] ==
                 "[" + FormatTime(segs[blocks[k].first].start) + " - " + FormatTime(segs[blocks[k].last].end) + "]"
            && lines[5 + 3 * k] == BlockText(blocks[k], rewrite)
            && lines[6 + 3 * k] == "")
      && lines[|lines| - 7..] == Summary(Strip(res.text), segs)
  {
    if WellFormed(res.segments) && res.segments != [] {
      var fullText, segs := Strip(res.text), Segments(res.segments);
      TimedLinesHeader(fullText, segs, rewrite);
      TimedLinesSummary(fullText, segs, rewrite);
      forall k | 0 <= k < |Blocks(StripTexts(segs))|
        ensures var blocks := Blocks(StripTexts(segs));
          && blocks[k].first <= blocks[k].last < |segs|
          && TimedLines(fullText, segs, rewrite)[4 + 3 * k] ==
               "[" + FormatTime(segs[blocks[k].first].start) + " - " + FormatTime(segs[blocks[k].last].end) + "]"
          && TimedLines(fullText, segs, rewrite)[5 + 3 * k] == BlockText(blocks[k], rewrite)
          && TimedLines(fullText, segs, rewrite)[6 + 3 * k] == ""
      {
        TimedLinesBlock(fullText, segs, rewrite, k);
      }
    }
  }
}
