/** `_format_transcript` of the first processor (audio_processor.py:118-165):
    with segments, one `[MM:SS - MM:SS] text` line per segment and a blank line
    after every third one, between the header and a footer that gives the length
    of the stripped full text; without segments, the simple layout of the
    stripped full text; and when a segment lacks a key, the stripped full text. */
module SegmentLayout {
  import opened Common
  import opened Strings
  import opened TimeFormat
  import opened Engine
  import opened Layout
  import SimpleLayout

  /** `f"[{start} - {end}] {text.strip()}"`. */
  function SegmentLine(s: Segment): string {
    "[" + FormatTime(s.start) + " - " + FormatTime(s.end) + "] " + Strip(s.text)
  }

  /** One line per segment. */
  function LinesOf(segs: seq<Segment>): (r: seq<string>)
    ensures |r| == |segs|
    ensures forall i :: 0 <= i < |segs| ==> r[i] == SegmentLine(segs[i])
  {
    if segs == [] then [] else [SegmentLine(segs[0])] + LinesOf(segs[1..])
  }

  /** The lines with a blank line after lines 3, 6, 9, ... (numbered from 1):
      the `if i % 3 == 0` of the segment loop. */
  function EveryThird(lines: seq<string>): (r: seq<string>)
    ensures |r| == |lines| + |lines| / 3
  {
    if lines == [] then []
    else
      var n := |lines|;
      EveryThird(lines[..n - 1]) + [lines[n - 1]] + (if n % 3 == 0 then [""] else [])
  }

  /** Where each line sits: line `i` (from 0) moves to `i + i / 3`. With the
      blank lines below and the length, this fixes every line. */
  lemma {:induction false} EveryThirdAt(lines: seq<string>)
    ensures forall i :: 0 <= i < |lines| ==> EveryThird(lines)[Slot(i, |lines|)] == lines[i]
  {
    if lines != [] {
      var n := |lines|;
      var prev := EveryThird(lines[..n - 1]);
      EveryThirdAt(lines[..n - 1]);
      var r := EveryThird(lines);
      assert r == prev + [lines[n - 1]] + (if n % 3 == 0 then [""] else []);
      forall i | 0 <= i < n ensures r[Slot(i, n)] == lines[i] {
        GroupIndex(n, i);
        if i < n - 1 {
          assert lines[..n - 1][i] == lines[i];
          assert r[i + i / 3] == prev[i + i / 3];
        }
      }
    }
  }

  /** Line `4k - 1` is blank for every full group `k` of three. */
  lemma {:induction false} EveryThirdBlank(lines: seq<string>, k: nat)
    requires 1 <= k <= |lines| / 3
    ensures 4 * k - 1 < |EveryThird(lines)| && EveryThird(lines)[4 * k - 1] == ""
  {
    var n := |lines|;
    var prev := EveryThird(lines[..n - 1]);
    var r := EveryThird(lines);
    assert r == prev + [lines[n - 1]] + (if n % 3 == 0 then [""] else []);
    BlankIndex(n, k);
    if k <= (n - 1) / 3 {
      EveryThirdBlank(lines[..n - 1], k);
      assert r[4 * k - 1] == prev[4 * k - 1];
    }
  }

  /** The line that segment `i` (from 0) of `n` lands on: `i + i / 3`. */
  function Slot(i: nat, n: nat): (p: nat)
    requires i < n
    ensures p == i + i / 3 && p < n + n / 3
  {
    assert i / 3 <= n / 3;
    i + i / 3
  }

  /** Segment `i` of `n` lands before the lines of the first `n - 1` segments end,
      unless it is the last one, which comes right after them. */
  lemma GroupIndex(n: nat, i: nat)
    requires i < n
    ensures i < n - 1 ==> i + i / 3 < (n - 1) + (n - 1) / 3
    ensures i == n - 1 ==> i + i / 3 == (n - 1) + (n - 1) / 3
  {
    if i < n - 1 {
      assert i / 3 <= (n - 1) / 3;
    }
  }

  /** The blank line after group `k` falls within the first `n - 1` segments' lines,
      unless the group is completed by the last segment. */
  lemma BlankIndex(n: nat, k: nat)
    requires 1 <= k <= n / 3
    ensures k <= (n - 1) / 3 ==> 4 * k - 1 < (n - 1) + (n - 1) / 3
    ensures k > (n - 1) / 3 ==> n % 3 == 0 && 4 * k - 1 == (n - 1) + (n - 1) / 3 + 1
  {
  }

  /** `"FIN DE TRANSCRIPCIÓN - {n} caracteres"`, closed by the banners. */
  function Footer(fullText: string): seq<string> {
    ["", Rule(), SimpleLayout.EndLine(|fullText|), Rule()]
  }

  /** The lines of the timed layout. */
  function TimedLines(fullText: string, segs: seq<Segment>): (r: seq<string>)
    ensures |r| == 4 + |segs| + |segs| / 3 + 4
  {
    Header(PlainTitle) + EveryThird(LinesOf(segs)) + Footer(fullText)
  }

  /** Line `j` of the body is line `4 + j` of the page. */
  lemma TimedLinesBody(fullText: string, segs: seq<Segment>, j: nat)
    requires j < |EveryThird(LinesOf(segs))|
    ensures TimedLines(fullText, segs)[4 + j] == EveryThird(LinesOf(segs))[j]
  {
    ConcatMiddle(Header(PlainTitle), EveryThird(LinesOf(segs)), Footer(fullText), j);
  }

  /** The line of segment `i` in the body. */
  lemma SegmentAt(segs: seq<Segment>, i: nat)
    requires i < |segs|
    ensures EveryThird(LinesOf(segs))[Slot(i, |segs|)] == SegmentLine(segs[i])
  {
    EveryThirdAt(LinesOf(segs));
  }

  /** Segment `i` (from 0) is on line `4 + i + i / 3` of the timed layout. */
  lemma TimedLinesSegments(fullText: string, segs: seq<Segment>)
    ensures forall i :: 0 <= i < |segs| ==> TimedLines(fullText, segs)[4 + Slot(i, |segs|)] == SegmentLine(segs[i])
  {
    forall i | 0 <= i < |segs| ensures TimedLines(fullText, segs)[4 + Slot(i, |segs|)] == SegmentLine(segs[i]) {
      TimedLineOf(fullText, segs, i);
    }
  }

  lemma TimedLineOf(fullText: string, segs: seq<Segment>, i: nat)
    requires i < |segs|
    ensures TimedLines(fullText, segs)[4 + Slot(i, |segs|)] == SegmentLine(segs[i])
  {
    TimedLinesBody(fullText, segs, Slot(i, |segs|));
    SegmentAt(segs, i);
  }

  /** A blank line follows every third segment. */
  lemma TimedLinesBlanks(fullText: string, segs: seq<Segment>)
    ensures forall k :: 1 <= k <= |segs| / 3 ==> TimedLines(fullText, segs)[4 + 4 * k - 1] == ""
  {
    forall k | 1 <= k <= |segs| / 3 ensures TimedLines(fullText, segs)[4 + 4 * k - 1] == "" {
      BlankOf(fullText, segs, k);
    }
  }

  lemma BlankOf(fullText: string, segs: seq<Segment>, k: nat)
    requires 1 <= k <= |segs| / 3
    ensures TimedLines(fullText, segs)[4 + 4 * k - 1] == ""
  {
    var j := 4 * k - 1;
    EveryThirdBlank(LinesOf(segs), k);
    BlankAt(fullText, segs, j);
  }

  /** A blank line of the body is a blank line of the page. */
  lemma BlankAt(fullText: string, segs: seq<Segment>, j: nat)
    requires j < |EveryThird(LinesOf(segs))| && EveryThird(LinesOf(segs))[j] == ""
    ensures TimedLines(fullText, segs)[4 + j] == ""
  {
    TimedLinesBody(fullText, segs, j);
  }

  /** The timed page opens with the header, and its footer counts the
      characters of the full text. */
  lemma TimedLinesFrame(fullText: string, segs: seq<Segment>)
    ensures TimedLines(fullText, segs)[..4] == Header(PlainTitle)
    ensures TimedLines(fullText, segs)[|TimedLines(fullText, segs)| - 2] == SimpleLayout.EndLine(|fullText|)
  {
    var head, body, foot := Header(PlainTitle), EveryThird(LinesOf(segs)), Footer(fullText);
    var r := TimedLines(fullText, segs);
    ConcatEnds(head, body, foot);
    assert r[|r| - 2] == r[|head| + |body|..][2];
  }

  /** `_format_transcript(result)`. */
  function FormatTranscript(res: EngineResult): string {
    var fullText := Strip(res.text);
    if !WellFormed(res.segments) then fullText
    else if res.segments == [] then SimpleLayout.FormatSimpleText(fullText)
    else JoinLines(TimedLines(fullText, Segments(res.segments)))
  }

  /** What `_format_transcript` returns: the stripped full text when a segment
      lacks a key; the simple layout of the stripped full text when there are
      no segments; otherwise the timed page, which opens with the header, has
      segment `i`'s line at `4 + i + i / 3` with a blank line after every third
      segment, and ends with the footer counting the full text's characters. */
  lemma FormatTranscriptSpec(res: EngineResult)
    ensures !WellFormed(res.segments) ==> FormatTranscript(res) == Strip(res.text)
    ensures WellFormed(res.segments) && res.segments == [] ==>
      FormatTranscript(res) == SimpleLayout.FormatSimpleText(Strip(res.text))
    ensures WellFormed(res.segments) && res.segments != [] ==>
      var n := |res.segments|;
      var lines := TimedLines(Strip(res.text), Segments(res.segments));
      && FormatTranscript(res) == JoinLines(lines)
      && |lines| == 4 + n + n / 3 + 4
      && lines[..4] == Header(PlainTitle)
      && (forall i :: 0 <= i < n ==> lines[4 + Slot(i, n)] == SegmentLine(res.segments[i].seg))
      && (forall k :: 1 <= k <= n / 3 ==> lines[4 + 4 * k - 1] == "")
      && lines[|lines| - 2] == SimpleLayout.EndLine(|Strip(res.text)|)
  {
    if WellFormed(res.segments) && res.segments != [] {
      var fullText, segs := Strip(res.text), Segments(res.segments);
      var n, lines := |segs|, TimedLines(fullText, segs);
      TimedLinesFrame(fullText, segs);
      TimedLinesBlanks(fullText, segs);
      forall i | 0 <= i < n ensures lines[4 + Slot(i, n)] == SegmentLine(res.segments[i].seg) {
        TimedLineOf(fullText, segs, i);
        assert res.segments[i] == Present(segs[i]);
      }
    }
  }
}
