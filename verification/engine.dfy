/** What the speech engine (Whisper's `model.transcribe`) hands back, as far as
    the formatters look at it: the full text and the list of timed segments.
    The engine itself is not modelled; its results are inputs. */
module Engine {

  /** One timed segment: `segment["start"]`, `segment["end"]`, `segment["text"]`. */
  datatype Segment = Segment(start: real, end: real, text: string)

  /** A segment as found in the result dictionary. A segment lacking one of the
      three keys makes the formatter's lookup raise. */
  datatype RawSegment = Present(seg: Segment) | Malformed

  /** `result["text"]` and `result["segments"]` (an absent key reads as an empty list). */
  datatype EngineResult = EngineResult(text: string, segments: seq<RawSegment>)

  /** Every segment has the three keys the formatters read. */
  predicate WellFormed(raw: seq<RawSegment>) {
    forall i :: 0 <= i < |raw| ==> raw[i].Present?
  }

  /** The segments of a well-formed list. */
  function Segments(raw: seq<RawSegment>): (segs: seq<Segment>)
    requires WellFormed(raw)
    ensures |segs| == |raw|
    ensures forall i :: 0 <= i < |raw| ==> raw[i] == Present(segs[i])
  {
    if raw == [] then [] else [raw[0].seg] + Segments(raw[1..])
  }
}
