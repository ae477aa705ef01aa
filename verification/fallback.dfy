/** How the processors turn an audio file into a transcript.

    The first processor (audio_processor.py:267-528) checks that the file exists,
    validates it, and then tries five strategies in a fixed order, returning the
    first truthy transcript. Each strategy converts the audio in its own way,
    runs the speech engine and formats the result; a strategy that raises is
    logged and skipped like one that returns nothing.

    The refactored processor (audio_processor_refactored.py:148-227) has a
    single path: one conversion, the engine, the block formatter.

    Temporary files, ffmpeg, pydub and the engine are not modelled; each
    strategy receives what they produced. */
module Fallback {
  import opened Common
  import opened Engine
  import opened Conversion
  import opened Validation
  import SegmentLayout
  import BlockLayout

  /** The strategies, as `_transcribe_with_fallbacks` lists them. */
  datatype Strategy = Aggressive | Basic | Pydub | UltraBasic | Direct

  const Order: seq<Strategy> := [Aggressive, Basic, Pydub, UltraBasic, Direct]

  /** What a strategy did: returned `None` or a string, or raised. */
  datatype Attempt = Returned(value: Option<string>) | Threw

  /** `if result:` — a string that is not empty. */
  predicate Truthy(a: Attempt) {
    a.Returned? && a.value.Some? && a.value.value != []
  }

  /** What `model.transcribe` did: returned a result, or raised. */
  datatype Transcription = Transcribed(result: EngineResult) | EngineFailed

  /** What a converting strategy found once its converter had run: whether the
      temporary WAV exists and is not empty, and what the engine made of it. */
  datatype Converted = Converted(wavReady: bool, engine: Transcription)

  // ---------------------------------------------------------------------------
  // The five strategies (audio_processor.py:371-528). `format` is the
  // processor's `_format_transcript`, which never raises.

  /** `_transcribe_with_aggressive_conversion`: the conversion cascade; an
      engine exception escapes. */
  function AggressiveAttempt(aggressive: Proc, basic: Proc, c: Converted, format: EngineResult -> string): (a: Attempt)
    ensures a.Returned? && a.value.Some? ==> ConvertAudioFormat(aggressive, basic) && c.wavReady
    ensures a == Threw <==> ConvertAudioFormat(aggressive, basic) && c.wavReady && c.engine.EngineFailed?
    ensures ConvertAudioFormat(aggressive, basic) && c.wavReady && c.engine.Transcribed? ==>
      a == Returned(Some(format(c.engine.result)))
  {
    if !ConvertAudioFormat(aggressive, basic) || !c.wavReady then Returned(None)
    else match c.engine
      case EngineFailed => Threw
      case Transcribed(r) => Returned(Some(format(r)))
  }

  /** `_transcribe_with_basic_conversion`: its own ffmpeg run, whose timeout
      or launch failure escapes, as does an engine exception. */
  function BasicAttempt(run: Proc, c: Converted, format: EngineResult -> string): (a: Attempt)
    ensures a.Returned? && a.value.Some? ==> Clean(run) && c.wavReady
    ensures a == Threw <==> !run.Exited? || (Clean(run) && c.wavReady && c.engine.EngineFailed?)
    ensures Clean(run) && c.wavReady && c.engine.Transcribed? ==> a == Returned(Some(format(c.engine.result)))
  {
    match run
    case TimedOut => Threw
    case Crashed => Threw
    case Exited(code) =>
      if code != 0 || !c.wavReady then Returned(None)
      else match c.engine
        case EngineFailed => Threw
        case Transcribed(r) => Returned(Some(format(r)))
  }

  /** `_transcribe_with_pydub`: every exception is caught. */
  function PydubAttempt(decoded: bool, c: Converted, format: EngineResult -> string): (a: Attempt)
    ensures a.Returned?
    ensures a.value.Some? <==> decoded && c.wavReady && c.engine.Transcribed?
    ensures a.value.Some? ==> a.value.value == format(c.engine.result)
  {
    if !decoded || !c.wavReady then Returned(None)
    else match c.engine
      case EngineFailed => Returned(None)
      case Transcribed(r) => Returned(Some(format(r)))
  }

  /** `_transcribe_ultra_basic`: every exception is caught, the ffmpeg timeout
      included. */
  function UltraBasicAttempt(run: Proc, c: Converted, format: EngineResult -> string): (a: Attempt)
    ensures a.Returned?
    ensures a.value.Some? <==> Clean(run) && c.wavReady && c.engine.Transcribed?
    ensures a.value.Some? ==> a.value.value == format(c.engine.result)
  {
    if !Clean(run) || !c.wavReady then Returned(None)
    else match c.engine
      case EngineFailed => Returned(None)
      case Transcribed(r) => Returned(Some(format(r)))
  }

  /** `_transcribe_direct`: the engine on the original file; its exception is caught. */
  function DirectAttempt(engine: Transcription, format: EngineResult -> string): (a: Attempt)
    ensures a.Returned?
    ensures a.value.Some? <==> engine.Transcribed?
    ensures a.value.Some? ==> a.value.value == format(engine.result)
  {
    match engine
    case EngineFailed => Returned(None)
    case Transcribed(r) => Returned(Some(format(r)))
  }

  /** Everything the outside world contributes to one run of the five strategies. */
  datatype World = World(
    aggressive: Proc, aggressiveBasic: Proc, aggressiveOut: Converted,
    basicRun: Proc, basicOut: Converted,
    pydubDecoded: bool, pydubOut: Converted,
    ultraRun: Proc, ultraOut: Converted,
    direct: Transcription)

  /** What each strategy would do, with the first processor's formatter. */
  function AttemptOf(w: World): Strategy -> Attempt {
    (s: Strategy) =>
      match s
      case Aggressive => AggressiveAttempt(w.aggressive, w.aggressiveBasic, w.aggressiveOut, SegmentLayout.FormatTranscript)
      case Basic => BasicAttempt(w.basicRun, w.basicOut, SegmentLayout.FormatTranscript)
      case Pydub => PydubAttempt(w.pydubDecoded, w.pydubOut, SegmentLayout.FormatTranscript)
      case UltraBasic => UltraBasicAttempt(w.ultraRun, w.ultraOut, SegmentLayout.FormatTranscript)
      case Direct => DirectAttempt(w.direct, SegmentLayout.FormatTranscript)
  }

  // ---------------------------------------------------------------------------
  // The strategy chain (audio_processor.py:340-369).

  /** Strategy `k` of `ss` wins: it is the first one whose attempt is truthy. */
  predicate WinsAt(ss: seq<Strategy>, attempt: Strategy -> Attempt, k: nat) {
    && k < |ss|
    && Truthy(attempt(ss[k]))
    && forall j :: 0 <= j < k ==> !Truthy(attempt(ss[j]))
  }

  /** `_transcribe_with_fallbacks(path)`, given whether the file validates and
      what each strategy would do. Also returns the strategies it invoked. */
  method TranscribeWithFallbacks(valid: bool, attempt: Strategy -> Attempt) returns (r: Option<string>, tried: seq<Strategy>)
    ensures !valid ==> r == None && tried == []
    ensures valid ==> 1 <= |tried| <= |Order| && tried == Order[..|tried|]
    ensures r.Some? <==> valid && exists k: nat :: WinsAt(Order, attempt, k)
    ensures r.Some? ==> WinsAt(Order, attempt, |tried| - 1) && r.value == attempt(Order[|tried| - 1]).value.value
    ensures valid && r.None? ==> tried == Order
  {
    if !valid {
      return None, [];
    }
    var i := 0;
    tried := [];
    while i < |Order|
      invariant 0 <= i <= |Order|
      invariant tried == Order[..i]
      invariant forall j :: 0 <= j < i ==> !Truthy(attempt(Order[j]))
    {
      var a := attempt(Order[i]);
      tried := tried + [Order[i]];
      if Truthy(a) {
        assert WinsAt(Order, attempt, i);
        assert tried == Order[..i + 1];
        return Some(a.value.value), tried;
      }
      i := i + 1;
    }
    assert forall k: nat :: !WinsAt(Order, attempt, k);
    return None, tried;
  }

  /** `transcribe_audio(path)` of the first processor: a missing file gives
      `None` before any validation or strategy. */
  method TranscribeAudio(found: bool, probe: Probe, path: string, w: World) returns (r: Option<string>, tried: seq<Strategy>)
    ensures !found ==> r == None && tried == []
    ensures found && !Validate(path, probe).valid ==> r == None && tried == []
    ensures r.Some? <==> found && Validate(path, probe).valid && exists k: nat :: WinsAt(Order, AttemptOf(w), k)
    ensures found && Validate(path, probe).valid ==> 1 <= |tried| <= |Order| && tried == Order[..|tried|]
    ensures r.Some? ==> WinsAt(Order, AttemptOf(w), |tried| - 1) && r.value == AttemptOf(w)(Order[|tried| - 1]).value.value
  {
    if !found {
      return None, [];
    }
    r, tried := TranscribeWithFallbacks(Validate(path, probe).valid, AttemptOf(w));
  }

  /** `transcribe_audio(path)` of the refactored processor: one conversion and
      the block formatter; every failure, an empty transcript included, gives
      `None`. */
  function RefactoredTranscribe(conversion: Proc, c: Converted, rewrite: string -> string): (r: Option<string>)
    ensures r.Some? ==> ConvertRefactored(conversion) && c.wavReady && c.engine.Transcribed? && r.value != []
    ensures r.Some? ==> r.value == BlockLayout.FormatTranscript(c.engine.result, rewrite)
    ensures r.Some? <==>
      && ConvertRefactored(conversion) && c.wavReady && c.engine.Transcribed?
      && BlockLayout.FormatTranscript(c.engine.result, rewrite) != []
  {
    if !ConvertRefactored(conversion) || !c.wavReady then None
    else match c.engine
      case EngineFailed => None
      case Transcribed(res) =>
        var t := BlockLayout.FormatTranscript(res, rewrite);
        if t == [] then None else Some(t)
  }
}
