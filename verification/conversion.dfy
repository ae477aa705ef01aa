/** The ffmpeg conversion of both processors (audio_processor.py:72-116 and
    239-265; audio_processor_refactored.py:102-146). Only the way each ffmpeg run
    ended matters to the control flow, so a run is its `Proc`. */
module Conversion {

  /** How one `subprocess.run` of ffmpeg ended: with an exit code, by raising
      `TimeoutExpired`, or by raising anything else (ffmpeg missing, say). */
  datatype Proc = Exited(code: int) | TimedOut | Crashed

  /** `result.returncode == 0`. */
  predicate Clean(p: Proc) {
    p.Exited? && p.code == 0
  }

  /** `_fallback_conversion`: the basic preset; every failure, raised or not,
      becomes `False`. */
  function FallbackConversion(basic: Proc): (ok: bool)
    ensures ok <==> Clean(basic)
  {
    match basic
    case Exited(code) => code == 0
    case TimedOut => false
    case Crashed => false
  }

  /** `convert_audio_format` of the first processor: the aggressive preset, and
      the basic preset after a non-zero exit, a timeout or any other exception.
      `basic` is only looked at when the aggressive run failed. */
  function ConvertAudioFormat(aggressive: Proc, basic: Proc): (ok: bool)
    ensures !Clean(aggressive) ==> ok == FallbackConversion(basic)
  {
    match aggressive
    case Exited(code) => if code == 0 then true else FallbackConversion(basic)
    case TimedOut => FallbackConversion(basic)
    case Crashed => FallbackConversion(basic)
  }

  /** The cascade converts exactly when one of the two presets exits cleanly,
      and a clean aggressive run never consults the basic one. */
  lemma CascadeSpec(aggressive: Proc, basic: Proc)
    ensures ConvertAudioFormat(aggressive, basic) <==> Clean(aggressive) || Clean(basic)
    ensures Clean(aggressive) ==> forall other :: ConvertAudioFormat(aggressive, other)
  {
  }

  /** `convert_audio_format` of the refactored processor: one aggressive run,
      no fallback. It handles that run's failures the way the first
      processor's fallback handles the basic run. */
  function ConvertRefactored(aggressive: Proc): (ok: bool)
    ensures ok <==> Clean(aggressive)
  {
    FallbackConversion(aggressive)
  }

  /** The refactored conversion succeeds only where the cascade does, and it
      gives up where the cascade would still recover through the basic preset. */
  lemma RefactoredIsStricter(aggressive: Proc, basic: Proc)
    ensures ConvertRefactored(aggressive) ==> ConvertAudioFormat(aggressive, basic)
    ensures !ConvertRefactored(Exited(1)) && ConvertAudioFormat(Exited(1), Exited(0))
  {
  }
}
