/** `_validate_audio_file` (audio_processor.py:291-338): the gate in front of
    the transcription strategies. The file system and the pydub decoder are
    not modelled; what the function learns from them is a `Probe`. */
module Validation {
  import opened Common
  import opened Paths

  /** What pydub's `AudioSegment.from_file` gave: the duration in seconds
      (`len(audio) / 1000.0`), or an exception. */
  datatype Decode = Decoded(duration: real) | DecodeFailed

  /** `os.path.exists`, `os.path.getsize` (which can itself raise, read as
      `None`) and the decoder's verdict. */
  datatype Probe = Probe(found: bool, size: Option<nat>, decode: Decode)

  /** The warnings the function logs once the file is known to exist and not
      to be empty; `ShortAudio` is the only one followed by a rejection. */
  datatype Warning = SmallFile | UnknownExtension(ext: string) | ShortAudio | LongAudio | DecodeError

  datatype Verdict = Verdict(valid: bool, warnings: seq<Warning>)

  const ValidExtensions: seq<string> := [".mp3", ".wav", ".m4a", ".flac", ".ogg", ".wma"]

  /** `os.path.splitext(path)[1].lower()`. */
  function Extension(path: string): string {
    Lower(SplitExt(path).1)
  }

  /** Why a file is turned away: missing, unreadable size, empty, or decoded
      to less than a tenth of a second. */
  predicate Rejected(path: string, p: Probe) {
    || !p.found
    || p.size.None?
    || p.size.value == 0
    || (p.decode.Decoded? && p.decode.duration < 0.1)
  }

  /** The warnings logged, in order, for a file that exists and is not empty. */
  function Warnings(path: string, size: nat, decode: Decode): (ws: seq<Warning>)
    ensures SmallFile in ws <==> size < 1024
    ensures UnknownExtension(Extension(path)) in ws <==> Extension(path) !in ValidExtensions
    ensures ShortAudio in ws <==> decode.Decoded? && decode.duration < 0.1
    ensures LongAudio in ws <==> decode.Decoded? && decode.duration > 3600.0
    ensures DecodeError in ws <==> decode.DecodeFailed?
  {
    var ext := Extension(path);
    var sized := if size < 1024 then [SmallFile] else [];
    var named := if ext !in ValidExtensions then [UnknownExtension(ext)] else [];
    var timed := match decode
      case Decoded(d) => if d < 0.1 then [ShortAudio] else if d > 3600.0 then [LongAudio] else []
      case DecodeFailed => [DecodeError];
    assert forall w :: w in sized + named + timed <==> w in sized || w in named || w in timed;
    sized + named + timed
  }

  /** `_validate_audio_file(path)`. */
  function Validate(path: string, p: Probe): (v: Verdict)
    ensures v.valid <==> !Rejected(path, p)
    ensures p.found && p.size.Some? && p.size.value != 0 ==> v.warnings == Warnings(path, p.size.value, p.decode)
    ensures !p.found || p.size.None? || p.size.value == 0 ==> v.warnings == []
  {
    if !p.found then Verdict(false, [])
    else if p.size.None? then Verdict(false, [])
    else if p.size.value == 0 then Verdict(false, [])
    else
      var ws := Warnings(path, p.size.value, p.decode);
      Verdict(ShortAudio !in ws, ws)
  }

  /** A decoder failure does not reject a file that exists and is not empty. */
  lemma DecodeFailureAccepts(path: string, size: nat)
    requires size != 0
    ensures Validate(path, Probe(true, Some(size), DecodeFailed)).valid
  {
  }

  /** Size, extension and length above an hour only warn: two files that differ
      only in those are both accepted or both rejected. */
  lemma WarningsDoNotReject(path: string, path': string, p: Probe, p': Probe)
    requires p.found == p'.found
    requires p.size.Some? <==> p'.size.Some?
    requires p.size.Some? ==> (p.size.value == 0 <==> p'.size.value == 0)
    requires p.decode.Decoded? <==> p'.decode.Decoded?
    requires p.decode.Decoded? ==> (p.decode.duration < 0.1 <==> p'.decode.duration < 0.1)
    ensures Validate(path, p).valid == Validate(path', p').valid
  {
  }
}
