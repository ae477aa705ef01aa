/** `process_single_call` of the first processor (audio_processor.py:555-647):
    build the URL and the file paths of one call, return the stored transcript
    when there is one, otherwise download, transcribe and save, recording the
    stage that failed. The collaborators (`os.path.exists`, the file read,
    `download_audio`, `transcribe_audio`, `save_transcript`, `fromisoformat`)
    are oracles. */
module ServerPipeline {
  import opened Common
  import opened Strings
  import opened Paths
  import opened TimeFormat
  import opened Calls

  /** `AUDIO_BASE_URL`, `AUDIO_DOWNLOAD_PATH`, `TEXT_OUTPUT_PATH`. */
  datatype Settings = Settings(audioBaseUrl: string, audioDownloadPath: string, textOutputPath: string)

  datatype Env = Env(
    parseIso: string -> Outcome<Date>,
    fileExists: string -> bool,
    read: string -> Outcome<string>,
    download: (string, string) -> bool,
    transcribe: string -> Option<string>,
    save: (string, string) -> bool)

  /** The result and what the call did to the outside world. */
  datatype Processed = Processed(result: CallResult, actions: seq<Action>)

  const DownloadError := "Error descargando audio"
  const TranscribeError := "Error transcribiendo audio"
  const SaveError := "Error guardando transcripción"

  /** `str(ValueError(f"Formato de fecha no válido: {None}"))`. */
  const NoDateError := "Formato de fecha no válido: None"

  predicate IsUrl(p: string) {
    StartsWith(p, "http://") || StartsWith(p, "https://")
  }

  /** The audio URL: the stored path when it is already an http(s) URL,
      otherwise the stored path behind `AUDIO_BASE_URL + '/'`. */
  function AudioUrl(base: string, p: string): (url: string)
    ensures EndsWith(url, p)
    ensures IsUrl(p) ==> url == p
    ensures !IsUrl(p) ==> StartsWith(url, base + "/") && |url| == |base| + 1 + |p|
  {
    if IsUrl(p) then p
    else
      var url := base + "/" + p;
      assert url[..|base| + 1] == base + "/";
      assert url[|url| - |p|..] == p;
      url
  }

  /** The call's day: parsed from a string, taken from a `datetime`, and an
      error otherwise. */
  function CallDate(d: DateField, parseIso: string -> Outcome<Date>): Outcome<Date> {
    match d
    case DateText(s) => parseIso(ReplaceZ(s))
    case DateValue(v) => Done(v)
    case NoDate => Raised(NoDateError)
  }

  /** `os.path.join(root, str(year), f"{month:02d}", f"{day:02d}")`. */
  function DayDir(root: string, d: Date): string {
    JoinAll(root, [NatToString(d.year), Pad2(d.month), Pad2(d.day)])
  }

  function AudioFile(s: Settings, call: Call, d: Date): string {
    Join(DayDir(s.audioDownloadPath, d), AudioFileName(call))
  }

  function TextFile(s: Settings, call: Call, d: Date): string {
    Join(DayDir(s.textOutputPath, d), TextFileName(call))
  }

  /** What one call did to the outside world, from what each stage gave: the
      stored transcript is read, or the audio is downloaded, then transcribed,
      then the transcript saved, stopping at the first stage that fails. */
  function Steps(url: string, audio: string, text: string, stored: bool, fetched: bool, heard: bool): (acts: seq<Action>)
    ensures stored <==> acts == [ReadFile(text)]
    ensures forall k :: 0 <= k < |acts| && acts[k].Download? ==> k == 0 && !stored && acts[k] == Download(url, audio)
    ensures Save(text) in acts <==> !stored && fetched && heard
  {
    if stored then [ReadFile(text)]
    else if !fetched then [Download(url, audio)]
    else if !heard then [Download(url, audio), Transcribe(audio)]
    else [Download(url, audio), Transcribe(audio), Save(text)]
  }

  /** The result of a call whose day is known, from what each stage gave:
      a stored transcript counts as a success before it is read; otherwise
      the first stage that fails leaves its message. */
  function Stages(start: CallResult, url: string, audio: string, text: string, env: Env): (r: CallResult)
    ensures r.callId == start.callId
  {
    if env.fileExists(text) then
      var found := start.(success := true, transcriptPath := Some(text));
      match env.read(text)
      case Raised(m) => found.(error := Some(m))
      case Done(content) => found.(transcript := Some(content))
    else if !env.download(url, audio) then
      start.(error := Some(DownloadError))
    else
      var fetched := start.(audioPath := Some(audio));
      match env.transcribe(audio)
      case None => fetched.(error := Some(TranscribeError))
      case Some(t) =>
        var heard := fetched.(transcript := Some(t));
        if !env.save(t, text) then heard.(error := Some(SaveError))
        else heard.(transcriptPath := Some(text), success := true)
  }

  /** `process_single_call(call_data)`. */
  function ProcessSingleCall(s: Settings, call: Call, env: Env): (p: Processed)
    ensures p.result.callId == call.id
  {
    var start := Initial(call.id);
    var url := AudioUrl(s.audioBaseUrl, AudioPathOf(call));
    match CallDate(call.date, env.parseIso)
    case Raised(m) => Processed(start.(error := Some(m)), [])
    case Done(d) =>
      var audio, text := AudioFile(s, call, d), TextFile(s, call, d);
      Processed(Stages(start, url, audio, text, env),
                Steps(url, audio, text, env.fileExists(text), env.download(url, audio), env.transcribe(audio).Some?))
  }

  /** A stored transcript is returned as it is: success, its path and its
      content, and nothing is downloaded, transcribed or saved. */
  lemma SkipExisting(s: Settings, call: Call, env: Env, d: Date)
    requires CallDate(call.date, env.parseIso) == Done(d)
    requires env.fileExists(TextFile(s, call, d))
    ensures var p := ProcessSingleCall(s, call, env);
      && p.result.success
      && p.result.transcriptPath == Some(TextFile(s, call, d))
      && p.actions == [ReadFile(TextFile(s, call, d))]
      && (env.read(TextFile(s, call, d)).Done? ==> p.result.transcript == Some(env.read(TextFile(s, call, d)).value))
  {
  }

  /** As written, a stored transcript that cannot be read still counts as a
      success: `success` is set before the read, and the read's exception only
      adds its message. */
  lemma UnreadableTranscriptStillSucceeds(s: Settings, call: Call, env: Env, d: Date, m: string)
    requires CallDate(call.date, env.parseIso) == Done(d)
    requires env.fileExists(TextFile(s, call, d)) && env.read(TextFile(s, call, d)) == Raised(m)
    ensures ProcessSingleCall(s, call, env).result.success
    ensures ProcessSingleCall(s, call, env).result.error == Some(m)
  {
  }

  /** A download happens only for a call whose transcript is not stored; it
      is the first action, and it fetches the call's URL into the call's audio
      file. */
  lemma DownloadTarget(s: Settings, call: Call, env: Env, k: nat)
    requires k < |ProcessSingleCall(s, call, env).actions|
    requires ProcessSingleCall(s, call, env).actions[k].Download?
    ensures k == 0
    ensures CallDate(call.date, env.parseIso).Done?
    ensures ProcessSingleCall(s, call, env).actions[k] ==
      Download(AudioUrl(s.audioBaseUrl, AudioPathOf(call)), AudioFile(s, call, CallDate(call.date, env.parseIso).value))
    ensures !env.fileExists(TextFile(s, call, CallDate(call.date, env.parseIso).value))
  {
    var d := CallDate(call.date, env.parseIso).value;
    var url, audio, text := AudioUrl(s.audioBaseUrl, AudioPathOf(call)), AudioFile(s, call, d), TextFile(s, call, d);
    assert ProcessSingleCall(s, call, env).actions
      == Steps(url, audio, text, env.fileExists(text), env.download(url, audio), env.transcribe(audio).Some?);
  }

  /** The call succeeds exactly when its day is known and either its transcript
      is already stored, or the audio was downloaded, transcribed and the
      transcript saved. */
  lemma SuccessSpec(s: Settings, call: Call, env: Env)
    ensures var p := ProcessSingleCall(s, call, env);
      p.result.success <==>
        match CallDate(call.date, env.parseIso)
        case Raised(_) => false
        case Done(d) =>
          var audio, text := AudioFile(s, call, d), TextFile(s, call, d);
          || env.fileExists(text)
          || (&& env.download(AudioUrl(s.audioBaseUrl, AudioPathOf(call)), audio)
              && env.transcribe(audio).Some?
              && env.save(env.transcribe(audio).value, text))
  {
    match CallDate(call.date, env.parseIso)
    case Raised(_) =>
    case Done(d) =>
      var url, audio, text := AudioUrl(s.audioBaseUrl, AudioPathOf(call)), AudioFile(s, call, d), TextFile(s, call, d);
      assert ProcessSingleCall(s, call, env).result == Stages(Initial(call.id), url, audio, text, env);
      StagesSuccess(Initial(call.id), url, audio, text, env);
  }

  /** A result that starts unsuccessful ends successful exactly when the
      transcript was stored or every stage worked. */
  lemma StagesSuccess(start: CallResult, url: string, audio: string, text: string, env: Env)
    requires !start.success
    ensures Stages(start, url, audio, text, env).success <==>
      || env.fileExists(text)
      || (env.download(url, audio) && env.transcribe(audio).Some? && env.save(env.transcribe(audio).value, text))
  {
  }

  /** Each failing stage leaves its own message and no success; a successful
      save sets the transcript path and leaves no error. */
  lemma StageErrors(s: Settings, call: Call, env: Env, d: Date)
    requires CallDate(call.date, env.parseIso) == Done(d)
    requires !env.fileExists(TextFile(s, call, d))
    ensures var p, url, audio, text := ProcessSingleCall(s, call, env), AudioUrl(s.audioBaseUrl, AudioPathOf(call)),
                                       AudioFile(s, call, d), TextFile(s, call, d);
      && (!env.download(url, audio) ==> !p.result.success && p.result.error == Some(DownloadError) && p.result.audioPath.None?)
      && (env.download(url, audio) && env.transcribe(audio).None? ==>
            !p.result.success && p.result.error == Some(TranscribeError) && p.result.audioPath == Some(audio))
      && (env.download(url, audio) && env.transcribe(audio).Some? && !env.save(env.transcribe(audio).value, text) ==>
            !p.result.success && p.result.error == Some(SaveError) && p.result.transcript == env.transcribe(audio))
      && (p.result.success ==> p.result.error.None? && p.result.transcriptPath == Some(text) && Save(text) in p.actions)
  {
  }

  /** A day that cannot be read fails the call with the exception's message
      before anything is touched. */
  lemma DateErrors(s: Settings, call: Call, env: Env, m: string)
    requires CallDate(call.date, env.parseIso) == Raised(m)
    ensures ProcessSingleCall(s, call, env) == Processed(Initial(call.id).(error := Some(m)), [])
  {
  }
}
