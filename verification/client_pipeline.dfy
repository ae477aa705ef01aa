/** `process_single_call` of the client processor
    (audio_processor_client.py:203-281): the audio keeps its stored base name
    under a `YYYY/MM/DD` directory, is downloaded only when it is not there
    yet, is transcribed by the remote service, and the transcript is saved
    next to it under the text root; afterwards the audio is removed when both
    cleanup settings are on. The collaborators (`os.path.exists`,
    `download_audio_file`, `transcribe_audio`, `save_transcript`, `strptime`,
    `datetime.now`) are oracles. */
module ClientPipeline {
  import opened Common
  import opened Strings
  import opened Paths
  import opened TimeFormat
  import opened Calls

  /** The settings the client reads. `AUTO_CLEANUP` and `CLEANUP_AUDIO_FILES`
      are `None` when `Config` has no such attribute, as in the shipped
      configuration. */
  datatype ClientConfig = ClientConfig(
    audioBaseUrl: string, audioDownloadPath: string, textOutputPath: string,
    autoCleanup: Option<bool>, cleanupAudioFiles: Option<bool>)

  /** The shipped `Config`: no cleanup attributes at all. */
  function Shipped(base: string): ClientConfig {
    ClientConfig(base, "/app/audios", "/app/textos", None, None)
  }

  datatype ClientEnv = ClientEnv(
    parseDay: string -> Outcome<Date>,
    now: Date,
    fileExists: string -> bool,
    download: (string, string) -> bool,
    transcribe: string -> Option<string>,
    save: (string, string) -> bool)

  datatype Processed = Processed(result: CallResult, actions: seq<Action>)

  const DownloadError := "Error descargando audio"
  const TranscriptionError := "Error en transcripción"
  const SaveError := "Error guardando transcripción"

  /** `str(AttributeError)` for a setting `Config` does not define. */
  function MissingSetting(name: string): string {
    "'Config' object has no attribute '" + name + "'"
  }

  /** The call's day: a string goes through `strptime('%Y-%m-%d')`, a
      `datetime` is used as it is, and a missing day is today. */
  function ClientDate(d: DateField, parseDay: string -> Outcome<Date>, now: Date): (r: Outcome<Date>)
    ensures r.Raised? ==> d.DateText? && parseDay(d.text) == r
    ensures d.NoDate? ==> r == Done(now)
  {
    match d
    case DateText(s) => parseDay(s)
    case DateValue(v) => Done(v)
    case NoDate => Done(now)
  }

  /** `strftime('%Y/%m/%d')`: one path piece holding three directories. */
  function DayPath(d: Date): string {
    NatToString(d.year) + "/" + Pad2(d.month) + "/" + Pad2(d.day)
  }

  function LocalAudio(c: ClientConfig, call: Call, d: Date): string {
    JoinAll(c.audioDownloadPath, [DayPath(d), Basename(AudioPathOf(call))])
  }

  function LocalText(c: ClientConfig, call: Call, d: Date): string {
    JoinAll(c.textOutputPath, [DayPath(d), SplitExt(Basename(AudioPathOf(call))).0 + ".txt"])
  }

  /** `f"{AUDIO_BASE_URL}/{audio_path}"`, whatever the stored path is. */
  function ClientUrl(base: string, p: string): (url: string)
    ensures |url| == |base| + 1 + |p|
    ensures url[..|base|] == base && url[|base|] == '/' && url[|base| + 1..] == p
  {
    base + "/" + p
  }

  /** `AUTO_CLEANUP and CLEANUP_AUDIO_FILES`, evaluated left to right: a
      missing attribute raises, a false first operand skips the second. */
  function Cleanup(c: ClientConfig): (r: Outcome<bool>)
    ensures r == Done(true) <==> c.autoCleanup == Some(true) && c.cleanupAudioFiles == Some(true)
    ensures c.autoCleanup.None? ==> r == Raised(MissingSetting("AUTO_CLEANUP"))
  {
    match c.autoCleanup
    case None => Raised(MissingSetting("AUTO_CLEANUP"))
    case Some(false) => Done(false)
    case Some(true) =>
      match c.cleanupAudioFiles
      case None => Raised(MissingSetting("CLEANUP_AUDIO_FILES"))
      case Some(b) => Done(b)
  }

  /** A transcript Python treats as true: present and not empty. */
  predicate Truthy(t: Option<string>) {
    t.Some? && t.value != []
  }

  /** What one call did once its audio is on disk: transcribe, save a true
      transcript, and remove the audio when cleanup is on. */
  function Work(audio: string, text: string, heard: bool, clean: bool): (acts: seq<Action>)
    ensures |acts| >= 1 && acts[0] == Transcribe(audio)
    ensures Save(text) in acts <==> heard
    ensures Remove(audio) in acts <==> clean
    ensures forall k :: 0 <= k < |acts| ==> !acts[k].Download?
  {
    if heard && clean then [Transcribe(audio), Save(text), Remove(audio)]
    else if heard then [Transcribe(audio), Save(text)]
    else if clean then [Transcribe(audio), Remove(audio)]
    else [Transcribe(audio)]
  }

  /** The part of the call after its day is known, with its paths, URL and
      cleanup decision already worked out. */
  function Fetch(start: CallResult, audio: string, text: string, url: string, clean: Outcome<bool>, env: ClientEnv)
    : (p: Processed)
    ensures p.result.callId == start.callId
    ensures p.result.audioPath == start.audioPath && p.result.transcript == start.transcript
  {
    var have := env.fileExists(audio);
    if !have && !env.download(url, audio) then
      Processed(start.(error := Some(DownloadError)), [Download(url, audio)])
    else
      var fetch := if have then [] else [Download(url, audio)];
      var t := env.transcribe(audio);
      var r :=
        if !Truthy(t) then start.(error := Some(TranscriptionError))
        else if !env.save(t.value, text) then start.(error := Some(SaveError))
        else start.(success := true, transcriptPath := Some(text));
      match clean
      case Raised(m) => Processed(r.(error := Some(m)), fetch + Work(audio, text, Truthy(t), false))
      case Done(on) => Processed(r, fetch + Work(audio, text, Truthy(t), on))
  }

  /** `process_single_call(call_data)` of the client. */
  function ProcessClientCall(c: ClientConfig, call: Call, env: ClientEnv): (p: Processed)
    ensures p.result.callId == call.id
    ensures p.result.audioPath.None? && p.result.transcript.None?
  {
    match ClientDate(call.date, env.parseDay, env.now)
    case Raised(m) => Processed(Initial(call.id).(error := Some(m)), [])
    case Done(d) =>
      Fetch(Initial(call.id), LocalAudio(c, call, d), LocalText(c, call, d),
            ClientUrl(c.audioBaseUrl, AudioPathOf(call)), Cleanup(c), env)
  }

  /** Whether the audio is on disk after the download step. */
  predicate Ready(audio: string, url: string, env: ClientEnv) {
    env.fileExists(audio) || env.download(url, audio)
  }

  /** The download is the first action exactly when the audio was not on disk,
      and no later action downloads; cleanup and save happen only once the
      audio is ready. */
  lemma FetchActions(start: CallResult, audio: string, text: string, url: string, clean: Outcome<bool>, env: ClientEnv)
    ensures var acts := Fetch(start, audio, text, url, clean, env).actions;
      && acts != []
      && (acts[0].Download? <==> !env.fileExists(audio))
      && (acts[0].Download? ==> acts[0] == Download(url, audio))
      && (forall k :: 1 <= k < |acts| ==> !acts[k].Download?)
      && (Remove(audio) in acts <==> Ready(audio, url, env) && clean == Done(true))
      && (Save(text) in acts <==> Ready(audio, url, env) && Truthy(env.transcribe(audio)))
  {
    var acts := Fetch(start, audio, text, url, clean, env).actions;
    if Ready(audio, url, env) {
      var fetch := if env.fileExists(audio) then [] else [Download(url, audio)];
      var w := Work(audio, text, Truthy(env.transcribe(audio)), clean == Done(true));
      assert acts == fetch + w;
      forall k | 1 <= k < |acts| ensures !acts[k].Download? {
        assert acts[k] == w[k - |fetch|];
      }
      assert Remove(audio) in acts <==> Remove(audio) in w;
      assert Save(text) in acts <==> Save(text) in w;
    } else {
      assert acts == [Download(url, audio)];
    }
  }

  /** The result of the part after the day: success exactly when the audio is
      ready, the transcript is non-empty and saved, with the transcript path
      set then. */
  lemma FetchResult(start: CallResult, audio: string, text: string, url: string, clean: Outcome<bool>, env: ClientEnv)
    requires !start.success && start.transcriptPath.None?
    ensures var r, t := Fetch(start, audio, text, url, clean, env).result, env.transcribe(audio);
      && (r.success <==> Ready(audio, url, env) && Truthy(t) && env.save(t.value, text))
      && (r.success ==> r.transcriptPath == Some(text))
  {
  }

  /** The audio is downloaded exactly when its day is known and it is not on
      disk yet; the download fetches the base URL, a slash and the stored path
      into the local audio file, and is the first thing the call does. */
  lemma ClientDownloadSpec(c: ClientConfig, call: Call, env: ClientEnv)
    ensures var p := ProcessClientCall(c, call, env);
      match ClientDate(call.date, env.parseDay, env.now)
      case Raised(_) => p.actions == []
      case Done(d) =>
        var audio := LocalAudio(c, call, d);
        && p.actions != []
        && (p.actions[0].Download? <==> !env.fileExists(audio))
        && (p.actions[0].Download? ==> p.actions[0] == Download(ClientUrl(c.audioBaseUrl, AudioPathOf(call)), audio))
        && (forall k :: 1 <= k < |p.actions| ==> !p.actions[k].Download?)
  {
    match ClientDate(call.date, env.parseDay, env.now)
    case Raised(_) =>
    case Done(d) =>
      FetchActions(Initial(call.id), LocalAudio(c, call, d), LocalText(c, call, d),
                   ClientUrl(c.audioBaseUrl, AudioPathOf(call)), Cleanup(c), env);
  }

  /** A failed download ends the call at once: its error, no success, and no
      transcription, save or cleanup. */
  lemma DownloadFailureReturnsEarly(c: ClientConfig, call: Call, env: ClientEnv, d: Date)
    requires ClientDate(call.date, env.parseDay, env.now) == Done(d)
    requires !Ready(LocalAudio(c, call, d), ClientUrl(c.audioBaseUrl, AudioPathOf(call)), env)
    ensures var p := ProcessClientCall(c, call, env);
      && !p.result.success
      && p.result.error == Some(DownloadError)
      && p.actions == [Download(ClientUrl(c.audioBaseUrl, AudioPathOf(call)), LocalAudio(c, call, d))]
  {
  }

  /** The call succeeds exactly when its day is known, its audio is on disk or
      downloaded, the service returns a non-empty transcript, and the save
      succeeds; a failing cleanup setting does not undo the success. */
  lemma ClientSuccessSpec(c: ClientConfig, call: Call, env: ClientEnv)
    ensures var p := ProcessClientCall(c, call, env);
      p.result.success <==>
        match ClientDate(call.date, env.parseDay, env.now)
        case Raised(_) => false
        case Done(d) =>
          var audio, t := LocalAudio(c, call, d), env.transcribe(LocalAudio(c, call, d));
          && Ready(audio, ClientUrl(c.audioBaseUrl, AudioPathOf(call)), env)
          && Truthy(t)
          && env.save(t.value, LocalText(c, call, d))
    ensures var p := ProcessClientCall(c, call, env);
      p.result.success ==> p.result.transcriptPath == Some(LocalText(c, call, ClientDate(call.date, env.parseDay, env.now).value))
  {
    match ClientDate(call.date, env.parseDay, env.now)
    case Raised(_) =>
    case Done(d) =>
      FetchResult(Initial(call.id), LocalAudio(c, call, d), LocalText(c, call, d),
                  ClientUrl(c.audioBaseUrl, AudioPathOf(call)), Cleanup(c), env);
  }

  /** Once the audio is on disk, the error is the cleanup setting's exception
      when one is missing, and otherwise the stage that failed: an empty or
      missing transcript, or a failed save. */
  lemma ClientErrors(c: ClientConfig, call: Call, env: ClientEnv, d: Date)
    requires ClientDate(call.date, env.parseDay, env.now) == Done(d)
    requires Ready(LocalAudio(c, call, d), ClientUrl(c.audioBaseUrl, AudioPathOf(call)), env)
    ensures var p, t := ProcessClientCall(c, call, env), env.transcribe(LocalAudio(c, call, d));
      && (Cleanup(c).Raised? ==> p.result.error == Some(Cleanup(c).message))
      && (Cleanup(c).Done? && !Truthy(t) ==> p.result.error == Some(TranscriptionError))
      && (Cleanup(c).Done? && Truthy(t) && !env.save(t.value, LocalText(c, call, d)) ==> p.result.error == Some(SaveError))
      && (Cleanup(c).Done? && p.result.success ==> p.result.error.None?)
  {
  }

  /** The audio is removed exactly when the call got as far as having it on
      disk and both cleanup settings are on, whether the transcription worked
      or not; the transcript is saved exactly when the service returned a
      non-empty one. */
  lemma CleanupSpec(c: ClientConfig, call: Call, env: ClientEnv, d: Date)
    requires ClientDate(call.date, env.parseDay, env.now) == Done(d)
    ensures var p, audio, url := ProcessClientCall(c, call, env), LocalAudio(c, call, d), ClientUrl(c.audioBaseUrl, AudioPathOf(call));
      && (Remove(audio) in p.actions <==> Ready(audio, url, env) && c.autoCleanup == Some(true) && c.cleanupAudioFiles == Some(true))
      && (Save(LocalText(c, call, d)) in p.actions <==> Ready(audio, url, env) && Truthy(env.transcribe(audio)))
  {
    FetchActions(Initial(call.id), LocalAudio(c, call, d), LocalText(c, call, d),
                 ClientUrl(c.audioBaseUrl, AudioPathOf(call)), Cleanup(c), env);
  }

  /** With the shipped configuration every call that gets its audio ends with
      the missing-attribute message as its error, even a successful one, and
      the audio is never removed. */
  lemma ShippedConfigError(base: string, call: Call, env: ClientEnv, d: Date)
    requires ClientDate(call.date, env.parseDay, env.now) == Done(d)
    requires Ready(LocalAudio(Shipped(base), call, d), ClientUrl(base, AudioPathOf(call)), env)
    ensures ProcessClientCall(Shipped(base), call, env).result.error == Some(MissingSetting("AUTO_CLEANUP"))
    ensures Remove(LocalAudio(Shipped(base), call, d)) !in ProcessClientCall(Shipped(base), call, env).actions
  {
    CleanupSpec(Shipped(base), call, env, d);
  }

  /** Both files sit under their root in the day's directory: the audio keeps
      the stored base name, the transcript swaps its extension for `.txt`. */
  lemma ClientPathsSpec(c: ClientConfig, call: Call, d: Date)
    ensures EndsWith(LocalAudio(c, call, d), Basename(AudioPathOf(call)))
    ensures EndsWith(LocalText(c, call, d), ".txt")
  {
    var day, b := DayPath(d), Basename(AudioPathOf(call));
    var t := SplitExt(b).0 + ".txt";
    JoinAllTwo(c.audioDownloadPath, day, b);
    JoinEnds(Join(c.audioDownloadPath, day), b);
    JoinAllTwo(c.textOutputPath, day, t);
    JoinEnds(Join(c.textOutputPath, day), t);
    assert EndsWith(t, ".txt");
    EndsWithTrans(Join(Join(c.textOutputPath, day), t), t, ".txt");
  }
}
