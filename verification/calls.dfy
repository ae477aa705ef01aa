/** The call records the pipelines read from the database and the result
    dictionaries they return, with the file names built from them. */
module Calls {
  import opened Common
  import opened Strings
  import opened Paths
  import opened TimeFormat

  /** A calendar day, as `datetime` gives it. */
  datatype Date = Date(year: nat, month: nat, day: nat)

  /** `call_data.get('fecha_llamada')`: a string, a `datetime`, or `None`
      (the key missing, or a SQL NULL). */
  datatype DateField = DateText(text: string) | DateValue(date: Date) | NoDate

  /** `call_data.get('user_type', ...)`: a string, a SQL NULL (the key is
      there with the value `None`), or no key at all. */
  datatype UserTypeField = UserTypeText(text: string) | UserTypeNull | NoUserType

  /** The fields of a call dictionary the pipelines look at; `None` is a
      missing key. */
  datatype Call = Call(id: Option<int>, audioPath: Option<string>, date: DateField, userType: UserTypeField)

  /** The result dictionary of `process_single_call`; the client's result has
      no `audio_path` and `transcript` keys, which stay `None` here. */
  datatype CallResult = CallResult(
    callId: Option<int>, success: bool,
    audioPath: Option<string>, transcriptPath: Option<string>, transcript: Option<string>,
    error: Option<string>)

  /** The effects a call has on the outside world, in order. */
  datatype Action = Download(url: string, path: string) | ReadFile(path: string) | Transcribe(path: string)
                  | Save(path: string) | Remove(path: string)

  /** The result both pipelines start from: not successful, nothing set. */
  function Initial(id: Option<int>): (r: CallResult)
    ensures !r.success && r.error.None? && r.transcriptPath.None?
  {
    CallResult(id, false, None, None, None, None)
  }

  /** `call_data.get('audio_path', '')`. */
  function AudioPathOf(call: Call): string {
    match call.audioPath
    case Some(p) => p
    case None => ""
  }

  /** The `Z` characters of a string. */
  function CountZ(s: string): (n: nat)
    ensures n <= |s|
  {
    if s == [] then 0 else (if s[0] == 'Z' then 1 else 0) + CountZ(s[1..])
  }

  /** `s.replace('Z', '+00:00')`: every `Z` becomes the six characters
      `+00:00` and every other character stays. */
  function ReplaceZ(s: string): (r: string)
    ensures 'Z' !in r
    ensures 'Z' !in s ==> r == s
    ensures |r| == |s| + 5 * CountZ(s)
    ensures s != [] && s[0] == 'Z' ==> r[..6] == "+00:00" && r[6..] == ReplaceZ(s[1..])
    ensures s != [] && s[0] != 'Z' ==> r[0] == s[0] && r[1..] == ReplaceZ(s[1..])
  {
    if s == [] then []
    else (if s[0] == 'Z' then "+00:00" else [s[0]]) + ReplaceZ(s[1..])
  }

  /** Replacing distributes over concatenation, so each `Z` of the input is
      replaced where it stands. */
  lemma {:induction false} ReplaceZAppend(a: string, b: string)
    ensures ReplaceZ(a + b) == ReplaceZ(a) + ReplaceZ(b)
    ensures ReplaceZ("Z") == "+00:00"
  {
    if a != [] {
      assert (a + b)[1..] == a[1..] + b;
      ReplaceZAppend(a[1..], b);
    } else {
      assert a + b == b;
    }
  }

  /** `call_data.get('user_type', 'unknown')` as the first processor prefixes
      file names with it: the default only stands in for a missing key, and
      a NULL column is formatted as `None`. */
  function UserPrefix(call: Call): (prefix: string)
    ensures call.userType.UserTypeText? ==> prefix == call.userType.text
    ensures call.userType.UserTypeNull? ==> prefix == "None"
    ensures call.userType.NoUserType? ==> prefix == "unknown"
  {
    match call.userType
    case UserTypeText(u) => u
    case UserTypeNull => "None"
    case NoUserType => "unknown"
  }

  /** `f"{user_type}_{stem}{ext or '.wav'}"` for the downloaded audio. */
  function AudioFileName(call: Call): string {
    var (stem, ext) := SplitExt(Basename(AudioPathOf(call)));
    UserPrefix(call) + "_" + stem + (if ext == [] then ".wav" else ext)
  }

  /** `f"{user_type}_{stem}.txt"` for the transcript. */
  function TextFileName(call: Call): string {
    UserPrefix(call) + "_" + SplitExt(Basename(AudioPathOf(call))).0 + ".txt"
  }

  /** The audio keeps the stored file's base name behind the user type, and a
      base name without extension gets `.wav`; the transcript is the same name
      with `.txt` in place of the extension. */
  lemma FileNamesSpec(call: Call)
    ensures var b := Basename(AudioPathOf(call));
      && (SplitExt(b).1 != [] ==> AudioFileName(call) == UserPrefix(call) + "_" + b)
      && (SplitExt(b).1 == [] ==> AudioFileName(call) == UserPrefix(call) + "_" + b + ".wav")
    ensures var b, t := Basename(AudioPathOf(call)), TextFileName(call);
      && EndsWith(t, ".txt")
      && t[..|t| - 4] + SplitExt(b).1 == UserPrefix(call) + "_" + b
  {
    var b := Basename(AudioPathOf(call));
    var sp := SplitExt(b);
    var stem, ext := sp.0, sp.1;
    assert stem + ext == b;
    var u := UserPrefix(call);
    var t := TextFileName(call);
    var head := u + "_" + stem;
    assert t == head + ".txt";
    assert t[..|t| - 4] == head;
    assert head + ext == u + "_" + (stem + ext);
  }

}
