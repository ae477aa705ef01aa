/** The command-line entry point (main.py:75-218): the date arguments, the
    summary and JSON report of a batch, the dry-run preview, and the exit
    code. The argument parser, the database, the batch itself, the clock and
    the files written are oracles. */
module RunReport {
  import opened Common
  import opened Calls
  import ModelCache

  predicate Succeeded(r: CallResult) {
    r.success
  }

  predicate FailedCall(r: CallResult) {
    !r.success
  }

  /** `sum(1 for r in results if r['success'])`. */
  function Successful(results: seq<CallResult>): (n: nat)
    ensures n <= |results|
  {
    Count(results, Succeeded)
  }

  /** The counts `save_json_report` writes. */
  datatype Report = Report(total: nat, successful: nat, failed: nat, results: seq<CallResult>)

  function JsonReport(results: seq<CallResult>): Report {
    Report(|results|, Count(results, Succeeded), Count(results, FailedCall), results)
  }

  /** The report's `failed`, counted on its own, is what `print_summary`
      computes as the total less the successes: the two outputs agree and
      add up to the total. */
  lemma ReportAddsUp(results: seq<CallResult>)
    ensures JsonReport(results).successful + JsonReport(results).failed == JsonReport(results).total
    ensures JsonReport(results).failed == |results| - Successful(results)
  {
    CountComplement(results, Succeeded, FailedCall);
  }

  /** `result.get('error', 'Error desconocido')` as printed: every result the
      pipelines build holds the `error` key, so an unset error prints as
      `None` and the default never shows. */
  function ErrorText(error: Option<string>): string {
    match error
    case Some(m) => m
    case None => "None"
  }

  /** One line of the failure listing: the call's id and its error. */
  datatype FailureLine = FailureLine(callId: Option<int>, error: string)

  function LineOf(r: CallResult): FailureLine {
    FailureLine(r.callId, ErrorText(r.error))
  }

  /** The failure listing of `print_summary`: the failed calls in batch
      order. */
  function FailureListing(results: seq<CallResult>): (lines: seq<FailureLine>)
    ensures |lines| == |results| - Successful(results)
  {
    ReportAddsUp(results);
    Map(Filter(results, FailedCall), LineOf)
  }

  /** The listing is printed exactly when some call failed, and each line
      belongs to a failed call, in the order of the results. */
  lemma FailureListingSpec(results: seq<CallResult>)
    ensures FailureListing(results) == [] <==> forall i :: 0 <= i < |results| ==> results[i].success
    ensures forall k :: 0 <= k < |FailureListing(results)| ==>
      FailureListing(results)[k] == LineOf(Filter(results, FailedCall)[k]) && !Filter(results, FailedCall)[k].success
  {
    FilterEmpty(results, FailedCall);
  }

  /** The success rate in percent, shown only when there was a call (before
      its one-decimal rounding). */
  function SuccessRate(results: seq<CallResult>): (rate: Option<real>)
    ensures rate.Some? <==> |results| > 0
    ensures rate.Some? ==> 0.0 <= rate.value <= 100.0
    ensures rate.Some? ==> (rate.value == 100.0 <==> Successful(results) == |results|)
    ensures rate.Some? ==> (rate.value == 0.0 <==> Successful(results) == 0)
    ensures rate.Some? ==> rate.value * |results| as real == Successful(results) as real * 100.0
  {
    if |results| == 0 then None
    else Some(Successful(results) as real / |results| as real * 100.0)
  }

  /** The exit code of a finished batch: 0 when every call succeeded, 1 when
      some did, 2 when none did. */
  function ExitCode(results: seq<CallResult>): (code: nat) {
    var ok := Successful(results);
    if ok == |results| then 0 else if ok > 0 then 1 else 2
  }

  lemma ExitCodeSpec(results: seq<CallResult>)
    ensures ExitCode(results) == 0 <==> forall i :: 0 <= i < |results| ==> results[i].success
    ensures ExitCode(results) == 1 <==>
      (exists i :: 0 <= i < |results| && results[i].success) && (exists i :: 0 <= i < |results| && !results[i].success)
    ensures ExitCode(results) == 2 <==> results != [] && forall i :: 0 <= i < |results| ==> !results[i].success
  {
    CountAll(results, Succeeded);
    CountNone(results, Succeeded);
  }

  /** How a stage ended that may raise or be interrupted. */
  datatype Stage<+T> = Ok(value: T) | Failed(message: string) | Interrupted

  /** The arguments after parsing. */
  datatype Args = Args(startDate: string, endDate: string, dryRun: bool)

  /** The outside world `main` talks to: the logs directory, the `%Y-%m-%d`
      parser, `whisper.load_model` behind the configured model name, the
      database, the batch, and the writing of the report and the log. */
  datatype World = World(
    logsDir: bool,
    parseDate: string -> Option<Date>,
    whisperModel: string,
    loadModel: string -> Outcome<()>,
    connected: bool,
    fetchCalls: Stage<seq<Call>>,
    processBatch: seq<Call> -> Stage<seq<CallResult>>,
    written: bool)

  /** What `main` ends with: its exit code, the calls a dry run shows, and
      the batch's results when there was one. */
  datatype Run = Run(code: nat, preview: seq<Call>, results: seq<CallResult>)

  /** The exit code of `argparse` when it rejects the command line; its
      `SystemExit` is not an `Exception`, so `main` does not catch it. */
  const UsageError := 2

  /** `start_date > end_date` on calendar days. */
  predicate After(a: Date, b: Date) {
    a.year > b.year || (a.year == b.year && (a.month > b.month || (a.month == b.month && a.day > b.day)))
  }

  /** The first five calls, which a dry run prints. */
  function Preview(calls: seq<Call>): (shown: seq<Call>)
    ensures |shown| == if |calls| < 5 then |calls| else 5
    ensures shown == calls[..|shown|]
  {
    if |calls| <= 5 then calls else calls[..5]
  }

  /** Everything `main` does before it asks the database: the logs directory,
      the command line (`None` when argparse rejects it), the two dates, and
      `AudioProcessor()`, which loads the configured model or else `'tiny'`. */
  predicate SetUp(args: Option<Args>, w: World) {
    && w.logsDir
    && args.Some?
    && w.parseDate(args.value.startDate).Some? && w.parseDate(args.value.endDate).Some?
    && !After(w.parseDate(args.value.startDate).value, w.parseDate(args.value.endDate).value)
    && ModelCache.LoadWithFallback(w.whisperModel, w.loadModel).Done?
  }

  /** `main()` from the point the database answers: an exception ends with 1,
      an interrupt with 130, an empty range and a dry run with 0, and a batch
      with its `ExitCode`. */
  function Session(dryRun: bool, w: World): (r: Run)
    ensures r.code in {0, 1, 2, 130}
    ensures r.preview != [] ==> dryRun && r.code == 0
  {
    var fail := Run(1, [], []);
    if !w.connected then fail
    else
      match w.fetchCalls
      case Failed(_) => fail
      case Interrupted => Run(130, [], [])
      case Ok(calls) =>
        if calls == [] then Run(0, [], [])
        else if dryRun then Run(0, Preview(calls), [])
        else
          match w.processBatch(calls)
          case Failed(_) => fail
          case Interrupted => Run(130, [], [])
          case Ok(results) =>
            if !w.written then fail else Run(ExitCode(results), [], results)
  }

  /** `main()`: a logs directory that cannot be made, bad dates or a failed
      model load end with 1, a command line argparse rejects with 2, and the
      rest is the session with the database. */
  function Main(args: Option<Args>, w: World): (r: Run)
    ensures r.code in {0, 1, 2, 130}
    ensures r.preview != [] ==> args.Some? && args.value.dryRun && r.code == 0
    ensures !SetUp(args, w) ==> r.results == [] && r.preview == []
  {
    if !w.logsDir then Run(1, [], [])
    else if args.None? then Run(UsageError, [], [])
    else if !SetUp(args, w) then Run(1, [], [])
    else Session(args.value.dryRun, w)
  }

  /** `main` ends with 0 exactly when the set-up worked, the database
      answered, and the range had no calls, a dry run showed them, or every
      call of the batch succeeded and the reports were written. It ends with
      2 only for a rejected command line or a batch that had calls and none
      succeeded, and with 130 only after an interrupt. */
  lemma MainSpec(args: Option<Args>, w: World)
    ensures var r := Main(args, w);
      r.code == 0 <==>
        && SetUp(args, w)
        && w.connected && w.fetchCalls.Ok?
        && (|| w.fetchCalls.value == []
            || args.value.dryRun
            || (w.processBatch(w.fetchCalls.value).Ok? && w.written
                && forall i :: 0 <= i < |w.processBatch(w.fetchCalls.value).value| ==>
                     w.processBatch(w.fetchCalls.value).value[i].success))
    ensures var r := Main(args, w);
      r.code == 2 <==>
        || (w.logsDir && args.None?)
        || (&& SetUp(args, w) && w.connected && w.fetchCalls.Ok? && w.fetchCalls.value != [] && !args.value.dryRun
            && w.processBatch(w.fetchCalls.value).Ok? && w.written
            && w.processBatch(w.fetchCalls.value).value != []
            && forall i :: 0 <= i < |w.processBatch(w.fetchCalls.value).value| ==>
                 !w.processBatch(w.fetchCalls.value).value[i].success)
    ensures var r := Main(args, w);
      r.code == 2 && args.Some? ==> r.results != [] && forall i :: 0 <= i < |r.results| ==> !r.results[i].success
    ensures var r := Main(args, w);
      r.code == 130 ==> SetUp(args, w) && (w.fetchCalls.Interrupted? || (w.fetchCalls.Ok? && w.processBatch(w.fetchCalls.value).Interrupted?))
    ensures w.logsDir && args.Some? && ModelCache.LoadWithFallback(w.whisperModel, w.loadModel).Raised? ==> Main(args, w).code == 1
  {
    if SetUp(args, w) && w.fetchCalls.Ok? && w.processBatch(w.fetchCalls.value).Ok? {
      ExitCodeSpec(w.processBatch(w.fetchCalls.value).value);
    }
  }
}
