/** The chronological-order check of verify_chronological_order.py:11-107: the
    first ten calls of a date range are walked in order, each timestamp that
    parses is compared with the last one that did, and any timestamp that
    cannot be read or compared marks the order as wrong. The database and
    `datetime.fromisoformat` / `strptime` are oracles. */
module Chronology {
  import opened Common
  import opened Calls

  /** `call.get('fecha_llamada', 'N/A')`: a missing key, a string, or some
      other value (a `datetime` or `None`), which has no `replace`. */
  datatype Stamp = Missing | Text(text: string) | NotText

  /** A row of the date range: its `id` (`None` for a missing key) and its
      timestamp. */
  datatype Row = Row(id: Option<int>, stamp: Stamp)

  /** A parsed timestamp: a point on one time line, and whether it carries a
      UTC offset. Python refuses to order an aware and a naive `datetime`. */
  datatype Moment = Moment(ticks: int, aware: bool)

  /** `is_chronological` and `previous_date` between two calls. */
  datatype Scan = Scan(ok: bool, prev: Option<Moment>)

  /** How many calls the check looks at. */
  const Shown := 10

  /** `str(e)` of `f"{call_id:8s}"` for an integer id: the `s` format code
      exists only for strings. */
  const IdFormatError := "Unknown format code 's' for object of type 'int'"

  /** The stamp is the `'N/A'` text, as given or by default. */
  predicate Skipped(s: Stamp) {
    s.Missing? || (s.Text? && s.text == "N/A")
  }

  /** The timestamp a stamp parses to, when it is text other than `'N/A'`. */
  function Parsed(s: Stamp, parse: string -> Option<Moment>): Option<Moment> {
    if s.Text? && s.text != "N/A" then parse(ReplaceZ(s.text)) else None
  }

  /** One pass of the loop's inner `try`: skip `'N/A'`; a stamp with no
      `replace`, one that does not parse, and one that cannot be compared
      with the previous one raise and mark the order wrong, leaving
      `previous_date` as it was; otherwise compare and move on. */
  function Step(s: Scan, stamp: Stamp, parse: string -> Option<Moment>): (r: Scan)
    ensures r.ok ==> s.ok
    ensures Skipped(stamp) ==> r == s
  {
    if Skipped(stamp) then s
    else
      match Parsed(stamp, parse)
      case None => Scan(false, s.prev)
      case Some(m) =>
        match s.prev
        case None => Scan(s.ok, Some(m))
        case Some(p) =>
          if p.aware != m.aware then Scan(false, s.prev)
          else Scan(s.ok && !(m.ticks < p.ticks), Some(m))
  }

  /** The state after the inner `try` of every row of `rows`, in order. */
  function Walk(rows: seq<Row>, parse: string -> Option<Moment>): Scan
    decreases |rows|
  {
    if rows == [] then Scan(true, None)
    else Step(Walk(rows[..|rows| - 1], parse), rows[|rows| - 1].stamp, parse)
  }

  /** The rows the check looks at. */
  function Window(rows: seq<Row>): (w: seq<Row>)
    ensures |w| <= Shown && |w| <= |rows| && w == rows[..|w|]
    ensures |rows| <= Shown ==> w == rows
  {
    if |rows| <= Shown then rows else rows[..Shown]
  }

  /** `verify_chronological_order(start, end)` once connected: `False` for an
      empty range; otherwise the walk over the first ten rows, which ends in
      the id's formatting error at the first row that has an integer id. */
  method VerifyOrder(rows: seq<Row>, parse: string -> Option<Moment>) returns (r: Outcome<bool>)
    ensures r.Raised? <==> exists j :: 0 <= j < |Window(rows)| && Window(rows)[j].id.Some?
    ensures r.Raised? ==> r.message == IdFormatError
    ensures r.Done? ==> r.value == (rows != [] && Walk(Window(rows), parse).ok)
  {
    if rows == [] {
      return Done(false);
    }
    var w := Window(rows);
    var s := Scan(true, None);
    var i := 0;
    while i < |w|
      invariant 0 <= i <= |w|
      invariant s == Walk(w[..i], parse)
      invariant forall j :: 0 <= j < i ==> w[j].id.None?
    {
      assert w[..i + 1][..i] == w[..i];
      s := Step(s, w[i].stamp, parse);
      if w[i].id.Some? {
        return Raised(IdFormatError);
      }
      i := i + 1;
    }
    assert w[..i] == w;
    return Done(s.ok);
  }

  /** Once the order is wrong it stays wrong: the walk of a longer prefix is
      never better than that of a shorter one. */
  lemma {:induction false} WalkMonotone(rows: seq<Row>, k: nat, parse: string -> Option<Moment>)
    requires k <= |rows|
    ensures Walk(rows, parse).ok ==> Walk(rows[..k], parse).ok
    decreases |rows|
  {
    if k < |rows| {
      assert rows[..|rows| - 1][..k] == rows[..k];
      WalkMonotone(rows[..|rows| - 1], k, parse);
    } else {
      assert rows[..k] == rows;
    }
  }

  /** A stamp that is not text, or text other than `'N/A'` that does not
      parse, makes the walk fail. */
  lemma BrokenStampFails(rows: seq<Row>, j: nat, parse: string -> Option<Moment>)
    requires j < |rows|
    requires !Skipped(rows[j].stamp) && Parsed(rows[j].stamp, parse).None?
    ensures !Walk(rows, parse).ok
  {
    assert rows[..j + 1][..j] == rows[..j];
    assert !Walk(rows[..j + 1], parse).ok;
    WalkMonotone(rows, j + 1, parse);
  }

  /** The timestamps the walk compares, in order. */
  function Moments(rows: seq<Row>, parse: string -> Option<Moment>): seq<Moment>
    decreases |rows|
  {
    if rows == [] then []
    else
      var last := Parsed(rows[|rows| - 1].stamp, parse);
      Moments(rows[..|rows| - 1], parse) + (if last.Some? then [last.value] else [])
  }

  /** Every timestamp is no earlier than the one before it. */
  predicate Chronological(ms: seq<Moment>) {
    forall i :: 0 < i < |ms| ==> ms[i - 1].ticks <= ms[i].ticks
  }

  /** Every row's stamp is `'N/A'` or parses, and all parsed timestamps agree
      on carrying an offset, so every comparison can be made. */
  predicate Readable(rows: seq<Row>, parse: string -> Option<Moment>, aware: bool) {
    forall j :: 0 <= j < |rows| ==>
      Skipped(rows[j].stamp) || (Parsed(rows[j].stamp, parse).Some? && Parsed(rows[j].stamp, parse).value.aware == aware)
  }

  /** On readable rows the walk says exactly whether the timestamps are in
      order, and remembers the last one. */
  lemma {:induction false} WalkReadable(rows: seq<Row>, parse: string -> Option<Moment>, aware: bool)
    requires Readable(rows, parse, aware)
    ensures var ms := Moments(rows, parse);
      && Walk(rows, parse).ok == Chronological(ms)
      && Walk(rows, parse).prev == (if ms == [] then None else Some(ms[|ms| - 1]))
      && (forall i :: 0 <= i < |ms| ==> ms[i].aware == aware)
    decreases |rows|
  {
    if rows != [] {
      var init := rows[..|rows| - 1];
      assert Readable(init, parse, aware) by {
        forall j | 0 <= j < |init| ensures Skipped(init[j].stamp) || (Parsed(init[j].stamp, parse).Some? && Parsed(init[j].stamp, parse).value.aware == aware) {
          assert init[j] == rows[j];
        }
      }
      WalkReadable(init, parse, aware);
      var before := Moments(init, parse);
      var stamp := rows[|rows| - 1].stamp;
      if !Skipped(stamp) {
        var m := Parsed(stamp, parse).value;
        var ms := before + [m];
        assert Moments(rows, parse) == ms;
        ChronologicalSnoc(before, m);
      } else {
        assert Parsed(stamp, parse).None?;
        assert Moments(rows, parse) == before;
      }
    }
  }

  lemma ChronologicalSnoc(ms: seq<Moment>, m: Moment)
    ensures Chronological(ms + [m]) == (Chronological(ms) && (ms == [] || ms[|ms| - 1].ticks <= m.ticks))
  {
    if Chronological(ms) && (ms == [] || ms[|ms| - 1].ticks <= m.ticks) {
      forall i | 0 < i < |ms + [m]| ensures (ms + [m])[i - 1].ticks <= (ms + [m])[i].ticks {
        if i < |ms| {
          assert (ms + [m])[i - 1] == ms[i - 1] && (ms + [m])[i] == ms[i];
        }
      }
    }
    if Chronological(ms + [m]) {
      forall i | 0 < i < |ms| ensures ms[i - 1].ticks <= ms[i].ticks {
        assert (ms + [m])[i - 1] == ms[i - 1] && (ms + [m])[i] == ms[i];
      }
      if ms != [] {
        assert (ms + [m])[|ms| - 1] == ms[|ms| - 1];
        assert (ms + [m])[|ms|] == m;
      }
    }
  }

  /** The check of a range: `False` when the database cannot be reached,
      otherwise `VerifyOrder`. */
  method VerifyChronologicalOrder(connected: bool, rows: seq<Row>, parse: string -> Option<Moment>) returns (r: Outcome<bool>)
    ensures !connected ==> r == Done(false)
    ensures connected && rows == [] ==> r == Done(false)
    ensures r == Done(true) ==> connected && rows != [] && forall j :: 0 <= j < |Window(rows)| ==> Window(rows)[j].id.None?
    ensures connected && (forall j :: 0 <= j < |Window(rows)| ==> Window(rows)[j].id.None?) ==> r.Done?
  {
    if !connected {
      return Done(false);
    }
    r := VerifyOrder(rows, parse);
  }

  /** On readable rows without ids, the check answers exactly whether the
      first ten timestamps are in order. */
  lemma ReadableVerdict(rows: seq<Row>, parse: string -> Option<Moment>, aware: bool)
    requires rows != []
    requires Readable(Window(rows), parse, aware)
    ensures Walk(Window(rows), parse).ok == Chronological(Moments(Window(rows), parse))
  {
    WalkReadable(Window(rows), parse, aware);
  }

  /** The script's exit code: 1 for a wrong argument count, a malformed
      date, an order found wrong, or an exception escaping the check; 0 only
      when the order was confirmed. */
  function ExitCode(argv: seq<string>, validDay: string -> bool, verdict: Outcome<bool>): (code: nat)
    ensures code == 0 <==> |argv| == 3 && validDay(argv[1]) && validDay(argv[2]) && verdict == Done(true)
    ensures code == 0 || code == 1
  {
    if |argv| != 3 then 1
    else if !validDay(argv[1]) || !validDay(argv[2]) then 1
    else
      match verdict
      case Done(true) => 0
      case _ => 1
  }
}
