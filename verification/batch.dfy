/** `process_calls_batch` of both processors. The client runs its calls one
    after the other, or on a thread pool when parallel transcription is
    enabled (audio_processor_client.py:283-375); the first processor always
    uses a pool of `MAX_CONCURRENT_TRANSCRIPTIONS` threads
    (audio_processor.py:649-688). A pool hands results back in the order the
    calls finish, which the scheduler decides: here that order is a
    parameter, a permutation of the call indices. */
module Batch {
  import opened Common
  import opened Calls
  import opened ClientPipeline

  /** `0, 1, ..., n - 1`. */
  function Range(n: nat): (r: seq<nat>)
    ensures |r| == n
    ensures forall k :: 0 <= k < n ==> r[k] == k
  {
    if n == 0 then [] else Range(n - 1) + [n - 1]
  }

  /** Each index below `n` once: the order `as_completed` yields the futures
      of `n` submitted calls in. */
  predicate IsOrder(order: seq<nat>, n: nat) {
    multiset(order) == multiset(Range(n))
  }

  predicate Indices(ix: seq<nat>, n: nat) {
    forall k :: 0 <= k < |ix| ==> ix[k] < n
  }

  /** `[xs[i] for i in ix]`. */
  function Pick<T>(xs: seq<T>, ix: seq<nat>): (r: seq<T>)
    requires Indices(ix, |xs|)
    ensures |r| == |ix|
  {
    if ix == [] then [] else [xs[ix[0]]] + Pick(xs, ix[1..])
  }

  lemma {:induction false} PickAppend<T>(xs: seq<T>, a: seq<nat>, b: seq<nat>)
    requires Indices(a, |xs|) && Indices(b, |xs|)
    ensures Indices(a + b, |xs|)
    ensures Pick(xs, a + b) == Pick(xs, a) + Pick(xs, b)
  {
    assert Indices(a + b, |xs|) by {
      forall k | 0 <= k < |a + b| ensures (a + b)[k] < |xs| {
        if k >= |a| {
          assert (a + b)[k] == b[k - |a|];
        }
      }
    }
    if a != [] {
      assert (a + b)[1..] == a[1..] + b;
      PickAppend(xs, a[1..], b);
    } else {
      assert a + b == b;
    }
  }

  lemma IndicesAround(b: seq<nat>, j: nat, n: nat)
    requires j < |b| && Indices(b, n)
    ensures Indices(b[..j], n) && Indices(b[j + 1..], n) && b[j] < n
  {
    var lo, hi := b[..j], b[j + 1..];
    forall k | 0 <= k < |lo| ensures lo[k] < n { assert lo[k] == b[k]; }
    forall k | 0 <= k < |hi| ensures hi[k] < n { assert hi[k] == b[j + 1 + k]; }
  }

  lemma MultisetWithout<T>(b: seq<T>, j: nat)
    requires j < |b|
    ensures multiset(b) == multiset(b[..j] + b[j + 1..]) + multiset{b[j]}
  {
    assert b == b[..j] + [b[j]] + b[j + 1..];
  }

  lemma MultisetCancel<T>(m: multiset<T>, n: multiset<T>, x: T)
    requires m + multiset{x} == n + multiset{x}
    ensures m == n
  {
    assert m == (m + multiset{x}) - multiset{x};
    assert n == (n + multiset{x}) - multiset{x};
  }

  /** Taking one index out of the middle takes its element out of the
      multiset. */
  lemma PickWithout<T>(xs: seq<T>, lo: seq<nat>, x: nat, hi: seq<nat>)
    requires Indices(lo, |xs|) && x < |xs| && Indices(hi, |xs|)
    ensures Indices(lo + hi, |xs|) && Indices(lo + [x] + hi, |xs|)
    ensures multiset(Pick(xs, lo + [x] + hi)) == multiset(Pick(xs, lo + hi)) + multiset{xs[x]}
  {
    assert Pick(xs, [x]) == [xs[x]];
    PickAppend(xs, [x], hi);
    PickAppend(xs, lo, [x] + hi);
    PickAppend(xs, lo, hi);
    assert lo + [x] + hi == lo + ([x] + hi);
  }

  /** Where the first index of `a` sits in `b`, when both hold the same
      indices. */
  lemma Extract(a: seq<nat>, b: seq<nat>) returns (j: nat)
    requires a != [] && multiset(a) == multiset(b)
    ensures j < |b| && b[j] == a[0]
    ensures multiset(a[1..]) == multiset(b[..j] + b[j + 1..])
  {
    assert a[0] in multiset(b);
    j :| 0 <= j < |b| && b[j] == a[0];
    MultisetWithout(b, j);
    MultisetWithout(a, 0);
    assert a[..0] + a[1..] == a[1..];
    MultisetCancel(multiset(a[1..]), multiset(b[..j] + b[j + 1..]), a[0]);
  }

  /** Picking with two index sequences that hold the same indices, in any
      order, gives the same multiset of elements. */
  lemma {:induction false} PickMultiset<T>(xs: seq<T>, a: seq<nat>, b: seq<nat>)
    requires Indices(a, |xs|) && Indices(b, |xs|)
    requires multiset(a) == multiset(b)
    ensures multiset(Pick(xs, a)) == multiset(Pick(xs, b))
    decreases |a|
  {
    if a == [] {
      assert |b| == |multiset(b)| == 0;
    } else {
      var j := Extract(a, b);
      var lo, hi := b[..j], b[j + 1..];
      assert b == lo + [a[0]] + hi;
      IndicesAround(b, j, |xs|);
      assert Indices(a[1..], |xs|);
      PickWithout(xs, lo, a[0], hi);
      PickMultiset(xs, a[1..], lo + hi);
      assert Pick(xs, a) == [xs[a[0]]] + Pick(xs, a[1..]);
    }
  }

  /** Picking the first `k` indices in order gives the first `k` elements. */
  lemma {:induction false} PickRange<T>(xs: seq<T>, k: nat)
    requires k <= |xs|
    ensures Indices(Range(k), |xs|)
    ensures Pick(xs, Range(k)) == xs[..k]
  {
    if k > 0 {
      PickRange(xs, k - 1);
      var last: nat := k - 1;
      assert Indices([last], |xs|);
      PickAppend(xs, Range(k - 1), [last]);
      assert Pick(xs, [last]) == [xs[last]];
      assert xs[..k] == xs[..k - 1] + [xs[last]];
    }
  }

  /** In a completion order every call index occurs exactly once and nothing
      else occurs. */
  lemma {:induction false} OrderOnce(order: seq<nat>, n: nat)
    requires IsOrder(order, n)
    ensures |order| == n
    ensures Indices(order, n)
    ensures forall i :: 0 <= i < n ==> multiset(order)[i] == 1
  {
    assert |order| == |multiset(order)| == |multiset(Range(n))| == n;
    forall k | 0 <= k < |order| ensures order[k] < n {
      assert order[k] in multiset(Range(n));
    }
    RangeOnce(n);
  }

  lemma {:induction false} RangeOnce(n: nat)
    ensures forall i :: 0 <= i < n ==> multiset(Range(n))[i] == 1
    ensures forall i :: i >= n ==> multiset(Range(n))[i] == 0
  {
    if n > 0 {
      RangeOnce(n - 1);
      var last: nat := n - 1;
      var before := multiset(Range(n - 1));
      assert multiset(Range(n)) == before + multiset{last};
      forall i | 0 <= i < n ensures multiset(Range(n))[i] == 1 {
        if i < last {
          assert before[i] == 1;
        } else {
          assert before[i] == 0;
        }
      }
      forall i | i >= n ensures multiset(Range(n))[i] == 0 {
        assert before[i] == 0;
      }
    }
  }

  /** What the pool records for one call: its result, or the placeholder the
      `except` branch builds from the exception. */
  function Settle(call: Call, o: Outcome<CallResult>): (r: CallResult)
    ensures o.Done? ==> r == o.value
    ensures o.Raised? ==> r.callId == call.id && !r.success && r.transcriptPath.None? && r.error == Some(o.message)
  {
    match o
    case Done(v) => v
    case Raised(m) => Initial(call.id).(error := Some(m))
  }

  /** `_process_calls_sequential`: the calls in order; an exception from a
      call is not caught there and ends the whole batch. */
  method Sequential(calls: seq<Call>, run: Call -> Outcome<CallResult>) returns (r: Outcome<seq<CallResult>>)
    ensures r.Done? <==> forall i :: 0 <= i < |calls| ==> run(calls[i]).Done?
    ensures r.Done? ==> |r.value| == |calls| && forall i :: 0 <= i < |calls| ==> r.value[i] == run(calls[i]).value
    ensures r.Raised? ==> exists i :: 0 <= i < |calls| && run(calls[i]) == Raised(r.message)
                                   && forall j :: 0 <= j < i ==> run(calls[j]).Done?
  {
    var results: seq<CallResult> := [];
    var i := 0;
    while i < |calls|
      invariant 0 <= i <= |calls|
      invariant |results| == i
      invariant forall j :: 0 <= j < i ==> run(calls[j]).Done? && results[j] == run(calls[j]).value
    {
      match run(calls[i])
      case Raised(m) =>
        return Raised(m);
      case Done(v) =>
        results := results + [v];
      i := i + 1;
    }
    return Done(results);
  }

  /** Elements picked in a completion order are the elements themselves,
      rearranged. */
  lemma Permuted<T>(xs: seq<T>, order: seq<nat>)
    requires IsOrder(order, |xs|)
    ensures Indices(order, |xs|)
    ensures multiset(Pick(xs, order)) == multiset(xs)
  {
    OrderOnce(order, |xs|);
    PickRange(xs, |xs|);
    PickMultiset(xs, order, Range(|xs|));
    assert xs[..|xs|] == xs;
  }

  /** A sequence that agrees with `xs[ix[k]]` at every `k` is the pick. */
  lemma {:induction false} PickPointwise<T>(xs: seq<T>, ix: seq<nat>, r: seq<T>)
    requires Indices(ix, |xs|) && |r| == |ix|
    requires forall k :: 0 <= k < |ix| ==> r[k] == xs[ix[k]]
    ensures r == Pick(xs, ix)
  {
    if ix != [] {
      assert Indices(ix[1..], |xs|);
      PickPointwise(xs, ix[1..], r[1..]);
      assert r == [r[0]] + r[1..];
    }
  }

  /** The pool's loop over `as_completed`: one settled result per call, in
      completion order. */
  method Parallel(calls: seq<Call>, run: Call -> Outcome<CallResult>, order: seq<nat>) returns (results: seq<CallResult>)
    requires IsOrder(order, |calls|)
    ensures |order| == |results| == |calls| && Indices(order, |calls|)
    ensures forall j :: 0 <= j < |calls| ==> results[j] == Settle(calls[order[j]], run(calls[order[j]]))
    ensures multiset(results) == multiset(Map(calls, c => Settle(c, run(c))))
  {
    OrderOnce(order, |calls|);
    results := [];
    var j := 0;
    while j < |calls|
      invariant 0 <= j <= |calls|
      invariant |results| == j
      invariant forall k :: 0 <= k < j ==> results[k] == Settle(calls[order[k]], run(calls[order[k]]))
    {
      results := results + [Settle(calls[order[j]], run(calls[order[j]]))];
      j := j + 1;
    }
    var settled := Map(calls, c => Settle(c, run(c)));
    PickPointwise(settled, order, results);
    Permuted(settled, order);
  }

  /** The client's parallel settings; `None` is an attribute `Config` does
      not define, as in the shipped configuration. */
  datatype ParallelSettings = ParallelSettings(enabled: Option<bool>, maxCpuWorkers: Option<int>)

  /** `ENABLE_PARALLEL_TRANSCRIPTIONS and total_calls > 1 and
      MAX_CPU_WORKERS > 1`, evaluated left to right. */
  function UseParallel(p: ParallelSettings, total: nat): (r: Outcome<bool>)
    ensures r == Done(true) <==> p.enabled == Some(true) && total > 1 && p.maxCpuWorkers.Some? && p.maxCpuWorkers.value > 1
    ensures p.enabled.None? ==> r == Raised(MissingSetting("ENABLE_PARALLEL_TRANSCRIPTIONS"))
    ensures r.Raised? ==> p.enabled != Some(false) && (p.enabled.Some? ==> total > 1 && p.maxCpuWorkers.None?)
  {
    match p.enabled
    case None => Raised(MissingSetting("ENABLE_PARALLEL_TRANSCRIPTIONS"))
    case Some(false) => Done(false)
    case Some(true) =>
      if total <= 1 then Done(false)
      else
        match p.maxCpuWorkers
        case None => Raised(MissingSetting("MAX_CPU_WORKERS"))
        case Some(m) => Done(m > 1)
  }

  /** `min(MAX_CPU_WORKERS, len(calls_data))`. */
  function Workers(maxCpu: int, total: nat): (w: int)
    ensures w <= maxCpu && w <= total
    ensures w == maxCpu || w == total
  {
    if maxCpu < total then maxCpu else total
  }

  /** On the parallel path the pool has at least two workers and never more
      than there are calls. */
  lemma ParallelWorkers(p: ParallelSettings, total: nat)
    requires UseParallel(p, total) == Done(true)
    ensures 2 <= Workers(p.maxCpuWorkers.value, total) <= total
  {
  }

  /** The client's batch: the settings' exception, the sequential loop, or
      the pool. */
  method ClientBatch(p: ParallelSettings, calls: seq<Call>, run: Call -> Outcome<CallResult>, order: seq<nat>)
    returns (r: Outcome<seq<CallResult>>)
    requires IsOrder(order, |calls|)
    ensures UseParallel(p, |calls|).Raised? ==> r == Raised(UseParallel(p, |calls|).message)
    ensures UseParallel(p, |calls|) == Done(false) && (forall i :: 0 <= i < |calls| ==> run(calls[i]).Done?) ==>
      r.Done? && r.value == Map(calls, c => Settle(c, run(c)))
    ensures UseParallel(p, |calls|) == Done(true) ==>
      r.Done? && |r.value| == |calls| && multiset(r.value) == multiset(Map(calls, c => Settle(c, run(c))))
    ensures r.Done? ==> |r.value| == |calls|
  {
    match UseParallel(p, |calls|)
    case Raised(m) =>
      r := Raised(m);
    case Done(parallel) =>
      if parallel {
        var results := Parallel(calls, run, order);
        r := Done(results);
      } else {
        r := Sequential(calls, run);
      }
  }

  /** `str(ValueError)` of a pool asked for no workers. */
  const NoWorkers := "max_workers must be greater than 0"

  /** The first processor's batch: a pool of `MAX_CONCURRENT_TRANSCRIPTIONS`
      threads, which refuses a size below one. */
  method ServerBatch(maxConcurrent: int, calls: seq<Call>, run: Call -> Outcome<CallResult>, order: seq<nat>)
    returns (r: Outcome<seq<CallResult>>)
    requires IsOrder(order, |calls|)
    ensures r.Raised? <==> maxConcurrent <= 0
    ensures r.Raised? ==> r.message == NoWorkers
    ensures r.Done? ==> |r.value| == |calls| && multiset(r.value) == multiset(Map(calls, c => Settle(c, run(c))))
    ensures |order| == |calls| && Indices(order, |calls|)
    ensures r.Done? ==> forall j :: 0 <= j < |calls| ==> r.value[j] == Settle(calls[order[j]], run(calls[order[j]]))
  {
    OrderOnce(order, |calls|);
    if maxConcurrent <= 0 {
      return Raised(NoWorkers);
    }
    var results := Parallel(calls, run, order);
    return Done(results);
  }
}
