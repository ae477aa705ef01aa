/** Small shared vocabulary: an optional value, the outcome of a call that may
    raise, and sequence helpers. */
module Common {

  /** A value that may be absent (Python's `None`). */
  datatype Option<+T> = None | Some(value: T)

  /** A call into code outside the model: it returns a value, or it raises an
      exception whose `str(e)` is `message`. */
  datatype Outcome<+T> = Done(value: T) | Raised(message: string)

  /** Concatenation of a sequence of sequences. */
  function Flatten<T>(xss: seq<seq<T>>): (r: seq<T>)
    ensures |xss| == 0 ==> r == []
  {
    if |xss| == 0 then [] else xss[0] + Flatten(xss[1..])
  }

  lemma {:induction false} FlattenAppend<T>(xss: seq<seq<T>>, yss: seq<seq<T>>)
    ensures Flatten(xss + yss) == Flatten(xss) + Flatten(yss)
  {
    if |xss| == 0 {
      assert xss + yss == yss;
    } else {
      assert (xss + yss)[1..] == xss[1..] + yss;
      FlattenAppend(xss[1..], yss);
    }
  }

  lemma FlattenSingle<T>(xs: seq<T>)
    ensures Flatten([xs]) == xs
  {
    assert [xs][1..] == [];
  }

  /** `f` applied to every element of `xs`. */
  function Map<A, B>(xs: seq<A>, f: A -> B): (r: seq<B>)
    ensures |r| == |xs|
    ensures forall i :: 0 <= i < |xs| ==> r[i] == f(xs[i])
  {
    if |xs| == 0 then [] else [f(xs[0])] + Map(xs[1..], f)
  }

  /** Number of elements of `xs` that satisfy `p`. */
  function Count<T>(xs: seq<T>, p: T -> bool): (n: nat)
    ensures n <= |xs|
  {
    if |xs| == 0 then 0 else (if p(xs[0]) then 1 else 0) + Count(xs[1..], p)
  }

  /** The elements of `xs` that satisfy `p`, in order. */
  function Filter<T>(xs: seq<T>, p: T -> bool): (r: seq<T>)
    ensures |r| == Count(xs, p)
    ensures forall i :: 0 <= i < |r| ==> p(r[i])
  {
    if |xs| == 0 then [] else (if p(xs[0]) then [xs[0]] else []) + Filter(xs[1..], p)
  }

  lemma {:induction false} FilterAppend<T>(xs: seq<T>, ys: seq<T>, p: T -> bool)
    ensures Filter(xs + ys, p) == Filter(xs, p) + Filter(ys, p)
    ensures Count(xs + ys, p) == Count(xs, p) + Count(ys, p)
  {
    if |xs| == 0 {
      assert xs + ys == ys;
    } else {
      assert (xs + ys)[0] == xs[0];
      assert (xs + ys)[1..] == xs[1..] + ys;
      FilterAppend(xs[1..], ys, p);
    }
  }

  /** Nothing is kept exactly when no element satisfies the predicate. */
  lemma {:induction false} FilterEmpty<T>(xs: seq<T>, p: T -> bool)
    ensures Filter(xs, p) == [] <==> forall i :: 0 <= i < |xs| ==> !p(xs[i])
  {
    if |xs| != 0 {
      FilterEmpty(xs[1..], p);
      if p(xs[0]) {
        assert Filter(xs, p)[0] == xs[0];
      } else {
        assert forall i :: 1 <= i < |xs| ==> xs[i] == xs[1..][i - 1];
      }
    }
  }

  /** Every element is counted either by `p` or by its negation `q`. */
  lemma {:induction false} CountComplement<T>(xs: seq<T>, p: T -> bool, q: T -> bool)
    requires forall x :: q(x) == !p(x)
    ensures Count(xs, p) + Count(xs, q) == |xs|
  {
    if |xs| != 0 {
      CountComplement(xs[1..], p, q);
    }
  }

  /** All elements are counted exactly when all satisfy the predicate. */
  lemma {:induction false} CountAll<T>(xs: seq<T>, p: T -> bool)
    ensures Count(xs, p) == |xs| <==> forall i :: 0 <= i < |xs| ==> p(xs[i])
  {
    if |xs| != 0 {
      CountAll(xs[1..], p);
      if Count(xs, p) == |xs| {
        assert forall i :: 1 <= i < |xs| ==> xs[i] == xs[1..][i - 1];
      } else if p(xs[0]) {
        var i :| 0 <= i < |xs[1..]| && !p(xs[1..][i]);
        assert xs[i + 1] == xs[1..][i];
      }
    }
  }

  /** Nothing is counted exactly when no element satisfies the predicate. */
  lemma CountNone<T>(xs: seq<T>, p: T -> bool)
    ensures Count(xs, p) == 0 <==> forall i :: 0 <= i < |xs| ==> !p(xs[i])
  {
    FilterEmpty(xs, p);
  }

  /** A concatenation is non-empty as soon as its first part is. */
  lemma FlattenNonEmpty<T>(xss: seq<seq<T>>)
    requires |xss| > 0 && xss[0] != []
    ensures Flatten(xss) != []
  {
    assert Flatten(xss)[0] == xss[0][0];
  }

  /** Where the middle part of a three-part concatenation sits. */
  lemma ConcatMiddle<T>(a: seq<T>, b: seq<T>, c: seq<T>, j: nat)
    requires j < |b|
    ensures (a + b + c)[|a| + j] == b[j]
  {
  }

  /** The same, for a page known to be made of the three parts. */
  lemma FramedAt<T>(a: seq<T>, b: seq<T>, c: seq<T>, page: seq<T>, j: nat)
    requires page == a + b + c && j < |b|
    ensures page[|a| + j] == b[j]
  {
  }

  /** An element in front of the first of three parts is in front of the whole. */
  lemma ConsAppend<T>(x: T, a: seq<T>, b: seq<T>, c: seq<T>)
    ensures [x] + a + b + c == [x] + (a + b + c)
  {
  }

  /** The first and last parts of a three-part concatenation. */
  lemma ConcatEnds<T>(a: seq<T>, b: seq<T>, c: seq<T>)
    ensures (a + b + c)[..|a|] == a
    ensures (a + b + c)[|a| + |b|..] == c
  {
  }
}
