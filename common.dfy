/**
 * Shared value types and sequence helpers used by every component model:
 * an Option/Result pair for the source's `null`/`undefined` and thrown
 * errors, and the order-preserving `filter` and first-occurrence
 * de-duplication that the client code gets from `Array.prototype.filter`
 * and `new Set(...)`.
 */
module Common {

  datatype Option<+T> = None | Some(value: T)

  datatype Result<+T, +E> = Ok(value: T) | Err(error: E)

  /** `xs.filter(p)`: the elements satisfying `p`, in their original order. */
  function Filter<T(!new)>(xs: seq<T>, p: T -> bool): (r: seq<T>)
    ensures |r| <= |xs|
    ensures forall x :: x in r <==> x in xs && p(x)
    ensures forall i :: 0 <= i < |r| ==> p(r[i])
  {
    if xs == [] then []
    else (if p(xs[0]) then [xs[0]] else []) + Filter(xs[1..], p)
  }

  /** Filtering distributes over concatenation, which pins down the order of the result. */
  lemma {:induction false} FilterAppend<T(!new)>(xs: seq<T>, ys: seq<T>, p: T -> bool)
    ensures Filter(xs + ys, p) == Filter(xs, p) + Filter(ys, p)
  {
    if xs == [] {
      assert xs + ys == ys;
    } else {
      assert (xs + ys)[0] == xs[0];
      assert (xs + ys)[1..] == xs[1..] + ys;
      FilterAppend(xs[1..], ys, p);
    }
  }

  /** A filter whose predicate accepts every element returns the whole sequence. */
  lemma {:induction false} FilterKeepsAll<T(!new)>(xs: seq<T>, p: T -> bool)
    requires forall x :: x in xs ==> p(x)
    ensures Filter(xs, p) == xs
  {
    if xs != [] {
      assert xs[0] in xs;
      assert forall x :: x in xs[1..] ==> x in xs;
      FilterKeepsAll(xs[1..], p);
    }
  }

  /** Two predicates that agree on every element give the same filter. */
  lemma {:induction false} FilterCongruent<T(!new)>(xs: seq<T>, p: T -> bool, q: T -> bool)
    requires forall x :: x in xs ==> p(x) == q(x)
    ensures Filter(xs, p) == Filter(xs, q)
  {
    if xs != [] {
      assert xs[0] in xs;
      assert forall x :: x in xs[1..] ==> x in xs;
      FilterCongruent(xs[1..], p, q);
    }
  }

  /** No two elements share a key. */
  predicate DistinctKeys<T, K(==)>(xs: seq<T>, key: T -> K) {
    forall i, j :: 0 <= i < j < |xs| ==> key(xs[i]) != key(xs[j])
  }

  /** Filtering keeps the keys distinct. */
  lemma {:induction false} FilterKeepsKeysDistinct<T(!new), K>(xs: seq<T>, p: T -> bool, key: T -> K)
    requires DistinctKeys(xs, key)
    ensures DistinctKeys(Filter(xs, p), key)
  {
    if xs != [] {
      var rest := xs[1..];
      assert DistinctKeys(rest, key) by {
        forall i, j | 0 <= i < j < |rest| ensures key(rest[i]) != key(rest[j]) {
          assert rest[i] == xs[i + 1] && rest[j] == xs[j + 1];
        }
      }
      FilterKeepsKeysDistinct(rest, p, key);
      var tail := Filter(rest, p);
      forall y | y in tail ensures key(y) != key(xs[0]) {
        var j :| 0 <= j < |rest| && rest[j] == y;
        assert xs[j + 1] == y;
      }
      var r := Filter(xs, p);
      assert r == (if p(xs[0]) then [xs[0]] else []) + tail;
      forall i, j | 0 <= i < j < |r| ensures key(r[i]) != key(r[j]) {
        if p(xs[0]) && i == 0 {
          assert r[j] == tail[j - 1] && r[j] in tail;
        } else if p(xs[0]) {
          assert r[i] == tail[i - 1] && r[j] == tail[j - 1];
        }
      }
    }
  }

  predicate NoDuplicates<T(==,!new)>(xs: seq<T>) {
    forall i, j :: 0 <= i < j < |xs| ==> xs[i] != xs[j]
  }

  /** Index of the first occurrence of `x` in `xs`. */
  function FirstIndex<T(==,!new)>(xs: seq<T>, x: T): (k: nat)
    requires x in xs
    ensures k < |xs| && xs[k] == x
    ensures forall j :: 0 <= j < k ==> xs[j] != x
  {
    if xs[0] == x then 0 else 1 + FirstIndex(xs[1..], x)
  }

  /**
   * `[...new Set(xs)]`: each element once, kept where it first occurs.
   * Defined on the last element, like a set that is filled left to right.
   */
  function Distinct<T(==,!new)>(xs: seq<T>): (r: seq<T>)
    ensures forall x :: x in r <==> x in xs
    ensures NoDuplicates(r)
  {
    if xs == [] then []
    else
      var d := Distinct(xs[..|xs| - 1]);
      var last := xs[|xs| - 1];
      assert forall x :: x in xs <==> x in xs[..|xs| - 1] || x == last;
      if last in d then d else d + [last]
  }

  lemma FirstIndexOfPrefix<T(!new)>(xs: seq<T>, n: nat, x: T)
    requires n <= |xs| && x in xs[..n]
    ensures x in xs && FirstIndex(xs, x) == FirstIndex(xs[..n], x)
  {
    var k := FirstIndex(xs[..n], x);
    assert xs[k] == x;
    var k' := FirstIndex(xs, x);
    assert k' <= k;
    assert xs[..n][k'] == x;
  }

  lemma FirstIndexOfFreshLast<T(!new)>(xs: seq<T>)
    requires xs != [] && xs[|xs| - 1] !in xs[..|xs| - 1]
    ensures FirstIndex(xs, xs[|xs| - 1]) == |xs| - 1
  {
    assert forall m :: 0 <= m < |xs| - 1 ==> xs[..|xs| - 1][m] == xs[m];
  }

  /** One step of `Distinct`: the last element is added unless it was seen before. */
  lemma DistinctUnfold<T(!new)>(xs: seq<T>)
    requires xs != []
    ensures Distinct(xs) == (if xs[|xs| - 1] in Distinct(xs[..|xs| - 1]) then Distinct(xs[..|xs| - 1])
                             else Distinct(xs[..|xs| - 1]) + [xs[|xs| - 1]])
  {
  }

  /** The distinct elements come out in the order of their first occurrence in `xs`. */
  lemma {:induction false} DistinctInFirstOccurrenceOrder<T(!new)>(xs: seq<T>, i: nat, j: nat)
    requires i < j < |Distinct(xs)|
    ensures Distinct(xs)[i] in xs && Distinct(xs)[j] in xs
    ensures FirstIndex(xs, Distinct(xs)[i]) < FirstIndex(xs, Distinct(xs)[j])
  {
    var r := Distinct(xs);
    assert r[i] in r && r[j] in r;
    var pre := xs[..|xs| - 1];
    var d := Distinct(pre);
    var last := xs[|xs| - 1];
    DistinctUnfold(xs);
    assert d[i] in d;
    if j < |d| {
      assert d[j] in d;
      DistinctInFirstOccurrenceOrder(pre, i, j);
      FirstIndexOfPrefix(xs, |xs| - 1, d[i]);
      FirstIndexOfPrefix(xs, |xs| - 1, d[j]);
    } else {
      // r[j] is the newly added last element, which does not occur earlier.
      assert last !in pre;
      FirstIndexOfPrefix(xs, |xs| - 1, d[i]);
      FirstIndexOfFreshLast(xs);
    }
  }

  /** A sequence that repeats one value, and holds it at least once, has just that value as its distinct elements. */
  lemma {:induction false} DistinctOfRepeats<T(!new)>(xs: seq<T>, x: T)
    requires x in xs && forall y :: y in xs ==> y == x
    ensures Distinct(xs) == [x]
    decreases |xs|
  {
    var pre := xs[..|xs| - 1];
    DistinctUnfold(xs);
    assert xs[|xs| - 1] in xs;
    if pre == [] {
      assert Distinct(pre) == [];
    } else {
      assert pre[0] == xs[0] && xs[0] in xs;
      assert forall y :: y in pre ==> y in xs;
      DistinctOfRepeats(pre, x);
    }
  }
}
