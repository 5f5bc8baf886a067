/** Generic sequence helpers standing in for the SQL row selections the handlers issue. */
module Seqs {
  import opened Results

  /** The rows of `xs` satisfying `p`, in table order (a `WHERE` clause). */
  function Filter<T>(xs: seq<T>, p: T -> bool): (r: seq<T>)
    ensures |r| <= |xs|
    ensures forall i :: 0 <= i < |r| ==> r[i] in xs && p(r[i])
    ensures forall i :: 0 <= i < |xs| && p(xs[i]) ==> xs[i] in r
  {
    if |xs| == 0 then []
    else (if p(xs[0]) then [xs[0]] else []) + Filter(xs[1..], p)
  }

  /** Filtering a table with one more row at the end: the old selection, plus that row if it matches. */
  lemma {:induction false} FilterSnoc<T>(xs: seq<T>, x: T, p: T -> bool)
    ensures Filter(xs + [x], p) == Filter(xs, p) + (if p(x) then [x] else [])
  {
    if |xs| == 0 {
      assert xs + [x] == [x];
    } else {
      assert (xs + [x])[1..] == xs[1..] + [x];
      FilterSnoc(xs[1..], x, p);
    }
  }

  /**
   * Two tables of the same length that agree on which rows match, and on the
   * matching rows themselves, give the same selection.
   */
  lemma {:induction false} FilterSame<T>(xs: seq<T>, ys: seq<T>, p: T -> bool)
    requires |xs| == |ys|
    requires forall i :: 0 <= i < |xs| ==> p(xs[i]) == p(ys[i]) && (p(xs[i]) ==> xs[i] == ys[i])
    ensures Filter(xs, p) == Filter(ys, p)
  {
    if |xs| > 0 {
      assert forall i :: 0 <= i < |xs| - 1 ==> xs[1..][i] == xs[i + 1] && ys[1..][i] == ys[i + 1];
      FilterSame(xs[1..], ys[1..], p);
    }
  }

  /** A selection keeps the table order: rows with ascending keys stay ascending. */
  lemma {:induction false} FilterKeepsOrder<T>(xs: seq<T>, p: T -> bool, key: T -> int)
    requires forall i, j :: 0 <= i < j < |xs| ==> key(xs[i]) < key(xs[j])
    ensures forall i, j :: 0 <= i < j < |Filter(xs, p)| ==> key(Filter(xs, p)[i]) < key(Filter(xs, p)[j])
  {
    if |xs| > 0 {
      var rest := Filter(xs[1..], p);
      FilterKeepsOrder(xs[1..], p, key);
      forall k | 0 <= k < |rest| ensures key(xs[0]) < key(rest[k]) {
        var m :| 0 <= m < |xs[1..]| && xs[1..][m] == rest[k];
        assert xs[1..][m] == xs[m + 1];
      }
    }
  }

  /** Index of the first row satisfying `p` (`rows[0]` of a query), if any. */
  function First<T>(xs: seq<T>, p: T -> bool): (r: Option<nat>)
    ensures r.Some? ==> r.value < |xs| && p(xs[r.value])
    ensures r.Some? ==> forall j :: 0 <= j < r.value ==> !p(xs[j])
    ensures r.None? <==> forall j :: 0 <= j < |xs| ==> !p(xs[j])
  {
    if |xs| == 0 then None
    else if p(xs[0]) then Some(0)
    else match First(xs[1..], p)
      case None => None
      case Some(k) => Some(k + 1)
  }

  /** `First` depends only on which rows match. */
  lemma FirstSame<T>(xs: seq<T>, ys: seq<T>, p: T -> bool)
    requires |xs| == |ys|
    requires forall i :: 0 <= i < |xs| ==> p(xs[i]) == p(ys[i])
    ensures First(xs, p) == First(ys, p)
  {
    var a, b := First(xs, p), First(ys, p);
    if a.Some? && b.Some? {
      assert !(a.value < b.value) && !(b.value < a.value);
    }
  }

  /** A row appended at the end does not change an existing first match, nor a missing one it fails. */
  lemma FirstSnoc<T>(xs: seq<T>, x: T, p: T -> bool)
    requires First(xs, p).Some? || !p(x)
    ensures First(xs + [x], p) == First(xs, p)
  {
    var a, b := First(xs, p), First(xs + [x], p);
    assert forall i :: 0 <= i < |xs| ==> (xs + [x])[i] == xs[i];
    if a.Some? && b.Some? {
      assert !(a.value < b.value) && !(b.value < a.value);
    }
  }

  /** The first `n` rows (a `LIMIT n` clause). */
  function Take<T>(xs: seq<T>, n: nat): (r: seq<T>)
    ensures |r| == if |xs| <= n then |xs| else n
    ensures forall i :: 0 <= i < |r| ==> r[i] == xs[i]
  {
    if |xs| <= n then xs else xs[..n]
  }

  /** The rows in the opposite order (newest first when `xs` is in insertion order). */
  function Reverse<T>(xs: seq<T>): (r: seq<T>)
    ensures |r| == |xs|
    ensures forall i :: 0 <= i < |xs| ==> r[i] == xs[|xs| - 1 - i]
  {
    if |xs| == 0 then [] else Reverse(xs[1..]) + [xs[0]]
  }

  /** `f` applied to every element (`Array.prototype.map`). */
  function Map<A, B>(f: A -> B, xs: seq<A>): (r: seq<B>)
    ensures |r| == |xs|
    ensures forall i :: 0 <= i < |xs| ==> r[i] == f(xs[i])
  {
    seq(|xs|, i requires 0 <= i < |xs| => f(xs[i]))
  }

  /** Concatenation regroups freely; stated once so proofs can name the step. */
  lemma ConcatAssoc<T>(x: seq<T>, y: seq<T>, z: seq<T>)
    ensures x + y + z == x + (y + z)
  {
  }
}
