/**
 * Mapping the oracle's 1-based image indices back onto the search results
 * (main.py, the `matching_amazon` loop of the scraper). Each index `k` is
 * looked up as `amazon_results[k - 1]` with Python's list indexing: a
 * negative position counts from the end, and a position outside the list
 * raises `IndexError`, which the loop catches and skips.
 */
module IndexResolution {
  import opened Wrappers

  /** Python's `xs[j]` on a list of length `n`: the position it reads, or
      `None` where it raises `IndexError`. */
  function PyIndex(n: nat, j: int): (r: Option<nat>)
    ensures r.Some? <==> -(n as int) <= j < n
    ensures r.Some? ==> r.value < n && (r.value == j || r.value == n + j)
  {
    if 0 <= j < n then Some(j)
    else if -(n as int) <= j < 0 then Some(n + j)
    else None
  }

  /** The matched results, in the order of the oracle's indices. */
  function Resolve<T>(results: seq<T>, indexes: seq<int>): (r: seq<T>)
    ensures |r| <= |indexes|
    ensures forall t :: 0 <= t < |r| ==> r[t] in results
  {
    if indexes == [] then []
    else Pick(results, indexes[0]) + Resolve(results, indexes[1..])
  }

  /** `[results[k - 1]]`, or nothing where that lookup raises. */
  function Pick<T>(results: seq<T>, k: int): (r: seq<T>)
    ensures |r| <= 1 && forall t :: 0 <= t < |r| ==> r[t] in results
  {
    match PyIndex(|results|, k - 1)
    case None => []
    case Some(p) => [results[p]]
  }

  /** The loop as the scraper runs it: one lookup per index, appending the
      result or skipping the index. */
  method ResolveMatches<T>(results: seq<T>, indexes: seq<int>) returns (matched: seq<T>)
    ensures matched == Resolve(results, indexes)
  {
    matched := [];
    var i := 0;
    while i < |indexes|
      invariant 0 <= i <= |indexes|
      invariant matched + Resolve(results, indexes[i..]) == Resolve(results, indexes)
    {
      var position := PyIndex(|results|, indexes[i] - 1);
      ResolveAdvance(results, indexes, i, matched);
      if position.Some? {
        matched := matched + [results[position.value]];
      }
      i := i + 1;
    }
  }

  lemma ResolveAdvance<T>(results: seq<T>, indexes: seq<int>, i: nat, matched: seq<T>)
    requires i < |indexes|
    requires matched + Resolve(results, indexes[i..]) == Resolve(results, indexes)
    ensures matched + Pick(results, indexes[i]) + Resolve(results, indexes[i + 1..]) == Resolve(results, indexes)
  {
    ResolveStep(results, indexes, i);
    assert matched + (Pick(results, indexes[i]) + Resolve(results, indexes[i + 1..]))
      == matched + Pick(results, indexes[i]) + Resolve(results, indexes[i + 1..]);
  }

  lemma ResolveStep<T>(results: seq<T>, indexes: seq<int>, i: nat)
    requires i < |indexes|
    ensures Resolve(results, indexes[i..]) == Pick(results, indexes[i]) + Resolve(results, indexes[i + 1..])
  {
    assert indexes[i..][0] == indexes[i] && indexes[i..][1..] == indexes[i + 1..];
  }

  /** Resolution distributes over concatenated index lists. */
  lemma {:induction false} ResolveConcat<T>(results: seq<T>, a: seq<int>, b: seq<int>)
    ensures Resolve(results, a + b) == Resolve(results, a) + Resolve(results, b)
    decreases |a|
  {
    if a == [] {
      assert a + b == b;
    } else {
      assert (a + b)[1..] == a[1..] + b;
      ResolveConcat(results, a[1..], b);
    }
  }

  /** Indices that are all between 1 and the number of results pick exactly
      `results[k - 1]` each, keeping their order and repetitions. */
  lemma {:induction false} ResolveInRange<T>(results: seq<T>, indexes: seq<int>)
    requires forall t :: 0 <= t < |indexes| ==> 1 <= indexes[t] <= |results|
    ensures |Resolve(results, indexes)| == |indexes|
    ensures forall t :: 0 <= t < |indexes| ==> Resolve(results, indexes)[t] == results[indexes[t] - 1]
    decreases |indexes|
  {
    if indexes != [] {
      ResolveInRange(results, indexes[1..]);
    }
  }

  /** An index past the end, or so negative that `k - 1` falls before the
      start, is dropped without a trace. */
  lemma ResolveDropsOutOfRange<T>(results: seq<T>, k: int)
    requires k > |results| || k - 1 < -|results|
    ensures Resolve(results, [k]) == []
  {
    ResolveOne(results, k);
  }

  /** Index 0 picks the last result, as `results[-1]` does. */
  lemma ResolveZeroIsLast<T>(results: seq<T>)
    requires |results| > 0
    ensures Resolve(results, [0]) == [results[|results| - 1]]
  {
    ResolveOne(results, 0);
  }

  /** A negative index `k` with `k - 1 >= -|results|` counts from the end. */
  lemma ResolveNegative<T>(results: seq<T>, k: int)
    requires -|results| <= k - 1 < 0
    ensures Resolve(results, [k]) == [results[|results| + k - 1]]
  {
    assert Pick(results, k) == [results[|results| + k - 1]] by {
      assert PyIndex(|results|, k - 1) == Some(|results| + k - 1);
    }
    ResolveOne(results, k);
  }

  lemma ResolveOne<T>(results: seq<T>, k: int)
    ensures Resolve(results, [k]) == Pick(results, k)
  {
    assert [k][1..] == [];
    assert Pick(results, k) + [] == Pick(results, k);
  }

  /** No result at all resolves to nothing, whatever the indices. */
  lemma {:induction false} ResolveNoResults<T>(indexes: seq<int>)
    ensures Resolve<T>([], indexes) == []
    decreases |indexes|
  {
    if indexes != [] {
      ResolveNoResults<T>(indexes[1..]);
    }
  }
}
