/**
 * The aggregation step of the pricing fan-out: the per-product lookups have
 * already finished, in input order, each with a price or an error, and are
 * routed into a map of prices and a map of errors keyed by product id.
 */
module Pricing {
  import opened Wrappers

  type ProductId = int

  /** No product id occurs twice. */
  ghost predicate Distinct(ids: seq<ProductId>) {
    forall a, b :: 0 <= a < b < |ids| ==> ids[a] != ids[b]
  }

  ghost function IdSet(ids: seq<ProductId>): (ks: set<ProductId>) {
    set k | 0 <= k < |ids| :: ids[k]
  }

  /** No later outcome among the first n for the same id lands in the same map as outcome i. */
  ghost predicate LastInItsMap<P, E>(ids: seq<ProductId>, outcomes: seq<Result<P, E>>, i: nat, n: nat)
    requires i < n <= |ids| && n <= |outcomes|
  {
    forall j :: i < j < n && ids[j] == ids[i] ==> outcomes[j].Success? != outcomes[i].Success?
  }

  /**
   * prices and errors are what routing the first n outcomes produces: each success is
   * in prices and each failure in errors, no key comes from nowhere, and for an id
   * that occurs more than once the last outcome of each kind is the one kept.
   */
  ghost predicate Routed<P, E>(ids: seq<ProductId>, outcomes: seq<Result<P, E>>, n: nat,
                               prices: map<ProductId, P>, errors: map<ProductId, E>)
    requires n <= |ids| && n <= |outcomes|
  {
    && (forall k :: 0 <= k < n && outcomes[k].Success? ==> ids[k] in prices)
    && (forall k :: 0 <= k < n && outcomes[k].Failure? ==> ids[k] in errors)
    && (forall id :: id in prices ==> exists k :: 0 <= k < n && ids[k] == id && outcomes[k].Success?)
    && (forall id :: id in errors ==> exists k :: 0 <= k < n && ids[k] == id && outcomes[k].Failure?)
    && (forall k :: 0 <= k < n && outcomes[k].Success? && LastInItsMap(ids, outcomes, k, n) ==>
          prices[ids[k]] == outcomes[k].value)
    && (forall k :: 0 <= k < n && outcomes[k].Failure? && LastInItsMap(ids, outcomes, k, n) ==>
          errors[ids[k]] == outcomes[k].error)
  }

  /**
   * With distinct ids, routing partitions the input: every id lands in exactly
   * one of the two maps, with its own outcome.
   */
  lemma DistinctIdsArePartitioned<P, E>(ids: seq<ProductId>, outcomes: seq<Result<P, E>>,
                                        prices: map<ProductId, P>, errors: map<ProductId, E>)
    requires |outcomes| == |ids|
    requires Distinct(ids)
    requires Routed(ids, outcomes, |ids|, prices, errors)
    ensures prices.Keys !! errors.Keys
    ensures prices.Keys + errors.Keys == IdSet(ids)
    ensures forall k :: 0 <= k < |ids| && outcomes[k].Success? ==> prices[ids[k]] == outcomes[k].value
    ensures forall k :: 0 <= k < |ids| && outcomes[k].Failure? ==> errors[ids[k]] == outcomes[k].error
  {
    forall id | id in prices ensures id !in errors {
      var a :| 0 <= a < |ids| && ids[a] == id && outcomes[a].Success?;
      forall b | 0 <= b < |ids| && ids[b] == id ensures outcomes[b].Success? {
        assert b == a;
      }
    }
    forall id | id in IdSet(ids) ensures id in prices.Keys + errors.Keys {
      var k :| 0 <= k < |ids| && ids[k] == id;
      if outcomes[k].Success? { assert ids[k] in prices; } else { assert ids[k] in errors; }
    }
    forall id | id in prices.Keys + errors.Keys ensures id in IdSet(ids) {
      if id in prices {
        var k :| 0 <= k < |ids| && ids[k] == id && outcomes[k].Success?;
      } else {
        var k :| 0 <= k < |ids| && ids[k] == id && outcomes[k].Failure?;
      }
    }
    forall k | 0 <= k < |ids| ensures LastInItsMap(ids, outcomes, k, |ids|) {
    }
  }

  /** Among the first n outcomes, the last one for ids[k] that is of the same kind as outcome k. */
  lemma {:induction false} LastOfKind<P, E>(ids: seq<ProductId>, outcomes: seq<Result<P, E>>, n: nat, k: nat)
    returns (m: nat)
    requires k < n <= |ids| && n <= |outcomes|
    ensures k <= m < n && ids[m] == ids[k] && outcomes[m].Success? == outcomes[k].Success?
    ensures LastInItsMap(ids, outcomes, m, n)
    decreases n - k
  {
    if LastInItsMap(ids, outcomes, k, n) {
      m := k;
    } else {
      var j :| k < j < n && ids[j] == ids[k] && outcomes[j].Success? == outcomes[k].Success?;
      m := LastOfKind(ids, outcomes, n, j);
    }
  }

  /** Routed is a complete description: it admits exactly one pair of maps. */
  lemma RoutedIsUnique<P, E>(ids: seq<ProductId>, outcomes: seq<Result<P, E>>, n: nat,
                             prices: map<ProductId, P>, errors: map<ProductId, E>,
                             prices': map<ProductId, P>, errors': map<ProductId, E>)
    requires n <= |ids| && n <= |outcomes|
    requires Routed(ids, outcomes, n, prices, errors)
    requires Routed(ids, outcomes, n, prices', errors')
    ensures prices == prices' && errors == errors'
  {
    forall id | id in prices ensures id in prices' && prices[id] == prices'[id] {
      var k :| 0 <= k < n && ids[k] == id && outcomes[k].Success?;
      var m := LastOfKind(ids, outcomes, n, k);
    }
    forall id | id in prices' ensures id in prices {
      var k :| 0 <= k < n && ids[k] == id && outcomes[k].Success?;
    }
    forall id | id in errors ensures id in errors' && errors[id] == errors'[id] {
      var k :| 0 <= k < n && ids[k] == id && outcomes[k].Failure?;
      var m := LastOfKind(ids, outcomes, n, k);
    }
    forall id | id in errors' ensures id in errors {
      var k :| 0 <= k < n && ids[k] == id && outcomes[k].Failure?;
    }
  }

  /** Products 1 and 3 are priced and the lookup for 2 fails: the maps split the input. */
  lemma PartialFailureExample(prices: map<ProductId, int>, errors: map<ProductId, string>)
    requires Routed([1, 2, 3], [Success(10), Failure("timeout"), Success(30)], 3, prices, errors)
    ensures prices == map[1 := 10, 3 := 30] && errors == map[2 := "timeout"]
  {
    var ids: seq<ProductId> := [1, 2, 3];
    var outcomes: seq<Result<int, string>> := [Success(10), Failure("timeout"), Success(30)];
    assert Routed(ids, outcomes, 3, map[1 := 10, 3 := 30], map[2 := "timeout"]) by {
      assert forall id :: id in map[1 := 10, 3 := 30] ==> id == ids[0] || id == ids[2];
      assert ids[1] in map[2 := "timeout"];
    }
    RoutedIsUnique(ids, outcomes, 3, prices, errors, map[1 := 10, 3 := 30], map[2 := "timeout"]);
  }

  /**
   * A product listed twice: the later outcome overwrites the earlier one in its
   * own map, and an earlier outcome of the other kind stays in the other map.
   */
  lemma DuplicateIdExample(prices: map<ProductId, int>, errors: map<ProductId, string>)
    requires Routed([7, 7, 7], [Success(1), Failure("timeout"), Success(2)], 3, prices, errors)
    ensures prices == map[7 := 2] && errors == map[7 := "timeout"]
  {
    var ids: seq<ProductId> := [7, 7, 7];
    var outcomes: seq<Result<int, string>> := [Success(1), Failure("timeout"), Success(2)];
    assert Routed(ids, outcomes, 3, map[7 := 2], map[7 := "timeout"]) by {
      assert ids[2] in map[7 := 2] && ids[1] in map[7 := "timeout"];
      assert !LastInItsMap(ids, outcomes, 0, 3) by { assert ids[2] == ids[0]; }
    }
    RoutedIsUnique(ids, outcomes, 3, prices, errors, map[7 := 2], map[7 := "timeout"]);
  }

  /** Zip the product ids with their outcomes and fill the two maps. */
  method AggregatePrices<P, E>(ids: seq<ProductId>, outcomes: seq<Result<P, E>>)
    returns (prices: map<ProductId, P>, errors: map<ProductId, E>)
    requires |outcomes| == |ids|
    ensures Routed(ids, outcomes, |ids|, prices, errors)
    ensures Distinct(ids) ==> prices.Keys !! errors.Keys && prices.Keys + errors.Keys == IdSet(ids)
  {
    prices, errors := map[], map[];
    var i := 0;
    while i < |ids|
      invariant 0 <= i <= |ids|
      invariant Routed(ids, outcomes, i, prices, errors)
    {
      var pid, res := ids[i], outcomes[i];
      if res.Failure? {
        errors := errors[pid := res.error];
      } else {
        prices := prices[pid := res.value];
      }
      i := i + 1;
    }
    if Distinct(ids) {
      DistinctIdsArePartitioned(ids, outcomes, prices, errors);
    }
  }
}
