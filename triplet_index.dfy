/** The dense numbering of triplet representatives: `np.unique` over the
    triplet map and the dictionary `gp2tpindex` that numbers its result. */
module TripletIndex {

  predicate StrictlyIncreasing(s: seq<nat>)
  {
    forall p, q :: 0 <= p < q < |s| ==> s[p] < s[q]
  }

  /** Inserts `x` into the strictly increasing `u`, keeping it strictly
      increasing and without duplicates. */
  function SortedInsert(u: seq<nat>, x: nat): (r: seq<nat>)
    requires StrictlyIncreasing(u)
    ensures StrictlyIncreasing(r)
    ensures forall y :: y in r <==> y in u || y == x
    ensures |r| == if x in u then |u| else |u| + 1
  {
    if u == [] then [x]
    else if x < u[0] then [x] + u
    else if x == u[0] then u
    else
      var rest := SortedInsert(u[1..], x);
      assert forall y :: y in rest ==> u[0] < y by {
        forall y | y in rest ensures u[0] < y {
          if y != x {
            var p :| 0 <= p < |u[1..]| && u[1..][p] == y;
            assert u[p + 1] == y;
          }
        }
      }
      assert forall y :: y in u <==> y == u[0] || y in u[1..] by {
        assert u == [u[0]] + u[1..];
      }
      ConsIncreasing(u[0], rest);
      [u[0]] + rest
  }

  /** Prepending a value below every element keeps a sequence strictly
      increasing. */
  lemma ConsIncreasing(h: nat, t: seq<nat>)
    requires StrictlyIncreasing(t)
    requires forall y :: y in t ==> h < y
    ensures StrictlyIncreasing([h] + t)
  {
    var r := [h] + t;
    forall p, q | 0 <= p < q < |r| ensures r[p] < r[q] {
      assert r[q] == t[q - 1];
      if p == 0 {
        assert t[q - 1] in t;
      } else {
        assert r[p] == t[p - 1];
      }
    }
  }

  /** `np.unique`: the distinct values of `s` in increasing order. */
  function Unique(s: seq<nat>): (r: seq<nat>)
    ensures StrictlyIncreasing(r)
    ensures forall y :: y in r <==> y in s
    ensures |r| <= |s|
    ensures |s| > 0 ==> |r| > 0
  {
    if s == [] then []
    else
      var front := s[..|s| - 1];
      assert forall y :: y in s <==> y in front || y == s[|s| - 1] by {
        assert s == front + [s[|s| - 1]];
      }
      SortedInsert(Unique(front), s[|s| - 1])
  }

  /** `index` numbers the distinct values of `values`: its keys are exactly
      those values, and each key maps to its position in `Unique(values)`. */
  ghost predicate DenseIndexOf(index: map<nat, nat>, values: seq<nat>)
  {
    (forall x :: x in index <==> x in values) &&
    (forall x | x in index :: index[x] < |Unique(values)| && Unique(values)[index[x]] == x)
  }

  /** The loop that fills `gp2tpindex` from `np.unique(triplets_map_at_q)`. */
  method BuildTripletIndex(tripletsMap: seq<nat>) returns (index: map<nat, nat>)
    ensures DenseIndexOf(index, tripletsMap)
    ensures forall x, y | x in index && y in index :: x < y <==> index[x] < index[y]
  {
    var u := Unique(tripletsMap);
    index := map[];
    for i := 0 to |u|
      invariant forall x :: x in index <==> x in u[..i]
      invariant forall x | x in index :: index[x] < i && u[index[x]] == x
    {
      assert u[..i + 1] == u[..i] + [u[i]];
      index := index[u[i] := i];
    }
    assert u[..|u|] == u;
    DenseIndexOrdered(index, tripletsMap);
  }

  /** The numbering preserves the order of the values it numbers. */
  lemma DenseIndexOrdered(index: map<nat, nat>, values: seq<nat>)
    requires DenseIndexOf(index, values)
    ensures forall x, y | x in index && y in index :: x < y <==> index[x] < index[y]
  {
    var u := Unique(values);
    forall x, y | x in index && y in index
      ensures x < y <==> index[x] < index[y]
    {
      if index[x] < index[y] {
        assert u[index[x]] < u[index[y]];
      } else if index[y] < index[x] {
        assert u[index[y]] < u[index[x]];
      }
    }
  }

  /** Every number `0 .. k-1`, with `k` the count of distinct values, is the
      number of exactly one value. */
  lemma {:induction false} DenseIndexOnto(index: map<nat, nat>, values: seq<nat>, n: nat)
    requires DenseIndexOf(index, values)
    requires n < |Unique(values)|
    ensures exists x :: x in index && index[x] == n
    ensures forall x, y | x in index && y in index && index[x] == n && index[y] == n :: x == y
  {
    var u := Unique(values);
    var x := u[n];
    assert x in u;
    assert x in index;
  }

  /** The triplet map sends grid points to grid points. */
  ghost predicate ClosedMap(tripletsMap: seq<nat>)
  {
    forall g | 0 <= g < |tripletsMap| :: tripletsMap[g] < |tripletsMap|
  }

  /** The double lookup `gp2tpindex[triplets_map_at_q[gp]]` is defined for
      every value `gp` of the triplet map, and yields a number below the
      count of distinct values. */
  lemma {:induction false} TripletLookupDefined(index: map<nat, nat>, tripletsMap: seq<nat>, gp: nat)
    requires ClosedMap(tripletsMap)
    requires DenseIndexOf(index, tripletsMap)
    requires gp in tripletsMap
    ensures gp < |tripletsMap|
    ensures tripletsMap[gp] in index
    ensures index[tripletsMap[gp]] < |Unique(tripletsMap)|
  {
    var g :| 0 <= g < |tripletsMap| && tripletsMap[g] == gp;
    assert tripletsMap[gp] in tripletsMap;
  }

  /** When the map is idempotent (a representative represents itself), the
      double lookup agrees with the single lookup `gp2tpindex[gp]`. */
  lemma {:induction false} DoubleLookupOfIdempotentMap(index: map<nat, nat>, tripletsMap: seq<nat>, gp: nat)
    requires ClosedMap(tripletsMap)
    requires DenseIndexOf(index, tripletsMap)
    requires gp in tripletsMap
    requires forall g | 0 <= g < |tripletsMap| :: tripletsMap[tripletsMap[g]] == tripletsMap[g]
    ensures gp < |tripletsMap| && tripletsMap[gp] in index && gp in index
    ensures index[tripletsMap[gp]] == index[gp]
  {
    var g :| 0 <= g < |tripletsMap| && tripletsMap[g] == gp;
    TripletLookupDefined(index, tripletsMap, gp);
    assert tripletsMap[gp] == gp;
  }
}
