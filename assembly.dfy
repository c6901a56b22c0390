/** Assembly of one slab `[:, :, i, :, :]` of the collision matrix at a
    positive temperature: the point operations are grouped by the triplet
    representative of the grid point they rotate the irreducible point to,
    each group's Cartesian rotations are summed and weighted per band pair,
    the slab is normalised by the average orbit multiplicity, and the
    imaginary self-energy is added on the diagonal of the fixed point. */
module Assembly {
  import opened Linalg
  import opened TripletIndex

  /** `get_grid_point_from_address` applied to `R . address` for every point
      operation `R`: one rotated grid point per operation, repeats allowed. */
  function RotatedGridPoints(operations: seq<IMat3>, address: IVec3, toGridPoint: IVec3 -> nat): (rGps: seq<nat>)
    ensures |rGps| == |operations|
    ensures forall o | 0 <= o < |operations| :: rGps[o] == toGridPoint(Apply(operations[o], address))
  {
    if operations == [] then []
    else RotatedGridPoints(operations[..|operations| - 1], address, toGridPoint)
         + [toGridPoint(Apply(operations[|operations| - 1], address))]
  }

  /** Sum of `rots[o]` over the operations `o < n` whose key is `g`. */
  function GroupSum(keys: seq<nat>, rots: seq<Mat3>, g: nat, n: nat): Mat3
    requires n <= |keys| == |rots|
  {
    if n == 0 then Zero
    else if keys[n - 1] == g then Add(GroupSum(keys, rots, g, n - 1), rots[n - 1])
    else GroupSum(keys, rots, g, n - 1)
  }

  /** Sum of the first `n` rotations. */
  function Total(rots: seq<Mat3>, n: nat): Mat3
    requires n <= |rots|
  {
    if n == 0 then Zero else Add(Total(rots, n - 1), rots[n - 1])
  }

  /** Sum over the first `m` representatives of their group sums. */
  function SumOfGroups(keys: seq<nat>, rots: seq<Mat3>, reps: seq<nat>, m: nat, n: nat): Mat3
    requires m <= |reps| && n <= |keys| == |rots|
  {
    if m == 0 then Zero else Add(SumOfGroups(keys, rots, reps, m - 1, n), GroupSum(keys, rots, reps[m - 1], n))
  }

  /** Sum over the first `m` representatives of `r` where the representative is `x`. */
  function Matches(reps: seq<nat>, x: nat, r: Mat3, m: nat): Mat3
    requires m <= |reps|
  {
    if m == 0 then Zero else Add(Matches(reps, x, r, m - 1), if reps[m - 1] == x then r else Zero)
  }

  /** Among distinct representatives, `x` matches at most once. */
  lemma {:induction false} MatchesOnce(reps: seq<nat>, x: nat, r: Mat3, m: nat)
    requires StrictlyIncreasing(reps) && m <= |reps|
    ensures Matches(reps, x, r, m) == if x in reps[..m] then r else Zero
  {
    if m > 0 {
      MatchesOnce(reps, x, r, m - 1);
      assert reps[..m] == reps[..m - 1] + [reps[m - 1]];
      if reps[m - 1] == x {
        assert x !in reps[..m - 1];
      }
    }
  }

  /** Adding operation `n` to every group adds its rotation once per
      representative equal to its key. */
  lemma {:induction false} SumOfGroupsStep(keys: seq<nat>, rots: seq<Mat3>, reps: seq<nat>, m: nat, n: nat)
    requires m <= |reps| && n < |keys| == |rots|
    ensures SumOfGroups(keys, rots, reps, m, n + 1)
         == Add(SumOfGroups(keys, rots, reps, m, n), Matches(reps, keys[n], rots[n], m))
  {
    if m > 0 {
      SumOfGroupsStep(keys, rots, reps, m - 1, n);
    }
  }

  /** When every key is one of the distinct representatives, the group sums
      of the first `n` operations add up to the sum of their rotations. */
  lemma {:induction false} SumOfGroupsIsTotal(keys: seq<nat>, rots: seq<Mat3>, reps: seq<nat>, n: nat)
    requires StrictlyIncreasing(reps)
    requires n <= |keys| == |rots|
    requires forall o | 0 <= o < |keys| :: keys[o] in reps
    ensures SumOfGroups(keys, rots, reps, |reps|, n) == Total(rots, n)
  {
    if n == 0 {
      ZeroGroups(keys, rots, reps, |reps|);
    } else {
      SumOfGroupsIsTotal(keys, rots, reps, n - 1);
      SumOfGroupsStep(keys, rots, reps, |reps|, n - 1);
      MatchesOnce(reps, keys[n - 1], rots[n - 1], |reps|);
      assert reps[..|reps|] == reps;
    }
  }

  lemma {:induction false} ZeroGroups(keys: seq<nat>, rots: seq<Mat3>, reps: seq<nat>, m: nat)
    requires m <= |reps| && |keys| == |rots|
    ensures SumOfGroups(keys, rots, reps, m, 0) == Zero
  {
    if m > 0 {
      ZeroGroups(keys, rots, reps, m - 1);
    }
  }

  /** One group of operations: the triplet index of its representative and
      its rotation sum `sum_rots`. */
  datatype Group = Group(ti: nat, sumRots: Mat3)

  /** The block `[j, :, i, k, :]` contributed by the first `n` groups,
      before normalisation: each adds its collision scalar times its
      rotation sum. */
  function Accumulate(weight: (nat, nat, nat) -> real, groups: seq<Group>, j: nat, k: nat, n: nat): Mat3
    requires n <= |groups|
  {
    if n == 0 then Zero
    else Add(Accumulate(weight, groups, j, k, n - 1), Scale(weight(groups[n - 1].ti, j, k), groups[n - 1].sumRots))
  }

  /** Entry `[a, b]` of the first `n` groups' contribution, summed entry
      by entry. */
  function AccumulateEntry(weight: (nat, nat, nat) -> real, groups: seq<Group>, j: nat, k: nat, a: nat, b: nat, n: nat): real
    requires n <= |groups| && a < 3 && b < 3
  {
    if n == 0 then 0.0
    else AccumulateEntry(weight, groups, j, k, a, b, n - 1) + weight(groups[n - 1].ti, j, k) * Entry(groups[n - 1].sumRots, a, b)
  }

  lemma AccumulateEntryUnfold(weight: (nat, nat, nat) -> real, groups: seq<Group>, j: nat, k: nat, a: nat, b: nat, n: nat)
    requires 0 < n <= |groups| && a < 3 && b < 3
    ensures AccumulateEntry(weight, groups, j, k, a, b, n)
         == AccumulateEntry(weight, groups, j, k, a, b, n - 1) + weight(groups[n - 1].ti, j, k) * Entry(groups[n - 1].sumRots, a, b)
  {
  }

  lemma AccumulateUnfold(weight: (nat, nat, nat) -> real, groups: seq<Group>, j: nat, k: nat, n: nat)
    requires 0 < n <= |groups|
    ensures Accumulate(weight, groups, j, k, n)
         == Add(Accumulate(weight, groups, j, k, n - 1), Scale(weight(groups[n - 1].ti, j, k), groups[n - 1].sumRots))
  {
  }

  /** Summing entry by entry gives the entries of the summed block. */
  lemma {:induction false} AccumulateByEntry(weight: (nat, nat, nat) -> real, groups: seq<Group>, j: nat, k: nat, a: nat, b: nat, n: nat)
    requires n <= |groups| && a < 3 && b < 3
    ensures AccumulateEntry(weight, groups, j, k, a, b, n) == Entry(Accumulate(weight, groups, j, k, n), a, b)
  {
    if n == 0 {
      EntryZeroIdentity(a, b);
    } else {
      AccumulateByEntry(weight, groups, j, k, a, b, n - 1);
      AccumulateEntryUnfold(weight, groups, j, k, a, b, n);
      AccumulateUnfold(weight, groups, j, k, n);
      EntryAddScaled(Accumulate(weight, groups, j, k, n - 1), weight(groups[n - 1].ti, j, k), groups[n - 1].sumRots, a, b);
    }
  }

  /** The inputs of one slab: the triplet map and its dense index, the grid
      points the operations rotate the irreducible point to, the Cartesian
      rotations (one per operation) and the collision scalar per
      (triplet, band, band). */
  datatype SlabInput = SlabInput(
    tripletsMap: seq<nat>,
    gp2tpindex: map<nat, nat>,
    rGps: seq<nat>,
    rots: seq<Mat3>,
    weight: (nat, nat, nat) -> real)
  {
    /** One rotation per operation, each rotated point a grid point. */
    ghost predicate WellShaped()
    {
      |rots| == |rGps| >= 1 &&
      (forall o | 0 <= o < |rGps| :: rGps[o] < |tripletsMap|)
    }

    ghost predicate Valid()
    {
      WellShaped() &&
      ClosedMap(tripletsMap) &&
      DenseIndexOf(gp2tpindex, tripletsMap)
    }

    /** `triplets_map_at_q[r_gps]`: the representative of each rotated point. */
    function Keys(): (keys: seq<nat>)
      requires WellShaped()
      ensures |keys| == |rGps|
      ensures forall o | 0 <= o < |rGps| :: keys[o] == tripletsMap[rGps[o]]
    {
      seq(|rGps|, o requires 0 <= o < |rGps| => tripletsMap[rGps[o]])
    }

    /** The distinct representatives, one group of operations each. */
    function Reps(): seq<nat>
      requires WellShaped()
    {
      Unique(Keys())
    }

    /** `sum_rots` of the group of representative `gp`. */
    function SumRots(gp: nat): Mat3
      requires WellShaped()
    {
      GroupSum(Keys(), rots, gp, |rGps|)
    }

    /** `gp2tpindex[triplets_map_at_q[gp]]` for a representative `gp`. */
    function TripletOf(gp: nat): (ti: nat)
      requires Valid() && gp in Reps()
      ensures gp < |tripletsMap| && tripletsMap[gp] in gp2tpindex && ti == gp2tpindex[tripletsMap[gp]]
      ensures ti < |Unique(tripletsMap)|
    {
      RepresentativeIsMapValue(this, gp);
      gp2tpindex[tripletsMap[gp]]
    }

    /** One group per distinct representative, in increasing order. */
    function Groups(): (groups: seq<Group>)
      requires Valid()
      ensures |groups| == |Reps()|
    {
      var reps := Reps();
      RepresentativesLookUp(this);
      seq(|reps|, u requires 0 <= u < |reps| => Group(gp2tpindex[tripletsMap[reps[u]]], SumRots(reps[u])))
    }

    /** The block `[j, :, i, k, :]` contributed by the first `n`
        representatives, before normalisation. */
    function Accumulated(j: nat, k: nat, n: nat): Mat3
      requires Valid() && n <= |Reps()|
    {
      Accumulate(weight, Groups(), j, k, n)
    }

    /** `len(point_operations) / len(np.unique(r_gps))`. */
    function Divisor(): (d: real)
      requires Valid()
      ensures 1.0 <= d <= |rGps| as real
    {
      var n, u := |rGps|, |Unique(rGps)|;
      RatioBounds(n as real, u as real);
      n as real / u as real
    }
  }

  /** `1 <= n / u <= n` when `1 <= u <= n`. */
  lemma RatioBounds(n: real, u: real)
    requires 1.0 <= u <= n
    ensures 1.0 <= n / u <= n
  {
    var q := n / u;
    assert q * u == n;
  }

  /** The double lookup is defined for every representative. */
  lemma RepresentativesLookUp(s: SlabInput)
    requires s.Valid()
    ensures forall u | 0 <= u < |s.Reps()| :: s.Reps()[u] < |s.tripletsMap| && s.tripletsMap[s.Reps()[u]] in s.gp2tpindex
  {
    forall u | 0 <= u < |s.Reps()|
      ensures s.Reps()[u] < |s.tripletsMap| && s.tripletsMap[s.Reps()[u]] in s.gp2tpindex
    {
      RepresentativeIsMapValue(s, s.Reps()[u]);
    }
  }

  /** Group `u` belongs to the `u`-th distinct representative: it carries
      that representative's triplet index and rotation sum. */
  lemma GroupsOfRepresentatives(s: SlabInput)
    requires s.Valid()
    ensures forall u | 0 <= u < |s.Groups()| ::
      var gp := s.Reps()[u];
      gp < |s.tripletsMap| && s.tripletsMap[gp] in s.gp2tpindex &&
      s.Groups()[u] == Group(s.gp2tpindex[s.tripletsMap[gp]], s.SumRots(gp))
  {
    RepresentativesLookUp(s);
  }

  /** Every representative is itself a value of the triplet map. */
  lemma RepresentativeIsMapValue(s: SlabInput, gp: nat)
    requires s.Valid() && gp in s.Reps()
    ensures gp in s.tripletsMap
    ensures gp < |s.tripletsMap| && s.tripletsMap[gp] in s.gp2tpindex
  {
    var keys := s.Keys();
    assert gp in keys;
    var o :| 0 <= o < |keys| && keys[o] == gp;
    assert s.tripletsMap[s.rGps[o]] == gp;
    TripletLookupDefined(s.gp2tpindex, s.tripletsMap, gp);
  }

  /** Each operation belongs to the group of exactly one representative. */
  lemma {:induction false} GroupsCoverOperations(keys: seq<nat>, o: nat)
    requires o < |keys|
    ensures exists u :: 0 <= u < |Unique(keys)| && Unique(keys)[u] == keys[o]
    ensures forall u, v | 0 <= u < |Unique(keys)| && 0 <= v < |Unique(keys)| ::
      Unique(keys)[u] == keys[o] && Unique(keys)[v] == keys[o] ==> u == v
  {
    assert keys[o] in Unique(keys);
  }

  /** No group is empty: every representative is the key of some operation. */
  lemma {:induction false} GroupsNonEmpty(keys: seq<nat>, u: nat)
    requires u < |Unique(keys)|
    ensures exists o :: 0 <= o < |keys| && keys[o] == Unique(keys)[u]
  {
    assert Unique(keys)[u] in Unique(keys);
    assert Unique(keys)[u] in keys;
  }

  /** The group sums over all representatives add up to the sum of all
      Cartesian rotations: every rotation is counted once. */
  lemma {:induction false} GroupSumsAddUpToTotal(keys: seq<nat>, rots: seq<Mat3>)
    requires |keys| == |rots|
    ensures SumOfGroups(keys, rots, Unique(keys), |Unique(keys)|, |keys|) == Total(rots, |keys|)
  {
    var reps := Unique(keys);
    forall o | 0 <= o < |keys| ensures keys[o] in reps {
      assert keys[o] in keys;
    }
    SumOfGroupsIsTotal(keys, rots, reps, |keys|);
  }

  /** With a single point operation (the identity alone) the orbit is one
      grid point and the slab is divided by exactly 1. */
  lemma SingleOperationDivisor(s: SlabInput)
    requires s.Valid() && |s.rGps| == 1
    ensures s.Divisor() == 1.0
  {
    assert s.rGps == [s.rGps[0]];
    assert |Unique(s.rGps)| == 1;
  }

  /** With a weight that does not depend on the triplet, the accumulated
      contribution of the first `n` representatives is the weight times their
      group sums. */
  lemma {:induction false} UniformAccumulated(s: SlabInput, j: nat, k: nat, c: real, n: nat)
    requires s.Valid() && n <= |s.Reps()|
    requires forall t: nat :: s.weight(t, j, k) == c
    ensures s.Accumulated(j, k, n) == Scale(c, SumOfGroups(s.Keys(), s.rots, s.Reps(), n, |s.rGps|))
  {
    if n == 0 {
      assert Scale(c, Zero) == Zero;
    } else {
      UniformAccumulated(s, j, k, c, n - 1);
      var gp := s.Reps()[n - 1];
      assert s.weight(s.TripletOf(gp), j, k) == c;
      ScaleAdd(c, SumOfGroups(s.Keys(), s.rots, s.Reps(), n - 1, |s.rGps|), s.SumRots(gp));
    }
  }

  /** Every operation's Cartesian rotation is counted exactly once in a
      block: with a weight `c` that does not depend on the triplet, the
      block accumulated over all representatives is `c` times the sum of all
      rotations. */
  lemma UniformWeightCountsEveryRotationOnce(s: SlabInput, j: nat, k: nat, c: real)
    requires s.Valid()
    requires forall t: nat :: s.weight(t, j, k) == c
    ensures s.Accumulated(j, k, |s.Reps()|) == Scale(c, Total(s.rots, |s.rGps|))
  {
    UniformAccumulated(s, j, k, c, |s.Reps()|);
    GroupSumsAddUpToTotal(s.Keys(), s.rots);
  }

  /** The scenario of a point group holding only the identity: one group,
      divisor 1, and each entry of the block is the weight of the one
      triplet times the identity, plus the self-energy on the fixed point's
      diagonal blocks. */
  lemma IdentityOnlySlab(s: SlabInput, isFixed: bool, selfEnergy: seq<real>, j: nat, a: nat, k: nat, b: nat)
    requires s.Valid() && s.rots == [Identity]
    requires a < 3 && b < 3 && j < |selfEnergy|
    ensures s.Reps() == [s.tripletsMap[s.rGps[0]]]
    ensures SlabEntry(s, isFixed, selfEnergy, 0.0, j, a, k, b)
         == s.weight(s.TripletOf(s.Reps()[0]), j, k) * Entry(Identity, a, b)
            + (if isFixed && j == k then selfEnergy[j] * Entry(Identity, a, b) else 0.0)
  {
    IdentityOnlyGroups(s);
    SingleOperationDivisor(s);
    var groups := s.Groups();
    SingleGroupEntry(s.weight, groups, j, k, a, b);
    var acc := AccumulateEntry(s.weight, groups, j, k, a, b, |s.Reps()|);
    assert acc == s.weight(s.TripletOf(s.Reps()[0]), j, k) * Entry(Identity, a, b);
    var extra := if isFixed && j == k then selfEnergy[j] * Entry(Identity, a, b) else 0.0;
    DivideByOne(acc, s.Divisor());
    SlabEntrySteps(s, isFixed, selfEnergy, 0.0, j, a, k, b, 0.0 + acc, (0.0 + acc) / s.Divisor(), acc + extra);
  }

  /** With the identity as the only operation there is one group: the
      representative of the one rotated grid point, with rotation sum `I`. */
  lemma IdentityOnlyGroups(s: SlabInput)
    requires s.Valid() && s.rots == [Identity]
    ensures s.Reps() == [s.tripletsMap[s.rGps[0]]]
    ensures s.Groups() == [Group(s.TripletOf(s.Reps()[0]), Identity)]
  {
    var keys := s.Keys();
    assert keys == [s.tripletsMap[s.rGps[0]]];
    assert Unique(keys) == [keys[0]];
    assert GroupSum(keys, s.rots, keys[0], 0) == Zero;
    var sum := s.SumRots(keys[0]);
    assert sum == Add(Zero, Identity);
    assert Add(Zero, Identity) == Identity by {
      forall p | 0 <= p < 9 ensures Add(Zero, Identity)[p] == Identity[p] {
      }
    }
    GroupsOfRepresentatives(s);
    assert s.Groups()[0] == Group(s.TripletOf(keys[0]), sum);
  }

  /** A single group contributes its weight times its rotation sum. */
  lemma SingleGroupEntry(weight: (nat, nat, nat) -> real, groups: seq<Group>, j: nat, k: nat, a: nat, b: nat)
    requires |groups| == 1 && a < 3 && b < 3
    ensures AccumulateEntry(weight, groups, j, k, a, b, 1) == weight(groups[0].ti, j, k) * Entry(groups[0].sumRots, a, b)
  {
    AccumulateEntryUnfold(weight, groups, j, k, a, b, 1);
  }

  lemma DivideByOne(x: real, d: real)
    requires d == 1.0
    ensures (0.0 + x) / d == x
  {
  }

  /** The self-energy term appears only on the fixed point's slab and only
      in the blocks `[j, :, i, j, :]`, as `imag_self_energy[j] * I`; it is
      added after the division, so it is not divided. */
  lemma SelfEnergyOnlyOnFixedDiagonal(s: SlabInput, selfEnergy: seq<real>, prior: real, j: nat, a: nat, k: nat, b: nat)
    requires s.Valid() && a < 3 && b < 3 && j < |selfEnergy|
    ensures SlabEntry(s, true, selfEnergy, prior, j, a, k, b) - SlabEntry(s, false, selfEnergy, prior, j, a, k, b)
         == if j == k && a == b then selfEnergy[j] else 0.0
  {
    EntryZeroIdentity(a, b);
  }

  /** With integer (floor) division the divisor is at least 1 as well. */
  lemma FloorDivisorAtLeastOne(s: SlabInput)
    requires s.Valid()
    ensures |s.rGps| / |Unique(s.rGps)| >= 1
  {
    FloorRatioAtLeastOne(|s.rGps|, |Unique(s.rGps)|);
  }

  lemma FloorRatioAtLeastOne(n: int, d: int)
    requires 1 <= d <= n
    ensures n / d >= 1
  {
  }

  /** The expected value of entry `[j, a, i, k, b]` of slab `i` after its
      assembly, given the value `prior` it had before: the accumulated
      contributions are added, the sum is divided by the divisor, and on the
      fixed point's slab `imag_self_energy[j] * I` is added, undivided, to
      the blocks with `j == k`. */
  function SlabEntry(s: SlabInput, isFixed: bool, selfEnergy: seq<real>, prior: real,
                     j: nat, a: nat, k: nat, b: nat): real
    requires s.Valid() && a < 3 && b < 3
    requires isFixed && j == k ==> j < |selfEnergy|
  {
    (prior + AccumulateEntry(s.weight, s.Groups(), j, k, a, b, |s.Reps()|)) / s.Divisor()
    + (if isFixed && j == k then selfEnergy[j] * Entry(Identity, a, b) else 0.0)
  }

  /** The entry indices of a 5-D array of shape
      `(num_band0, 3, n_ir, num_band, 3)`. */
  predicate InBounds(m: array5<real>, j: int, a: int, i: int, k: int, b: int)
  {
    0 <= j < m.Length0 && 0 <= a < m.Length1 && 0 <= i < m.Length2 && 0 <= k < m.Length3 && 0 <= b < m.Length4
  }

  predicate Shaped(m: array5<real>)
  {
    m.Length1 == 3 && m.Length4 == 3
  }

  /** The loop that builds `sum_rots` for the representative `gp`. */
  method SumRotations(s: SlabInput, gp: nat) returns (sumRots: Mat3)
    requires s.WellShaped()
    ensures sumRots == s.SumRots(gp)
  {
    var keys := s.Keys();
    sumRots := Zero;
    for o := 0 to |s.rGps|
      invariant sumRots == GroupSum(keys, s.rots, gp, o)
    {
      if gp == s.tripletsMap[s.rGps[o]] {
        sumRots := Add(sumRots, s.rots[o]);
      }
    }
  }

  /** `m[j, :, i, k, :] += c * sumRots`. */
  method AddBlock(m: array5<real>, j: nat, i: nat, k: nat, c: real, sumRots: Mat3)
    requires Shaped(m) && j < m.Length0 && i < m.Length2 && k < m.Length3
    modifies m
    ensures forall j', a, i', k', b | InBounds(m, j', a, i', k', b) ::
      m[j', a, i', k', b] == old(m[j', a, i', k', b]) + (if j' == j && i' == i && k' == k then c * Entry(sumRots, a, b) else 0.0)
  {
    forall a, b | 0 <= a < 3 && 0 <= b < 3 {
      m[j, a, i, k, b] := m[j, a, i, k, b] + c * Entry(sumRots, a, b);
    }
  }

  /** The inner loop over `k` for one band `j`. */
  method AddGroupRow(m: array5<real>, j: nat, i: nat, ti: nat, weight: (nat, nat, nat) -> real, sumRots: Mat3)
    requires Shaped(m) && j < m.Length0 && i < m.Length2
    modifies m
    ensures forall j', a, i', k, b | InBounds(m, j', a, i', k, b) ::
      m[j', a, i', k, b] == old(m[j', a, i', k, b]) + (if j' == j && i' == i then weight(ti, j, k) * Entry(sumRots, a, b) else 0.0)
  {
    for k := 0 to m.Length3
      invariant forall j', a, i', k', b | InBounds(m, j', a, i', k', b) ::
        m[j', a, i', k', b] == old(m[j', a, i', k', b])
          + (if j' == j && i' == i && k' < k then weight(ti, j, k') * Entry(sumRots, a, b) else 0.0)
    {
      var collision := weight(ti, j, k);
      AddBlock(m, j, i, k, collision, sumRots);
    }
  }

  /** For every band pair `(j, k)`, adds `weight(ti, j, k) * sumRots` into
      the block `[j, :, i, k, :]`. */
  method AddGroupContribution(m: array5<real>, i: nat, ti: nat, weight: (nat, nat, nat) -> real, sumRots: Mat3)
    requires Shaped(m) && i < m.Length2
    modifies m
    ensures forall j, a, i', k, b | InBounds(m, j, a, i', k, b) ::
      m[j, a, i', k, b] == old(m[j, a, i', k, b]) + (if i' == i then weight(ti, j, k) * Entry(sumRots, a, b) else 0.0)
  {
    for j := 0 to m.Length0
      invariant forall j', a, i', k, b | InBounds(m, j', a, i', k, b) ::
        m[j', a, i', k, b] == old(m[j', a, i', k, b])
          + (if i' == i && j' < j then weight(ti, j', k) * Entry(sumRots, a, b) else 0.0)
    {
      AddGroupRow(m, j, i, ti, weight, sumRots);
    }
  }

  /** Divides the whole slab `[:, :, i, :, :]` by `d`. */
  method DivideSlab(m: array5<real>, i: nat, d: real)
    requires Shaped(m) && i < m.Length2 && d != 0.0
    modifies m
    ensures forall j, a, i', k, b | InBounds(m, j, a, i', k, b) ::
      m[j, a, i', k, b] == if i' == i then old(m[j, a, i', k, b]) / d else old(m[j, a, i', k, b])
  {
    forall j, a, k, b | 0 <= j < m.Length0 && 0 <= a < 3 && 0 <= k < m.Length3 && 0 <= b < 3 {
      m[j, a, i, k, b] := m[j, a, i, k, b] / d;
    }
  }

  /** For `j` in `range(num_band)`, adds `selfEnergy[j] * I` into the block
      `[j, :, i, j, :]`. */
  method AddSelfEnergy(m: array5<real>, i: nat, selfEnergy: seq<real>)
    requires Shaped(m) && i < m.Length2
    requires m.Length3 <= m.Length0 == |selfEnergy|
    modifies m
    ensures forall j, a, i', k, b | InBounds(m, j, a, i', k, b) ::
      m[j, a, i', k, b] == old(m[j, a, i', k, b])
        + (if i' == i && j == k then selfEnergy[j] * Entry(Identity, a, b) else 0.0)
  {
    for j := 0 to m.Length3
      invariant forall j', a, i', k, b | InBounds(m, j', a, i', k, b) ::
        m[j', a, i', k, b] == old(m[j', a, i', k, b])
          + (if i' == i && j' == k && j' < j then selfEnergy[j'] * Entry(Identity, a, b) else 0.0)
    {
      forall a, b | 0 <= a < 3 && 0 <= b < 3 {
        m[j, a, i, j, b] := m[j, a, i, j, b] + selfEnergy[j] * Entry(Identity, a, b);
      }
    }
  }

  /** The loop over the distinct representatives at lines 113-128: adds the
      whole accumulated contribution into slab `i`. */
  method AccumulateGroups(m: array5<real>, i: nat, s: SlabInput, ghost groups: seq<Group>)
    requires Shaped(m) && i < m.Length2 && s.WellShaped()
    requires |groups| == |s.Reps()|
    requires forall u | 0 <= u < |groups| ::
      var gp := s.Reps()[u];
      gp < |s.tripletsMap| && s.tripletsMap[gp] in s.gp2tpindex &&
      groups[u] == Group(s.gp2tpindex[s.tripletsMap[gp]], s.SumRots(gp))
    modifies m
    ensures forall j, a, i', k, b | InBounds(m, j, a, i', k, b) ::
      m[j, a, i', k, b] == old(m[j, a, i', k, b])
        + (if i' == i then AccumulateEntry(s.weight, groups, j, k, a, b, |groups|) else 0.0)
  {
    var reps := s.Reps();
    assert forall j, a, k, b | InBounds(m, j, a, i, k, b) :: AccumulateEntry(s.weight, groups, j, k, a, b, 0) == 0.0;
    for u := 0 to |reps|
      invariant forall j, a, i', k, b {:trigger m[j, a, i', k, b]} | InBounds(m, j, a, i', k, b) && i' != i ::
        m[j, a, i', k, b] == old(m[j, a, i', k, b])
      invariant forall j, a, k, b {:trigger m[j, a, i, k, b]} | InBounds(m, j, a, i, k, b) ::
        m[j, a, i, k, b] == old(m[j, a, i, k, b]) + AccumulateEntry(s.weight, groups, j, k, a, b, u)
    {
      var gp := reps[u];
      var sumRots := SumRotations(s, gp);
      var ti := s.gp2tpindex[s.tripletsMap[gp]];
      assert groups[u] == Group(ti, sumRots);
      AddGroupContribution(m, i, ti, s.weight, sumRots);
    }
  }

  /** One iteration of the loop over irreducible points: assembles slab `i`
      in place and leaves every other slab as it was. */
  method AssembleSlab(m: array5<real>, i: nat, s: SlabInput, isFixed: bool, selfEnergy: seq<real>)
    requires Shaped(m) && i < m.Length2 && s.Valid()
    requires m.Length0 == |selfEnergy|
    requires isFixed ==> m.Length3 <= m.Length0
    modifies m
    ensures forall j, a, i', k, b {:trigger m[j, a, i', k, b]} | InBounds(m, j, a, i', k, b) ::
      m[j, a, i', k, b] == if i' == i then SlabEntry(s, isFixed, selfEnergy, old(m[j, a, i, k, b]), j, a, k, b)
                           else old(m[j, a, i', k, b])
  {
    ghost var groups := s.Groups();
    GroupsOfRepresentatives(s);
    var d := s.Divisor();
    AccumulateGroups(m, i, s, groups);
    label Summed:
    DivideSlab(m, i, d);
    label Divided:
    if isFixed {
      AddSelfEnergy(m, i, selfEnergy);
    }
    forall j, a, k, b {:trigger m[j, a, i, k, b]} | InBounds(m, j, a, i, k, b)
      ensures m[j, a, i, k, b] == SlabEntry(s, isFixed, selfEnergy, old(m[j, a, i, k, b]), j, a, k, b)
    {
      SlabEntrySteps(s, isFixed, selfEnergy, old(m[j, a, i, k, b]), j, a, k, b,
        old@Summed(m[j, a, i, k, b]), old@Divided(m[j, a, i, k, b]), m[j, a, i, k, b]);
    }
  }

  /** The three stages of the assembly of one entry give its expected value. */
  lemma SlabEntrySteps(s: SlabInput, isFixed: bool, selfEnergy: seq<real>, prior: real, j: nat, a: nat, k: nat, b: nat,
                       summed: real, divided: real, final: real)
    requires s.Valid() && a < 3 && b < 3
    requires isFixed && j == k ==> j < |selfEnergy|
    requires summed == prior + AccumulateEntry(s.weight, s.Groups(), j, k, a, b, |s.Reps()|)
    requires divided == summed / s.Divisor()
    requires final == divided + (if isFixed && j == k then selfEnergy[j] * Entry(Identity, a, b) else 0.0)
    ensures final == SlabEntry(s, isFixed, selfEnergy, prior, j, a, k, b)
  {
    DivideEqual(summed, prior + AccumulateEntry(s.weight, s.Groups(), j, k, a, b, |s.Reps()|), s.Divisor());
  }

  /** Equal numerators give equal quotients. */
  lemma DivideEqual(x: real, y: real, d: real)
    requires x == y && d != 0.0
    ensures x / d == y / d
  {
  }



}
