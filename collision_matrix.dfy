/** The collision-matrix builder: its per-grid-point tables, the cached
    interaction, and `run`, which allocates the 5-D matrix and fills it slab
    by slab at a positive temperature or leaves it zero otherwise. */
module CollisionMatrix {
  import opened Linalg
  import opened TripletIndex
  import opened Assembly

  datatype Option<T> = None | Some(value: T)

  /** What `run_interaction` caches: the band dimensions of
      `fc3_normal_squared` (axes 1 and 2), and the collision scalar per
      (triplet, band, band) that `fc3_normal_squared`, `g[2]`, the phonon
      frequencies, the temperature and `unit_conversion` combine into. */
  datatype Interaction = Interaction(numBand0: nat, numBand: nat, weight: (nat, nat, nat) -> real)

  class CollisionMatrixBuilder {
    /** `symmetry.get_reciprocal_operations()`, in the lattice basis. */
    const pointOperations: seq<IMat3>
    /** The same operations in the Cartesian basis, index by index. */
    const rotationsCartesian: seq<Mat3>
    /** The number of grid points of the mesh. */
    const numGridPoints: nat
    /** `get_grid_point_from_address` for the mesh (addresses wrap modulo the mesh). */
    const gridPointFromAddress: IVec3 -> nat

    /** The temperature, fixed at construction. */
    const temperature: real
    var gridPoint: Option<nat>
    /** Whether a grid point has been set, so that the tables below exist. */
    var tablesLoaded: bool
    var tripletsMap: seq<nat>
    var gridAddress: seq<IVec3>
    var irGridPoints: seq<nat>
    var gp2tpindex: map<nat, nat>
    /** The cached `fc3_normal_squared`; `None` forces `run_interaction`. */
    var fc3: Option<Interaction>
    var imagSelfEnergy: seq<real>
    var collisionMatrix: array5?<real>

    ghost predicate Valid()
      reads this
    {
      |pointOperations| == |rotationsCartesian| >= 1 &&
      (forall v :: gridPointFromAddress(v) < numGridPoints) &&
      (tablesLoaded ==>
        |tripletsMap| == numGridPoints &&
        ClosedMap(tripletsMap) &&
        DenseIndexOf(gp2tpindex, tripletsMap) &&
        (forall n | 0 <= n < |irGridPoints| :: irGridPoints[n] < |gridAddress|))
    }

    /** A builder with symmetry but no grid point yet. */
    constructor (pointOperations: seq<IMat3>, rotationsCartesian: seq<Mat3>, numGridPoints: nat,
                 gridPointFromAddress: IVec3 -> nat, temperature: real)
      requires |pointOperations| == |rotationsCartesian| >= 1
      requires forall v :: gridPointFromAddress(v) < numGridPoints
      ensures Valid() && !tablesLoaded
      ensures this.pointOperations == pointOperations && this.rotationsCartesian == rotationsCartesian
      ensures this.numGridPoints == numGridPoints && this.gridPointFromAddress == gridPointFromAddress
      ensures this.temperature == temperature
      ensures gridPoint == None && fc3 == None && collisionMatrix == null
    {
      this.pointOperations := pointOperations;
      this.rotationsCartesian := rotationsCartesian;
      this.numGridPoints := numGridPoints;
      this.gridPointFromAddress := gridPointFromAddress;
      this.temperature := temperature;
      gridPoint := None;
      tablesLoaded := false;
      tripletsMap, gridAddress, irGridPoints, gp2tpindex := [], [], [], map[];
      fc3 := None;
      imagSelfEnergy := [];
      collisionMatrix := null;
    }

    /** `set_grid_point`: with no grid point only the grid point is cleared;
        with grid point `g` the tables come from the interaction provider
        (`triplets`, `grid_address`, `ir_grid_points`), `gp2tpindex` is
        rebuilt and the cached interaction is dropped. */
    method SetGridPoint(g: Option<nat>, triplets: seq<nat>, addresses: seq<IVec3>, irPoints: seq<nat>)
      requires Valid()
      requires g.Some? ==> |triplets| == numGridPoints && ClosedMap(triplets)
      requires g.Some? ==> forall n | 0 <= n < |irPoints| :: irPoints[n] < |addresses|
      modifies this
      ensures Valid()
      ensures gridPoint == g
      ensures imagSelfEnergy == old(imagSelfEnergy)
      ensures collisionMatrix == old(collisionMatrix)
      ensures g.None? ==>
        tablesLoaded == old(tablesLoaded) && tripletsMap == old(tripletsMap) && gridAddress == old(gridAddress) &&
        irGridPoints == old(irGridPoints) && gp2tpindex == old(gp2tpindex) && fc3 == old(fc3)
      ensures g.Some? ==>
        tablesLoaded && fc3 == None &&
        tripletsMap == triplets && gridAddress == addresses && irGridPoints == irPoints &&
        DenseIndexOf(gp2tpindex, tripletsMap)
    {
      if g.None? {
        gridPoint := None;
      } else {
        fc3 := None;
        tripletsMap := triplets;
        gridAddress := addresses;
        gridPoint := g;
        irGridPoints := irPoints;
        gp2tpindex := BuildTripletIndex(tripletsMap);
        tablesLoaded := true;
      }
    }

    /** `get_collision_matrix`: the matrix of the last `run`, null before one. */
    method GetCollisionMatrix() returns (m: array5?<real>)
      ensures m == collisionMatrix
    {
      m := collisionMatrix;
    }

    /** The inputs of slab `i`. */
    function SlabAt(i: nat): (s: SlabInput)
      reads this
      requires Valid() && tablesLoaded && fc3.Some? && i < |irGridPoints|
      ensures s.Valid()
    {
      var rGps := RotatedGridPoints(pointOperations, gridAddress[irGridPoints[i]], gridPointFromAddress);
      SlabInput(tripletsMap, gp2tpindex, rGps, rotationsCartesian, fc3.value.weight)
    }

    /** Whether irreducible point `i` is the fixed grid point. */
    function IsFixed(i: nat): bool
      reads this
      requires i < |irGridPoints|
    {
      gridPoint == Some(irGridPoints[i])
    }

    /** The value of entry `[j, a, i, k, b]` of the assembled matrix. */
    ghost function Expected(j: nat, a: nat, i: nat, k: nat, b: nat): real
      reads this
      requires Valid() && tablesLoaded && fc3.Some?
      requires i < |irGridPoints| && j < |imagSelfEnergy| && a < 3 && b < 3
    {
      SlabEntry(SlabAt(i), IsFixed(i), imagSelfEnergy, 0.0, j, a, k, b)
    }

    /** The matrix has shape `(num_band0, 3, len(ir_grid_points), num_band, 3)`. */
    ghost predicate MatrixShaped()
      reads this
      requires fc3.Some?
    {
      collisionMatrix != null &&
      collisionMatrix.Length0 == fc3.value.numBand0 && collisionMatrix.Length1 == 3 &&
      collisionMatrix.Length2 == |irGridPoints| &&
      collisionMatrix.Length3 == fc3.value.numBand && collisionMatrix.Length4 == 3
    }

    /** The index error of the self-energy loop is excluded: when the
        finite-temperature path runs and the fixed point is irreducible,
        `num_band <= num_band0`. */
    ghost predicate BandsFit()
      reads this
      requires fc3.Some?
    {
      temperature > 0.0 && gridPoint.Some? && gridPoint.value in irGridPoints ==>
        fc3.value.numBand <= fc3.value.numBand0
    }

    /** `_set_collision_matrix`: the loop over the irreducible points, each
        iteration assembling its own slab. */
    method SetCollisionMatrix()
      requires Valid() && tablesLoaded && fc3.Some? && MatrixShaped() && BandsFit()
      requires temperature > 0.0
      requires |imagSelfEnergy| == fc3.value.numBand0
      requires forall j, a, i, k, b | InBounds(collisionMatrix, j, a, i, k, b) :: collisionMatrix[j, a, i, k, b] == 0.0
      modifies collisionMatrix
      ensures forall j, a, i, k, b | InBounds(collisionMatrix, j, a, i, k, b) ::
        collisionMatrix[j, a, i, k, b] == Expected(j, a, i, k, b)
    {
      var m := collisionMatrix;
      for i := 0 to |irGridPoints|
        invariant forall j, a, i', k, b {:trigger m[j, a, i', k, b]} | InBounds(m, j, a, i', k, b) ::
          m[j, a, i', k, b] == if i' < i then Expected(j, a, i', k, b) else 0.0
      {
        AssembleSlab(m, i, SlabAt(i), IsFixed(i), imagSelfEnergy);
      }
    }

    /** `_set_collision_matrix_0K`: does nothing, the matrix stays as it is. */
    method SetCollisionMatrix0K()
      requires collisionMatrix != null
      ensures unchanged(collisionMatrix)
    {
    }

    /** `_run_py_collision_matrix`: dispatch on `temperature > 0`. */
    method RunPyCollisionMatrix()
      requires Valid() && tablesLoaded && fc3.Some? && MatrixShaped() && BandsFit()
      requires |imagSelfEnergy| == fc3.value.numBand0
      requires forall j, a, i, k, b | InBounds(collisionMatrix, j, a, i, k, b) :: collisionMatrix[j, a, i, k, b] == 0.0
      modifies collisionMatrix
      ensures temperature > 0.0 ==> forall j, a, i, k, b | InBounds(collisionMatrix, j, a, i, k, b) ::
        collisionMatrix[j, a, i, k, b] == Expected(j, a, i, k, b)
      ensures temperature <= 0.0 ==> forall j, a, i, k, b | InBounds(collisionMatrix, j, a, i, k, b) ::
        collisionMatrix[j, a, i, k, b] == 0.0
    {
      if temperature > 0.0 {
        SetCollisionMatrix();
      } else {
        SetCollisionMatrix0K();
      }
    }

    /** The interaction `run` works with: the cached one, or the one
        `run_interaction` computes when the cache is empty. */
    function InteractionFor(computed: Interaction): Interaction
      reads this
    {
      if fc3.Some? then fc3.value else computed
    }

    /** `run`: computes the interaction if it is not cached, takes the
        imaginary self-energy, allocates a zero matrix of shape
        `(num_band0, 3, len(ir_grid_points), num_band, 3)` and fills it. */
    method Run(computed: Interaction, selfEnergy: seq<real>) returns (ranInteraction: bool)
      requires Valid() && tablesLoaded
      requires |selfEnergy| == InteractionFor(computed).numBand0
      requires temperature > 0.0 && gridPoint.Some? && gridPoint.value in irGridPoints ==>
        InteractionFor(computed).numBand <= InteractionFor(computed).numBand0
      modifies this
      ensures Valid() && tablesLoaded
      ensures ranInteraction == old(fc3).None?
      ensures fc3 == Some(old(InteractionFor(computed)))
      ensures gridPoint == old(gridPoint)
      ensures tripletsMap == old(tripletsMap) && gridAddress == old(gridAddress)
      ensures irGridPoints == old(irGridPoints) && gp2tpindex == old(gp2tpindex)
      ensures imagSelfEnergy == selfEnergy
      ensures fresh(collisionMatrix) && MatrixShaped()
      ensures temperature > 0.0 ==> forall j, a, i, k, b | InBounds(collisionMatrix, j, a, i, k, b) ::
        collisionMatrix[j, a, i, k, b] == Expected(j, a, i, k, b)
      ensures temperature <= 0.0 ==> forall j, a, i, k, b | InBounds(collisionMatrix, j, a, i, k, b) ::
        collisionMatrix[j, a, i, k, b] == 0.0
    {
      ranInteraction := fc3.None?;
      if ranInteraction {
        fc3 := Some(computed);
      }
      var numBand0, numBand := fc3.value.numBand0, fc3.value.numBand;
      imagSelfEnergy := selfEnergy;
      collisionMatrix := new real[numBand0, 3, |irGridPoints|, numBand, 3]((j, a, i, k, b) => 0.0);
      RunPyCollisionMatrix();
    }
  }

  /** Setting a grid point drops the cached interaction, so the `run` that
      follows computes it again. */
  method SetGridPointThenRun(builder: CollisionMatrixBuilder, g: nat, triplets: seq<nat>, addresses: seq<IVec3>,
                             irPoints: seq<nat>, computed: Interaction, selfEnergy: seq<real>)
    returns (ranInteraction: bool)
    requires builder.Valid()
    requires |triplets| == builder.numGridPoints && ClosedMap(triplets)
    requires forall n | 0 <= n < |irPoints| :: irPoints[n] < |addresses|
    requires |selfEnergy| == computed.numBand0
    requires builder.temperature > 0.0 && g in irPoints ==> computed.numBand <= computed.numBand0
    modifies builder
    ensures ranInteraction
    ensures builder.fc3 == Some(computed)
  {
    builder.SetGridPoint(Some(g), triplets, addresses, irPoints);
    ranInteraction := builder.Run(computed, selfEnergy);
  }

  /** Two runs with the same self-energy give equal matrices: the second
      uses the interaction cached by the first and the same tables. */
  method RunTwice(builder: CollisionMatrixBuilder, computed: Interaction, again: Interaction, selfEnergy: seq<real>)
    returns (first: array5<real>, second: array5<real>, ranAgain: bool)
    requires builder.Valid() && builder.tablesLoaded
    requires |selfEnergy| == builder.InteractionFor(computed).numBand0
    requires builder.temperature > 0.0 && builder.gridPoint.Some? && builder.gridPoint.value in builder.irGridPoints ==>
      builder.InteractionFor(computed).numBand <= builder.InteractionFor(computed).numBand0
    modifies builder
    ensures !ranAgain
    ensures first.Length0 == second.Length0 && first.Length1 == second.Length1 && first.Length2 == second.Length2
    ensures first.Length3 == second.Length3 && first.Length4 == second.Length4
    ensures forall j, a, i, k, b | InBounds(first, j, a, i, k, b) :: first[j, a, i, k, b] == second[j, a, i, k, b]
  {
    var _ := builder.Run(computed, selfEnergy);
    first := builder.collisionMatrix;
    ranAgain := builder.Run(again, selfEnergy);
    second := builder.collisionMatrix;
  }
}
