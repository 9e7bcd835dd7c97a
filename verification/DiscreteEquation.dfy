/** The equation that the relaxation solves, written out at a grid position. */
module DiscreteEquation {
  import opened Reals
  import opened FemMesh
  import opened GridTraversal
  import opened ElasticitySweep

  /** One displacement component at a grid position. */
  function At(g: Grid, nodes: seq<Node>, axis: nat, i: int, j: int, k: int): real
    requires |nodes| == g.Size() && g.Inside(i, j, k) && axis < 3
  {
    nodes[g.Idx(i, j, k)].displacement.Get(axis)
  }

  /** The stress that the cracks put on a node along an axis, over the stiffness. */
  function CrackLoad(m: Material, node: Node, axis: nat): real
    requires axis < 3 && m.lambda + 2.0 * m.mu + 0.000000000001 != 0.0
  {
    var stress := 1000000.0 * Mul(node.crackDensity, m.maxStressMpa);
    Ratio(Mul(Mul(stress, node.crackDirection.Get(axis)), m.coupling), m.lambda + 2.0 * m.mu + 0.000000000001)
  }

  /** The second differences along x, y and z over the squared spacings, plus the crack load. */
  function Residual(
    g: Grid, m: Material, dx: real, dy: real, dz: real, nodes: seq<Node>, i: int, j: int, k: int, axis: nat): real
    requires |nodes| == g.Size() && g.Interior(i, j, k) && axis < 3
    requires Squared(dx) > 0.0 && Squared(dy) > 0.0 && Squared(dz) > 0.0
    requires m.lambda + 2.0 * m.mu + 0.000000000001 != 0.0
  {
    var u := At(g, nodes, axis, i, j, k);
    Ratio(At(g, nodes, axis, i + 1, j, k) - 2.0 * u + At(g, nodes, axis, i - 1, j, k), Squared(dx))
    + Ratio(At(g, nodes, axis, i, j + 1, k) - 2.0 * u + At(g, nodes, axis, i, j - 1, k), Squared(dy))
    + Ratio(At(g, nodes, axis, i, j, k + 1) - 2.0 * u + At(g, nodes, axis, i, j, k - 1), Squared(dz))
    + CrackLoad(m, nodes[g.Idx(i, j, k)], axis)
  }

  /** A problem on a grid with these spacings. */
  ghost predicate Spaced(p: Problem, dx: real, dy: real, dz: real) {
    && dx != 0.0 && dy != 0.0 && dz != 0.0 && p.Valid() && p.w == WeightsOf(dx, dy, dz)
    && Squared(dx) > 0.0 && Squared(dy) > 0.0 && Squared(dz) > 0.0
  }

  lemma SpacedProblem(p: Problem, dx: real, dy: real, dz: real)
    requires dx != 0.0 && dy != 0.0 && dz != 0.0 && p.Valid() && p.w == WeightsOf(dx, dy, dz)
    ensures Spaced(p, dx, dy, dz)
  {
    SquaredPositive(dx);
    SquaredPositive(dy);
    SquaredPositive(dz);
  }

  // ----- The residual in terms of what the program adds up

  lemma SecondDifference(a: real, u: real, b: real, s: real, w: real)
    requires s > 0.0 && w * s == 1.0
    ensures Ratio(a - 2.0 * u + b, s) == Pair(a, b, w) - Mul(2.0 * w, u)
  {
    var q, d := Ratio(a - 2.0 * u + b, s), a - 2.0 * u + b;
    assert q == q * (w * s) == (q * s) * w == d * w;
    assert d * w == (a + b) * w - 2.0 * w * u;
  }

  lemma InverseSquareTimes(d: real)
    requires d != 0.0 && Squared(d) > 0.0
    ensures InverseSquare(d) * Squared(d) == 1.0
  {
    hide Squared;
  }

  /** What the neighbours and the load pull towards. */
  function Pull(w: Weights, ip: real, im: real, jp: real, jm: real, kp: real, km: real, load: real): real {
    Pair(ip, im, w.x) + Pair(jp, jm, w.y) + Pair(kp, km, w.z) + load
  }

  lemma PullLess(w: Weights, u: real)
    ensures Mul(w.Diagonal(), u) == Mul(2.0 * w.x, u) + Mul(2.0 * w.y, u) + Mul(2.0 * w.z, u)
  {
  }

  function PullAt(p: Problem, nodes: seq<Node>, i: int, j: int, k: int, axis: nat): real
    requires p.Valid() && |nodes| == p.grid.Size() && p.grid.Interior(i, j, k) && axis < 3
  {
    var g := p.grid;
    Pull(p.w,
      At(g, nodes, axis, i + 1, j, k), At(g, nodes, axis, i - 1, j, k),
      At(g, nodes, axis, i, j + 1, k), At(g, nodes, axis, i, j - 1, k),
      At(g, nodes, axis, i, j, k + 1), At(g, nodes, axis, i, j, k - 1),
      CrackLoad(p.material, nodes[g.Idx(i, j, k)], axis))
  }

  lemma ResidualIs(p: Problem, dx: real, dy: real, dz: real, nodes: seq<Node>, i: int, j: int, k: int, axis: nat)
    requires Spaced(p, dx, dy, dz) && |nodes| == p.grid.Size() && p.grid.Interior(i, j, k) && axis < 3
    ensures Residual(p.grid, p.material, dx, dy, dz, nodes, i, j, k, axis)
            == PullAt(p, nodes, i, j, k, axis) - Mul(p.w.Diagonal(), At(p.grid, nodes, axis, i, j, k))
  {
    hide Squared, Mul, Pair, InverseSquare, Ratio, CrackLoad, At, Grid.Idx;
    var g := p.grid;
    var u := At(g, nodes, axis, i, j, k);
    InverseSquareTimes(dx);
    InverseSquareTimes(dy);
    InverseSquareTimes(dz);
    SecondDifference(At(g, nodes, axis, i + 1, j, k), u, At(g, nodes, axis, i - 1, j, k), Squared(dx), p.w.x);
    SecondDifference(At(g, nodes, axis, i, j + 1, k), u, At(g, nodes, axis, i, j - 1, k), Squared(dy), p.w.y);
    SecondDifference(At(g, nodes, axis, i, j, k + 1), u, At(g, nodes, axis, i, j, k - 1), Squared(dz), p.w.z);
    PullLess(p.w, u);
  }

  lemma SourceIsLoad(m: Material, node: Node, axis: nat)
    requires axis < 3 && m.lambda + 2.0 * m.mu + 0.000000000001 != 0.0
    ensures Source(m, node, axis) == CrackLoad(m, node, axis)
  {
    hide Vec3.Get, Ratio, Mul;
  }

  /** The value a visit relaxes towards is the pull over the diagonal. */
  lemma BalancedIsPull(p: Problem, nodes: seq<Node>, i: int, j: int, k: int, axis: nat)
    requires p.Valid() && |nodes| == p.grid.Size() && p.grid.Interior(i, j, k) && axis < 3
    ensures var n := p.grid.Idx(i, j, k);
      && HasNeighbours(p.grid, |nodes|, n) && p.w.Diagonal() > 0.0
      && Mul(p.w.Diagonal(), BalancedAt(p, nodes, n, axis)) == PullAt(p, nodes, i, j, k, axis)
  {
    hide Grid.Idx, Pair, Source, CrackLoad, Weights.Diagonal, Grid.Size;
    var g, n := p.grid, p.grid.Idx(i, j, k);
    NeighbourIndices(g, i, j, k);
    InteriorHere(g, i, j, k);
    InteriorHasNeighbours(g, n);
    DiagonalPositive(p.w);
    SourceIsLoad(p.material, nodes[n], axis);
    QuotientBack(PullAt(p, nodes, i, j, k, axis), p.w.Diagonal());
  }

  lemma InteriorHere(g: Grid, i: int, j: int, k: int)
    requires g.Interior(i, j, k)
    ensures InteriorIndex(g, g.Idx(i, j, k))
  {
  }

  lemma QuotientBack(a: real, d: real)
    requires d > 0.0
    ensures Mul(d, a / d) == a
  {
  }

  // ----- When a sweep changes nothing

  lemma CancelDiagonal(d: real, u: real, v: real)
    requires d > 0.0
    ensures Mul(d, u) == Mul(d, v) <==> u == v
  {
  }

  lemma BalanceExactly(p: Problem, dx: real, dy: real, dz: real, nodes: seq<Node>, i: int, j: int, k: int, axis: nat)
    requires Spaced(p, dx, dy, dz) && |nodes| == p.grid.Size() && p.grid.Interior(i, j, k) && axis < 3
    requires HasNeighbours(p.grid, |nodes|, p.grid.Idx(i, j, k)) && p.w.Diagonal() != 0.0
    ensures At(p.grid, nodes, axis, i, j, k) == BalancedAt(p, nodes, p.grid.Idx(i, j, k), axis)
            <==> Residual(p.grid, p.material, dx, dy, dz, nodes, i, j, k, axis) == 0.0
  {
    hide Squared, Mul, PullAt, BalancedAt, Residual, At, Weights.Diagonal, Grid.Idx, WeightsOf;
    BalancedIsPull(p, nodes, i, j, k, axis);
    ResidualIs(p, dx, dy, dz, nodes, i, j, k, axis);
    CancelDiagonal(p.w.Diagonal(), At(p.grid, nodes, axis, i, j, k),
      BalancedAt(p, nodes, p.grid.Idx(i, j, k), axis));
  }

  /** The discrete equation holds at every position that the sweep relaxes. */
  ghost predicate EquationHolds(p: Problem, dx: real, dy: real, dz: real, nodes: seq<Node>)
    requires Spaced(p, dx, dy, dz) && |nodes| == p.grid.Size()
  {
    forall i, j, k, axis: nat ::
      p.grid.Interior(i, j, k) && axis < 3 && !nodes[p.grid.Idx(i, j, k)].isBoundary ==>
        Residual(p.grid, p.material, dx, dy, dz, nodes, i, j, k, axis) == 0.0
  }

  lemma InBalanceExactly(p: Problem, dx: real, dy: real, dz: real, nodes: seq<Node>, i: int, j: int, k: int)
    requires Spaced(p, dx, dy, dz) && |nodes| == p.grid.Size() && p.grid.Interior(i, j, k)
    ensures HasNeighbours(p.grid, |nodes|, p.grid.Idx(i, j, k))
    ensures InBalance(p, nodes, p.grid.Idx(i, j, k)) <==>
      nodes[p.grid.Idx(i, j, k)].isBoundary || forall axis: nat :: axis < 3 ==>
        Residual(p.grid, p.material, dx, dy, dz, nodes, i, j, k, axis) == 0.0
  {
    hide BalancedAt, Residual, Weights.Diagonal, Grid.Idx, HasNeighbours, WeightsOf, Grid.Size;
    InteriorHere(p.grid, i, j, k);
    InteriorHasNeighbours(p.grid, p.grid.Idx(i, j, k));
    DiagonalPositive(p.w);
    forall axis: nat | axis < 3
      ensures At(p.grid, nodes, axis, i, j, k) == BalancedAt(p, nodes, p.grid.Idx(i, j, k), axis)
              <==> Residual(p.grid, p.material, dx, dy, dz, nodes, i, j, k, axis) == 0.0
    {
      BalanceExactly(p, dx, dy, dz, nodes, i, j, k, axis);
    }
  }

  /** A sweep changes nothing exactly when the second differences and the crack load add up to zero
      at every interior position that is not on the boundary, along every axis. */
  lemma SweepUnchangedExactly(p: Problem, dx: real, dy: real, dz: real, nodes: seq<Node>)
    requires Spaced(p, dx, dy, dz) && |nodes| == p.grid.Size()
    ensures Sweep(p, nodes) == nodes <==> EquationHolds(p, dx, dy, dz, nodes)
  {
    hide InBalance, Residual, Grid.Idx, HasNeighbours, WeightsOf, Sweep, SweepOrder;
    var g, order := p.grid, SweepOrder(p.grid);
    SweepFixedExactlyWhenSolved(p, nodes);
    SweepOrderSound(g);
    if Solved(p, nodes, order) {
      forall i, j, k, axis: nat | g.Interior(i, j, k) && axis < 3 && !nodes[g.Idx(i, j, k)].isBoundary
        ensures Residual(g, p.material, dx, dy, dz, nodes, i, j, k, axis) == 0.0
      {
        InBalanceExactly(p, dx, dy, dz, nodes, i, j, k);
        InteriorHere(g, i, j, k);
        var t :| 0 <= t < |order| && order[t] == g.Idx(i, j, k);
      }
    }
    if EquationHolds(p, dx, dy, dz, nodes) {
      forall t | 0 <= t < |order| ensures InBalance(p, nodes, order[t]) {
        assert order[t] in order;
        var i, j, k :| g.Interior(i, j, k) && order[t] == g.Idx(i, j, k);
        InBalanceExactly(p, dx, dy, dz, nodes, i, j, k);
      }
    }
  }

  // ----- What one visit does

  /** Axis by axis, whatever the two other axes became in between. */
  lemma RelaxAxisSees(p: Problem, nodes: seq<Node>, now: seq<Node>, n: int, axis: nat)
    requires p.Valid() && p.w.Diagonal() != 0.0 && axis < 3 && HasNeighbours(p.grid, |nodes|, n)
    requires |now| == |nodes| && SameButMoved(nodes[n], now[n])
    requires forall t :: 0 <= t < |nodes| && t != n ==> now[t] == nodes[t]
    requires now[n].displacement.Get(axis) == nodes[n].displacement.Get(axis)
    requires p.grid.nx > 0 && p.grid.Plane() > 0
    ensures RelaxAxis(p, now, n, axis)[n].displacement.Get(axis)
            == Relaxed(nodes[n].displacement.Get(axis), BalancedAt(p, nodes, n, axis))
  {
    SourceUnmoved(p.material, nodes[n], now[n], axis);
    hide Balanced, Relaxed, Source, Weights.Diagonal, Grid.Plane;
  }

  lemma VisitValue(p: Problem, nodes: seq<Node>, n: int, axis: nat)
    requires p.Valid() && p.w.Diagonal() != 0.0 && axis < 3 && HasNeighbours(p.grid, |nodes|, n)
    requires !nodes[n].isBoundary && p.grid.nx > 0 && p.grid.Plane() > 0
    ensures var r := Visit(p, nodes, n);
      && r[n].displacement.Get(axis) == Relaxed(nodes[n].displacement.Get(axis), BalancedAt(p, nodes, n, axis))
      && SameButMoved(nodes[n], r[n]) && forall t :: 0 <= t < |nodes| && t != n ==> r[t] == nodes[t]
  {
    hide BalancedAt, RelaxAxis, Relaxed, Weights.Diagonal, Grid.Plane, HasNeighbours, Vec3.Get;
    var a := RelaxAxis(p, nodes, n, 0);
    var b := RelaxAxis(p, a, n, 1);
    AxisKept(p, nodes, n, 0);
    AxisKept(p, a, n, 1);
    AxisKept(p, b, n, 2);
    RelaxAxisSees(p, nodes, nodes, n, 0);
    RelaxAxisSees(p, nodes, a, n, 1);
    RelaxAxisSees(p, nodes, b, n, 2);
  }

  lemma HalfWay(d: real, u: real, b: real, pull: real)
    requires Mul(d, b) == pull
    ensures pull - Mul(d, Relaxed(u, b)) == 0.5 * (pull - Mul(d, u))
  {
    assert Relaxed(u, b) == 0.5 * u + 0.5 * b;
    assert d * (0.5 * u + 0.5 * b) == 0.5 * (d * u) + 0.5 * (d * b);
  }

  /** A visit halves the residual at its node along every axis, and changes no other node. */
  lemma VisitHalvesResidual(
    p: Problem, dx: real, dy: real, dz: real, nodes: seq<Node>, i: int, j: int, k: int, axis: nat)
    requires Spaced(p, dx, dy, dz) && |nodes| == p.grid.Size() && p.grid.Interior(i, j, k) && axis < 3
    requires !nodes[p.grid.Idx(i, j, k)].isBoundary
    ensures HasNeighbours(p.grid, |nodes|, p.grid.Idx(i, j, k))
    ensures var r := Visit(p, nodes, p.grid.Idx(i, j, k));
      && Residual(p.grid, p.material, dx, dy, dz, r, i, j, k, axis)
         == 0.5 * Residual(p.grid, p.material, dx, dy, dz, nodes, i, j, k, axis)
      && forall t :: 0 <= t < |nodes| && t != p.grid.Idx(i, j, k) ==> r[t] == nodes[t]
  {
    hide Mul, PullAt, BalancedAt, Residual, Weights.Diagonal, Grid.Idx, WeightsOf, Relaxed, Visit, Grid.Plane,
      HasNeighbours, Grid.Size, Squared, SameButMoved;
    var g, n := p.grid, p.grid.Idx(i, j, k);
    BalancedIsPull(p, nodes, i, j, k, axis);
    PlanePositive(g, i, j, k);
    var r := Visit(p, nodes, n);
    VisitValue(p, nodes, n, axis);
    PullKept(p, nodes, r, i, j, k, axis);
    ResidualIs(p, dx, dy, dz, nodes, i, j, k, axis);
    ResidualIs(p, dx, dy, dz, r, i, j, k, axis);
    HalfWay(p.w.Diagonal(), At(g, nodes, axis, i, j, k), BalancedAt(p, nodes, n, axis),
      PullAt(p, nodes, i, j, k, axis));
  }

  lemma PlanePositive(g: Grid, i: int, j: int, k: int)
    requires g.Interior(i, j, k)
    ensures g.nx > 0 && g.Plane() > 0
  {
  }

  lemma PullKept(p: Problem, nodes: seq<Node>, r: seq<Node>, i: int, j: int, k: int, axis: nat)
    requires p.Valid() && |nodes| == p.grid.Size() == |r| && p.grid.Interior(i, j, k) && axis < 3
    requires SameButMoved(nodes[p.grid.Idx(i, j, k)], r[p.grid.Idx(i, j, k)])
    requires forall t :: 0 <= t < |nodes| && t != p.grid.Idx(i, j, k) ==> r[t] == nodes[t]
    ensures PullAt(p, r, i, j, k, axis) == PullAt(p, nodes, i, j, k, axis)
  {
    NeighbourIndices(p.grid, i, j, k);
    PlanePositive(p.grid, i, j, k);
    hide Grid.Idx, Grid.Plane, Grid.Size, Pull, SourceTerm, Vec3.Get;
    var n := p.grid.Idx(i, j, k);
    assert nodes[n].crackDensity == r[n].crackDensity && nodes[n].crackDirection == r[n].crackDirection;
  }

  // ----- Fields that every sweep keeps

  /** Every displacement component is an affine function of the grid position. */
  ghost predicate Affine(g: Grid, nodes: seq<Node>, a: Vec3, b: Vec3, c: Vec3, d: Vec3)
    requires |nodes| == g.Size()
  {
    forall i, j, k, axis: nat :: g.Inside(i, j, k) && axis < 3 ==>
      At(g, nodes, axis, i, j, k) == AffineAt(a.Get(axis), b.Get(axis), c.Get(axis), d.Get(axis), i, j, k)
  }

  function AffineAt(a: real, b: real, c: real, d: real, i: int, j: int, k: int): real {
    a + Mul(b, i as real) + Mul(c, j as real) + Mul(d, k as real)
  }

  lemma AffineDifferences(a: real, b: real, c: real, d: real, i: int, j: int, k: int)
    ensures var u := AffineAt(a, b, c, d, i, j, k);
      && AffineAt(a, b, c, d, i + 1, j, k) - 2.0 * u + AffineAt(a, b, c, d, i - 1, j, k) == 0.0
      && AffineAt(a, b, c, d, i, j + 1, k) - 2.0 * u + AffineAt(a, b, c, d, i, j - 1, k) == 0.0
      && AffineAt(a, b, c, d, i, j, k + 1) - 2.0 * u + AffineAt(a, b, c, d, i, j, k - 1) == 0.0
  {
    StepsEven(b, i);
    StepsEven(c, j);
    StepsEven(d, k);
    hide Mul;
  }

  lemma StepsEven(b: real, i: int)
    ensures Mul(b, (i + 1) as real) - 2.0 * Mul(b, i as real) + Mul(b, (i - 1) as real) == 0.0
  {
    assert (i + 1) as real == i as real + 1.0 && (i - 1) as real == i as real - 1.0;
  }

  /** Without cracks a sweep leaves every affine displacement field as it is. */
  lemma AffineFieldKept(
    p: Problem, dx: real, dy: real, dz: real, nodes: seq<Node>, a: Vec3, b: Vec3, c: Vec3, d: Vec3)
    requires Spaced(p, dx, dy, dz) && |nodes| == p.grid.Size() && Affine(p.grid, nodes, a, b, c, d)
    requires forall n :: 0 <= n < |nodes| ==> nodes[n].crackDensity == 0.0
    ensures Sweep(p, nodes) == nodes
  {
    hide At, AffineAt, Grid.Idx, WeightsOf, Sweep, Vec3.Get, Ratio, CrackLoad, Squared;
    var g := p.grid;
    forall i, j, k, axis: nat | g.Interior(i, j, k) && axis < 3
      ensures Residual(g, p.material, dx, dy, dz, nodes, i, j, k, axis) == 0.0
    {
      AffineDifferences(a.Get(axis), b.Get(axis), c.Get(axis), d.Get(axis), i, j, k);
      NoLoad(p.material, nodes[g.Idx(i, j, k)], axis);
      assert Ratio(0.0, Squared(dx)) == 0.0 by { NothingOver(Squared(dx)); }
      assert Ratio(0.0, Squared(dy)) == 0.0 by { NothingOver(Squared(dy)); }
      assert Ratio(0.0, Squared(dz)) == 0.0 by { NothingOver(Squared(dz)); }
    }
    SweepUnchangedExactly(p, dx, dy, dz, nodes);
  }

  lemma NothingOver(s: real)
    requires s != 0.0
    ensures Ratio(0.0, s) == 0.0
  {
  }

  lemma NoLoad(m: Material, node: Node, axis: nat)
    requires axis < 3 && m.lambda + 2.0 * m.mu + 0.000000000001 != 0.0 && node.crackDensity == 0.0
    ensures CrackLoad(m, node, axis) == 0.0
  {
    NothingOver(m.lambda + 2.0 * m.mu + 0.000000000001);
    hide Ratio;
  }
}
