/** The in-place relaxation of the displacement field on the structured grid. */
module ElasticitySweep {
  import opened Reals
  import opened FemMesh
  import opened GridTraversal

  const ITERATIONS: nat := 50
  const RELAXATION: real := 0.5

  /** 1 / dx^2, 1 / dy^2, 1 / dz^2. */
  datatype Weights = Weights(x: real, y: real, z: real) {
    ghost predicate Positive() {
      x > 0.0 && y > 0.0 && z > 0.0
    }

    function Diagonal(): real {
      2.0 * (x + y + z)
    }
  }

  datatype Material = Material(maxStressMpa: real, coupling: real, lambda: real, mu: real)

  function InverseSquare(d: real): (w: real)
    requires d != 0.0
    ensures w > 0.0
  {
    SquaredPositive(d);
    Reciprocal(Squared(d))
  }

  function Reciprocal(q: real): (r: real)
    requires q > 0.0
    ensures r > 0.0
  {
    1.0 / q
  }

  /** The weights of a mesh with the given spacings, which the mesh keeps above zero. */
  function WeightsOf(dx: real, dy: real, dz: real): (w: Weights)
    requires dx != 0.0 && dy != 0.0 && dz != 0.0
    ensures w.Positive()
  {
    hide InverseSquare;
    Weights(InverseSquare(dx), InverseSquare(dy), InverseSquare(dz))
  }

  function SourceTerm(m: Material, density: real, direction: real): real
    requires m.lambda + 2.0 * m.mu + 0.000000000001 != 0.0
  {
    var rho := Mul(density, m.maxStressMpa) * 1000000.0;
    Ratio(Mul(Mul(rho, direction), m.coupling), m.lambda + 2.0 * m.mu + 0.000000000001)
  }

  /** The crack-induced source term of a node along one axis. */
  function Source(m: Material, node: Node, axis: nat): real
    requires axis < 3 && m.lambda + 2.0 * m.mu + 0.000000000001 != 0.0
  {
    SourceTerm(m, node.crackDensity, node.crackDirection.Get(axis))
  }

  datatype Problem = Problem(grid: Grid, w: Weights, material: Material) {
    ghost predicate Valid() {
      w.Positive() && material.lambda + 2.0 * material.mu + 0.000000000001 != 0.0
    }
  }

  function Pair(x: real, y: real, w: real): real {
    (x + y) * w
  }

  /** The value at which one axis of the discrete equation at a node balances, given its six neighbours. */
  function Balanced(w: Weights, ip: real, im: real, jp: real, jm: real, kp: real, km: real, source: real): real
    requires w.Diagonal() != 0.0
  {
    (Pair(ip, im, w.x) + Pair(jp, jm, w.y) + Pair(kp, km, w.z) + source) / w.Diagonal()
  }

  function Relaxed(u: real, balanced: real): real {
    (1.0 - RELAXATION) * u + RELAXATION * balanced
  }

  function BalancedAt(p: Problem, nodes: seq<Node>, n: int, axis: nat): real
    requires axis < 3 && HasNeighbours(p.grid, |nodes|, n)
    requires p.w.Diagonal() != 0.0 && p.material.lambda + 2.0 * p.material.mu + 0.000000000001 != 0.0
  {
    var g := p.grid;
    Balanced(p.w,
      nodes[n + 1].displacement.Get(axis), nodes[n - 1].displacement.Get(axis),
      nodes[n + g.nx].displacement.Get(axis), nodes[n - g.nx].displacement.Get(axis),
      nodes[n + g.Plane()].displacement.Get(axis), nodes[n - g.Plane()].displacement.Get(axis),
      Source(p.material, nodes[n], axis))
  }

  function RelaxAxis(p: Problem, nodes: seq<Node>, n: int, axis: nat): (r: seq<Node>)
    requires axis < 3 && HasNeighbours(p.grid, |nodes|, n)
    requires p.w.Diagonal() != 0.0 && p.material.lambda + 2.0 * p.material.mu + 0.000000000001 != 0.0
    ensures |r| == |nodes|
  {
    var u := nodes[n].displacement;
    nodes[n := nodes[n].(displacement := u.Set(axis, Relaxed(u.Get(axis), BalancedAt(p, nodes, n, axis))))]
  }

  /** The first count axes of a node, one after the other. */
  function RelaxAxes(p: Problem, nodes: seq<Node>, n: int, count: nat): (r: seq<Node>)
    requires p.Valid() && HasNeighbours(p.grid, |nodes|, n) && count <= 3
    ensures |r| == |nodes|
  {
    DiagonalPositive(p.w);
    if count == 0 then nodes else RelaxAxis(p, RelaxAxes(p, nodes, n, count - 1), n, count - 1)
  }

  /** One visit of a node: its three axes in turn, unless it is on the boundary. */
  function Visit(p: Problem, nodes: seq<Node>, n: int): (r: seq<Node>)
    requires p.Valid() && HasNeighbours(p.grid, |nodes|, n)
    ensures |r| == |nodes|
  {
    DiagonalPositive(p.w);
    if nodes[n].isBoundary then nodes
    else RelaxAxis(p, RelaxAxis(p, RelaxAxis(p, nodes, n, 0), n, 1), n, 2)
  }

  lemma VisitIsAxes(p: Problem, nodes: seq<Node>, n: int)
    requires p.Valid() && HasNeighbours(p.grid, |nodes|, n) && !nodes[n].isBoundary
    ensures Visit(p, nodes, n) == RelaxAxes(p, nodes, n, 3)
  {
    hide RelaxAxis;
    assert RelaxAxes(p, nodes, n, 0) == nodes;
    assert RelaxAxes(p, nodes, n, 1) == RelaxAxis(p, nodes, n, 0);
  }

  lemma DiagonalPositive(w: Weights)
    requires w.Positive()
    ensures w.Diagonal() > 0.0
  {
  }

  /** Visits in a given order. */
  function VisitAll(p: Problem, nodes: seq<Node>, order: seq<int>): (r: seq<Node>)
    requires p.Valid() && forall t :: 0 <= t < |order| ==> HasNeighbours(p.grid, |nodes|, order[t])
    ensures |r| == |nodes|
  {
    if order == [] then nodes
    else Visit(p, VisitAll(p, nodes, order[..|order| - 1]), order[|order| - 1])
  }

  // ----- The discrete maximum principle

  ghost predicate Small(node: Node, bound: real) {
    forall axis: nat :: axis < 3 ==> Abs(node.displacement.Get(axis)) <= bound
  }

  ghost predicate Bounded(nodes: seq<Node>, bound: real) {
    forall m :: 0 <= m < |nodes| ==> Small(nodes[m], bound)
  }

  /** The source of every node, divided by the diagonal, is at most s. */
  ghost predicate SourcesWithin(p: Problem, nodes: seq<Node>, s: real)
    requires p.Valid()
  {
    forall m, axis: nat :: 0 <= m < |nodes| && axis < 3 ==>
      Abs(Source(p.material, nodes[m], axis)) <= s * p.w.Diagonal()
  }

  /** a and b differ in their displacement at most. */
  ghost predicate SameButMoved(a: Node, b: Node) {
    a.(displacement := b.displacement) == b
  }

  /** Average of neighbours plus source: at most s above the common bound of the neighbours. */
  lemma BalancedBound(
    w: Weights, ip: real, im: real, jp: real, jm: real, kp: real, km: real, source: real, b: real, s: real)
    requires w.Positive()
    requires Abs(ip) <= b && Abs(im) <= b && Abs(jp) <= b && Abs(jm) <= b && Abs(kp) <= b && Abs(km) <= b
    requires Abs(source) <= s * w.Diagonal()
    ensures w.Diagonal() > 0.0
    ensures Abs(Balanced(w, ip, im, jp, jm, kp, km, source)) <= b + s
  {
    hide Pair;
    PairBound(ip, im, w.x, b);
    PairBound(jp, jm, w.y, b);
    PairBound(kp, km, w.z, b);
    var sum := Pair(ip, im, w.x) + Pair(jp, jm, w.y) + Pair(kp, km, w.z) + source;
    Collect(b, s, w.x, w.y, w.z, w.Diagonal());
    QuotientBound(sum, w.Diagonal(), b + s);
  }

  lemma PairBound(p: real, q: real, w: real, b: real)
    requires w > 0.0 && Abs(p) <= b && Abs(q) <= b
    ensures -Pair(b, b, w) <= Pair(p, q, w) <= Pair(b, b, w)
  {
    MonotoneProduct(p + q, b + b, w);
    MonotoneProduct(-(b + b), p + q, w);
    assert (-(b + b)) * w == -((b + b) * w);
  }

  lemma MonotoneProduct(x: real, y: real, w: real)
    requires x <= y && w >= 0.0
    ensures x * w <= y * w
  {
    var d := y - x;
    assert d * w >= 0.0;
  }

  lemma Collect(b: real, s: real, x: real, y: real, z: real, d: real)
    requires d == 2.0 * (x + y + z)
    ensures Pair(b, b, x) + Pair(b, b, y) + Pair(b, b, z) + s * d == (b + s) * d
  {
    assert b * d == (b + b) * x + (b + b) * y + (b + b) * z;
  }

  lemma QuotientBound(num: real, d: real, b: real)
    requires d > 0.0 && -(b * d) <= num <= b * d
    ensures Abs(num / d) <= b
  {
    var q := num / d;
    assert q * d == num;
    if q > b {
      assert (q - b) * d > 0.0;
    }
    if q < -b {
      assert (-b - q) * d > 0.0;
    }
  }

  lemma RelaxedBound(u: real, balanced: real, m: real, s: real)
    requires Abs(u) <= m && Abs(balanced) <= m + 2.0 * s
    ensures Abs(Relaxed(u, balanced)) <= m + s
  {
  }

  lemma RelaxedValueBound(p: Problem, nodes: seq<Node>, n: int, axis: nat, m: real, s: real)
    requires p.Valid() && axis < 3 && HasNeighbours(p.grid, |nodes|, n) && p.w.Diagonal() != 0.0
    requires Bounded(nodes, m + s) && SourcesWithin(p, nodes, s)
    requires Abs(nodes[n].displacement.Get(axis)) <= m
    ensures Abs(Relaxed(nodes[n].displacement.Get(axis), BalancedAt(p, nodes, n, axis))) <= m + s
  {
    hide Balanced, Relaxed, Source, Vec3.Get, Grid.Plane, Abs;
    var g := p.grid;
    assert Small(nodes[n + 1], m + s) && Small(nodes[n - 1], m + s);
    assert Small(nodes[n + g.nx], m + s) && Small(nodes[n - g.nx], m + s);
    assert Small(nodes[n + g.Plane()], m + s) && Small(nodes[n - g.Plane()], m + s);
    BalancedBound(p.w,
      nodes[n + 1].displacement.Get(axis), nodes[n - 1].displacement.Get(axis),
      nodes[n + g.nx].displacement.Get(axis), nodes[n - g.nx].displacement.Get(axis),
      nodes[n + g.Plane()].displacement.Get(axis), nodes[n - g.Plane()].displacement.Get(axis),
      Source(p.material, nodes[n], axis), m + s, s);
    RelaxedBound(nodes[n].displacement.Get(axis), BalancedAt(p, nodes, n, axis), m, s);
  }

  lemma RelaxAxisBound(p: Problem, nodes: seq<Node>, n: int, axis: nat, m: real, s: real)
    requires p.Valid() && axis < 3 && HasNeighbours(p.grid, |nodes|, n) && p.w.Diagonal() != 0.0
    requires Bounded(nodes, m + s) && SourcesWithin(p, nodes, s)
    requires Abs(nodes[n].displacement.Get(axis)) <= m
    ensures var r := RelaxAxis(p, nodes, n, axis);
      Bounded(r, m + s) && SourcesWithin(p, r, s) && SameButMoved(nodes[n], r[n])
      && forall other: nat :: other < 3 && other != axis ==>
        r[n].displacement.Get(other) == nodes[n].displacement.Get(other)
  {
    hide BalancedAt, Relaxed, Source, SourcesWithin;
    var r := RelaxAxis(p, nodes, n, axis);
    RelaxedValueBound(p, nodes, n, axis, m, s);
    assert 0 <= n < |nodes| && Small(nodes[n], m + s);
    var u, v := nodes[n].displacement, Relaxed(nodes[n].displacement.Get(axis), BalancedAt(p, nodes, n, axis));
    assert r[n].displacement == u.Set(axis, v);
    forall other: nat | other < 3 ensures Abs(r[n].displacement.Get(other)) <= m + s {
      assert u.Set(axis, v).Get(other) == if other == axis then v else u.Get(other);
    }
    SourcesKept(p, nodes, r, n, s);
  }

  lemma SourcesKept(p: Problem, nodes: seq<Node>, r: seq<Node>, n: int, s: real)
    requires p.Valid() && |r| == |nodes| && 0 <= n < |nodes| && SourcesWithin(p, nodes, s)
    requires SameButMoved(nodes[n], r[n]) && forall t :: 0 <= t < |nodes| && t != n ==> r[t] == nodes[t]
    ensures SourcesWithin(p, r, s)
  {
    hide Source, Abs;
    forall m, axis: nat | 0 <= m < |r| && axis < 3
      ensures Abs(Source(p.material, r[m], axis)) <= s * p.w.Diagonal()
    {
      SourceUnmoved(p.material, nodes[m], r[m], axis);
    }
  }

  lemma SourceUnmoved(m: Material, a: Node, b: Node, axis: nat)
    requires axis < 3 && m.lambda + 2.0 * m.mu + 0.000000000001 != 0.0 && SameButMoved(a, b)
    ensures Source(m, a, axis) == Source(m, b, axis)
  {
    hide SourceTerm;
    assert a.crackDensity == b.crackDensity && a.crackDirection == b.crackDirection;
  }

  /** A visited node that was within m ends within m + s, and nothing else moves. */
  lemma VisitBound(p: Problem, nodes: seq<Node>, n: int, m: real, s: real)
    requires p.Valid() && HasNeighbours(p.grid, |nodes|, n) && s >= 0.0
    requires Bounded(nodes, m + s) && SourcesWithin(p, nodes, s) && Small(nodes[n], m)
    ensures var r := Visit(p, nodes, n);
      && Bounded(r, m + s) && SourcesWithin(p, r, s) && SameButMoved(nodes[n], r[n])
      && (nodes[n].isBoundary ==> r == nodes)
      && forall t :: 0 <= t < |nodes| && t != n ==> r[t] == nodes[t]
  {
    hide Source, BalancedAt, Bounded, SourcesWithin;
    DiagonalPositive(p.w);
    if !nodes[n].isBoundary {
      var a := RelaxAxis(p, nodes, n, 0);
      RelaxAxisBound(p, nodes, n, 0, m, s);
      var b := RelaxAxis(p, a, n, 1);
      RelaxAxisBound(p, a, n, 1, m, s);
      RelaxAxisBound(p, b, n, 2, m, s);
    }
  }

  /** The state of a sweep that has visited the indices below from. */
  ghost predicate SweptTo(p: Problem, before: seq<Node>, now: seq<Node>, from: int, m: real, s: real)
    requires p.Valid()
  {
    && |now| == |before| && Bounded(now, m + s) && SourcesWithin(p, now, s)
    && (forall t :: from <= t < |before| && 0 <= t ==> now[t] == before[t])
    && (forall t :: 0 <= t < |before| ==> SameButMoved(before[t], now[t]))
    && (forall t :: 0 <= t < |before| && before[t].isBoundary ==> now[t] == before[t])
  }

  lemma {:induction false} VisitAllBound(p: Problem, nodes: seq<Node>, order: seq<int>, m: real, s: real)
    requires p.Valid() && Increasing(order) && s >= 0.0
    requires forall t :: 0 <= t < |order| ==> HasNeighbours(p.grid, |nodes|, order[t])
    requires Bounded(nodes, m) && SourcesWithin(p, nodes, s)
    ensures SweptTo(p, nodes, VisitAll(p, nodes, order), if order == [] then 0 else order[|order| - 1] + 1, m, s)
  {
    hide Source, Visit, SourcesWithin;
    if order == [] {
      LooserBound(nodes, m, m + s);
    } else {
      var init, last := order[..|order| - 1], order[|order| - 1];
      VisitAllBound(p, nodes, init, m, s);
      var now := VisitAll(p, nodes, init);
      assert init != [] ==> init[|init| - 1] == order[|order| - 2] < last;
      assert now[last] == nodes[last] && Small(nodes[last], m);
      VisitBound(p, now, last, m, s);
    }
  }

  lemma LooserBound(nodes: seq<Node>, m: real, b: real)
    requires Bounded(nodes, m) && m <= b
    ensures Bounded(nodes, b)
  {
    forall t | 0 <= t < |nodes| ensures Small(nodes[t], b) {
      assert Small(nodes[t], m);
    }
  }

  // ----- Whole sweeps

  function Sweep(p: Problem, nodes: seq<Node>): (r: seq<Node>)
    requires p.Valid() && |nodes| == p.grid.Size()
    ensures |r| == |nodes|
  {
    OrderInMesh(p.grid, nodes);
    VisitAll(p, nodes, SweepOrder(p.grid))
  }

  lemma OrderInMesh(g: Grid, nodes: seq<Node>)
    requires |nodes| == g.Size()
    ensures forall t :: 0 <= t < |SweepOrder(g)| ==> HasNeighbours(g, |nodes|, SweepOrder(g)[t])
  {
    SweepOrderSound(g);
    forall t | 0 <= t < |SweepOrder(g)| ensures HasNeighbours(g, |nodes|, SweepOrder(g)[t]) {
      InteriorHasNeighbours(g, SweepOrder(g)[t]);
    }
  }

  function Sweeps(p: Problem, nodes: seq<Node>, count: nat): (r: seq<Node>)
    requires p.Valid() && |nodes| == p.grid.Size()
    ensures |r| == |nodes|
  {
    if count == 0 then nodes else Sweep(p, Sweeps(p, nodes, count - 1))
  }

  /** One sweep raises a bound on all displacements by at most s, moves nothing but displacements,
      and moves no boundary node. */
  lemma SweepMaximumPrinciple(p: Problem, nodes: seq<Node>, m: real, s: real)
    requires p.Valid() && |nodes| == p.grid.Size() && s >= 0.0
    requires Bounded(nodes, m) && SourcesWithin(p, nodes, s)
    ensures var r := Sweep(p, nodes);
      && Bounded(r, m + s) && SourcesWithin(p, r, s)
      && (forall t :: 0 <= t < |nodes| ==> SameButMoved(nodes[t], r[t]))
      && (forall t :: 0 <= t < |nodes| && nodes[t].isBoundary ==> r[t] == nodes[t])
  {
    OrderInMesh(p.grid, nodes);
    SweepOrderSound(p.grid);
    VisitAllBound(p, nodes, SweepOrder(p.grid), m, s);
  }

  /** From rest, count sweeps keep every displacement within count times s, and the boundary at rest. */
  lemma {:induction false} SweepsMaximumPrinciple(p: Problem, nodes: seq<Node>, s: real, count: nat)
    requires p.Valid() && |nodes| == p.grid.Size() && s >= 0.0
    requires Bounded(nodes, 0.0) && SourcesWithin(p, nodes, s)
    ensures var r := Sweeps(p, nodes, count);
      && Bounded(r, count as real * s) && SourcesWithin(p, r, s)
      && (forall t :: 0 <= t < |nodes| ==> SameButMoved(nodes[t], r[t]))
      && (forall t :: 0 <= t < |nodes| && nodes[t].isBoundary ==> r[t] == nodes[t])
  {
    hide Bounded, SourcesWithin, Sweep;
    if count == 0 {
      assert count as real * s == 0.0;
    } else {
      var c := count - 1;
      SweepsMaximumPrinciple(p, nodes, s, c);
      SweepMaximumPrinciple(p, Sweeps(p, nodes, c), c as real * s, s);
      OneMoreShare(c, count, s);
      LooserBound(Sweeps(p, nodes, count), c as real * s + s, count as real * s);
    }
  }

  lemma OneMoreShare(c: nat, count: nat, s: real)
    requires count == c + 1
    ensures c as real * s + s == count as real * s
  {
    var r := c as real;
    assert count as real == r + 1.0;
    assert (r + 1.0) * s == r * s + s;
  }

  // ----- What a sweep leaves alone

  /** The discrete equation holds at node n along all axes, unless the node is on the boundary. */
  ghost predicate InBalance(p: Problem, nodes: seq<Node>, n: int)
    requires p.Valid() && HasNeighbours(p.grid, |nodes|, n)
  {
    DiagonalPositive(p.w);
    nodes[n].isBoundary || forall axis: nat :: axis < 3 ==>
      nodes[n].displacement.Get(axis) == BalancedAt(p, nodes, n, axis)
  }

  ghost predicate Solved(p: Problem, nodes: seq<Node>, order: seq<int>)
    requires p.Valid() && forall t :: 0 <= t < |order| ==> HasNeighbours(p.grid, |nodes|, order[t])
  {
    forall t :: 0 <= t < |order| ==> InBalance(p, nodes, order[t])
  }

  lemma RelaxAxisFixed(p: Problem, nodes: seq<Node>, n: int, axis: nat)
    requires p.Valid() && p.w.Diagonal() != 0.0 && axis < 3 && HasNeighbours(p.grid, |nodes|, n)
    ensures RelaxAxis(p, nodes, n, axis) == nodes <==>
      nodes[n].displacement.Get(axis) == BalancedAt(p, nodes, n, axis)
  {
    hide BalancedAt;
    var u, b := nodes[n].displacement, BalancedAt(p, nodes, n, axis);
    assert Relaxed(u.Get(axis), b) == u.Get(axis) <==> u.Get(axis) == b;
    assert u.Set(axis, u.Get(axis)) == u;
    assert u.Set(axis, Relaxed(u.Get(axis), b)).Get(axis) == Relaxed(u.Get(axis), b);
    assert RelaxAxis(p, nodes, n, axis)[n].displacement == u.Set(axis, Relaxed(u.Get(axis), b));
  }

  lemma VisitFixed(p: Problem, nodes: seq<Node>, n: int)
    requires p.Valid() && p.w.Diagonal() != 0.0 && HasNeighbours(p.grid, |nodes|, n)
    ensures Visit(p, nodes, n) == nodes <==> InBalance(p, nodes, n)
  {
    hide BalancedAt;
    if !nodes[n].isBoundary {
      var a := RelaxAxis(p, nodes, n, 0);
      var b := RelaxAxis(p, a, n, 1);
      var c := RelaxAxis(p, b, n, 2);
      RelaxAxisFixed(p, nodes, n, 0);
      RelaxAxisFixed(p, nodes, n, 1);
      RelaxAxisFixed(p, nodes, n, 2);
      AxisKept(p, nodes, n, 0);
      AxisKept(p, a, n, 1);
      AxisKept(p, b, n, 2);
      if c == nodes {
        assert a[n].displacement.x == nodes[n].displacement.x;
        assert a[n].displacement == nodes[n].displacement && a == nodes;
        assert b[n].displacement == nodes[n].displacement && b == nodes;
      }
    }
  }

  lemma AxisKept(p: Problem, nodes: seq<Node>, n: int, axis: nat)
    requires p.Valid() && p.w.Diagonal() != 0.0 && axis < 3 && HasNeighbours(p.grid, |nodes|, n)
    ensures var r := RelaxAxis(p, nodes, n, axis);
      && SameButMoved(nodes[n], r[n]) && (forall t :: 0 <= t < |nodes| && t != n ==> r[t] == nodes[t])
      && forall other: nat :: other < 3 && other != axis ==>
        r[n].displacement.Get(other) == nodes[n].displacement.Get(other)
  {
    hide BalancedAt;
  }

  /** Visits touch no index outside their order. */
  lemma {:induction false} VisitAllTouches(p: Problem, nodes: seq<Node>, order: seq<int>, n: int)
    requires p.Valid() && forall t :: 0 <= t < |order| ==> HasNeighbours(p.grid, |nodes|, order[t])
    requires 0 <= n < |nodes| && n !in order
    ensures VisitAll(p, nodes, order)[n] == nodes[n]
  {
    hide BalancedAt;
    if order != [] {
      VisitAllTouches(p, nodes, order[..|order| - 1], n);
    }
  }

  /** An in-place pass over distinct nodes leaves the whole field unchanged exactly when each
      node visited was already in balance. */
  lemma {:induction false} VisitAllFixed(p: Problem, nodes: seq<Node>, order: seq<int>)
    requires p.Valid() && Increasing(order)
    requires forall t :: 0 <= t < |order| ==> HasNeighbours(p.grid, |nodes|, order[t])
    ensures VisitAll(p, nodes, order) == nodes <==> Solved(p, nodes, order)
  {
    hide BalancedAt, Visit;
    DiagonalPositive(p.w);
    if order != [] {
      var init, last := order[..|order| - 1], order[|order| - 1];
      var before, after := VisitAll(p, nodes, init), VisitAll(p, nodes, order);
      VisitAllFixed(p, nodes, init);
      VisitFixed(p, nodes, last);
      if after == nodes {
        forall t | 0 <= t < |nodes| ensures before[t] == nodes[t] {
          if t == last {
            VisitAllTouches(p, nodes, init, last);
          } else {
            VisitLeaves(p, before, last, t);
          }
        }
        assert before == nodes;
      }
      SolvedSplits(p, nodes, order);
    }
  }

  lemma VisitLeaves(p: Problem, nodes: seq<Node>, n: int, t: int)
    requires p.Valid() && HasNeighbours(p.grid, |nodes|, n) && 0 <= t < |nodes| && t != n
    ensures Visit(p, nodes, n)[t] == nodes[t]
  {
    hide BalancedAt;
  }

  lemma SolvedSplits(p: Problem, nodes: seq<Node>, order: seq<int>)
    requires p.Valid() && order != []
    requires forall t :: 0 <= t < |order| ==> HasNeighbours(p.grid, |nodes|, order[t])
    ensures Solved(p, nodes, order) <==>
      Solved(p, nodes, order[..|order| - 1]) && InBalance(p, nodes, order[|order| - 1])
  {
    hide InBalance;
    var init := order[..|order| - 1];
    if Solved(p, nodes, order) {
      forall t | 0 <= t < |init| ensures InBalance(p, nodes, init[t]) {
        assert init[t] == order[t];
      }
    }
    if Solved(p, nodes, init) && InBalance(p, nodes, order[|order| - 1]) {
      forall t | 0 <= t < |order| ensures InBalance(p, nodes, order[t]) {
        assert t < |init| ==> init[t] == order[t];
      }
    }
  }

  /** A sweep changes nothing exactly when the displacements solve the discrete equations. */
  lemma SweepFixedExactlyWhenSolved(p: Problem, nodes: seq<Node>)
    requires p.Valid() && |nodes| == p.grid.Size()
    ensures forall t :: 0 <= t < |SweepOrder(p.grid)| ==> HasNeighbours(p.grid, |nodes|, SweepOrder(p.grid)[t])
    ensures Sweep(p, nodes) == nodes <==> Solved(p, nodes, SweepOrder(p.grid))
  {
    OrderInMesh(p.grid, nodes);
    SweepOrderSound(p.grid);
    VisitAllFixed(p, nodes, SweepOrder(p.grid));
  }
}
