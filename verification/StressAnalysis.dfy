/** The finite-element mesh object and the passes that overwrite it in place. */
module StressAnalysis {
  import opened Reals
  import opened FemMesh
  import opened GridTraversal
  import opened ElasticitySweep
  import opened StressSmoothing
  import opened SmoothingPass
  import opened Refinement

  ghost predicate AllHaveNeighbours(g: Grid, count: nat, order: seq<int>) {
    forall t :: 0 <= t < |order| ==> HasNeighbours(g, count, order[t])
  }

  /** Visits in two stretches. */
  lemma {:induction false} VisitAllAppend(p: Problem, nodes: seq<Node>, a: seq<int>, b: seq<int>)
    requires p.Valid()
    requires AllHaveNeighbours(p.grid, |nodes|, a)
    requires AllHaveNeighbours(p.grid, |nodes|, b)
    ensures AllHaveNeighbours(p.grid, |nodes|, a + b)
    ensures VisitAll(p, nodes, a + b) == VisitAll(p, VisitAll(p, nodes, a), b)
    decreases |b|
  {
    hide Visit, HasNeighbours;
    if b == [] {
      assert a + b == a;
    } else {
      var init := b[..|b| - 1];
      VisitAllAppend(p, nodes, a, init);
      assert (a + b)[..|a + b| - 1] == a + init;
    }
  }

  /** Every position of a row, plane or grid order has its neighbours on a full grid. */
  lemma RowInMesh(g: Grid, j: int, k: int, iEnd: int)
    requires 1 <= j < g.ny - 1 && 1 <= k < g.nz - 1 && 1 <= iEnd <= g.nx - 1
    ensures AllHaveNeighbours(g, g.Size(), RowOrder(g, j, k, iEnd))
  {
    hide Grid.Idx, HasNeighbours, RowOrder;
    RowOrderSound(g, j, k, iEnd);
    var o := RowOrder(g, j, k, iEnd);
    forall t | 0 <= t < |o| ensures HasNeighbours(g, g.Size(), o[t]) {
      assert g.Interior(t + 1, j, k);
      InteriorHasNeighbours(g, o[t]);
    }
  }

  lemma PlaneInMesh(g: Grid, k: int, jEnd: int)
    requires 1 <= k < g.nz - 1 && 1 <= jEnd <= g.ny - 1 && 2 <= g.nx
    ensures AllHaveNeighbours(g, g.Size(), PlaneOrder(g, k, jEnd))
  {
    hide Grid.Idx, HasNeighbours, InteriorIndex, PlaneOrder;
    PlaneOrderSound(g, k, jEnd);
    var o := PlaneOrder(g, k, jEnd);
    forall t | 0 <= t < |o| ensures HasNeighbours(g, g.Size(), o[t]) {
      InteriorHasNeighbours(g, o[t]);
    }
  }

  lemma GridInMesh(g: Grid, kEnd: int)
    requires 1 <= kEnd <= g.nz - 1 && 2 <= g.nx && 2 <= g.ny
    ensures AllHaveNeighbours(g, g.Size(), GridOrder(g, kEnd))
  {
    hide Grid.Idx, HasNeighbours, InteriorIndex, GridOrder;
    GridOrderSound(g, kEnd);
    var o := GridOrder(g, kEnd);
    forall t | 0 <= t < |o| ensures HasNeighbours(g, g.Size(), o[t]) {
      InteriorHasNeighbours(g, o[t]);
    }
  }

  /** What the loop body adds up, in terms of the neighbour indices. */
  lemma NeighboursInMesh(g: Grid, i: int, j: int, k: int)
    requires g.Interior(i, j, k)
    ensures HasNeighbours(g, g.Size(), g.Idx(i, j, k)) && 0 <= g.Idx(i, j, k) < g.Size()
    ensures 0 <= g.Idx(i + 1, j, k) < g.Size() && 0 <= g.Idx(i - 1, j, k) < g.Size()
    ensures 0 <= g.Idx(i, j + 1, k) < g.Size() && 0 <= g.Idx(i, j - 1, k) < g.Size()
    ensures 0 <= g.Idx(i, j, k + 1) < g.Size() && 0 <= g.Idx(i, j, k - 1) < g.Size()
  {
    hide Grid.Idx, Grid.Plane, Grid.Size;
    NeighbourIndices(g, i, j, k);
    assert InteriorIndex(g, g.Idx(i, j, k));
    InteriorHasNeighbours(g, g.Idx(i, j, k));
  }

  lemma BalancedFromNeighbours(p: Problem, nodes: seq<Node>, i: int, j: int, k: int, axis: nat)
    requires p.Valid() && |nodes| == p.grid.Size() && p.grid.Interior(i, j, k) && axis < 3
    ensures var g := p.grid;
      && HasNeighbours(g, |nodes|, g.Idx(i, j, k)) && p.w.Diagonal() != 0.0
      && BalancedAt(p, nodes, g.Idx(i, j, k), axis) == Balanced(p.w,
           nodes[g.Idx(i + 1, j, k)].displacement.Get(axis), nodes[g.Idx(i - 1, j, k)].displacement.Get(axis),
           nodes[g.Idx(i, j + 1, k)].displacement.Get(axis), nodes[g.Idx(i, j - 1, k)].displacement.Get(axis),
           nodes[g.Idx(i, j, k + 1)].displacement.Get(axis), nodes[g.Idx(i, j, k - 1)].displacement.Get(axis),
           SourceTerm(p.material, nodes[g.Idx(i, j, k)].crackDensity, nodes[g.Idx(i, j, k)].crackDirection.Get(axis)))
  {
    NeighbourIndices(p.grid, i, j, k);
    NeighboursInMesh(p.grid, i, j, k);
    DiagonalPositive(p.w);
    hide Grid.Idx, SourceTerm, Balanced, Weights.Diagonal, InteriorIndex;
  }

  lemma RelaxedAxis(p: Problem, nodes: seq<Node>, n: int, axis: nat)
    requires axis < 3 && HasNeighbours(p.grid, |nodes|, n)
    requires p.w.Diagonal() != 0.0 && p.material.lambda + 2.0 * p.material.mu + 0.000000000001 != 0.0
    ensures var u := nodes[n].displacement;
      RelaxAxis(p, nodes, n, axis) == nodes[n := nodes[n].(displacement :=
        u.Set(axis, Relaxed(u.Get(axis), BalancedAt(p, nodes, n, axis))))]
  {
    hide BalancedAt, Relaxed;
  }

  lemma VisitBoundary(p: Problem, nodes: seq<Node>, n: int)
    requires p.Valid() && HasNeighbours(p.grid, |nodes|, n) && nodes[n].isBoundary
    ensures Visit(p, nodes, n) == nodes
  {
  }

  ghost predicate AllHaveCubes(g: Grid, count: nat, order: seq<int>) {
    forall t :: 0 <= t < |order| ==> HasCube(g, count, order[t])
  }

  lemma GridHasCubes(g: Grid, kEnd: int)
    requires 1 <= kEnd <= g.nz - 1 && 2 <= g.nx && 2 <= g.ny
    ensures AllHaveCubes(g, g.Size(), GridOrder(g, kEnd))
  {
    hide HasCube, Grid.Idx, InteriorIndex, GridOrder;
    GridOrderSound(g, kEnd);
    var o := GridOrder(g, kEnd);
    forall t | 0 <= t < |o| ensures HasCube(g, g.Size(), o[t]) {
      InteriorHasCube(g, o[t]);
    }
  }

  lemma SmoothedOneMore(g: Grid, copy: seq<Node>, order: seq<int>, n: int, exp: real -> real, sqrt: real -> real)
    requires AllHaveCubes(g, |copy|, order) && HasCube(g, |copy|, n)
    ensures AllHaveCubes(g, |copy|, order + [n])
    ensures SmoothAll(g, copy, order + [n], exp, sqrt)
            == SmoothVisit(g, copy, SmoothAll(g, copy, order, exp, sqrt), n, exp, sqrt)
  {
    hide HasCube, SmoothVisit;
    assert (order + [n])[..|order|] == order;
  }

  class FeaMesh {
    var nodes: seq<Node>
    const grid: Grid

    constructor (grid: Grid, nodes: seq<Node>)
      ensures this.grid == grid && this.nodes == nodes
    {
      this.grid, this.nodes := grid, nodes;
    }

    /** The innermost body of the relaxation: the three axes of one node, one after the other, each
        from the displacements of the six neighbours as they stand. */
    method RelaxNode(p: Problem, i: int, j: int, k: int)
      requires p.Valid() && p.grid == grid && |nodes| == grid.Size() && grid.Interior(i, j, k)
      modifies this`nodes
      ensures HasNeighbours(grid, |nodes|, grid.Idx(i, j, k))
      ensures |nodes| == grid.Size() && nodes == Visit(p, old(nodes), grid.Idx(i, j, k))
    {
      hide Grid.Idx, Grid.Plane, Grid.Size, Visit, RelaxAxis, BalancedAt, SourceTerm, HasNeighbours, Pair, Relaxed,
        Weights.Diagonal;
      var n := grid.Idx(i, j, k);
      var nIp, nIm := grid.Idx(i + 1, j, k), grid.Idx(i - 1, j, k);
      var nJp, nJm := grid.Idx(i, j + 1, k), grid.Idx(i, j - 1, k);
      var nKp, nKm := grid.Idx(i, j, k + 1), grid.Idx(i, j, k - 1);
      NeighboursInMesh(grid, i, j, k);
      DiagonalPositive(p.w);
      if nodes[n].isBoundary {
        VisitBoundary(p, nodes, n);
        return;
      }
      var diag := p.w.Diagonal();
      var axis := 0;
      while axis < 3
        invariant axis <= 3 && |nodes| == grid.Size() && !nodes[n].isBoundary
        invariant nodes == RelaxAxes(p, old(nodes), n, axis)
      {
        BalancedFromNeighbours(p, nodes, i, j, k, axis);
        RelaxedAxis(p, nodes, n, axis);
        var laplacian :=
          Pair(nodes[nIp].displacement.Get(axis), nodes[nIm].displacement.Get(axis), p.w.x) +
          Pair(nodes[nJp].displacement.Get(axis), nodes[nJm].displacement.Get(axis), p.w.y) +
          Pair(nodes[nKp].displacement.Get(axis), nodes[nKm].displacement.Get(axis), p.w.z);
        var source := SourceTerm(p.material, nodes[n].crackDensity, nodes[n].crackDirection.Get(axis));
        var newU := (laplacian + source) / diag;
        var u := nodes[n].displacement;
        nodes := nodes[n := nodes[n].(displacement := u.Set(axis, Relaxed(u.Get(axis), newU)))];
        axis := axis + 1;
      }
      VisitIsAxes(p, old(nodes), n);
    }

    method SweepRow(p: Problem, j: int, k: int)
      requires p.Valid() && p.grid == grid && |nodes| == grid.Size()
      requires 2 <= grid.nx && 1 <= j < grid.ny - 1 && 1 <= k < grid.nz - 1
      modifies this`nodes
      ensures |nodes| == grid.Size()
      ensures AllHaveNeighbours(grid, |nodes|, RowOrder(grid, j, k, grid.nx - 1))
      ensures nodes == VisitAll(p, old(nodes), RowOrder(grid, j, k, grid.nx - 1))
    {
      hide Visit, HasNeighbours, Grid.Idx;
      RowInMesh(grid, j, k, grid.nx - 1);
      ghost var start := nodes;
      var i := 1;
      RowInMesh(grid, j, k, i);
      while i < grid.nx - 1
        invariant 1 <= i <= grid.nx - 1 && |nodes| == grid.Size()
        invariant AllHaveNeighbours(grid, |start|, RowOrder(grid, j, k, i))
        invariant nodes == VisitAll(p, start, RowOrder(grid, j, k, i))
      {
        RowInMesh(grid, j, k, i + 1);
        ghost var o := RowOrder(grid, j, k, i + 1);
        assert o[|o| - 1] == grid.Idx(i, j, k) && o[..|o| - 1] == RowOrder(grid, j, k, i);
        RelaxNode(p, i, j, k);
        i := i + 1;
      }
    }

    method SweepPlane(p: Problem, k: int)
      requires p.Valid() && p.grid == grid && |nodes| == grid.Size()
      requires 2 <= grid.nx && 2 <= grid.ny && 1 <= k < grid.nz - 1
      modifies this`nodes
      ensures |nodes| == grid.Size()
      ensures AllHaveNeighbours(grid, |nodes|, PlaneOrder(grid, k, grid.ny - 1))
      ensures nodes == VisitAll(p, old(nodes), PlaneOrder(grid, k, grid.ny - 1))
    {
      hide Visit, HasNeighbours, Grid.Idx, RowOrder;
      PlaneInMesh(grid, k, grid.ny - 1);
      ghost var start := nodes;
      var j := 1;
      PlaneInMesh(grid, k, j);
      while j < grid.ny - 1
        invariant 1 <= j <= grid.ny - 1 && |nodes| == grid.Size()
        invariant AllHaveNeighbours(grid, |start|, PlaneOrder(grid, k, j))
        invariant nodes == VisitAll(p, start, PlaneOrder(grid, k, j))
      {
        PlaneInMesh(grid, k, j + 1);
        RowInMesh(grid, j, k, grid.nx - 1);
        SweepRow(p, j, k);
        VisitAllAppend(p, start, PlaneOrder(grid, k, j), RowOrder(grid, j, k, grid.nx - 1));
        j := j + 1;
      }
    }

    /** One iteration over the interior; a grid with a side shorter than three has none. */
    method SweepGrid(p: Problem)
      requires p.Valid() && p.grid == grid && |nodes| == grid.Size()
      modifies this`nodes
      ensures |nodes| == grid.Size() && nodes == Sweep(p, old(nodes))
    {
      if grid.nx < 2 || grid.ny < 2 || grid.nz < 2 {
        return;
      }
      hide Visit, HasNeighbours, Grid.Idx, PlaneOrder;
      GridInMesh(grid, grid.nz - 1);
      ghost var start := nodes;
      var k := 1;
      GridInMesh(grid, k);
      while k < grid.nz - 1
        invariant 1 <= k <= grid.nz - 1 && |nodes| == grid.Size()
        invariant AllHaveNeighbours(grid, |start|, GridOrder(grid, k))
        invariant nodes == VisitAll(p, start, GridOrder(grid, k))
      {
        GridInMesh(grid, k + 1);
        PlaneInMesh(grid, k, grid.ny - 1);
        SweepPlane(p, k);
        VisitAllAppend(p, start, GridOrder(grid, k), PlaneOrder(grid, k, grid.ny - 1));
        k := k + 1;
      }
    }

    /** The relaxation: fifty sweeps. From rest, no displacement component exceeds fifty times the
        largest scaled source, and no boundary node moves. */
    method SolveElasticity(p: Problem)
      requires p.Valid() && p.grid == grid && |nodes| == grid.Size()
      modifies this`nodes
      ensures |nodes| == grid.Size() && nodes == Sweeps(p, old(nodes), 50)
      ensures forall s: real :: s >= 0.0 && Bounded(old(nodes), 0.0) && SourcesWithin(p, old(nodes), s) ==>
        Bounded(nodes, 50.0 * s)
    {
      hide Sweep, Bounded, SourcesWithin;
      ghost var start := nodes;
      var iter := 0;
      while iter < ITERATIONS
        invariant iter <= ITERATIONS && |nodes| == grid.Size() && nodes == Sweeps(p, start, iter)
      {
        SweepGrid(p);
        iter := iter + 1;
      }
      forall s: real | s >= 0.0 && Bounded(start, 0.0) && SourcesWithin(p, start, s)
        ensures Bounded(nodes, ITERATIONS as real * s)
      {
        SweepsMaximumPrinciple(p, start, s, ITERATIONS);
      }
    }

    /** Stores the von Mises stress of every node. */
    method ComputeVonMises(sqrt: real -> real)
      modifies this`nodes
      ensures |nodes| == |old(nodes)|
      ensures forall n :: 0 <= n < |nodes| ==>
        nodes[n] == old(nodes)[n].(stress := old(nodes)[n].stress.(vonMises := VonMises(old(nodes)[n].stress, sqrt)))
    {
      hide VonMisesSquared;
      var n := 0;
      while n < |nodes|
        invariant n <= |nodes| == |old(nodes)|
        invariant forall m :: n <= m < |nodes| ==> nodes[m] == old(nodes)[m]
        invariant forall m :: 0 <= m < n ==>
          nodes[m] == old(nodes)[m].(stress := old(nodes)[m].stress.(vonMises := VonMises(old(nodes)[m].stress, sqrt)))
      {
        var s := nodes[n].stress;
        nodes := nodes[n := nodes[n].(stress := s.(vonMises := VonMises(s, sqrt)))];
        n := n + 1;
      }
    }

    /** The smoothing pass over a copy of the field. */
    method SmoothStressField(exp: real -> real, sqrt: real -> real)
      requires |nodes| == grid.Size()
      modifies this`nodes
      ensures |nodes| == grid.Size() && nodes == SmoothField(grid, old(nodes), exp, sqrt)
    {
      hide SmoothVisit, HasCube, Grid.Idx, PlaneOrder, SmoothedStress, InteriorIndex;
      var copy := nodes;
      OrderHasCubes(grid);
      if grid.nx < 2 || grid.ny < 2 || grid.nz < 2 {
        return;
      }
      var k := 1;
      GridHasCubes(grid, k);
      while k < grid.nz - 1
        invariant 1 <= k <= grid.nz - 1 && |nodes| == |copy| == grid.Size()
        invariant AllHaveCubes(grid, |copy|, GridOrder(grid, k))
        invariant nodes == SmoothAll(grid, copy, GridOrder(grid, k), exp, sqrt)
      {
        GridHasCubes(grid, k + 1);
        SmoothPlane(copy, k, exp, sqrt, GridOrder(grid, k));
        k := k + 1;
      }
    }

    /** One plane of the smoothing loops; visited lists the nodes smoothed before. */
    method SmoothPlane(copy: seq<Node>, k: int, exp: real -> real, sqrt: real -> real, ghost visited: seq<int>)
      requires |nodes| == |copy| == grid.Size() && 2 <= grid.nx && 2 <= grid.ny && 1 <= k < grid.nz - 1
      requires AllHaveCubes(grid, |copy|, visited) && nodes == SmoothAll(grid, copy, visited, exp, sqrt)
      modifies this`nodes
      ensures |nodes| == |copy| && AllHaveCubes(grid, |copy|, visited + PlaneOrder(grid, k, grid.ny - 1))
      ensures nodes == SmoothAll(grid, copy, visited + PlaneOrder(grid, k, grid.ny - 1), exp, sqrt)
    {
      hide SmoothAll, SmoothVisit, HasCube, Grid.Idx, RowOrder, SmoothedStress;
      var j := 1;
      assert visited + PlaneOrder(grid, k, j) == visited;
      while j < grid.ny - 1
        invariant 1 <= j <= grid.ny - 1 && |nodes| == |copy|
        invariant AllHaveCubes(grid, |copy|, visited + PlaneOrder(grid, k, j))
        invariant nodes == SmoothAll(grid, copy, visited + PlaneOrder(grid, k, j), exp, sqrt)
      {
        var before, row := PlaneOrder(grid, k, j), RowOrder(grid, j, k, grid.nx - 1);
        SmoothRow(copy, j, k, exp, sqrt, visited + before);
        assert (visited + before) + row == visited + (before + row);
        j := j + 1;
      }
    }

    /** One row of the smoothing loops. */
    method SmoothRow(copy: seq<Node>, j: int, k: int, exp: real -> real, sqrt: real -> real, ghost visited: seq<int>)
      requires |nodes| == |copy| == grid.Size() && 2 <= grid.nx && 1 <= j < grid.ny - 1 && 1 <= k < grid.nz - 1
      requires AllHaveCubes(grid, |copy|, visited) && nodes == SmoothAll(grid, copy, visited, exp, sqrt)
      modifies this`nodes
      ensures |nodes| == |copy| && AllHaveCubes(grid, |copy|, visited + RowOrder(grid, j, k, grid.nx - 1))
      ensures nodes == SmoothAll(grid, copy, visited + RowOrder(grid, j, k, grid.nx - 1), exp, sqrt)
    {
      hide SmoothVisit, HasCube, Grid.Idx, SmoothedStress;
      var i := 1;
      assert visited + RowOrder(grid, j, k, i) == visited;
      while i < grid.nx - 1
        invariant 1 <= i <= grid.nx - 1 && |nodes| == |copy|
        invariant AllHaveCubes(grid, |copy|, visited + RowOrder(grid, j, k, i))
        invariant nodes == SmoothAll(grid, copy, visited + RowOrder(grid, j, k, i), exp, sqrt)
      {
        var n := grid.Idx(i, j, k);
        assert InteriorIndex(grid, n) by { assert grid.Interior(i, j, k); }
        InteriorHasCube(grid, n);
        SmoothedOneMore(grid, copy, visited + RowOrder(grid, j, k, i), n, exp, sqrt);
        SmoothNode(copy, n, exp, sqrt);
        assert visited + RowOrder(grid, j, k, i + 1) == (visited + RowOrder(grid, j, k, i)) + [n];
        i := i + 1;
      }
    }

    /** The body of the smoothing loops: accumulate the cube around node n, then divide. */
    method SmoothNode(copy: seq<Node>, n: int, exp: real -> real, sqrt: real -> real)
      requires |copy| == |nodes| && HasCube(grid, |nodes|, n)
      modifies this`nodes
      ensures nodes == SmoothVisit(grid, copy, old(nodes), n, exp, sqrt)
    {
      hide Mul, Neighbour, GaussianWeight, Distance;
      if nodes[n].isBoundary {
        return;
      }
      var total := GaussianWeight(exp, 0.0, SIGMA);
      var sum := AddTerm(SumTerms([]), Term(total, copy[n].stress));
      ghost var first := Term(total, copy[n].stress);
      assert [first][..0] == [] && SumTerms([first]) == sum && TotalWeight([first]) == 0.0 + total;
      var o := 0;
      while o < 27
        invariant o <= 27 && nodes == old(nodes)
        invariant sum == SumTerms(Terms(grid, copy, n, exp, sqrt, o))
        invariant total == TotalWeight(Terms(grid, copy, n, exp, sqrt, o))
      {
        if o != CENTRE {
          NeighbourInMesh(grid, |copy|, n, o);
          var w := GaussianWeight(exp, Distance(sqrt, o), SIGMA);
          ghost var before := Terms(grid, copy, n, exp, sqrt, o);
          ghost var term := Term(w, copy[Neighbour(grid, n, o)].stress);
          assert (before + [term])[..|before|] == before;
          sum := AddTerm(sum, Term(w, copy[Neighbour(grid, n, o)].stress));
          total := total + w;
        }
        o := o + 1;
      }
      if total > MIN_TOTAL_WEIGHT {
        nodes := nodes[n := nodes[n].(stress := DivideStress(sum, total))];
      } else {
        nodes := nodes[n := nodes[n].(stress := copy[n].stress)];
      }
    }

    /** One refinement of the marked nodes. */
    method RefineMarkedNodes(cfg: Config, spacing: Vec3, jitter: (nat, nat) -> real)
      modifies this`nodes
      ensures nodes == Refine(cfg, old(nodes), spacing, jitter)
    {
      if |nodes| == 0 || |nodes| >= cfg.maxTotalNodes {
        return;
      }
      var newNodes: seq<Node>, removed: seq<bool> := [], [];
      var i := 0;
      while i < |nodes|
        invariant nodes == old(nodes)
        invariant i <= |nodes| && Splitting(newNodes, removed) == SplitTo(cfg, nodes, spacing, jitter, i)
      {
        if Splits(cfg, nodes[i], |newNodes|) {
          var children := BuildChildren(nodes[i], spacing, JitterOf(jitter, i));
          newNodes := newNodes + children;
          removed := removed + [true];
        } else {
          removed := removed + [false];
        }
        i := i + 1;
      }
      var survivors: seq<Node> := [];
      i := 0;
      while i < |nodes|
        invariant nodes == old(nodes)
        invariant i <= |nodes| && survivors == Survivors(nodes, removed, i)
      {
        if !removed[i] {
          survivors := survivors + [nodes[i]];
        }
        i := i + 1;
      }
      nodes := newNodes + survivors;
    }

    /** An adaptive run. The environment stands for solving, coupling, gradients and marking. */
    method AdaptiveMeshRefinement(cfg: Config, env: Environment)
      requires KeepsPlaces(env.evolve)
      modifies this`nodes
      ensures nodes == if old(nodes) == [] then [] else Adapt(cfg, env, old(nodes), 0)
    {
      hide Refine;
      if |nodes| == 0 {
        return;
      }
      var iteration := 0;
      while iteration < cfg.maxLevel
        invariant iteration <= cfg.maxLevel
        invariant Adapt(cfg, env, nodes, iteration) == Adapt(cfg, env, old(nodes), 0)
      {
        ghost var before := nodes;
        nodes := env.evolve(iteration, nodes);
        var any := HasMarked();
        if !any || |nodes| >= cfg.maxTotalNodes {
          return;
        }
        RefineMarkedNodes(cfg, env.spacing(iteration), env.JitterAt(iteration));
        iteration := iteration + 1;
      }
    }

    method HasMarked() returns (any: bool)
      ensures any == AnyMarked(nodes)
    {
      any := false;
      var i := 0;
      while i < |nodes|
        invariant i <= |nodes| && !any && forall m :: 0 <= m < i ==> !nodes[m].needsRefinement
      {
        if nodes[i].needsRefinement {
          return true;
        }
        i := i + 1;
      }
    }
  }

  method BuildChildren(node: Node, spacing: Vec3, jitter: nat -> real) returns (cs: seq<Node>)
    ensures cs == Children(node, spacing, jitter, 8)
  {
    cs := [];
    var octant := 0;
    while octant < 8
      invariant octant <= 8 && cs == Children(node, spacing, jitter, octant)
    {
      cs := cs + [Child(node, octant, spacing, jitter(octant))];
      octant := octant + 1;
    }
  }
}
