/** The smoothing pass: every interior node gets the Gaussian-weighted average of the stresses of
    its 27 neighbours in a copy taken before the pass.

    The copy never changes, so the order of the visits does not matter. */
module SmoothingPass {
  import opened Reals
  import opened FemMesh
  import opened GridTraversal
  import opened StressSmoothing

  function GaussianWeight(exp: real -> real, dist: real, sigma: real): real {
    if sigma < 0.000000000001 then 0.0 else exp(-dist * dist / (2.0 * sigma * sigma))
  }

  /** The offsets (di, dj, dk) of the triple loop, in its order; number 13 is the centre. */
  function Di(o: nat): int {
    o % 3 - 1
  }

  function Dj(o: nat): int {
    o / 3 % 3 - 1
  }

  function Dk(o: nat): int {
    o / 9 - 1
  }

  const CENTRE: nat := 13

  function Neighbour(g: Grid, n: int, o: nat): int {
    n + Di(o) + Dj(o) * g.nx + Dk(o) * g.Plane()
  }

  predicate HasCube(g: Grid, count: nat, n: int) {
    g.Plane() + g.nx + 1 <= n < count - (g.Plane() + g.nx + 1)
  }

  lemma NeighbourInMesh(g: Grid, count: nat, n: int, o: nat)
    requires HasCube(g, count, n) && o < 27
    ensures 0 <= Neighbour(g, n, o) < count
  {
    OffsetProduct(Dj(o), g.nx);
    OffsetProduct(Dk(o), g.Plane());
  }

  lemma OffsetProduct(d: int, c: int)
    requires -1 <= d <= 1 && 0 <= c
    ensures -c <= d * c <= c
  {
  }

  /** The neighbour numbers are the indices of the neighbouring grid positions. */
  lemma NeighbourIsIdx(g: Grid, i: int, j: int, k: int, o: nat)
    requires g.Interior(i, j, k) && o < 27
    ensures Neighbour(g, g.Idx(i, j, k), o) == g.Idx(i + Di(o), j + Dj(o), k + Dk(o))
  {
    Spread(j, Dj(o), g.nx);
    Spread(k, Dk(o), g.nx * g.ny);
    Commute(k, g.nx, g.ny);
    Commute(k + Dk(o), g.nx, g.ny);
  }

  lemma Spread(a: int, d: int, c: int)
    ensures (a + d) * c == a * c + d * c
  {
  }

  lemma InteriorHasCube(g: Grid, n: int)
    requires InteriorIndex(g, n)
    ensures HasCube(g, g.Size(), n)
  {
    var i, j, k :| g.Interior(i, j, k) && n == g.Idx(i, j, k);
    NeighbourIsIdx(g, i, j, k, 0);
    NeighbourIsIdx(g, i, j, k, 26);
    assert g.Idx(i - 1, j - 1, k - 1) >= 0 && g.Idx(i + 1, j + 1, k + 1) < g.Size();
  }

  function Distance(sqrt: real -> real, o: nat): real {
    sqrt((Di(o) * Di(o) + Dj(o) * Dj(o) + Dk(o) * Dk(o)) as real)
  }

  /** The weighted stresses added up after o turns of the inner loops, the centre first. */
  function Terms(g: Grid, nodes: seq<Node>, n: int, exp: real -> real, sqrt: real -> real, o: nat): (ts: seq<Term>)
    requires HasCube(g, |nodes|, n) && o <= 27
    ensures |ts| > 0
    decreases o
  {
    if o == 0 then [Term(GaussianWeight(exp, 0.0, SIGMA), nodes[n].stress)]
    else
      var before := Terms(g, nodes, n, exp, sqrt, o - 1);
      NeighbourInMesh(g, |nodes|, n, o - 1);
      if o - 1 == CENTRE then before
      else before + [Term(GaussianWeight(exp, Distance(sqrt, o - 1), SIGMA), nodes[Neighbour(g, n, o - 1)].stress)]
  }

  function SmoothedStress(g: Grid, nodes: seq<Node>, n: int, exp: real -> real, sqrt: real -> real): Stress
    requires HasCube(g, |nodes|, n)
  {
    var ts := Terms(g, nodes, n, exp, sqrt, 27);
    if TotalWeight(ts) > MIN_TOTAL_WEIGHT then DivideStress(SumTerms(ts), TotalWeight(ts)) else nodes[n].stress
  }

  function SmoothVisit(
    g: Grid, copy: seq<Node>, nodes: seq<Node>, n: int, exp: real -> real, sqrt: real -> real): (r: seq<Node>)
    requires |nodes| == |copy| && HasCube(g, |nodes|, n)
    ensures |r| == |nodes|
  {
    if nodes[n].isBoundary then nodes else nodes[n := nodes[n].(stress := SmoothedStress(g, copy, n, exp, sqrt))]
  }

  function SmoothAll(g: Grid, copy: seq<Node>, order: seq<int>, exp: real -> real, sqrt: real -> real): (r: seq<Node>)
    requires forall t :: 0 <= t < |order| ==> HasCube(g, |copy|, order[t])
    ensures |r| == |copy|
  {
    if order == [] then copy
    else SmoothVisit(g, copy, SmoothAll(g, copy, order[..|order| - 1], exp, sqrt), order[|order| - 1], exp, sqrt)
  }

  /** What the stored stress of a node is after the pass. */
  function Smoothed(g: Grid, copy: seq<Node>, n: int, exp: real -> real, sqrt: real -> real): Stress
    requires HasCube(g, |copy|, n)
  {
    if copy[n].isBoundary then copy[n].stress else SmoothedStress(g, copy, n, exp, sqrt)
  }

  /** The pass writes its own nodes only, and only their stress, from the values before the pass. */
  lemma {:induction false} SmoothAllPointwise(
    g: Grid, copy: seq<Node>, order: seq<int>, exp: real -> real, sqrt: real -> real)
    requires forall t :: 0 <= t < |order| ==> HasCube(g, |copy|, order[t])
    ensures var r := SmoothAll(g, copy, order, exp, sqrt);
      && (forall n :: 0 <= n < |copy| && n !in order ==> r[n] == copy[n])
      && (forall t :: 0 <= t < |order| ==>
            r[order[t]] == copy[order[t]].(stress := Smoothed(g, copy, order[t], exp, sqrt)))
  {
    hide SmoothedStress;
    if order != [] {
      var init, last := order[..|order| - 1], order[|order| - 1];
      SmoothAllPointwise(g, copy, init, exp, sqrt);
      var before, after := SmoothAll(g, copy, init, exp, sqrt), SmoothAll(g, copy, order, exp, sqrt);
      assert && before[last].isBoundary == copy[last].isBoundary
             && before[last].(stress := copy[last].stress) == copy[last] by {
        if last in init {
          var t :| 0 <= t < |init| && init[t] == last;
          assert before[init[t]] == copy[init[t]].(stress := Smoothed(g, copy, init[t], exp, sqrt));
        }
      }
      forall t | 0 <= t < |order|
        ensures after[order[t]] == copy[order[t]].(stress := Smoothed(g, copy, order[t], exp, sqrt))
      {
        if t < |init| {
          assert init[t] == order[t];
          assert before[init[t]] == copy[init[t]].(stress := Smoothed(g, copy, init[t], exp, sqrt));
        } else if last in init {
          var u :| 0 <= u < |init| && init[u] == last;
          assert before[init[u]] == copy[init[u]].(stress := Smoothed(g, copy, init[u], exp, sqrt));
        }
      }
    }
  }

  // ----- What the average keeps

  lemma {:induction false} TermsFromCube(
    g: Grid, nodes: seq<Node>, n: int, exp: real -> real, sqrt: real -> real, o: nat, t: nat)
    requires HasCube(g, |nodes|, n) && o <= 27 && IsExp(exp)
    requires t < |Terms(g, nodes, n, exp, sqrt, o)|
    ensures var term := Terms(g, nodes, n, exp, sqrt, o)[t];
      && term.w >= 0.0
      && exists q :: 0 <= q < 27 && 0 <= Neighbour(g, n, q) < |nodes|
                  && term.s == nodes[Neighbour(g, n, q)].stress
    decreases o
  {
    var ts := Terms(g, nodes, n, exp, sqrt, o);
    if o == 0 {
      assert Neighbour(g, n, CENTRE) == n;
    } else if t < |Terms(g, nodes, n, exp, sqrt, o - 1)| {
      TermsFromCube(g, nodes, n, exp, sqrt, o - 1, t);
    } else {
      NeighbourInMesh(g, |nodes|, n, o - 1);
      assert ts[t].s == nodes[Neighbour(g, n, o - 1)].stress;
    }
  }

  /** A bound on one component that holds at all 27 neighbours. */
  ghost predicate CubeWithin(g: Grid, nodes: seq<Node>, n: int, c: nat, lo: real, hi: real)
    requires c < 7
  {
    forall q: nat :: q < 27 && 0 <= Neighbour(g, n, q) < |nodes| ==>
      lo <= Component(nodes[Neighbour(g, n, q)].stress, c) <= hi
  }

  lemma CentreWithin(g: Grid, nodes: seq<Node>, n: int, c: nat, lo: real, hi: real)
    requires 0 <= n < |nodes| && c < 7 && CubeWithin(g, nodes, n, c, lo, hi)
    ensures lo <= Component(nodes[n].stress, c) <= hi
  {
    assert Neighbour(g, n, CENTRE) == n;
  }

  lemma SmoothedWithin(
    g: Grid, nodes: seq<Node>, n: int, exp: real -> real, sqrt: real -> real, c: nat, lo: real, hi: real)
    requires HasCube(g, |nodes|, n) && IsExp(exp) && c < 7 && CubeWithin(g, nodes, n, c, lo, hi)
    ensures lo <= Component(SmoothedStress(g, nodes, n, exp, sqrt), c) <= hi
  {
    hide Terms, Component, Neighbour;
    var ts := Terms(g, nodes, n, exp, sqrt, 27);
    forall t | 0 <= t < |ts| ensures ts[t].w >= 0.0 && lo <= Component(ts[t].s, c) <= hi {
      TermsFromCube(g, nodes, n, exp, sqrt, 27, t);
    }
    CentreWithin(g, nodes, n, c, lo, hi);
    if TotalWeight(ts) > MIN_TOTAL_WEIGHT {
      AverageWithin(ts, c, lo, hi);
    }
  }

  lemma SmoothedDominates(g: Grid, nodes: seq<Node>, n: int, exp: real -> real, sqrt: real -> real)
    requires HasCube(g, |nodes|, n) && IsExp(exp)
    requires forall m :: 0 <= m < |nodes| ==> Dominates(nodes[m].stress)
    ensures Dominates(SmoothedStress(g, nodes, n, exp, sqrt))
  {
    hide Dominates;
    var ts := Terms(g, nodes, n, exp, sqrt, 27);
    forall t | 0 <= t < |ts| ensures ts[t].w >= 0.0 && Dominates(ts[t].s) {
      TermsFromCube(g, nodes, n, exp, sqrt, 27, t);
    }
    SumDominates(ts);
    if TotalWeight(ts) > MIN_TOTAL_WEIGHT {
      DivideDominates(SumTerms(ts), TotalWeight(ts));
    }
  }

  /** The whole pass on a full grid. */
  function SmoothField(g: Grid, nodes: seq<Node>, exp: real -> real, sqrt: real -> real): (r: seq<Node>)
    requires |nodes| == g.Size()
    ensures |r| == |nodes|
  {
    OrderHasCubes(g);
    SmoothAll(g, nodes, SweepOrder(g), exp, sqrt)
  }

  lemma OrderHasCubes(g: Grid)
    ensures forall t :: 0 <= t < |SweepOrder(g)| ==> HasCube(g, g.Size(), SweepOrder(g)[t])
  {
    hide HasCube;
    SweepOrderSound(g);
    forall t | 0 <= t < |SweepOrder(g)| ensures HasCube(g, g.Size(), SweepOrder(g)[t]) {
      InteriorHasCube(g, SweepOrder(g)[t]);
    }
  }

  /** After the pass: nodes on the boundary or outside the interior are untouched; at every other
      node each stress component lies between the bounds its 27 neighbours had before the pass. */
  lemma SmoothFieldWithin(
    g: Grid, nodes: seq<Node>, exp: real -> real, sqrt: real -> real, n: int, c: nat, lo: real, hi: real)
    requires |nodes| == g.Size() && IsExp(exp) && 0 <= n < |nodes| && c < 7
    ensures var r := SmoothField(g, nodes, exp, sqrt);
      && r[n].(stress := nodes[n].stress) == nodes[n]
      && (nodes[n].isBoundary || !InteriorIndex(g, n) ==> r[n] == nodes[n])
      && (InteriorIndex(g, n) && CubeWithin(g, nodes, n, c, lo, hi) ==> lo <= Component(r[n].stress, c) <= hi)
  {
    hide SmoothedStress, CubeWithin, SmoothAll, HasCube, InteriorIndex;
    OrderHasCubes(g);
    SweepOrderSound(g);
    SmoothAllPointwise(g, nodes, SweepOrder(g), exp, sqrt);
    if n in SweepOrder(g) {
      var t :| 0 <= t < |SweepOrder(g)| && SweepOrder(g)[t] == n;
      assert SmoothField(g, nodes, exp, sqrt)[SweepOrder(g)[t]] ==
        nodes[n].(stress := Smoothed(g, nodes, n, exp, sqrt));
      if CubeWithin(g, nodes, n, c, lo, hi) {
        SmoothedWithin(g, nodes, n, exp, sqrt, c, lo, hi);
        CentreWithin(g, nodes, n, c, lo, hi);
      }
    }
  }

  /** When every stored von Mises value was computed from its tensor, smoothing leaves at every
      node a stored value that is at least the von Mises stress of the smoothed tensor. */
  lemma SmoothFieldOverestimates(g: Grid, nodes: seq<Node>, exp: real -> real, sqrt: real -> real, n: int)
    requires |nodes| == g.Size() && IsExp(exp) && IsSqrt(sqrt) && 0 <= n < |nodes|
    requires forall m :: 0 <= m < |nodes| ==> nodes[m].stress.vonMises == VonMises(nodes[m].stress, sqrt)
    ensures var r := SmoothField(g, nodes, exp, sqrt); VonMises(r[n].stress, sqrt) <= r[n].stress.vonMises
  {
    hide SmoothedStress, SmoothAll, HasCube, InteriorIndex, VonMises, Dominates;
    forall m | 0 <= m < |nodes| ensures Dominates(nodes[m].stress) {
      ComputedDominates(nodes[m].stress, sqrt);
    }
    OrderHasCubes(g);
    SmoothAllPointwise(g, nodes, SweepOrder(g), exp, sqrt);
    var r := SmoothField(g, nodes, exp, sqrt);
    if n in SweepOrder(g) {
      var t :| 0 <= t < |SweepOrder(g)| && SweepOrder(g)[t] == n;
      assert r[SweepOrder(g)[t]] == nodes[n].(stress := Smoothed(g, nodes, n, exp, sqrt));
      SmoothedDominates(g, nodes, n, exp, sqrt);
    }
    assert Dominates(r[n].stress);
    DominatesVonMises(r[n].stress, sqrt);
  }
}
