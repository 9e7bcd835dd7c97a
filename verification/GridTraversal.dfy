/** The order in which the nested loops over k, j, i visit the interior of the grid.

    A row is visited for i from 1 to nx - 2, a plane row by row, the grid plane by plane. The orders
    are sequences of node indices; the lemmas say that they increase, stay in the interior and
    leave none of it out. */
module GridTraversal {
  import opened FemMesh

  function RowOrder(g: Grid, j: int, k: int, iEnd: int): (o: seq<int>)
    requires 1 <= j < g.ny - 1 && 1 <= k < g.nz - 1 && 1 <= iEnd <= g.nx - 1
    decreases iEnd
  {
    if iEnd == 1 then [] else RowOrder(g, j, k, iEnd - 1) + [g.Idx(iEnd - 1, j, k)]
  }

  function PlaneOrder(g: Grid, k: int, jEnd: int): (o: seq<int>)
    requires 1 <= k < g.nz - 1 && 1 <= jEnd <= g.ny - 1 && 2 <= g.nx
    decreases jEnd
  {
    if jEnd == 1 then [] else PlaneOrder(g, k, jEnd - 1) + RowOrder(g, jEnd - 1, k, g.nx - 1)
  }

  function GridOrder(g: Grid, kEnd: int): (o: seq<int>)
    requires 1 <= kEnd <= g.nz - 1 && 2 <= g.nx && 2 <= g.ny
    decreases kEnd
  {
    if kEnd == 1 then [] else GridOrder(g, kEnd - 1) + PlaneOrder(g, kEnd - 1, g.ny - 1)
  }

  /** The whole order of one sweep; empty when some side of the grid is too short to have an interior. */
  function SweepOrder(g: Grid): seq<int> {
    if g.nx >= 2 && g.ny >= 2 && g.nz >= 2 then GridOrder(g, g.nz - 1) else []
  }

  ghost predicate Increasing(o: seq<int>) {
    forall s, t :: 0 <= s < t < |o| ==> o[s] < o[t]
  }

  ghost predicate InteriorIndex(g: Grid, n: int) {
    exists i, j, k :: g.Interior(i, j, k) && n == g.Idx(i, j, k)
  }

  lemma {:induction false} RowOrderSound(g: Grid, j: int, k: int, iEnd: int)
    requires 1 <= j < g.ny - 1 && 1 <= k < g.nz - 1 && 1 <= iEnd <= g.nx - 1
    ensures var o := RowOrder(g, j, k, iEnd);
      && |o| == iEnd - 1 && Increasing(o)
      && forall t :: 0 <= t < |o| ==> o[t] == g.Idx(t + 1, j, k)
    decreases iEnd
  {
    hide Grid.Idx;
    if iEnd > 1 {
      RowOrderSound(g, j, k, iEnd - 1);
      forall i | 1 <= i < iEnd - 1 ensures g.Idx(i, j, k) < g.Idx(iEnd - 1, j, k) {
        g.IdxIncreasing(i, j, k, iEnd - 1, j, k);
      }
    }
  }

  lemma {:induction false} PlaneOrderSound(g: Grid, k: int, jEnd: int)
    requires 1 <= k < g.nz - 1 && 1 <= jEnd <= g.ny - 1 && 2 <= g.nx
    ensures var o := PlaneOrder(g, k, jEnd);
      && Increasing(o)
      && (forall t :: 0 <= t < |o| ==> InteriorIndex(g, o[t]) && o[t] < g.Idx(0, jEnd, k))
    decreases jEnd
  {
    hide Grid.Idx;
    if jEnd > 1 {
      PlaneOrderSound(g, k, jEnd - 1);
      RowOrderSound(g, jEnd - 1, k, g.nx - 1);
      var a, b := PlaneOrder(g, k, jEnd - 1), RowOrder(g, jEnd - 1, k, g.nx - 1);
      var o := PlaneOrder(g, k, jEnd);
      g.IdxIncreasing(0, jEnd - 1, k, 0, jEnd, k);
      forall t | 0 <= t < |b| ensures g.Idx(0, jEnd - 1, k) < b[t] < g.Idx(0, jEnd, k) && InteriorIndex(g, b[t]) {
        g.IdxIncreasing(0, jEnd - 1, k, t + 1, jEnd - 1, k);
        g.IdxIncreasing(t + 1, jEnd - 1, k, 0, jEnd, k);
        assert g.Interior(t + 1, jEnd - 1, k);
      }
    }
  }

  /** Two ordered runs of interior indices, the first below mid and the second above it. */
  lemma JoinOrders(g: Grid, a: seq<int>, b: seq<int>, mid: int, limit: int)
    requires Increasing(a) && forall t :: 0 <= t < |a| ==> InteriorIndex(g, a[t]) && a[t] < mid
    requires Increasing(b) && forall t :: 0 <= t < |b| ==> InteriorIndex(g, b[t]) && mid < b[t] < limit
    requires mid < limit
    ensures Increasing(a + b)
    ensures forall t :: 0 <= t < |a + b| ==> InteriorIndex(g, (a + b)[t]) && (a + b)[t] < limit
  {
    hide InteriorIndex;
  }

  lemma {:induction false} GridOrderSound(g: Grid, kEnd: int)
    requires 1 <= kEnd <= g.nz - 1 && 2 <= g.nx && 2 <= g.ny
    ensures var o := GridOrder(g, kEnd);
      && Increasing(o)
      && (forall t :: 0 <= t < |o| ==> InteriorIndex(g, o[t]) && o[t] < g.Idx(0, 0, kEnd))
    decreases kEnd
  {
    hide Grid.Idx, PlaneOrder, InteriorIndex, Increasing;
    if kEnd > 1 {
      GridOrderSound(g, kEnd - 1);
      PlaneOrderSound(g, kEnd - 1, g.ny - 1);
      var b := PlaneOrder(g, kEnd - 1, g.ny - 1);
      g.IdxIncreasing(0, 0, kEnd - 1, 0, 0, kEnd);
      g.IdxIncreasing(0, g.ny - 1, kEnd - 1, 0, 0, kEnd);
      forall t | 0 <= t < |b| ensures g.Idx(0, 0, kEnd - 1) < b[t] {
        InPlane(g, kEnd - 1, g.ny - 1, b[t]);
      }
      JoinOrders(g, GridOrder(g, kEnd - 1), b, g.Idx(0, 0, kEnd - 1), g.Idx(0, 0, kEnd));
    } else {
      EmptyOrder();
    }
  }

  lemma EmptyOrder()
    ensures Increasing([])
  {
  }

  /** A plane's indices lie above the start of the plane. */
  lemma {:induction false} InPlane(g: Grid, k: int, jEnd: int, n: int)
    requires 1 <= k < g.nz - 1 && 1 <= jEnd <= g.ny - 1 && 2 <= g.nx
    requires n in PlaneOrder(g, k, jEnd)
    ensures g.Idx(0, 0, k) < n
    decreases jEnd
  {
    hide Grid.Idx;
    if jEnd > 1 {
      RowOrderSound(g, jEnd - 1, k, g.nx - 1);
      var b := RowOrder(g, jEnd - 1, k, g.nx - 1);
      if n in b {
        var t :| 0 <= t < |b| && b[t] == n;
        g.IdxIncreasing(0, 0, k, t + 1, jEnd - 1, k);
      } else {
        InPlane(g, k, jEnd - 1, n);
      }
    }
  }

  lemma {:induction false} RowComplete(g: Grid, i: int, j: int, k: int, iEnd: int)
    requires 1 <= j < g.ny - 1 && 1 <= k < g.nz - 1 && 1 <= i < iEnd <= g.nx - 1
    ensures g.Idx(i, j, k) in RowOrder(g, j, k, iEnd)
    decreases iEnd
  {
    hide Grid.Idx;
    if i < iEnd - 1 {
      RowComplete(g, i, j, k, iEnd - 1);
    }
  }

  lemma {:induction false} PlaneComplete(g: Grid, i: int, j: int, k: int, jEnd: int)
    requires 1 <= k < g.nz - 1 && 1 <= j < jEnd <= g.ny - 1 && 1 <= i < g.nx - 1
    ensures g.Idx(i, j, k) in PlaneOrder(g, k, jEnd)
    decreases jEnd
  {
    hide Grid.Idx, RowOrder;
    if j < jEnd - 1 {
      PlaneComplete(g, i, j, k, jEnd - 1);
    } else {
      RowComplete(g, i, j, k, g.nx - 1);
    }
  }

  lemma {:induction false} GridComplete(g: Grid, i: int, j: int, k: int, kEnd: int)
    requires g.Interior(i, j, k) && k < kEnd <= g.nz - 1
    ensures g.Idx(i, j, k) in GridOrder(g, kEnd)
    decreases kEnd
  {
    hide Grid.Idx, PlaneOrder;
    if k < kEnd - 1 {
      GridComplete(g, i, j, k, kEnd - 1);
    } else {
      PlaneComplete(g, i, j, k, g.ny - 1);
    }
  }

  lemma InOrder(g: Grid, n: int)
    requires InteriorIndex(g, n)
    ensures n in SweepOrder(g)
  {
    hide Grid.Idx, GridOrder;
    var i, j, k :| g.Interior(i, j, k) && n == g.Idx(i, j, k);
    GridComplete(g, i, j, k, g.nz - 1);
  }

  lemma InOrderInterior(g: Grid, n: int)
    requires n in SweepOrder(g)
    ensures InteriorIndex(g, n)
  {
    hide Grid.Idx;
    GridOrderSound(g, g.nz - 1);
  }

  /** One sweep visits exactly the interior nodes, each once, in increasing order. */
  lemma SweepOrderSound(g: Grid)
    ensures Increasing(SweepOrder(g))
    ensures forall n :: n in SweepOrder(g) <==> InteriorIndex(g, n)
  {
    hide Grid.Idx, InteriorIndex;
    if g.nx >= 2 && g.ny >= 2 && g.nz >= 2 {
      GridOrderSound(g, g.nz - 1);
    }
    forall n ensures n in SweepOrder(g) <==> InteriorIndex(g, n) {
      if n in SweepOrder(g) {
        InOrderInterior(g, n);
      }
      if InteriorIndex(g, n) {
        InOrder(g, n);
      }
    }
  }

  // ----- Neighbours

  /** All six neighbours of linear index n are indices of the mesh. */
  predicate HasNeighbours(g: Grid, count: nat, n: int) {
    && 1 <= n < count - 1
    && g.nx <= n < count - g.nx
    && g.Plane() <= n < count - g.Plane()
  }

  /** On a full grid the interior nodes have all their neighbours. */
  lemma InteriorHasNeighbours(g: Grid, n: int)
    requires InteriorIndex(g, n)
    ensures HasNeighbours(g, g.Size(), n)
  {
    hide Grid.Idx;
    var i, j, k :| g.Interior(i, j, k) && n == g.Idx(i, j, k);
    NeighbourIndices(g, i, j, k);
  }

  lemma NeighbourIndices(g: Grid, i: int, j: int, k: int)
    requires g.Interior(i, j, k)
    ensures var n := g.Idx(i, j, k);
      && g.Idx(i + 1, j, k) == n + 1 && g.Idx(i - 1, j, k) == n - 1
      && g.Idx(i, j + 1, k) == n + g.nx && g.Idx(i, j - 1, k) == n - g.nx
      && g.Idx(i, j, k + 1) == n + g.Plane() && g.Idx(i, j, k - 1) == n - g.Plane()
  {
    OneMore(j, g.nx);
    OneMore(j - 1, g.nx);
    OneMore(k, g.Plane());
    OneMore(k - 1, g.Plane());
    Commute(k, g.nx, g.ny);
    Commute(k + 1, g.nx, g.ny);
    Commute(k - 1, g.nx, g.ny);
  }

  lemma OneMore(a: int, c: int)
    ensures (a + 1) * c == a * c + c
  {
  }
}
