/** The nodes of the finite-element mesh and the indexing of its structured grid.

    Node (i, j, k) stands at index (k * ny + j) * nx + i. The lemmas say that the index of a grid
    position is in range and grows with the position, in the order k, j, i; everything that walks
    the grid rests on them. They are stated about products of integers with the index function
    hidden from their users. */
module FemMesh {
  import opened Reals

  datatype Stress = Stress(xx: real, yy: real, zz: real, xy: real, yz: real, zx: real, vonMises: real)

  datatype Node = Node(
    pos: Vec3, displacement: Vec3, stress: Stress,
    crackDensity: real, crackDirection: Vec3,
    isBoundary: bool, level: nat, needsRefinement: bool)

  datatype Grid = Grid(nx: nat, ny: nat, nz: nat) {
    function Size(): nat {
      nx * ny * nz
    }

    /** The distance between the indices of a node and of the one above it. */
    function Plane(): nat {
      nx * ny
    }

    predicate Inside(i: int, j: int, k: int) {
      0 <= i < nx && 0 <= j < ny && 0 <= k < nz
    }

    /** Strictly inside: all six neighbours, and all corners between them, are in the grid. */
    predicate Interior(i: int, j: int, k: int) {
      1 <= i < nx - 1 && 1 <= j < ny - 1 && 1 <= k < nz - 1
    }

    function Idx(i: int, j: int, k: int): (n: int)
      requires Inside(i, j, k)
      ensures 0 <= n < Size()
    {
      IdxInRange(i, j, k);
      k * nx * ny + j * nx + i
    }

    lemma IdxInRange(i: int, j: int, k: int)
      requires Inside(i, j, k)
      ensures 0 <= k * nx * ny + j * nx + i < Size()
    {
      ScaleStep(j, ny, nx);
      ScaleStep(k, nz, nx * ny);
      Commute(k, nx, ny);
      Commute(nz, nx, ny);
    }

    /** The order of the loops over k, j, i is the order of the indices. */
    lemma IdxIncreasing(i: int, j: int, k: int, i': int, j': int, k': int)
      requires Inside(i, j, k) && Inside(i', j', k')
      requires k < k' || (k == k' && j < j') || (k == k' && j == j' && i < i')
      ensures Idx(i, j, k) < Idx(i', j', k')
    {
      Commute(k, nx, ny);
      Commute(k', nx, ny);
      if k < k' {
        ScaleStep(j, ny, nx);
        ScaleStep(k, k', nx * ny);
        ScaleStep(0, j' + 1, nx);
      } else if j < j' {
        ScaleStep(j, j', nx);
      }
    }
  }

  lemma ScaleStep(a: int, b: int, c: int)
    requires 0 <= a < b && 0 <= c
    ensures 0 <= a * c && a * c + c <= b * c
  {
    NonNegative(a, c);
    NonNegative(b - a - 1, c);
    Distribute(a, b - a - 1, c);
  }

  lemma NonNegative(a: int, c: int)
    requires 0 <= a && 0 <= c
    ensures 0 <= a * c
  {
  }

  lemma Distribute(a: int, d: int, c: int)
    ensures (a + 1 + d) * c == a * c + c + d * c
  {
  }

  lemma Commute(a: int, b: int, c: int)
    ensures a * b * c == a * (b * c) == b * c * a
  {
  }
}
