/** Which nodes a refinement splits, where their children go, and when an adaptive run refines. */
module RefinementPlaces {
  import opened Reals
  import opened FemMesh
  import opened Refinement

  /** Child o lies a quarter of the spacing from its parent along each axis: forward along x, y and z
      for bits 0, 1 and 2 of o that are set, backward for the others. */
  lemma ChildCorner(node: Node, spacing: Vec3, jitter: nat -> real, o: nat)
    requires o < 8
    ensures var c := Children(node, spacing, jitter, 8)[o];
      && c.pos == Vec3(node.pos.x + (if o % 2 == 1 then spacing.x / 4.0 else -(spacing.x / 4.0)),
                       node.pos.y + (if o / 2 % 2 == 1 then spacing.y / 4.0 else -(spacing.y / 4.0)),
                       node.pos.z + (if o / 4 == 1 then spacing.z / 4.0 else -(spacing.z / 4.0)))
      && c.level == node.level + 1 && !c.needsRefinement
      && c.crackDensity == node.crackDensity * (0.9 + 0.2 * jitter(o))
      && c.displacement == node.displacement && c.stress == node.stress && c.isBoundary == node.isBoundary
      && c.crackDirection == node.crackDirection
  {
    hide Child, Children;
    ChildAt(node, spacing, jitter, 8, o);
    CornerPlace(node, spacing, jitter(o), o);
    ChildFields(node, spacing, jitter(o), o);
  }

  lemma CornerPlace(node: Node, spacing: Vec3, jitter: real, o: nat)
    requires o < 8
    ensures Child(node, o, spacing, jitter).pos ==
      Vec3(node.pos.x + (if o % 2 == 1 then spacing.x / 4.0 else -(spacing.x / 4.0)),
           node.pos.y + (if o / 2 % 2 == 1 then spacing.y / 4.0 else -(spacing.y / 4.0)),
           node.pos.z + (if o / 4 == 1 then spacing.z / 4.0 else -(spacing.z / 4.0)))
  {
    hide Child, OctantSign, Mul;
    OctantBits(o);
    ChildPlace(node, o, spacing, jitter, 0);
    ChildPlace(node, o, spacing, jitter, 1);
    ChildPlace(node, o, spacing, jitter, 2);
    SignedQuarter(OctantSign(o, 0), spacing.x);
    SignedQuarter(OctantSign(o, 1), spacing.y);
    SignedQuarter(OctantSign(o, 2), spacing.z);
  }

  lemma ChildFields(node: Node, spacing: Vec3, jitter: real, o: nat)
    ensures var c := Child(node, o, spacing, jitter);
      && c.level == node.level + 1 && !c.needsRefinement
      && c.crackDensity == node.crackDensity * (0.9 + 0.2 * jitter)
      && c.displacement == node.displacement && c.stress == node.stress && c.isBoundary == node.isBoundary
      && c.crackDirection == node.crackDirection
  {
    hide OctantSign;
  }

  lemma OctantBits(o: nat)
    requires o < 8
    ensures OctantSign(o, 0) == (if o % 2 == 1 then 1 else -1)
    ensures OctantSign(o, 1) == (if o / 2 % 2 == 1 then 1 else -1)
    ensures OctantSign(o, 2) == (if o / 4 == 1 then 1 else -1)
  {
  }

  lemma SignedQuarter(sign: int, s: real)
    requires sign == 1 || sign == -1
    ensures Mul(sign as real, s / 4.0) == if sign == 1 then s / 4.0 else -(s / 4.0)
  {
  }

  lemma {:induction false} ChildAt(node: Node, spacing: Vec3, jitter: nat -> real, count: nat, o: nat)
    requires o < count
    ensures Children(node, spacing, jitter, count)[o] == Child(node, o, spacing, jitter(o))
  {
    hide Child;
    if o < count - 1 {
      ChildAt(node, spacing, jitter, count - 1, o);
    }
  }

  // ----- Which nodes are split

  ghost predicate Marked(cfg: Config, node: Node) {
    node.needsRefinement && node.level < cfg.maxLevel
  }

  /** A node is split exactly when it is marked, below the level limit, and among the first
      (cap - 1) / 8 such nodes. */
  lemma {:induction false} SplitExactly(
    cfg: Config, nodes: seq<Node>, spacing: Vec3, jitter: (nat, nat) -> real, i: nat, m: nat)
    requires i < m <= |nodes| && cfg.maxTotalNodes > 0
    ensures SplitTo(cfg, nodes, spacing, jitter, m).removed[i] <==>
      Marked(cfg, nodes[i]) && Eligible(cfg, nodes, i) < (cfg.maxTotalNodes - 1) / 8
    decreases m
  {
    hide Children;
    if i < m - 1 {
      SplitExactly(cfg, nodes, spacing, jitter, i, m - 1);
    } else {
      var s := SplitTo(cfg, nodes, spacing, jitter, i);
      SplitCountExactly(cfg, nodes, spacing, jitter, i);
      GuardIsRoom(cfg, SplitCount(s.removed, i));
    }
  }

  lemma {:induction false} SurvivorKept(nodes: seq<Node>, removed: seq<bool>, m: nat, i: nat)
    requires i < m <= |nodes| && m <= |removed| && !removed[i]
    ensures nodes[i] in Survivors(nodes, removed, m)
  {
    if i < m - 1 {
      SurvivorKept(nodes, removed, m - 1, i);
    }
  }

  lemma {:induction false} ChildKept(
    cfg: Config, nodes: seq<Node>, spacing: Vec3, jitter: (nat, nat) -> real, m: nat, i: nat, c: Node)
    requires i < m <= |nodes| && SplitTo(cfg, nodes, spacing, jitter, m).removed[i]
    requires c in Children(nodes[i], spacing, JitterOf(jitter, i), 8)
    ensures c in SplitTo(cfg, nodes, spacing, jitter, m).children
  {
    hide Children;
    if i < m - 1 {
      ChildKept(cfg, nodes, spacing, jitter, m - 1, i, c);
    }
  }

  /** In the refined mesh every split node is replaced by its eight children, and every other node is kept. */
  lemma RefinedHolds(cfg: Config, nodes: seq<Node>, spacing: Vec3, jitter: (nat, nat) -> real, i: nat)
    requires i < |nodes| < cfg.maxTotalNodes
    ensures var r := Refine(cfg, nodes, spacing, jitter);
      if Marked(cfg, nodes[i]) && Eligible(cfg, nodes, i) < (cfg.maxTotalNodes - 1) / 8
      then forall c :: c in Children(nodes[i], spacing, JitterOf(jitter, i), 8) ==> c in r
      else nodes[i] in r
  {
    hide SplitTo, Children, Survivors;
    var s := SplitTo(cfg, nodes, spacing, jitter, |nodes|);
    SplitExactly(cfg, nodes, spacing, jitter, i, |nodes|);
    if s.removed[i] {
      forall c | c in Children(nodes[i], spacing, JitterOf(jitter, i), 8) ensures c in s.children {
        ChildKept(cfg, nodes, spacing, jitter, |nodes|, i, c);
      }
    } else {
      SurvivorKept(nodes, s.removed, |nodes|, i);
    }
  }

  // ----- When a run refines

  lemma {:induction false} EligibleIsMarked(cfg: Config, nodes: seq<Node>, m: nat)
    requires m <= |nodes| && Eligible(cfg, nodes, m) > 0
    ensures AnyMarked(nodes)
  {
    if !nodes[m - 1].needsRefinement {
      EligibleIsMarked(cfg, nodes, m - 1);
    }
  }

  /** A run below its limits never leaves out a refinement: the mesh ends with at least the nodes that
      splitting the marked nodes of the first iteration makes, as far as there is room. And where
      nothing is marked, or no iteration is allowed, it is not refined at all. */
  lemma AdaptRefines(cfg: Config, env: Environment, nodes: seq<Node>, k: nat)
    requires KeepsPlaces(env.evolve) && LevelsWithin(nodes, cfg.maxLevel)
    ensures var solved := env.evolve(k, nodes);
      if k >= cfg.maxLevel then Adapt(cfg, env, nodes, k) == nodes
      else if |solved| >= cfg.maxTotalNodes || forall i :: 0 <= i < |solved| ==> !solved[i].needsRefinement
      then Adapt(cfg, env, nodes, k) == solved
      else |Adapt(cfg, env, nodes, k)| >=
             |nodes| + 7 * Min(Eligible(cfg, solved, |solved|), (cfg.maxTotalNodes - 1) / 8)
  {
    hide Refine, Mass, Moment, Eligible;
    if k < cfg.maxLevel {
      var solved := env.evolve(k, nodes);
      assert SamePlaces(nodes, solved);
      if AnyMarked(solved) && |solved| < cfg.maxTotalNodes {
        var refined := Refine(cfg, solved, env.spacing(k), env.JitterAt(k));
        RefinedSize(cfg, solved, env.spacing(k), env.JitterAt(k));
        RefineConserves(cfg, solved, env.spacing(k), env.JitterAt(k), 0);
        AdaptConserves(cfg, env, refined, k + 1, 0);
      }
    }
  }
}
