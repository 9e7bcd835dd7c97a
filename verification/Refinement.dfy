/** Octant refinement of marked mesh nodes, and what a whole adaptive run conserves. */
module Refinement {
  import opened Reals
  import opened FemMesh

  datatype Config = Config(maxLevel: nat, maxTotalNodes: nat)

  /** Bit number axis of the octant, as a sign. */
  function OctantSign(octant: int, axis: nat): (s: int)
    ensures s == 1 || s == -1
  {
    if octant < 0 || octant > 7 then 1
    else if octant / (if axis == 0 then 1 else if axis == 1 then 2 else 4) % 2 == 1 then 1 else -1
  }

  function Child(node: Node, octant: nat, spacing: Vec3, jitter: real): Node {
    node.(
      pos := Vec3(node.pos.x + OctantSign(octant, 0) as real * spacing.x / 4.0,
                  node.pos.y + OctantSign(octant, 1) as real * spacing.y / 4.0,
                  node.pos.z + OctantSign(octant, 2) as real * spacing.z / 4.0),
      level := node.level + 1,
      needsRefinement := false,
      crackDensity := node.crackDensity * (0.9 + 0.2 * jitter))
  }

  /** The first count children of a node; jitter gives the random factor of each. */
  function Children(node: Node, spacing: Vec3, jitter: nat -> real, count: nat): (cs: seq<Node>)
    ensures |cs| == count
  {
    if count == 0 then []
    else Children(node, spacing, jitter, count - 1) + [Child(node, count - 1, spacing, jitter(count - 1))]
  }

  datatype Splitting = Splitting(children: seq<Node>, removed: seq<bool>)

  predicate Splits(cfg: Config, node: Node, childCount: nat) {
    node.needsRefinement && node.level < cfg.maxLevel && childCount + 8 < cfg.maxTotalNodes
  }

  function JitterOf(jitter: (nat, nat) -> real, i: nat): nat -> real {
    (o: nat) => jitter(i, o)
  }

  /** The state of the loop over the nodes after the first i of them. */
  function SplitTo(cfg: Config, nodes: seq<Node>, spacing: Vec3, jitter: (nat, nat) -> real, i: nat): (s: Splitting)
    requires i <= |nodes|
    ensures |s.removed| == i
  {
    if i == 0 then Splitting([], [])
    else
      var before := SplitTo(cfg, nodes, spacing, jitter, i - 1);
      if Splits(cfg, nodes[i - 1], |before.children|) then
        Splitting(
          before.children + Children(nodes[i - 1], spacing, JitterOf(jitter, i - 1), 8),
          before.removed + [true])
      else Splitting(before.children, before.removed + [false])
  }

  function Survivors(nodes: seq<Node>, removed: seq<bool>, i: nat): (r: seq<Node>)
    requires i <= |nodes| && i <= |removed|
    ensures |r| <= i
  {
    if i == 0 then []
    else if removed[i - 1] then Survivors(nodes, removed, i - 1)
    else Survivors(nodes, removed, i - 1) + [nodes[i - 1]]
  }

  function SplitCount(removed: seq<bool>, i: nat): (n: nat)
    requires i <= |removed|
    ensures n <= i
  {
    if i == 0 then 0 else SplitCount(removed, i - 1) + if removed[i - 1] then 1 else 0
  }

  /** The node list after one refinement: all children first, then the nodes that were kept. */
  function Refine(cfg: Config, nodes: seq<Node>, spacing: Vec3, jitter: (nat, nat) -> real): seq<Node> {
    if nodes == [] || |nodes| >= cfg.maxTotalNodes then nodes
    else
      var s := SplitTo(cfg, nodes, spacing, jitter, |nodes|);
      s.children + Survivors(nodes, s.removed, |nodes|)
  }

  // ----- The conserved measure

  /** The share of the volume a node of this level stands for. */
  function Share(level: nat): real {
    if level == 0 then 1.0 else Share(level - 1) / 8.0
  }

  function Mass(nodes: seq<Node>): real {
    if nodes == [] then 0.0 else Mass(nodes[..|nodes| - 1]) + Share(nodes[|nodes| - 1].level)
  }

  function Moment(nodes: seq<Node>, axis: nat): real
    requires axis < 3
  {
    if nodes == [] then 0.0
    else Moment(nodes[..|nodes| - 1], axis) + Mul(Share(nodes[|nodes| - 1].level), nodes[|nodes| - 1].pos.Get(axis))
  }

  lemma AddOne(nodes: seq<Node>, x: Node, axis: nat)
    requires axis < 3
    ensures Mass(nodes + [x]) == Mass(nodes) + Share(x.level)
    ensures Moment(nodes + [x], axis) == Moment(nodes, axis) + Mul(Share(x.level), x.pos.Get(axis))
  {
    assert (nodes + [x])[..|nodes|] == nodes;
  }

  lemma {:induction false} AddAll(a: seq<Node>, b: seq<Node>, axis: nat)
    requires axis < 3
    ensures Mass(a + b) == Mass(a) + Mass(b)
    ensures Moment(a + b, axis) == Moment(a, axis) + Moment(b, axis)
    decreases |b|
  {
    hide Mul, Share;
    if b == [] {
      assert a + b == a;
    } else {
      var init, last := b[..|b| - 1], b[|b| - 1];
      AddAll(a, init, axis);
      assert a + b == (a + init) + [last];
      AddOne(a + init, last, axis);
    }
  }

  /** The children of a node moved along an axis, o of them: their signs added up. */
  function SignSum(axis: nat, count: nat): int {
    if count == 0 then 0 else SignSum(axis, count - 1) + OctantSign(count - 1, axis)
  }

  lemma SignsCancel(axis: nat)
    requires axis < 3
    ensures SignSum(axis, 8) == 0
  {
    assert SignSum(axis, 1) == -1;
    assert SignSum(axis, 2) == if axis == 0 then 0 else -2;
    assert SignSum(axis, 3) == if axis == 0 then -1 else if axis == 1 then -1 else -3;
    assert SignSum(axis, 4) == if axis == 2 then -4 else 0;
    assert SignSum(axis, 5) == if axis == 0 then -1 else if axis == 1 then -1 else -3;
    assert SignSum(axis, 6) == if axis == 0 then 0 else -2;
    assert SignSum(axis, 7) == -1;
  }

  lemma {:induction false} ChildrenMeasure(node: Node, spacing: Vec3, jitter: nat -> real, count: nat, axis: nat)
    requires axis < 3
    ensures var cs := Children(node, spacing, jitter, count); var w := Share(node.level + 1);
      && Mass(cs) == Mul(count as real, w)
      && Moment(cs, axis) ==
           Mul(w, Mul(count as real, node.pos.Get(axis)) + Mul(SignSum(axis, count) as real, spacing.Get(axis) / 4.0))
  {
    hide Mul, Share, Child, OctantSign, Vec3.Get, Mass, Moment;
    var w, x, q := Share(node.level + 1), node.pos.Get(axis), spacing.Get(axis) / 4.0;
    if count == 0 {
      Empty(axis);
      ZeroTerms(w, x, q);
    } else {
      ChildrenMeasure(node, spacing, jitter, count - 1, axis);
      var c := Child(node, count - 1, spacing, jitter(count - 1));
      AddOne(Children(node, spacing, jitter, count - 1), c, axis);
      ChildPlace(node, count - 1, spacing, jitter(count - 1), axis);
      OneMoreChild((count - 1) as real, count as real, SignSum(axis, count - 1) as real, SignSum(axis, count) as real,
                   OctantSign(count - 1, axis) as real, w, x, q);
    }
  }

  lemma Empty(axis: nat)
    requires axis < 3
    ensures Mass([]) == 0.0 && Moment([], axis) == 0.0
  {
  }

  lemma ZeroTerms(w: real, x: real, q: real)
    ensures Mul(0.0, w) == 0.0 && Mul(w, Mul(0.0, x) + Mul(0.0, q)) == 0.0
  {
  }

  lemma ChildPlace(node: Node, octant: nat, spacing: Vec3, jitter: real, axis: nat)
    requires axis < 3
    ensures Child(node, octant, spacing, jitter).level == node.level + 1
    ensures Child(node, octant, spacing, jitter).pos.Get(axis) ==
      node.pos.Get(axis) + Mul(OctantSign(octant, axis) as real, spacing.Get(axis) / 4.0)
  {
  }

  lemma OneMoreChild(n: real, n': real, s: real, s': real, sign: real, w: real, x: real, q: real)
    requires n' == n + 1.0 && s' == s + sign
    ensures Mul(n', w) == Mul(n, w) + w
    ensures Mul(w, Mul(n', x) + Mul(s', q)) == Mul(w, Mul(n, x) + Mul(s, q)) + Mul(w, x + Mul(sign, q))
  {
    MulSum(w, Mul(n, x) + Mul(s, q), x + Mul(sign, q));
  }

  /** Eight children stand for exactly their parent: the same volume about the same centre. */
  lemma ChildrenConserve(node: Node, spacing: Vec3, jitter: nat -> real, axis: nat)
    requires axis < 3
    ensures Mass(Children(node, spacing, jitter, 8)) == Share(node.level)
    ensures Moment(Children(node, spacing, jitter, 8), axis) == Mul(Share(node.level), node.pos.Get(axis))
  {
    ChildrenMeasure(node, spacing, jitter, 8, axis);
    SignsCancel(axis);
    Eighth(Share(node.level), Share(node.level + 1), node.pos.Get(axis), spacing.Get(axis) / 4.0);
  }

  lemma Eighth(v: real, w: real, x: real, q: real)
    requires w == v / 8.0
    ensures Mul(8.0, w) == v && Mul(w, Mul(8.0, x) + Mul(0.0, q)) == Mul(v, x)
  {
    assert Mul(8.0, x) + Mul(0.0, q) == 8.0 * x;
    assert Mul(w, 8.0 * x) == (w * 8.0) * x;
  }

  ghost predicate LevelsWithin(nodes: seq<Node>, maxLevel: nat) {
    forall i :: 0 <= i < |nodes| ==> nodes[i].level <= maxLevel
  }

  lemma {:induction false} ChildrenLevels(node: Node, spacing: Vec3, jitter: nat -> real, count: nat)
    ensures LevelsWithin(Children(node, spacing, jitter, count), node.level + 1)
  {
    if count > 0 {
      ChildrenLevels(node, spacing, jitter, count - 1);
    }
  }

  /** What holds in the loop of one refinement. */
  ghost predicate SplitInv(cfg: Config, nodes: seq<Node>, s: Splitting, i: nat, axis: nat)
    requires i <= |nodes| && |s.removed| == i && axis < 3
  {
    var kept := Survivors(nodes, s.removed, i);
    && Mass(s.children) + Mass(kept) == Mass(nodes[..i])
    && Moment(s.children, axis) + Moment(kept, axis) == Moment(nodes[..i], axis)
    && |s.children| == 8 * SplitCount(s.removed, i) && |kept| == i - SplitCount(s.removed, i)
    && (|s.children| == 0 || |s.children| < cfg.maxTotalNodes)
    && LevelsWithin(s.children, cfg.maxLevel) && LevelsWithin(kept, cfg.maxLevel)
  }

  lemma {:induction false} SurvivorsPrefix(nodes: seq<Node>, a: seq<bool>, b: seq<bool>, i: nat)
    requires i <= |nodes| && i <= |a| && i <= |b| && a[..i] == b[..i]
    ensures Survivors(nodes, a, i) == Survivors(nodes, b, i) && SplitCount(a, i) == SplitCount(b, i)
  {
    if i > 0 {
      assert a[i - 1] == a[..i][i - 1] == b[..i][i - 1] == b[i - 1];
      assert a[..i - 1] == a[..i][..i - 1] && b[..i - 1] == b[..i][..i - 1];
      SurvivorsPrefix(nodes, a, b, i - 1);
    }
  }

  lemma KeepNode(cfg: Config, nodes: seq<Node>, s: Splitting, i: nat, axis: nat)
    requires i < |nodes| && |s.removed| == i && axis < 3 && SplitInv(cfg, nodes, s, i, axis)
    requires nodes[i].level <= cfg.maxLevel
    ensures SplitInv(cfg, nodes, Splitting(s.children, s.removed + [false]), i + 1, axis)
  {
    hide Share, Mul, Mass, Moment;
    SurvivorsPrefix(nodes, s.removed + [false], s.removed, i);
    assert nodes[..i + 1] == nodes[..i] + [nodes[i]];
    AddOne(nodes[..i], nodes[i], axis);
    AddOne(Survivors(nodes, s.removed, i), nodes[i], axis);
  }

  lemma SplitNode(cfg: Config, nodes: seq<Node>, s: Splitting, i: nat, spacing: Vec3, jitter: nat -> real, axis: nat)
    requires i < |nodes| && |s.removed| == i && axis < 3 && SplitInv(cfg, nodes, s, i, axis)
    requires Splits(cfg, nodes[i], |s.children|)
    ensures SplitInv(cfg, nodes,
      Splitting(s.children + Children(nodes[i], spacing, jitter, 8), s.removed + [true]), i + 1, axis)
  {
    hide Share, Mul, Mass, Moment, Children;
    SurvivorsPrefix(nodes, s.removed + [true], s.removed, i);
    assert nodes[..i + 1] == nodes[..i] + [nodes[i]];
    AddOne(nodes[..i], nodes[i], axis);
    SplitStep(nodes[i], spacing, jitter, s.children, axis, cfg);
  }

  lemma {:induction false} SplitToInv(
    cfg: Config, nodes: seq<Node>, spacing: Vec3, jitter: (nat, nat) -> real, i: nat, axis: nat)
    requires i <= |nodes| && axis < 3 && LevelsWithin(nodes, cfg.maxLevel)
    ensures SplitInv(cfg, nodes, SplitTo(cfg, nodes, spacing, jitter, i), i, axis)
  {
    if i > 0 {
      hide SplitInv;
      SplitToInv(cfg, nodes, spacing, jitter, i - 1, axis);
      var before := SplitTo(cfg, nodes, spacing, jitter, i - 1);
      if Splits(cfg, nodes[i - 1], |before.children|) {
        SplitNode(cfg, nodes, before, i - 1, spacing, JitterOf(jitter, i - 1), axis);
      } else {
        KeepNode(cfg, nodes, before, i - 1, axis);
      }
    }
  }

  lemma SplitStep(node: Node, spacing: Vec3, jitter: nat -> real, children: seq<Node>, axis: nat, cfg: Config)
    requires axis < 3 && node.level < cfg.maxLevel && LevelsWithin(children, cfg.maxLevel)
    ensures var more := children + Children(node, spacing, jitter, 8);
      && Mass(more) == Mass(children) + Share(node.level)
      && Moment(more, axis) == Moment(children, axis) + Mul(Share(node.level), node.pos.Get(axis))
      && LevelsWithin(more, cfg.maxLevel)
  {
    hide Share, Mul, Children;
    AddAll(children, Children(node, spacing, jitter, 8), axis);
    ChildrenConserve(node, spacing, jitter, axis);
    ChildrenLevels(node, spacing, jitter, 8);
  }

  // ----- How many nodes are split

  function Min(a: nat, b: nat): nat {
    if a < b then a else b
  }

  /** The nodes among the first i that are marked and below the level limit. */
  function Eligible(cfg: Config, nodes: seq<Node>, i: nat): (n: nat)
    requires i <= |nodes|
    ensures n <= i
  {
    if i == 0 then 0
    else
      Eligible(cfg, nodes, i - 1)
      + if nodes[i - 1].needsRefinement && nodes[i - 1].level < cfg.maxLevel then 1 else 0
  }

  /** The number of splits after which the guard refuses another. */
  function Room(cfg: Config): nat {
    if cfg.maxTotalNodes == 0 then 0 else (cfg.maxTotalNodes - 1) / 8
  }

  /** The most nodes a mesh below the limit can be refined to. */
  function LargestMesh(cfg: Config): (n: nat)
    ensures cfg.maxTotalNodes > 0 ==> n < 2 * cfg.maxTotalNodes
  {
    if cfg.maxTotalNodes == 0 then 0 else cfg.maxTotalNodes - 1 + 7 * Room(cfg)
  }

  lemma CountOneMore(nodes: seq<Node>, removed: seq<bool>, split: bool)
    requires |removed| <= |nodes|
    ensures SplitCount(removed + [split], |removed| + 1) == SplitCount(removed, |removed|) + if split then 1 else 0
  {
    SurvivorsPrefix(nodes, removed + [split], removed, |removed|);
  }

  lemma GuardIsRoom(cfg: Config, splits: nat)
    ensures 8 * splits + 8 < cfg.maxTotalNodes <==> splits < Room(cfg)
  {
  }

  /** Marked nodes are split in order until the room is used up, whatever the positions. */
  lemma {:induction false} SplitCountExactly(
    cfg: Config, nodes: seq<Node>, spacing: Vec3, jitter: (nat, nat) -> real, i: nat)
    requires i <= |nodes|
    ensures var s := SplitTo(cfg, nodes, spacing, jitter, i);
      && SplitCount(s.removed, i) == Min(Eligible(cfg, nodes, i), Room(cfg))
      && |s.children| == 8 * SplitCount(s.removed, i)
  {
    if i > 0 {
      SplitCountExactly(cfg, nodes, spacing, jitter, i - 1);
      var before := SplitTo(cfg, nodes, spacing, jitter, i - 1);
      GuardIsRoom(cfg, SplitCount(before.removed, i - 1));
      CountOneMore(nodes, before.removed, Splits(cfg, nodes[i - 1], |before.children|));
      hide Room, Children, SplitCount;
    }
  }

  /** One refinement keeps the volume and its first moments, keeps the level limit, and grows a mesh
      below the node limit by seven nodes for each marked node there is room to split. */
  lemma RefineConserves(cfg: Config, nodes: seq<Node>, spacing: Vec3, jitter: (nat, nat) -> real, axis: nat)
    requires axis < 3 && LevelsWithin(nodes, cfg.maxLevel)
    ensures var r := Refine(cfg, nodes, spacing, jitter);
      && Mass(r) == Mass(nodes) && Moment(r, axis) == Moment(nodes, axis)
      && LevelsWithin(r, cfg.maxLevel)
      && (|nodes| >= cfg.maxTotalNodes ==> r == nodes)
      && (|nodes| < cfg.maxTotalNodes ==>
            && |r| == |nodes| + 7 * Min(Eligible(cfg, nodes, |nodes|), Room(cfg))
            && |r| <= LargestMesh(cfg))
  {
    hide Share, Mul;
    if nodes != [] && |nodes| < cfg.maxTotalNodes {
      var s := SplitTo(cfg, nodes, spacing, jitter, |nodes|);
      SplitToInv(cfg, nodes, spacing, jitter, |nodes|, axis);
      SplitCountExactly(cfg, nodes, spacing, jitter, |nodes|);
      assert nodes[..|nodes|] == nodes;
      AddAll(s.children, Survivors(nodes, s.removed, |nodes|), axis);
    }
  }

  /** A refinement exceeds the node limit exactly when the marked nodes, as far as there is room for
      them, carry the mesh past it. */
  lemma LimitExceededExactly(cfg: Config, nodes: seq<Node>, spacing: Vec3, jitter: (nat, nat) -> real)
    requires |nodes| < cfg.maxTotalNodes
    ensures |Refine(cfg, nodes, spacing, jitter)| > cfg.maxTotalNodes <==>
      |nodes| + 7 * Min(Eligible(cfg, nodes, |nodes|), Room(cfg)) > cfg.maxTotalNodes
  {
    RefinedSize(cfg, nodes, spacing, jitter);
  }

  lemma RefinedSize(cfg: Config, nodes: seq<Node>, spacing: Vec3, jitter: (nat, nat) -> real)
    requires |nodes| < cfg.maxTotalNodes
    ensures |Refine(cfg, nodes, spacing, jitter)| == |nodes| + 7 * Min(Eligible(cfg, nodes, |nodes|), Room(cfg))
  {
    if nodes != [] {
      var s := SplitTo(cfg, nodes, spacing, jitter, |nodes|);
      SplitCountExactly(cfg, nodes, spacing, jitter, |nodes|);
      SurvivorsCount(nodes, s.removed, |nodes|);
    }
  }

  lemma {:induction false} SurvivorsCount(nodes: seq<Node>, removed: seq<bool>, i: nat)
    requires i <= |nodes| && i <= |removed|
    ensures |Survivors(nodes, removed, i)| == i - SplitCount(removed, i)
  {
    if i > 0 { SurvivorsCount(nodes, removed, i - 1); }
  }

  /** A mesh one node short of the limit with every node marked. */
  function MarkedMesh(cfg: Config, node: Node): seq<Node>
    requires cfg.maxTotalNodes > 0
  {
    seq(cfg.maxTotalNodes - 1, _ => node.(needsRefinement := true, level := 0))
  }

  lemma {:induction false} AllEligible(cfg: Config, node: Node, i: nat)
    requires cfg.maxTotalNodes > 0 && cfg.maxLevel > 0 && i <= |MarkedMesh(cfg, node)|
    ensures Eligible(cfg, MarkedMesh(cfg, node), i) == i
  {
    if i > 0 { AllEligible(cfg, node, i - 1); }
  }

  /** The bound of one refinement is attained for every limit, by the marked mesh just below it. */
  lemma LargestMeshAttained(cfg: Config, node: Node, spacing: Vec3, jitter: (nat, nat) -> real)
    requires cfg.maxTotalNodes > 0 && cfg.maxLevel > 0
    ensures |Refine(cfg, MarkedMesh(cfg, node), spacing, jitter)| == LargestMesh(cfg)
  {
    AllEligible(cfg, node, |MarkedMesh(cfg, node)|);
    RefinedSize(cfg, MarkedMesh(cfg, node), spacing, jitter);
    hide Refine, Eligible;
  }

  /** Some mesh below the limit is refined past it exactly when the limit is nine or more. */
  lemma LimitExceedable(cfg: Config, node: Node, spacing: Vec3, jitter: (nat, nat) -> real)
    requires cfg.maxLevel > 0
    ensures (exists nodes: seq<Node> ::
               |nodes| < cfg.maxTotalNodes && |Refine(cfg, nodes, spacing, jitter)| > cfg.maxTotalNodes)
            <==> cfg.maxTotalNodes >= 9
  {
    if cfg.maxTotalNodes >= 9 {
      LargestMeshAttained(cfg, node, spacing, jitter);
      assert |MarkedMesh(cfg, node)| < cfg.maxTotalNodes;
    } else {
      forall nodes: seq<Node> | |nodes| < cfg.maxTotalNodes
        ensures |Refine(cfg, nodes, spacing, jitter)| <= cfg.maxTotalNodes
      {
        RefinedSize(cfg, nodes, spacing, jitter);
      }
    }
  }

  // ----- Adaptive runs

  /** What happens to the mesh between refinements (solving, coupling, gradients, marking) may
      change anything but the number, the places and the levels of the nodes. */
  ghost predicate SamePlaces(a: seq<Node>, b: seq<Node>) {
    |a| == |b| && forall i :: 0 <= i < |a| ==> a[i].pos == b[i].pos && a[i].level == b[i].level
  }

  ghost predicate KeepsPlaces(evolve: (nat, seq<Node>) -> seq<Node>) {
    forall k: nat, nodes: seq<Node> :: SamePlaces(nodes, evolve(k, nodes))
  }

  predicate AnyMarked(nodes: seq<Node>) {
    exists i :: 0 <= i < |nodes| && nodes[i].needsRefinement
  }

  datatype Environment = Environment(
    evolve: (nat, seq<Node>) -> seq<Node>,
    spacing: nat -> Vec3,
    jitter: (nat, nat, nat) -> real)
  {
    function JitterAt(k: nat): (nat, nat) -> real {
      (i: nat, o: nat) => jitter(k, i, o)
    }
  }

  /** The loop of an adaptive run from iteration k on. */
  function Adapt(cfg: Config, env: Environment, nodes: seq<Node>, k: nat): seq<Node>
    decreases cfg.maxLevel - k
  {
    if k >= cfg.maxLevel then nodes
    else
      var solved := env.evolve(k, nodes);
      if !AnyMarked(solved) || |solved| >= cfg.maxTotalNodes then solved
      else Adapt(cfg, env, Refine(cfg, solved, env.spacing(k), env.JitterAt(k)), k + 1)
  }

  lemma {:induction false} SamePlacesSameMeasure(a: seq<Node>, b: seq<Node>, axis: nat)
    requires axis < 3 && SamePlaces(a, b)
    ensures Mass(a) == Mass(b) && Moment(a, axis) == Moment(b, axis)
  {
    hide Share, Mul;
    if a != [] {
      SamePlacesSameMeasure(a[..|a| - 1], b[..|b| - 1], axis);
    }
  }

  /** Over a whole run, whatever is marked: volume and first moments never change, no level
      exceeds the limit, and a run that starts below the node limit stays within one refinement of it. */
  lemma {:induction false} AdaptConserves(cfg: Config, env: Environment, nodes: seq<Node>, k: nat, axis: nat)
    requires axis < 3 && KeepsPlaces(env.evolve) && LevelsWithin(nodes, cfg.maxLevel)
    ensures var r := Adapt(cfg, env, nodes, k);
      && Mass(r) == Mass(nodes) && Moment(r, axis) == Moment(nodes, axis)
      && LevelsWithin(r, cfg.maxLevel) && |r| >= |nodes|
      && (|nodes| < cfg.maxTotalNodes ==> |r| <= LargestMesh(cfg))
      && (|nodes| >= cfg.maxTotalNodes ==> |r| == |nodes|)
    decreases cfg.maxLevel - k
  {
    hide Share, Mul, Mass, Moment, Refine;
    if k < cfg.maxLevel {
      var solved := env.evolve(k, nodes);
      assert SamePlaces(nodes, solved);
      SamePlacesSameMeasure(nodes, solved, axis);
      if AnyMarked(solved) && |solved| < cfg.maxTotalNodes {
        var refined := Refine(cfg, solved, env.spacing(k), env.JitterAt(k));
        RefineConserves(cfg, solved, env.spacing(k), env.JitterAt(k), axis);
        AdaptConserves(cfg, env, refined, k + 1, axis);
      }
    }
  }
}
