/** The discrete element simulation: particles in a crack, contact forces, and the time step. */
module DemSimulation {
  import opened Reals

  // The square root, the contact laws that use it and the random numbers are parameters.

  const MAX_CONTACTS: nat := 50000
  const MIN_DISTANCE: real := 0.000000000000001
  const MICRO: real := 0.000001
  const PI: real := 3.141592653589793
  const GRAVITY: real := 9.81

  const ZERO: Vec3 := Vec3(0.0, 0.0, 0.0)

  datatype Particle = Particle(
    id: int,
    position: Vec3,
    velocity: Vec3,
    force: Vec3,
    radius: real,
    mass: real,
    isFixed: bool)

  datatype Contact = Contact(particleA: int, particleB: int, normal: Vec3, overlap: real, normalForce: real)

  /** vector_norm, and the Hertz and damping forces of an actual overlap. Nothing below depends on
      what they are. */
  datatype Laws = Laws(
    norm: Vec3 -> real,
    hertz: (real, real, real) -> real,
    damping: (real, real) -> real)

  datatype Geometry = Geometry(origin: Vec3, length: real, depth: real, width: real)

  datatype Params = Params(density: real, minRadius: real, maxRadius: real, timeStep: real)

  // ----- Vectors

  function Add(a: Vec3, b: Vec3): Vec3 {
    Vec3(a.x + b.x, a.y + b.y, a.z + b.z)
  }

  function Sub(a: Vec3, b: Vec3): Vec3 {
    Vec3(a.x - b.x, a.y - b.y, a.z - b.z)
  }

  function Scale(v: Vec3, s: real): Vec3 {
    Vec3(Mul(v.x, s), Mul(v.y, s), Mul(v.z, s))
  }

  function Dot(a: Vec3, b: Vec3): real {
    Mul(a.x, b.x) + Mul(a.y, b.y) + Mul(a.z, b.z)
  }

  function Cross(a: Vec3, b: Vec3): Vec3 {
    Vec3(Mul(a.y, b.z) - Mul(a.z, b.y), Mul(a.z, b.x) - Mul(a.x, b.z), Mul(a.x, b.y) - Mul(a.y, b.x))
  }

  // ----- Contact forces

  function VanDerWaals(distance: real, radius: real): real {
    var d := if distance < 0.0000000001 then 0.0000000001 else distance;
    -0.0000000000000000001 * radius / (6.0 * d * d)
  }

  predicate Touching(laws: Laws, a: Particle, b: Particle) {
    var dist := laws.norm(Sub(b.position, a.position));
    MIN_DISTANCE < dist < a.radius + b.radius
  }

  function Normal(laws: Laws, a: Particle, b: Particle): Vec3 {
    var diff := Sub(b.position, a.position);
    var n := laws.norm(diff);
    if n < MIN_DISTANCE then ZERO else Scale(diff, 1.0 / n)
  }

  function NormalForce(laws: Laws, a: Particle, b: Particle): real {
    var dist := laws.norm(Sub(b.position, a.position));
    var overlap := a.radius + b.radius - dist;
    var relVel := Dot(Sub(b.velocity, a.velocity), Normal(laws, a, b));
    laws.hertz(overlap, a.radius, b.radius) + laws.damping(relVel, overlap)
    + VanDerWaals(dist, (a.radius + b.radius) / 2.0)
  }

  /** The force on a; b receives its opposite. */
  function ForceOnFirst(laws: Laws, a: Particle, b: Particle): Vec3 {
    Scale(Normal(laws, a, b), -NormalForce(laws, a, b))
  }

  function ContactOf(laws: Laws, a: Particle, b: Particle): Contact {
    Contact(a.id, b.id, Normal(laws, a, b),
            a.radius + b.radius - laws.norm(Sub(b.position, a.position)), NormalForce(laws, a, b))
  }

  datatype Scene = Scene(particles: seq<Particle>, contacts: seq<Contact>)

  /** What a touching pair adds to the forces and the contact list. */
  function Hit(laws: Laws, s: Scene, i: nat, j: nat): Scene
    requires i < j < |s.particles|
  {
    var a, b := s.particles[i], s.particles[j];
    var f := ForceOnFirst(laws, a, b);
    Scene(s.particles[i := a.(force := Add(a.force, f))][j := b.(force := Sub(b.force, f))],
          s.contacts + [ContactOf(laws, a, b)])
  }

  function Visit(laws: Laws, s: Scene, i: nat, j: nat): Scene
    requires i < j < |s.particles|
  {
    if Touching(laws, s.particles[i], s.particles[j]) then Hit(laws, s, i, j) else s
  }

  // ----- The two loops of detect_collisions, with their breaks

  function ScanRow(laws: Laws, s: Scene, i: nat, j: nat): (r: Scene)
    requires i < j
    ensures |r.particles| == |s.particles|
    decreases |s.particles| - j
  {
    if j >= |s.particles| || |s.contacts| >= MAX_CONTACTS then s
    else ScanRow(laws, Visit(laws, s, i, j), i, j + 1)
  }

  function ScanRows(laws: Laws, s: Scene, i: nat): Scene
    decreases |s.particles| - i
  {
    if i >= |s.particles| then s
    else
      var row := ScanRow(laws, s, i, i + 1);
      if |row.contacts| >= MAX_CONTACTS then row else ScanRows(laws, row, i + 1)
  }

  // ----- The same thing without loops: one pass over the first touching pairs

  type Pair = (nat, nat)

  function RowPairs(laws: Laws, ps: seq<Particle>, i: nat, j: nat): seq<Pair>
    requires i < j
    decreases |ps| - j
  {
    if j >= |ps| then []
    else (if Touching(laws, ps[i], ps[j]) then [(i, j)] else []) + RowPairs(laws, ps, i, j + 1)
  }

  function TouchingPairs(laws: Laws, ps: seq<Particle>, i: nat): seq<Pair>
    decreases |ps| - i
  {
    if i >= |ps| then [] else RowPairs(laws, ps, i, i + 1) + TouchingPairs(laws, ps, i + 1)
  }

  ghost predicate PairsFit(pairs: seq<Pair>, n: nat) {
    forall k :: 0 <= k < |pairs| ==> pairs[k].0 < pairs[k].1 < n
  }

  function HitAll(laws: Laws, s: Scene, pairs: seq<Pair>): (r: Scene)
    requires PairsFit(pairs, |s.particles|)
    ensures |r.particles| == |s.particles|
    ensures |r.contacts| == |s.contacts| + |pairs|
    decreases |pairs|
  {
    if pairs == [] then s else HitAll(laws, Hit(laws, s, pairs[0].0, pairs[0].1), pairs[1..])
  }

  function Take(pairs: seq<Pair>, n: int): (r: seq<Pair>)
    ensures |r| <= |pairs|
  {
    if n <= 0 then [] else if n >= |pairs| then pairs else pairs[..n]
  }

  /** The two scenes differ in forces at most. */
  ghost predicate SameBodies(ps: seq<Particle>, qs: seq<Particle>) {
    |ps| == |qs| && forall k :: 0 <= k < |ps| ==> qs[k] == ps[k].(force := qs[k].force)
  }

  lemma {:induction false} RowPairsFit(laws: Laws, ps: seq<Particle>, i: nat, j: nat)
    requires i < j
    ensures PairsFit(RowPairs(laws, ps, i, j), |ps|)
    decreases |ps| - j
  {
    if j < |ps| { RowPairsFit(laws, ps, i, j + 1); }
  }

  lemma {:induction false} TouchingPairsFit(laws: Laws, ps: seq<Particle>, i: nat)
    ensures PairsFit(TouchingPairs(laws, ps, i), |ps|)
    decreases |ps| - i
  {
    if i < |ps| {
      RowPairsFit(laws, ps, i, i + 1);
      TouchingPairsFit(laws, ps, i + 1);
    }
  }

  lemma {:induction false} RowPairsSame(laws: Laws, ps: seq<Particle>, qs: seq<Particle>, i: nat, j: nat)
    requires i < j && SameBodies(ps, qs)
    ensures RowPairs(laws, qs, i, j) == RowPairs(laws, ps, i, j)
    decreases |ps| - j
  {
    if j < |ps| { RowPairsSame(laws, ps, qs, i, j + 1); }
  }

  lemma {:induction false} TouchingPairsSame(laws: Laws, ps: seq<Particle>, qs: seq<Particle>, i: nat)
    requires SameBodies(ps, qs)
    ensures TouchingPairs(laws, qs, i) == TouchingPairs(laws, ps, i)
    decreases |ps| - i
  {
    if i < |ps| {
      RowPairsSame(laws, ps, qs, i, i + 1);
      TouchingPairsSame(laws, ps, qs, i + 1);
    }
  }

  lemma {:induction false} HitAllSameBodies(laws: Laws, s: Scene, pairs: seq<Pair>)
    requires PairsFit(pairs, |s.particles|)
    ensures SameBodies(s.particles, HitAll(laws, s, pairs).particles)
    decreases |pairs|
  {
    hide ForceOnFirst, ContactOf;
    if pairs != [] { HitAllSameBodies(laws, Hit(laws, s, pairs[0].0, pairs[0].1), pairs[1..]); }
  }

  lemma {:induction false} HitAllAppend(laws: Laws, s: Scene, p: seq<Pair>, q: seq<Pair>)
    requires PairsFit(p, |s.particles|) && PairsFit(q, |s.particles|)
    ensures PairsFit(p + q, |s.particles|)
    ensures HitAll(laws, s, p + q) == HitAll(laws, HitAll(laws, s, p), q)
    decreases |p|
  {
    hide Hit;
    if p == [] {
      assert p + q == q;
    } else {
      HitKeepsLength(laws, s, p[0].0, p[0].1);
      HitAllAppend(laws, Hit(laws, s, p[0].0, p[0].1), p[1..], q);
      assert (p + q)[1..] == p[1..] + q;
    }
  }

  lemma HitKeepsLength(laws: Laws, s: Scene, i: nat, j: nat)
    requires i < j < |s.particles|
    ensures |Hit(laws, s, i, j).particles| == |s.particles|
    ensures |Hit(laws, s, i, j).contacts| == |s.contacts| + 1
    ensures SameBodies(s.particles, Hit(laws, s, i, j).particles)
  {
    hide ForceOnFirst, ContactOf;
  }

  /** r is what one pass over the pairs makes of s. */
  ghost predicate PassOf(laws: Laws, s: Scene, pairs: seq<Pair>, r: Scene) {
    PairsFit(pairs, |s.particles|) && r == HitAll(laws, s, pairs)
  }

  lemma PassCons(laws: Laws, s: Scene, i: nat, j: nat, rest: seq<Pair>, r: Scene)
    requires i < j < |s.particles| && PassOf(laws, Hit(laws, s, i, j), rest, r)
    ensures PassOf(laws, s, [(i, j)] + rest, r)
  {
    hide Hit;
    HitKeepsLength(laws, s, i, j);
    assert ([(i, j)] + rest)[1..] == rest;
  }

  lemma TakeCons(p: Pair, rest: seq<Pair>, room: nat)
    requires room > 0
    ensures Take([p] + rest, room) == [p] + Take(rest, room - 1)
  {
  }

  lemma EmptyPass(laws: Laws, s: Scene, pairs: seq<Pair>, room: int)
    requires pairs == [] || room <= 0
    ensures PassOf(laws, s, Take(pairs, room), s)
  {
  }

  lemma RowPairsFrom(laws: Laws, ps: seq<Particle>, i: nat, j: nat)
    requires i < j < |ps|
    ensures RowPairs(laws, ps, i, j)
            == if Touching(laws, ps[i], ps[j]) then [(i, j)] + RowPairs(laws, ps, i, j + 1)
               else RowPairs(laws, ps, i, j + 1)
  {
    assert [] + RowPairs(laws, ps, i, j + 1) == RowPairs(laws, ps, i, j + 1);
  }

  lemma ScanRowFrom(laws: Laws, s: Scene, i: nat, j: nat)
    requires i < j < |s.particles| && |s.contacts| < MAX_CONTACTS
    ensures ScanRow(laws, s, i, j) == ScanRow(laws, Visit(laws, s, i, j), i, j + 1)
  {
    hide Visit;
  }

  /** A pair has been visited: what follows passes the rest of the row in the room that is left. */
  lemma PassPair(laws: Laws, s: Scene, i: nat, j: nat, rest: seq<Pair>, r: Scene)
    requires i < j < |s.particles| && |s.contacts| < MAX_CONTACTS
    requires var next := Visit(laws, s, i, j);
             PassOf(laws, next, Take(rest, MAX_CONTACTS - |next.contacts|), r)
    ensures var pairs := if Touching(laws, s.particles[i], s.particles[j]) then [(i, j)] + rest else rest;
            PassOf(laws, s, Take(pairs, MAX_CONTACTS - |s.contacts|), r)
  {
    var room := MAX_CONTACTS - |s.contacts|;
    HitKeepsLength(laws, s, i, j);
    hide Hit, Touching, Take, PassOf, SameBodies;
    if Touching(laws, s.particles[i], s.particles[j]) {
      PassCons(laws, s, i, j, Take(rest, room - 1), r);
      TakeCons((i, j), rest, room);
    }
  }

  lemma VisitKeepsBodies(laws: Laws, s: Scene, i: nat, j: nat)
    requires i < j < |s.particles|
    ensures SameBodies(s.particles, Visit(laws, s, i, j).particles)
    ensures |Visit(laws, s, i, j).particles| == |s.particles|
    ensures |Visit(laws, s, i, j).contacts| <= |s.contacts| + 1
  {
    HitKeepsLength(laws, s, i, j);
    hide Hit;
  }

  lemma {:induction false} ScanRowIsPass(laws: Laws, s: Scene, i: nat, j: nat)
    requires i < j && |s.contacts| <= MAX_CONTACTS
    ensures PassOf(laws, s, Take(RowPairs(laws, s.particles, i, j), MAX_CONTACTS - |s.contacts|),
                   ScanRow(laws, s, i, j))
    decreases |s.particles| - j
  {
    hide *;
    if j >= |s.particles| || |s.contacts| == MAX_CONTACTS {
      ScanRowStops(laws, s, i, j);
    } else {
      var next := Visit(laws, s, i, j);
      VisitKeepsBodies(laws, s, i, j);
      ScanRowFrom(laws, s, i, j);
      ScanRowIsPass(laws, next, i, j + 1);
      RowPairsFrom(laws, s.particles, i, j);
      RowPairsSame(laws, s.particles, next.particles, i, j + 1);
      PassPair(laws, s, i, j, RowPairs(laws, s.particles, i, j + 1), ScanRow(laws, s, i, j));
    }
  }

  lemma ScanRowStops(laws: Laws, s: Scene, i: nat, j: nat)
    requires i < j && (j >= |s.particles| || |s.contacts| == MAX_CONTACTS)
    ensures PassOf(laws, s, Take(RowPairs(laws, s.particles, i, j), MAX_CONTACTS - |s.contacts|),
                   ScanRow(laws, s, i, j))
  {
    EmptyPass(laws, s, RowPairs(laws, s.particles, i, j), MAX_CONTACTS - |s.contacts|);
  }

  lemma TakeAppend(p: seq<Pair>, q: seq<Pair>, room: nat)
    ensures Take(p + q, room) == Take(p, room) + Take(q, room - |Take(p, room)|)
    ensures |Take(p, room)| == room ==> Take(p + q, room) == Take(p, room)
  {
  }

  lemma PassFacts(laws: Laws, s: Scene, pairs: seq<Pair>, r: Scene)
    requires PassOf(laws, s, pairs, r)
    ensures |r.particles| == |s.particles| && |r.contacts| == |s.contacts| + |pairs|
    ensures SameBodies(s.particles, r.particles)
  {
    HitAllSameBodies(laws, s, pairs);
  }

  lemma PassAppend(laws: Laws, s: Scene, p: seq<Pair>, mid: Scene, q: seq<Pair>, r: Scene)
    requires PassOf(laws, s, p, mid) && PassOf(laws, mid, q, r)
    ensures PassOf(laws, s, p + q, r)
  {
    HitAllAppend(laws, s, p, q);
  }

  /** A row has been passed: what follows passes the rest in the room that is left. */
  lemma PassRow(laws: Laws, s: Scene, first: seq<Pair>, row: Scene, rest: seq<Pair>, r: Scene)
    requires |s.contacts| <= MAX_CONTACTS
    requires PassOf(laws, s, Take(first, MAX_CONTACTS - |s.contacts|), row)
    requires if |row.contacts| >= MAX_CONTACTS then r == row
             else PassOf(laws, row, Take(rest, MAX_CONTACTS - |row.contacts|), r)
    ensures PassOf(laws, s, Take(first + rest, MAX_CONTACTS - |s.contacts|), r)
  {
    var room := MAX_CONTACTS - |s.contacts|;
    var taken := Take(first, room);
    hide PassOf, Take;
    PassFacts(laws, s, taken, row);
    TakeAppend(first, rest, room);
    TakeBound(first, room);
    if |row.contacts| < MAX_CONTACTS {
      PassAppend(laws, s, taken, row, Take(rest, room - |taken|), r);
    }
  }

  lemma ScanRowsFrom(laws: Laws, s: Scene, i: nat)
    requires i < |s.particles|
    ensures var row := ScanRow(laws, s, i, i + 1);
            ScanRows(laws, s, i) == if |row.contacts| >= MAX_CONTACTS then row else ScanRows(laws, row, i + 1)
    ensures TouchingPairs(laws, s.particles, i)
            == RowPairs(laws, s.particles, i, i + 1) + TouchingPairs(laws, s.particles, i + 1)
  {
    hide ScanRow, RowPairs;
  }

  /** The nested loops with their two breaks are one pass over the first touching pairs, as many
      as there is room for. */
  lemma {:induction false} ScanRowsIsPass(laws: Laws, s: Scene, i: nat)
    requires |s.contacts| <= MAX_CONTACTS
    ensures PassOf(laws, s, Take(TouchingPairs(laws, s.particles, i), MAX_CONTACTS - |s.contacts|),
                   ScanRows(laws, s, i))
    decreases |s.particles| - i
  {
    var room := MAX_CONTACTS - |s.contacts|;
    if i >= |s.particles| {
      EmptyPass(laws, s, TouchingPairs(laws, s.particles, i), room);
    } else {
      var row := ScanRow(laws, s, i, i + 1);
      ScanRowsFrom(laws, s, i);
      hide PassOf, SameBodies, RowPairs, ScanRow, Take, ScanRows, TouchingPairs;
      ScanRowIsPass(laws, s, i, i + 1);
      if |row.contacts| < MAX_CONTACTS {
        ScanRowsIsPass(laws, row, i + 1);
        PassFacts(laws, s, Take(RowPairs(laws, s.particles, i, i + 1), room), row);
        TouchingPairsSame(laws, s.particles, row.particles, i + 1);
      }
      PassRow(laws, s, RowPairs(laws, s.particles, i, i + 1), row,
              TouchingPairs(laws, s.particles, i + 1), ScanRows(laws, s, i));
    }
  }

  lemma TakeBound(p: seq<Pair>, room: nat)
    ensures |Take(p, room)| <= room
  {
  }

  // ----- Which pairs those are

  ghost predicate Before(p: Pair, q: Pair) {
    p.0 < q.0 || (p.0 == q.0 && p.1 < q.1)
  }

  ghost predicate Ordered(pairs: seq<Pair>) {
    forall k, m :: 0 <= k < m < |pairs| ==> Before(pairs[k], pairs[m])
  }

  lemma {:induction false} RowPairsMembers(laws: Laws, ps: seq<Particle>, i: nat, j: nat, p: Pair)
    requires i < j
    ensures p in RowPairs(laws, ps, i, j) <==>
              p.0 == i && j <= p.1 < |ps| && Touching(laws, ps[i], ps[p.1])
    decreases |ps| - j
  {
    hide *;
    if j < |ps| {
      RowPairsMembers(laws, ps, i, j + 1, p);
      RowPairsFrom(laws, ps, i, j);
    } else {
      RowPairsEnd(laws, ps, i, j);
    }
  }

  lemma RowPairsEnd(laws: Laws, ps: seq<Particle>, i: nat, j: nat)
    requires i < j && j >= |ps|
    ensures RowPairs(laws, ps, i, j) == [] && Ordered([])
  {
  }

  lemma {:induction false} RowPairsOrdered(laws: Laws, ps: seq<Particle>, i: nat, j: nat)
    requires i < j
    ensures Ordered(RowPairs(laws, ps, i, j))
    decreases |ps| - j
  {
    hide *;
    if j < |ps| {
      var rest := RowPairs(laws, ps, i, j + 1);
      RowPairsOrdered(laws, ps, i, j + 1);
      RowPairsFrom(laws, ps, i, j);
      forall q: Pair | q in rest ensures Before((i, j), q) {
        RowPairsMembers(laws, ps, i, j + 1, q);
        BeforeInRow(i, j, q);
      }
      OrderedCons((i, j), rest);
    } else {
      RowPairsEnd(laws, ps, i, j);
    }
  }

  lemma BeforeInRow(i: nat, j: nat, q: Pair)
    requires q.0 == i && j < q.1
    ensures Before((i, j), q)
  {
  }

  lemma OrderedCons(p: Pair, rest: seq<Pair>)
    requires Ordered(rest)
    ensures (forall q :: q in rest ==> Before(p, q)) ==> Ordered([p] + rest)
  {
    if forall q :: q in rest ==> Before(p, q) {
      var all := [p] + rest;
      forall k, m | 0 <= k < m < |all| ensures Before(all[k], all[m]) {
        assert all[m] == rest[m - 1];
        assert all[m] in rest;
        assert k > 0 ==> all[k] == rest[k - 1];
      }
    }
  }

  /** The touching pairs, each once, by first index and then by second. */
  lemma {:induction false} TouchingPairsExactly(laws: Laws, ps: seq<Particle>, i: nat)
    ensures Ordered(TouchingPairs(laws, ps, i))
    ensures forall p :: p in TouchingPairs(laws, ps, i) <==>
              i <= p.0 < p.1 < |ps| && Touching(laws, ps[p.0], ps[p.1])
    decreases |ps| - i
  {
    hide Touching, RowPairs, Ordered;
    if i < |ps| {
      RowPairsOrdered(laws, ps, i, i + 1);
      var row := RowPairs(laws, ps, i, i + 1);
      forall p: Pair
        ensures p in row <==> p.0 == i && i + 1 <= p.1 < |ps| && Touching(laws, ps[i], ps[p.1])
      {
        RowPairsMembers(laws, ps, i, i + 1, p);
      }
      TouchingPairsExactly(laws, ps, i + 1);
      OrderedAppend(row, TouchingPairs(laws, ps, i + 1), i);
    } else {
      NothingOrdered();
    }
  }

  lemma NothingOrdered()
    ensures Ordered([])
  {
  }

  lemma OrderedAppend(row: seq<Pair>, rest: seq<Pair>, i: nat)
    requires Ordered(row) && Ordered(rest)
    requires forall p :: p in row ==> p.0 == i
    requires forall p :: p in rest ==> i < p.0
    ensures Ordered(row + rest)
  {
    forall k, m | 0 <= k < m < |row + rest| ensures Before((row + rest)[k], (row + rest)[m]) {
      assert k < |row| ==> (row + rest)[k] in row;
      assert m >= |row| ==> (row + rest)[m] in rest;
    }
  }

  function ContactsOf(laws: Laws, ps: seq<Particle>, pairs: seq<Pair>): (r: seq<Contact>)
    requires PairsFit(pairs, |ps|)
    ensures |r| == |pairs|
  {
    seq(|pairs|, k requires 0 <= k < |pairs| => ContactOf(laws, ps[pairs[k].0], ps[pairs[k].1]))
  }

  lemma {:induction false} PassContacts(laws: Laws, s: Scene, pairs: seq<Pair>)
    requires PairsFit(pairs, |s.particles|)
    ensures HitAll(laws, s, pairs).contacts == s.contacts + ContactsOf(laws, s.particles, pairs)
    decreases |pairs|
  {
    hide ContactOf, ForceOnFirst;
    if pairs != [] {
      var i, j := pairs[0].0, pairs[0].1;
      var next := Hit(laws, s, i, j);
      PassContacts(laws, next, pairs[1..]);
      HitKeepsLength(laws, s, i, j);
      ContactsUnaffected(laws, s.particles, next.particles, pairs[1..]);
      assert ContactsOf(laws, s.particles, pairs)
          == [ContactOf(laws, s.particles[i], s.particles[j])] + ContactsOf(laws, s.particles, pairs[1..]);
    }
  }

  lemma ContactsUnaffected(laws: Laws, ps: seq<Particle>, qs: seq<Particle>, pairs: seq<Pair>)
    requires SameBodies(ps, qs) && PairsFit(pairs, |ps|)
    ensures ContactsOf(laws, qs, pairs) == ContactsOf(laws, ps, pairs)
  {
  }

  // ----- Conservation

  function TotalForce(ps: seq<Particle>): Vec3 {
    if ps == [] then ZERO else Add(TotalForce(ps[..|ps| - 1]), ps[|ps| - 1].force)
  }

  function Torque(p: Particle, pivot: Vec3): Vec3 {
    Cross(Sub(p.position, pivot), p.force)
  }

  function TotalTorque(ps: seq<Particle>, pivot: Vec3): Vec3 {
    if ps == [] then ZERO else Add(TotalTorque(ps[..|ps| - 1], pivot), Torque(ps[|ps| - 1], pivot))
  }

  lemma {:induction false} ForceReplaced(ps: seq<Particle>, k: nat, p: Particle)
    requires k < |ps|
    ensures TotalForce(ps[k := p]) == Add(TotalForce(ps), Sub(p.force, ps[k].force))
  {
    var front := ps[..|ps| - 1];
    if k == |ps| - 1 {
      assert ps[k := p][..|ps| - 1] == front;
    } else {
      assert ps[k := p][..|ps| - 1] == front[k := p];
      ForceReplaced(front, k, p);
    }
  }

  lemma {:induction false} TorqueReplaced(ps: seq<Particle>, k: nat, p: Particle, pivot: Vec3)
    requires k < |ps|
    ensures TotalTorque(ps[k := p], pivot)
            == Add(TotalTorque(ps, pivot), Sub(Torque(p, pivot), Torque(ps[k], pivot)))
  {
    hide Torque;
    var front := ps[..|ps| - 1];
    if k == |ps| - 1 {
      assert ps[k := p][..|ps| - 1] == front;
    } else {
      assert ps[k := p][..|ps| - 1] == front[k := p];
      TorqueReplaced(front, k, p, pivot);
    }
  }

  lemma MulLeft(a: real, b: real, c: real)
    ensures Mul(a + b, c) == Mul(a, c) + Mul(b, c)
    ensures Mul(a - b, c) == Mul(a, c) - Mul(b, c)
    ensures Mul(c, a + b) == Mul(c, a) + Mul(c, b)
    ensures Mul(c, a - b) == Mul(c, a) - Mul(c, b)
  {
  }

  lemma MulSwap(a: real, b: real, s: real)
    ensures Mul(a, Mul(b, s)) == Mul(b, Mul(a, s))
  {
    assert Mul(a, Mul(b, s)) == (a * b) * s;
    assert Mul(b, Mul(a, s)) == (b * a) * s;
  }

  lemma MulScale(a: real, s: real, t: real)
    ensures Mul(Mul(a, s), t) == Mul(a, Mul(s, t))
  {
  }

  lemma ScaleTwice(v: Vec3, s: real, t: real)
    ensures Scale(Scale(v, s), t) == Scale(v, Mul(s, t))
  {
    MulScale(v.x, s, t);
    MulScale(v.y, s, t);
    MulScale(v.z, s, t);
  }

  /** A force along the line between two points has no torque about one from the other. */
  lemma CrossParallel(d: Vec3, s: real)
    ensures Cross(d, Scale(d, s)) == ZERO
  {
    MulSwap(d.y, d.z, s);
    MulSwap(d.z, d.x, s);
    MulSwap(d.x, d.y, s);
    hide Mul;
  }

  lemma CrossAddRight(p: Vec3, f: Vec3, g: Vec3)
    ensures Cross(p, Add(f, g)) == Add(Cross(p, f), Cross(p, g))
    ensures Cross(p, Sub(f, g)) == Sub(Cross(p, f), Cross(p, g))
  {
    MulLeft(f.x, g.x, p.y);
    MulLeft(f.x, g.x, p.z);
    MulLeft(f.y, g.y, p.x);
    MulLeft(f.y, g.y, p.z);
    MulLeft(f.z, g.z, p.x);
    MulLeft(f.z, g.z, p.y);
    hide Mul;
  }

  lemma CrossSubLeft(p: Vec3, q: Vec3, f: Vec3)
    ensures Cross(Sub(p, q), f) == Sub(Cross(p, f), Cross(q, f))
  {
    MulLeft(p.x, q.x, f.y);
    MulLeft(p.x, q.x, f.z);
    MulLeft(p.y, q.y, f.x);
    MulLeft(p.y, q.y, f.z);
    MulLeft(p.z, q.z, f.x);
    MulLeft(p.z, q.z, f.y);
    hide Mul;
  }

  lemma ForceIsCentral(laws: Laws, a: Particle, b: Particle)
    ensures Cross(Sub(b.position, a.position), ForceOnFirst(laws, a, b)) == ZERO
  {
    var diff := Sub(b.position, a.position);
    var n, f := laws.norm(diff), -NormalForce(laws, a, b);
    if n < MIN_DISTANCE {
      ZeroScaled(f);
      CrossParallel(diff, 0.0);
      ZeroFactor(diff);
    } else {
      ScaleTwice(diff, 1.0 / n, f);
      CrossParallel(diff, Mul(1.0 / n, f));
    }
  }

  lemma ZeroScaled(f: real)
    ensures Scale(ZERO, f) == ZERO
  {
  }

  lemma ZeroFactor(v: Vec3)
    ensures Scale(v, 0.0) == ZERO
  {
  }

  lemma OppositeTorques(laws: Laws, a: Particle, b: Particle, pivot: Vec3)
    ensures var f := ForceOnFirst(laws, a, b);
            Add(Sub(Torque(a.(force := Add(a.force, f)), pivot), Torque(a, pivot)),
                Sub(Torque(b.(force := Sub(b.force, f)), pivot), Torque(b, pivot))) == ZERO
  {
    var f := ForceOnFirst(laws, a, b);
    var pa, pb := Sub(a.position, pivot), Sub(b.position, pivot);
    ForceIsCentral(laws, a, b);
    CrossAddRight(pa, a.force, f);
    CrossAddRight(pb, b.force, f);
    CrossSubLeft(pb, pa, f);
    assert Sub(pb, pa) == Sub(b.position, a.position);
    hide Cross, ForceOnFirst;
  }

  lemma HitConserves(laws: Laws, s: Scene, i: nat, j: nat, pivot: Vec3)
    requires i < j < |s.particles|
    ensures TotalForce(Hit(laws, s, i, j).particles) == TotalForce(s.particles)
    ensures TotalTorque(Hit(laws, s, i, j).particles, pivot) == TotalTorque(s.particles, pivot)
  {
    var a, b := s.particles[i], s.particles[j];
    var f := ForceOnFirst(laws, a, b);
    var a', b' := a.(force := Add(a.force, f)), b.(force := Sub(b.force, f));
    ForceReplaced(s.particles, i, a');
    ForceReplaced(s.particles[i := a'], j, b');
    TorqueReplaced(s.particles, i, a', pivot);
    TorqueReplaced(s.particles[i := a'], j, b', pivot);
    OppositeTorques(laws, a, b, pivot);
    hide Torque, ForceOnFirst, TotalForce, TotalTorque, ContactOf;
  }

  lemma {:induction false} PassConserves(laws: Laws, s: Scene, pairs: seq<Pair>, pivot: Vec3)
    requires PairsFit(pairs, |s.particles|)
    ensures TotalForce(HitAll(laws, s, pairs).particles) == TotalForce(s.particles)
    ensures TotalTorque(HitAll(laws, s, pairs).particles, pivot) == TotalTorque(s.particles, pivot)
    decreases |pairs|
  {
    if pairs != [] {
      HitConserves(laws, s, pairs[0].0, pairs[0].1, pivot);
      HitKeepsLength(laws, s, pairs[0].0, pairs[0].1);
      hide Hit, TotalForce, TotalTorque;
      PassConserves(laws, Hit(laws, s, pairs[0].0, pairs[0].1), pairs[1..], pivot);
    }
  }

  // ----- detect_collisions

  function Collided(laws: Laws, ps: seq<Particle>): Scene {
    ScanRows(laws, Scene(ps, []), 0)
  }

  function RecordedPairs(laws: Laws, ps: seq<Particle>): seq<Pair> {
    Take(TouchingPairs(laws, ps, 0), MAX_CONTACTS)
  }

  lemma TakeMembers(pairs: seq<Pair>, room: nat)
    requires Ordered(pairs)
    ensures var taken := Take(pairs, room);
            && |taken| <= room && Ordered(taken)
            && (forall p :: p in taken ==> p in pairs)
            && (|taken| < room ==> taken == pairs)
  {
  }

  lemma CollidedContacts(laws: Laws, ps: seq<Particle>)
    ensures PairsFit(RecordedPairs(laws, ps), |ps|)
    ensures Collided(laws, ps).contacts == ContactsOf(laws, ps, RecordedPairs(laws, ps))
  {
    var s := Scene(ps, []);
    ScanRowsIsPass(laws, s, 0);
    hide ScanRows, TouchingPairs, ContactsOf, HitAll, Take;
    PassContacts(laws, s, RecordedPairs(laws, ps));
    assert [] + ContactsOf(laws, ps, RecordedPairs(laws, ps)) == ContactsOf(laws, ps, RecordedPairs(laws, ps));
  }

  /** The contacts are those of the first touching pairs, at most MAX_CONTACTS of them, in strictly
      increasing pair order, also when the breaks cut the loops short. */
  lemma CollisionsRecorded(laws: Laws, ps: seq<Particle>)
    ensures var pairs := RecordedPairs(laws, ps);
            && |pairs| <= MAX_CONTACTS && PairsFit(pairs, |ps|) && Ordered(pairs)
            && (forall p :: p in pairs ==> Touching(laws, ps[p.0], ps[p.1]))
            && (|pairs| < MAX_CONTACTS ==>
                  forall i, j :: 0 <= i < j < |ps| && Touching(laws, ps[i], ps[j]) ==> (i, j) in pairs)
            && Collided(laws, ps).contacts == ContactsOf(laws, ps, pairs)
  {
    hide TouchingPairs, Take, Ordered, Touching, ContactsOf, Collided;
    CollidedContacts(laws, ps);
    TouchingPairsExactly(laws, ps, 0);
    TakeMembers(TouchingPairs(laws, ps, 0), MAX_CONTACTS);
  }

  /** Contact forces add no net force and no net torque about any pivot, and move nothing. */
  lemma CollisionsConserve(laws: Laws, ps: seq<Particle>, pivot: Vec3)
    ensures TotalForce(Collided(laws, ps).particles) == TotalForce(ps)
    ensures TotalTorque(Collided(laws, ps).particles, pivot) == TotalTorque(ps, pivot)
    ensures SameBodies(ps, Collided(laws, ps).particles)
  {
    var s := Scene(ps, []);
    ScanRowsIsPass(laws, s, 0);
    hide ScanRows, TouchingPairs, HitAll, TotalForce, TotalTorque, SameBodies;
    PassConserves(laws, s, RecordedPairs(laws, ps), pivot);
    HitAllSameBodies(laws, s, RecordedPairs(laws, ps));
  }

  // ----- Particle generation

  /** Random numbers in the unit interval, in the order in which they are drawn. */
  type Stream = nat -> real

  ghost predicate UnitStream(unit: Stream) {
    forall k: nat :: 0.0 <= unit(k) <= 1.0
  }

  function RandomDouble(unit: Stream, cursor: nat, min: real, max: real): real {
    min + Mul(unit(cursor), max - min)
  }

  ghost predicate ValidGeometry(g: Geometry) {
    g.length >= 0.0 && g.depth >= 0.0 && g.width >= 0.0
  }

  function HalfExtents(g: Geometry): Vec3 {
    Vec3(g.length * 0.5, g.width * 0.5 * MICRO, g.depth * 0.5 * MICRO)
  }

  function RandomPoint(g: Geometry, unit: Stream, cursor: nat): Vec3 {
    var half := HalfExtents(g);
    Vec3(g.origin.x + RandomDouble(unit, cursor, -half.x, half.x),
         g.origin.y + RandomDouble(unit, cursor + 1, -half.y, half.y),
         g.origin.z + RandomDouble(unit, cursor + 2, -half.z, half.z))
  }

  /** |x| <= bound. */
  predicate Within(x: real, bound: real) {
    -bound <= x <= bound
  }

  predicate InsideCrack(g: Geometry, p: Vec3) {
    var rel, half := Sub(p, g.origin), HalfExtents(g);
    Within(rel.x, half.x) && Within(rel.y, half.y) && Within(rel.z, half.z)
  }

  lemma RandomInside(u: real, half: real)
    requires 0.0 <= u <= 1.0 && half >= 0.0
    ensures Within(-half + Mul(u, half - -half), half)
  {
    assert Mul(u, half - -half) == u * half + u * half;
    assert 0.0 <= u * half;
    assert half - u * half == (1.0 - u) * half >= 0.0;
  }

  lemma RandomPointInside(g: Geometry, unit: Stream, cursor: nat)
    requires ValidGeometry(g) && UnitStream(unit)
    ensures InsideCrack(g, RandomPoint(g, unit, cursor))
  {
    var half := HalfExtents(g);
    RandomInside(unit(cursor), half.x);
    RandomInside(unit(cursor + 1), half.y);
    RandomInside(unit(cursor + 2), half.z);
  }

  predicate Overlaps(laws: Laws, pos: Vec3, radius: real, p: Particle) {
    laws.norm(Sub(pos, p.position)) < radius + p.radius
  }

  function Ball(id: int, pos: Vec3, radius: real, density: real): Particle {
    var volume := 4.0 / 3.0 * PI * (radius * radius * radius);
    Particle(id, pos, ZERO, Vec3(0.0, 0.0, -GRAVITY * density * volume), radius, density * volume, false)
  }

  /** A candidate is dropped when it overlaps a particle already placed. */
  function Placed(laws: Laws, ps: seq<Particle>, candidate: Particle): seq<Particle> {
    if exists k :: 0 <= k < |ps| && Overlaps(laws, candidate.position, candidate.radius, ps[k]) then ps
    else ps + [candidate]
  }

  /** The i-th draw takes one number for the radius and three for the position. */
  function Candidate(g: Geometry, params: Params, unit: Stream, cursor: nat, i: nat): Particle {
    Ball(i, RandomPoint(g, unit, cursor + 4 * i + 1),
         RandomDouble(unit, cursor + 4 * i, params.minRadius, params.maxRadius), params.density)
  }

  function Generated(laws: Laws, g: Geometry, params: Params, unit: Stream, cursor: nat, count: nat): seq<Particle> {
    if count == 0 then []
    else Placed(laws, Generated(laws, g, params, unit, cursor, count - 1),
                Candidate(g, params, unit, cursor, count - 1))
  }

  ghost predicate Separate(laws: Laws, ps: seq<Particle>) {
    forall i, j :: 0 <= i < j < |ps| ==>
      laws.norm(Sub(ps[j].position, ps[i].position)) >= ps[j].radius + ps[i].radius
  }

  /** Generated particles lie in the crack, keep apart and have increasing ids below the count. */
  lemma {:induction false} GeneratedApart(
    laws: Laws, g: Geometry, params: Params, unit: Stream, cursor: nat, count: nat)
    requires ValidGeometry(g) && UnitStream(unit)
    ensures var ps := Generated(laws, g, params, unit, cursor, count);
            && |ps| <= count && Separate(laws, ps)
            && (forall k :: 0 <= k < |ps| ==> InsideCrack(g, ps[k].position) && 0 <= ps[k].id < count)
            && (forall j, k :: 0 <= j < k < |ps| ==> ps[j].id < ps[k].id)
  {
    hide InsideCrack, RandomPoint;
    if count > 0 {
      GeneratedApart(laws, g, params, unit, cursor, count - 1);
      RandomPointInside(g, unit, cursor + 4 * (count - 1) + 1);
    }
  }

  lemma FirstMember(pairs: seq<Pair>)
    ensures pairs != [] ==> exists p :: p in pairs
  {
    if pairs != [] { assert pairs[0] in pairs; }
  }

  /** So the first collision pass over them records nothing and leaves every force alone. */
  lemma GeneratedTouchNothing(laws: Laws, g: Geometry, params: Params, unit: Stream, cursor: nat, count: nat)
    requires ValidGeometry(g) && UnitStream(unit)
    ensures var ps := Generated(laws, g, params, unit, cursor, count);
            Collided(laws, ps) == Scene(ps, [])
  {
    var ps := Generated(laws, g, params, unit, cursor, count);
    GeneratedApart(laws, g, params, unit, cursor, count);
    TouchingPairsExactly(laws, ps, 0);
    var pairs := TouchingPairs(laws, ps, 0);
    FirstMember(pairs);
    ScanRowsIsPass(laws, Scene(ps, []), 0);
    hide ScanRows, TouchingPairs, Generated;
  }

  // ----- The time step

  datatype Setting = Setting(geometry: Geometry, params: Params, unit: Stream)

  datatype State = State(scene: Scene, cursor: nat)

  function Accelerated(p: Particle, dt: real): Particle {
    if !p.isFixed && p.mass > 0.0 then
      p.(velocity := Add(p.velocity, Scale(Scale(p.force, 1.0 / p.mass), dt * 0.5)))
    else p
  }

  function Moved(p: Particle, dt: real): Particle {
    if p.isFixed then p
    else p.(position := Add(p.position, Scale(p.velocity, dt)), force := Vec3(0.0, 0.0, -GRAVITY * p.mass))
  }

  function IntegrateVelocities(ps: seq<Particle>, dt: real): seq<Particle> {
    seq(|ps|, k requires 0 <= k < |ps| => Accelerated(ps[k], dt))
  }

  function IntegratePositions(ps: seq<Particle>, dt: real): seq<Particle> {
    seq(|ps|, k requires 0 <= k < |ps| => Moved(ps[k], dt))
  }

  predicate Escaped(g: Geometry, p: Particle) {
    var far := Max(Max(g.length, g.width * MICRO), g.depth * MICRO);
    var rel := Sub(p.position, g.origin);
    !(Within(rel.x, far) && Within(rel.y, far) && Within(rel.z, far))
  }

  function Confined(g: Geometry, unit: Stream, p: Particle, cursor: nat): (Particle, nat) {
    if p.isFixed then (p.(velocity := ZERO, force := ZERO), cursor)
    else if Escaped(g, p) then (p.(velocity := ZERO, position := RandomPoint(g, unit, cursor)), cursor + 3)
    else (p, cursor)
  }

  function ConfineAll(g: Geometry, unit: Stream, ps: seq<Particle>, cursor: nat): (seq<Particle>, nat) {
    if ps == [] then ([], cursor)
    else
      var (front, c) := ConfineAll(g, unit, ps[..|ps| - 1], cursor);
      var (p, c') := Confined(g, unit, ps[|ps| - 1], c);
      (front + [p], c')
  }

  function TimeStep(laws: Laws, setting: Setting, st: State): State {
    var dt := setting.params.timeStep;
    var scene := Collided(laws, IntegrateVelocities(st.scene.particles, dt));
    var (ps, c) :=
      ConfineAll(setting.geometry, setting.unit, IntegratePositions(scene.particles, dt), st.cursor);
    State(Scene(ps, scene.contacts), c)
  }

  function Steps(laws: Laws, setting: Setting, st: State, n: nat): State {
    if n == 0 then st else TimeStep(laws, setting, Steps(laws, setting, st, n - 1))
  }

  /** The same step with collision detection left out. */
  function FreeStep(setting: Setting, st: State): State {
    var dt := setting.params.timeStep;
    var (ps, c) :=
      ConfineAll(setting.geometry, setting.unit,
                 IntegratePositions(IntegrateVelocities(st.scene.particles, dt), dt), st.cursor);
    State(Scene(ps, []), c)
  }

  function FreeSteps(setting: Setting, st: State, n: nat): State {
    if n == 0 then st else FreeStep(setting, FreeSteps(setting, st, n - 1))
  }

  /** Moving overwrites the force of a free particle, confining that of a fixed one. */
  lemma {:induction false} ForcesForgotten(
    g: Geometry, unit: Stream, ps: seq<Particle>, qs: seq<Particle>, dt: real, cursor: nat)
    requires SameBodies(ps, qs)
    ensures ConfineAll(g, unit, IntegratePositions(qs, dt), cursor)
            == ConfineAll(g, unit, IntegratePositions(ps, dt), cursor)
  {
    if ps != [] {
      var m := |ps| - 1;
      ForcesForgotten(g, unit, ps[..m], qs[..m], dt, cursor);
      assert IntegratePositions(ps, dt)[..m] == IntegratePositions(ps[..m], dt);
      assert IntegratePositions(qs, dt)[..m] == IntegratePositions(qs[..m], dt);
      assert qs[m] == ps[m].(force := qs[m].force);
    }
  }

  /** Contact forces are computed after the velocities they should change and overwritten before
      the next ones: over any number of steps, with any contact laws, the particles are where they
      would be had no collision ever been looked for. */
  lemma {:induction false} ContactsNeverMoveAnything(laws: Laws, setting: Setting, st: State, n: nat)
    ensures Steps(laws, setting, st, n).scene.particles == FreeSteps(setting, st, n).scene.particles
    ensures Steps(laws, setting, st, n).cursor == FreeSteps(setting, st, n).cursor
  {
    if n > 0 {
      ContactsNeverMoveAnything(laws, setting, st, n - 1);
      var before := Steps(laws, setting, st, n - 1);
      var dt := setting.params.timeStep;
      var ps := IntegrateVelocities(before.scene.particles, dt);
      CollisionsConserve(laws, ps, ZERO);
      hide Collided, ConfineAll, SameBodies, IntegratePositions, IntegrateVelocities;
      ForcesForgotten(setting.geometry, setting.unit, ps, Collided(laws, ps).particles, dt, before.cursor);
    }
  }

  // ----- The simulation object

  class DEMSimulation {
    var particles: seq<Particle>
    var contacts: seq<Contact>
    var cursor: nat
    const geometry: Geometry
    const params: Params
    const laws: Laws
    const unit: Stream

    function View(): State
      reads this
    {
      State(Scene(particles, contacts), cursor)
    }

    constructor (geometry: Geometry, params: Params, laws: Laws, unit: Stream)
      ensures View() == State(Scene([], []), 0)
      ensures this.geometry == geometry && this.params == params && this.laws == laws && this.unit == unit
    {
      this.geometry := geometry;
      this.params := params;
      this.laws := laws;
      this.unit := unit;
      particles := [];
      contacts := [];
      cursor := 0;
    }

    method GenerateParticles(count: nat)
      requires ValidGeometry(geometry) && UnitStream(unit)
      modifies this`particles, this`cursor
      ensures particles == Generated(laws, geometry, params, unit, old(cursor), count)
      ensures cursor == old(cursor) + 4 * count
      ensures Separate(laws, particles)
      ensures forall k :: 0 <= k < |particles| ==> InsideCrack(geometry, particles[k].position)
    {
      hide RandomPoint, RandomDouble, Ball, InsideCrack, Separate, Placed;
      GeneratedApart(laws, geometry, params, unit, cursor, count);
      particles := [];
      for i := 0 to count
        invariant particles == Generated(laws, geometry, params, unit, old(cursor), i)
        invariant cursor == old(cursor) + 4 * i
      {
        var radius := RandomDouble(unit, cursor, params.minRadius, params.maxRadius);
        var pos := RandomPoint(geometry, unit, cursor + 1);
        cursor := cursor + 4;
        KeepUnlessOverlapping(Ball(i, pos, radius, params.density));
      }
    }

    /** The overlap loop over the particles placed so far. */
    method KeepUnlessOverlapping(candidate: Particle)
      modifies this`particles
      ensures particles == Placed(laws, old(particles), candidate)
    {
      hide Overlaps;
      var overlapping := false;
      for k := 0 to |particles|
        invariant !overlapping
        invariant forall m :: 0 <= m < k ==> !Overlaps(laws, candidate.position, candidate.radius, particles[m])
      {
        if Overlaps(laws, candidate.position, candidate.radius, particles[k]) {
          overlapping := true;
          break;
        }
      }
      if !overlapping { particles := particles + [candidate]; }
    }

    method ComputeContactForces(i: nat, j: nat)
      requires i < j < |particles|
      modifies this`particles, this`contacts
      ensures Scene(particles, contacts) == Visit(laws, old(Scene(particles, contacts)), i, j)
    {
      hide ForceOnFirst, ContactOf;
      var a, b := particles[i], particles[j];
      if Touching(laws, a, b) {
        var force := ForceOnFirst(laws, a, b);
        particles := particles[i := a.(force := Add(a.force, force))];
        particles := particles[j := b.(force := Sub(b.force, force))];
        contacts := contacts + [ContactOf(laws, a, b)];
      }
    }

    method DetectCollisions()
      modifies this`particles, this`contacts
      ensures Scene(particles, contacts) == Collided(laws, old(particles))
      ensures TotalForce(particles) == old(TotalForce(particles))
      ensures |contacts| <= MAX_CONTACTS
    {
      hide Visit, TotalForce, TotalTorque, RecordedPairs, ContactsOf;
      CollisionsConserve(laws, particles, ZERO);
      CollisionsRecorded(laws, particles);
      contacts := [];
      ghost var n := |particles|;
      var i := 0;
      while i < |particles|
        invariant |particles| == n
        invariant ScanRows(laws, Scene(particles, contacts), i) == Collided(laws, old(particles))
      {
        var j := i + 1;
        ghost var row := ScanRow(laws, Scene(particles, contacts), i, i + 1);
        while j < |particles|
          invariant i < j && |particles| == n
          invariant ScanRow(laws, Scene(particles, contacts), i, j) == row
        {
          if |contacts| >= MAX_CONTACTS { break; }
          ComputeContactForces(i, j);
          j := j + 1;
        }
        assert Scene(particles, contacts) == row;
        if |contacts| >= MAX_CONTACTS { break; }
        i := i + 1;
      }
    }

    method IntegrateParticleVelocities()
      modifies this`particles
      ensures particles == IntegrateVelocities(old(particles), params.timeStep)
    {
      hide Accelerated;
      for k := 0 to |particles|
        invariant |particles| == |old(particles)|
        invariant forall m :: 0 <= m < k ==> particles[m] == Accelerated(old(particles)[m], params.timeStep)
        invariant forall m :: k <= m < |particles| ==> particles[m] == old(particles)[m]
      {
        particles := particles[k := Accelerated(particles[k], params.timeStep)];
      }
    }

    method IntegrateParticlePositions()
      modifies this`particles
      ensures particles == IntegratePositions(old(particles), params.timeStep)
    {
      hide Moved;
      for k := 0 to |particles|
        invariant |particles| == |old(particles)|
        invariant forall m :: 0 <= m < k ==> particles[m] == Moved(old(particles)[m], params.timeStep)
        invariant forall m :: k <= m < |particles| ==> particles[m] == old(particles)[m]
      {
        particles := particles[k := Moved(particles[k], params.timeStep)];
      }
    }

    method ApplyBoundaryConditions()
      modifies this`particles, this`cursor
      ensures (particles, cursor) == ConfineAll(geometry, unit, old(particles), old(cursor))
    {
      hide Confined;
      ghost var before := particles;
      for k := 0 to |particles|
        invariant |particles| == |before|
        invariant (particles[..k], cursor) == ConfineAll(geometry, unit, before[..k], old(cursor))
        invariant particles[k..] == before[k..]
      {
        assert before[..k + 1][..k] == before[..k];
        var (p, c) := Confined(geometry, unit, particles[k], cursor);
        particles := particles[k := p];
        cursor := c;
        assert particles[..k + 1] == particles[..k] + [p];
      }
      assert particles[..|particles|] == particles && before[..|before|] == before;
    }

    method Step()
      modifies this`particles, this`contacts, this`cursor
      ensures View() == TimeStep(laws, Setting(geometry, params, unit), old(View()))
    {
      hide ConfineAll, Collided;
      IntegrateParticleVelocities();
      DetectCollisions();
      IntegrateParticlePositions();
      ApplyBoundaryConditions();
    }
  }
}