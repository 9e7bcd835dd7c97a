/** What a particle actually does: how it falls, when it is put back, and which way contacts push. */
module ParticleMotion {
  import opened Reals
  import opened DemSimulation

  // ----- Falling

  /** A particle that is free to move, with nothing but its weight as its force. */
  ghost predicate Falling(p: Particle) {
    !p.isFixed && p.mass > 0.0 && p.force == Vec3(0.0, 0.0, -9.81 * p.mass)
  }

  lemma WeightOverMass(m: real)
    requires m > 0.0
    ensures Mul(-9.81 * m, 1.0 / m) == -9.81
  {
    var w := 1.0 / m;
    assert m * w == 1.0;
    assert -9.81 * m * w == -9.81 * (m * w);
  }

  /** Half a time step of gravity goes into the velocity, and the new velocity into the position. */
  lemma OneStepFall(p: Particle, dt: real)
    requires Falling(p)
    ensures var q := Moved(Accelerated(p, dt), dt);
      && Falling(q) && q.mass == p.mass && q.radius == p.radius && q.id == p.id
      && q.velocity == Vec3(p.velocity.x, p.velocity.y, p.velocity.z - 9.81 * (dt * 0.5))
      && q.position == Vec3(p.position.x + Mul(q.velocity.x, dt), p.position.y + Mul(q.velocity.y, dt),
                            p.position.z + Mul(q.velocity.z, dt))
  {
    WeightOverMass(p.mass);
    var w := 1.0 / p.mass;
    assert Scale(p.force, w) == Vec3(Mul(0.0, w), Mul(0.0, w), -9.81);
    assert Mul(0.0, w) == 0.0;
    assert Scale(Vec3(0.0, 0.0, -9.81), dt * 0.5) == Vec3(0.0, 0.0, -9.81 * (dt * 0.5));
  }

  lemma {:induction false} ConfinedEach(g: Geometry, unit: Stream, ps: seq<Particle>, cursor: nat, k: nat)
    requires k < |ps|
    ensures var qs := ConfineAll(g, unit, ps, cursor).0;
      && |qs| == |ps| && exists c: nat :: qs[k] == Confined(g, unit, ps[k], c).0
  {
    hide Confined;
    var m := |ps| - 1;
    var (front, c) := ConfineAll(g, unit, ps[..m], cursor);
    if k < m {
      ConfinedEach(g, unit, ps[..m], cursor, k);
    } else {
      ConfinedLength(g, unit, ps[..m], cursor);
      assert ConfineAll(g, unit, ps, cursor).0[k] == Confined(g, unit, ps[m], c).0;
    }
    ConfinedLength(g, unit, ps, cursor);
    ConfinedLength(g, unit, ps[..m], cursor);
  }

  lemma {:induction false} ConfinedLength(g: Geometry, unit: Stream, ps: seq<Particle>, cursor: nat)
    ensures |ConfineAll(g, unit, ps, cursor).0| == |ps|
  {
    hide Confined;
    if ps != [] {
      ConfinedLength(g, unit, ps[..|ps| - 1], cursor);
    }
  }

  /** The particle is as it was after n steps without ever having been put back. */
  ghost predicate NeverPutBack(laws: Laws, setting: Setting, st: State, k: nat, n: nat) {
    forall i: nat :: i < n ==>
      var ps := Steps(laws, setting, st, i).scene.particles;
      var dt := setting.params.timeStep;
      k < |ps| && !Escaped(setting.geometry, Moved(Accelerated(ps[k], dt), dt))
  }

  lemma StepOfOne(laws: Laws, setting: Setting, st: State, k: nat)
    requires k < |st.scene.particles| && Falling(st.scene.particles[k])
    requires var dt := setting.params.timeStep;
      !Escaped(setting.geometry, Moved(Accelerated(st.scene.particles[k], dt), dt))
    ensures var dt, after := setting.params.timeStep, TimeStep(laws, setting, st).scene.particles;
      |after| == |st.scene.particles| && after[k] == Moved(Accelerated(st.scene.particles[k], dt), dt)
  {
    var dt := setting.params.timeStep;
    var ps := IntegrateVelocities(st.scene.particles, dt);
    CollisionsConserve(laws, ps, ZERO);
    var moved := IntegratePositions(Collided(laws, ps).particles, dt);
    hide Collided, ConfineAll, Escaped, TotalForce, TotalTorque;
    assert moved[k] == Moved(Accelerated(st.scene.particles[k], dt), dt);
    ConfinedEach(setting.geometry, setting.unit, moved, st.cursor, k);
  }

  /** Where and how fast a particle is that fell for a time t in steps of dt. Under full gravity the
      velocity would lose 9.81 t, and the height the integral of that. */
  ghost predicate FallenFor(p: Particle, q: Particle, t: real, dt: real) {
    && Falling(q)
    && q.velocity == Vec3(p.velocity.x, p.velocity.y, p.velocity.z - 0.5 * (9.81 * t))
    && q.position.x == p.position.x + Mul(p.velocity.x, t)
    && q.position.y == p.position.y + Mul(p.velocity.y, t)
    && q.position.z == p.position.z + Mul(p.velocity.z, t) - 0.25 * (9.81 * Mul(t, t + dt))
  }

  lemma FallBegins(p: Particle, dt: real)
    requires Falling(p)
    ensures FallenFor(p, p, 0.0, dt)
  {
  }

  lemma FallGoesOn(p: Particle, q: Particle, s: real, dt: real, t: real)
    requires FallenFor(p, q, s, dt) && s + dt == t
    ensures FallenFor(p, Moved(Accelerated(q, dt), dt), t, dt)
  {
    OneStepFall(q, dt);
    LevelStep(p.velocity.x, s, dt, t);
    LevelStep(p.velocity.y, s, dt, t);
    FallStep(p.velocity.z, s, dt, t);
    hide Moved, Accelerated, Mul;
  }

  /** Over any number of steps, among any other particles and under any contact laws, a free particle
      falls as if gravity were half as strong. */
  lemma {:induction false} FallsAtHalfGravity(laws: Laws, setting: Setting, st: State, k: nat, n: nat)
    requires k < |st.scene.particles| && Falling(st.scene.particles[k])
    requires NeverPutBack(laws, setting, st, k, n)
    ensures var dt, after := setting.params.timeStep, Steps(laws, setting, st, n).scene.particles;
      k < |after| && FallenFor(st.scene.particles[k], after[k], n as real * dt, dt)
  {
    hide TimeStep, Moved, Accelerated, Escaped;
    var dt, p := setting.params.timeStep, st.scene.particles[k];
    if n == 0 {
      FallBegins(p, dt);
    } else {
      assert NeverPutBack(laws, setting, st, k, n - 1);
      FallsAtHalfGravity(laws, setting, st, k, n - 1);
      var before := Steps(laws, setting, st, n - 1);
      StepOfOne(laws, setting, before, k);
      TimeAdds(n, dt);
      FallGoesOn(p, before.scene.particles[k], (n - 1) as real * dt, dt, n as real * dt);
    }
  }

  lemma TimeAdds(n: nat, dt: real)
    requires n > 0
    ensures (n - 1) as real * dt + dt == n as real * dt
  {
    var r := (n - 1) as real;
    assert n as real == r + 1.0;
    assert (r + 1.0) * dt == r * dt + dt;
  }

  lemma LevelStep(v: real, s: real, dt: real, t: real)
    requires s + dt == t
    ensures Mul(v, s) + Mul(v, dt) == Mul(v, t)
  {
  }

  lemma FallStep(v: real, s: real, dt: real, t: real)
    requires s + dt == t
    ensures Mul(v, s) - 0.25 * (9.81 * Mul(s, s + dt)) + Mul(v - 0.5 * (9.81 * t), dt)
            == Mul(v, t) - 0.25 * (9.81 * Mul(t, t + dt))
  {
    assert s == t - dt;
    assert Mul(v, t - dt) == Mul(v, t) - Mul(v, dt);
    assert Mul(t - dt, t) == Mul(t, t) - Mul(dt, t);
    assert Mul(v - 0.5 * (9.81 * t), dt) == Mul(v, dt) - 0.5 * (9.81 * Mul(t, dt));
    assert Mul(t, t + dt) == Mul(t, t) + Mul(t, dt);
    assert Mul(dt, t) == Mul(t, dt);
  }

  // ----- Being put back

  /** Farther from the crack's origin along some axis than each of the crack's three extents; depth and
      width are in micrometres. */
  ghost predicate FarOut(g: Geometry, p: Vec3) {
    || BeyondAll(g, p.x - g.origin.x)
    || BeyondAll(g, p.y - g.origin.y)
    || BeyondAll(g, p.z - g.origin.z)
  }

  ghost predicate BeyondAll(g: Geometry, d: real) {
    var a := if d < 0.0 then -d else d;
    a > g.length && a > g.width * 0.000001 && a > g.depth * 0.000001
  }

  /** In the box of the crack: half of each extent to either side of the origin. */
  ghost predicate InCrackBox(g: Geometry, p: Vec3) {
    && -(g.length * 0.5) <= p.x - g.origin.x <= g.length * 0.5
    && -(g.width * 0.5 * 0.000001) <= p.y - g.origin.y <= g.width * 0.5 * 0.000001
    && -(g.depth * 0.5 * 0.000001) <= p.z - g.origin.z <= g.depth * 0.5 * 0.000001
  }

  /** A free particle is left alone unless it is far out; then it is put back into the crack, at rest.
      A fixed one only loses its velocity and force. */
  lemma PutBackExactly(g: Geometry, unit: Stream, p: Particle, cursor: nat)
    requires ValidGeometry(g) && UnitStream(unit)
    ensures var q := Confined(g, unit, p, cursor).0;
      && (p.isFixed ==> q == p.(velocity := ZERO, force := ZERO))
      && (!p.isFixed && !FarOut(g, p.position) ==> q == p)
      && (!p.isFixed && FarOut(g, p.position) ==>
            InCrackBox(g, q.position) && q.velocity == Vec3(0.0, 0.0, 0.0) && q.mass == p.mass && q.force == p.force)
  {
    RandomPointInside(g, unit, cursor);
    hide RandomPoint;
  }

  // ----- Contacts

  /** The norm that the laws use is the Euclidean one. */
  ghost predicate Euclidean(laws: Laws) {
    forall v: Vec3 :: laws.norm(v) >= 0.0
      && Mul(laws.norm(v), laws.norm(v)) == Mul(v.x, v.x) + Mul(v.y, v.y) + Mul(v.z, v.z)
  }

  lemma SplitFactor(d: real, w: real, f: real)
    ensures Mul(Mul(Mul(d, w), f), d) == Mul(Mul(w, f), Mul(d, d))
  {
  }

  lemma SumFactor(c: real, x: real, y: real, z: real)
    ensures Mul(c, x) + Mul(c, y) + Mul(c, z) == Mul(c, x + y + z)
  {
  }

  lemma OverNorm(n: real, f: real)
    requires n > 0.0
    ensures Mul(Mul(1.0 / n, f), Mul(n, n)) == Mul(f, n)
  {
    var w := 1.0 / n;
    assert n * w == 1.0;
    assert (w * f) * (n * n) == f * n * (n * w);
  }

  /** A contact with a positive normal force pushes the first particle away from the second, along the
      line between them and with exactly that force: its component towards the other, times the
      distance, is -force * distance. */
  lemma ContactPushesApart(laws: Laws, a: Particle, b: Particle)
    requires Euclidean(laws) && Touching(laws, a, b)
    ensures var d := Vec3(b.position.x - a.position.x, b.position.y - a.position.y, b.position.z - a.position.z);
      var f := ForceOnFirst(laws, a, b);
      Mul(f.x, d.x) + Mul(f.y, d.y) + Mul(f.z, d.z) == -Mul(NormalForce(laws, a, b), laws.norm(d))
  {
    var d, f := Sub(b.position, a.position), -NormalForce(laws, a, b);
    var n := laws.norm(d);
    var w := 1.0 / n;
    assert ForceOnFirst(laws, a, b) == Scale(Scale(d, w), f);
    SplitFactor(d.x, w, f);
    SplitFactor(d.y, w, f);
    SplitFactor(d.z, w, f);
    SumFactor(Mul(w, f), Mul(d.x, d.x), Mul(d.y, d.y), Mul(d.z, d.z));
    OverNorm(n, f);
    Negated(NormalForce(laws, a, b), n);
    hide NormalForce, Mul, Normal;
  }

  lemma Negated(f: real, n: real)
    ensures Mul(-f, n) == -Mul(f, n)
  {
  }

  /** The recorded normal has length one and the force on the first particle is the recorded force
      against it; the recorded overlap is positive. */
  lemma ContactRecordsForce(laws: Laws, a: Particle, b: Particle)
    requires Euclidean(laws) && Touching(laws, a, b)
    ensures var c, f := ContactOf(laws, a, b), ForceOnFirst(laws, a, b);
      && c.particleA == a.id && c.particleB == b.id && c.overlap > 0.0
      && Mul(c.normal.x, c.normal.x) + Mul(c.normal.y, c.normal.y) + Mul(c.normal.z, c.normal.z) == 1.0
      && f == Vec3(-Mul(c.normal.x, c.normalForce), -Mul(c.normal.y, c.normalForce), -Mul(c.normal.z, c.normalForce))
  {
    var d := Sub(b.position, a.position);
    var n := laws.norm(d);
    var w := 1.0 / n;
    SquareOfScaled(d.x, w);
    SquareOfScaled(d.y, w);
    SquareOfScaled(d.z, w);
    SumFactor(Mul(w, w), Mul(d.x, d.x), Mul(d.y, d.y), Mul(d.z, d.z));
    UnitLength(n);
    var normal, f := Scale(d, w), NormalForce(laws, a, b);
    MulNegated(normal.x, f);
    MulNegated(normal.y, f);
    MulNegated(normal.z, f);
    hide NormalForce, Mul;
  }

  lemma SquareOfScaled(d: real, w: real)
    ensures Mul(Mul(d, w), Mul(d, w)) == Mul(Mul(w, w), Mul(d, d))
  {
  }

  lemma UnitLength(n: real)
    requires n > 0.0
    ensures Mul(Mul(1.0 / n, 1.0 / n), Mul(n, n)) == 1.0
  {
    var w := 1.0 / n;
    assert n * w == 1.0;
    assert (w * w) * (n * n) == (n * w) * (n * w);
  }

  lemma MulNegated(x: real, f: real)
    ensures Mul(x, -f) == -Mul(x, f)
  {
  }

  /** Two touching particles on the x axis: the force is the Hertz force of their overlap and radii, the
      damping force of the speed at which they part, and the attraction at their distance. */
  lemma NormalForceOnAxis(laws: Laws, a: Particle, b: Particle, distance: real)
    requires Euclidean(laws) && distance > 0.0000000001
    requires b.position == Vec3(a.position.x + distance, a.position.y, a.position.z)
    ensures NormalForce(laws, a, b) ==
      laws.hertz(a.radius + b.radius - distance, a.radius, b.radius)
      + laws.damping(b.velocity.x - a.velocity.x, a.radius + b.radius - distance)
      + Ratio(-0.0000000000000000001 * ((a.radius + b.radius) / 2.0), 6.0 * Squared(distance))
  {
    var d := Vec3(distance, 0.0, 0.0);
    assert Sub(b.position, a.position) == d;
    NormOnAxis(laws, distance);
    var w := 1.0 / distance;
    assert Normal(laws, a, b) == Vec3(1.0, 0.0, 0.0) by {
      assert Mul(distance, w) == 1.0 && Mul(0.0, w) == 0.0;
    }
    var v := Sub(b.velocity, a.velocity);
    AlongX(v);
    SquaredPositive(distance);
  }

  lemma NormOnAxis(laws: Laws, distance: real)
    requires Euclidean(laws) && distance > 0.0
    ensures laws.norm(Vec3(distance, 0.0, 0.0)) == distance
  {
    var n := laws.norm(Vec3(distance, 0.0, 0.0));
    assert Mul(n, n) == Mul(distance, distance) + Mul(0.0, 0.0) + Mul(0.0, 0.0);
    RootUnique(n, distance);
  }

  lemma AlongX(v: Vec3)
    ensures Dot(v, Vec3(1.0, 0.0, 0.0)) == v.x
  {
  }

  /** While fewer than 50000 contacts are found, a pair is recorded exactly when its distance is above
      1e-15 and below the sum of the radii. */
  lemma ContactsExactly(laws: Laws, ps: seq<Particle>, i: nat, j: nat)
    requires i < j < |ps|
    ensures |Collided(laws, ps).contacts| == |RecordedPairs(laws, ps)| <= 50000
    ensures var d := Vec3(ps[j].position.x - ps[i].position.x, ps[j].position.y - ps[i].position.y,
                          ps[j].position.z - ps[i].position.z);
      |RecordedPairs(laws, ps)| < 50000 ==>
        ((i, j) in RecordedPairs(laws, ps) <==> 0.000000000000001 < laws.norm(d) < ps[i].radius + ps[j].radius)
  {
    CollisionsRecorded(laws, ps);
    hide RecordedPairs, Collided;
  }

  // ----- Generated particles

  /** At rest, with the mass of a ball of its density and the weight of that mass. */
  ghost predicate FreshBall(params: Params, p: Particle) {
    && Falling(p) && p.velocity == Vec3(0.0, 0.0, 0.0) && params.minRadius <= p.radius <= params.maxRadius
    && p.mass == params.density * (4.0 / 3.0 * 3.141592653589793 * (p.radius * p.radius * p.radius))
  }

  lemma {:induction false} GeneratedFalling(
    laws: Laws, g: Geometry, params: Params, unit: Stream, cursor: nat, count: nat)
    requires UnitStream(unit) && 0.0 < params.minRadius <= params.maxRadius && params.density > 0.0
    ensures forall k :: 0 <= k < |Generated(laws, g, params, unit, cursor, count)| ==>
      FreshBall(params, Generated(laws, g, params, unit, cursor, count)[k])
  {
    hide FreshBall, Ball, RandomPoint, Overlaps;
    if count > 0 {
      GeneratedFalling(laws, g, params, unit, cursor, count - 1);
      var i := count - 1;
      RadiusInRange(unit(cursor + 4 * i), params.minRadius, params.maxRadius);
      BallFalls(i, RandomPoint(g, unit, cursor + 4 * i + 1),
        RandomDouble(unit, cursor + 4 * i, params.minRadius, params.maxRadius), params);
    }
  }

  lemma RadiusInRange(u: real, lo: real, hi: real)
    requires 0.0 <= u <= 1.0 && lo <= hi
    ensures lo <= lo + Mul(u, hi - lo) <= hi
  {
    var d := hi - lo;
    assert 0.0 <= u * d;
    assert d - u * d == (1.0 - u) * d >= 0.0;
  }

  lemma BallFalls(id: int, pos: Vec3, radius: real, params: Params)
    requires 0.0 < params.minRadius <= radius <= params.maxRadius && params.density > 0.0
    ensures FreshBall(params, Ball(id, pos, radius, params.density))
  {
    var cube := radius * radius * radius;
    SquaredPositive(radius);
    PositiveTimes(Squared(radius), radius);
    var volume := 4.0 / 3.0 * PI * cube;
    assert volume > 0.0;
    PositiveTimes(params.density, volume);
    assert -GRAVITY * params.density * volume == -9.81 * (params.density * volume);
  }

  lemma PositiveTimes(a: real, b: real)
    requires a > 0.0 && b > 0.0
    ensures a * b > 0.0
  {
  }

  /** Particle i is missing only when it would have overlapped one that was placed. */
  lemma {:induction false} GeneratedUnlessOverlapping(
    laws: Laws, g: Geometry, params: Params, unit: Stream, cursor: nat, count: nat, i: nat)
    requires i < count
    ensures var ps, c := Generated(laws, g, params, unit, cursor, count), Candidate(g, params, unit, cursor, i);
      || c in ps
      || exists k :: 0 <= k < |ps| && laws.norm(Sub(c.position, ps[k].position)) < c.radius + ps[k].radius
  {
    hide Candidate;
    var before := Generated(laws, g, params, unit, cursor, count - 1);
    var ps := Generated(laws, g, params, unit, cursor, count);
    var c := Candidate(g, params, unit, cursor, i);
    if i < count - 1 {
      GeneratedUnlessOverlapping(laws, g, params, unit, cursor, count - 1, i);
      if c !in before {
        var k :| 0 <= k < |before| && laws.norm(Sub(c.position, before[k].position)) < c.radius + before[k].radius;
        assert ps[k] == before[k];
      }
    } else if exists k :: 0 <= k < |before| && Overlaps(laws, c.position, c.radius, before[k]) {
      var k :| 0 <= k < |before| && Overlaps(laws, c.position, c.radius, before[k]);
      assert ps[k] == before[k];
    } else {
      assert ps[|before|] == c;
    }
  }
}
