/** What strokes, frames, resets and brush changes come to in the end. */
module RepairCompletion {
  import opened Reals
  import opened RepairTool

  // ----- The brush

  /** The brush reaches a tenth of its radius, measured along an axis here. */
  lemma BrushReach(p: Point, t: real, radius: real)
    requires radius >= 0.0
    ensures Near(Point(p.x + t, p.y, p.z), p, radius) <==> -(radius * 0.1) <= t <= radius * 0.1
    ensures Near(Point(p.x, p.y + t, p.z), p, radius) <==> -(radius * 0.1) <= t <= radius * 0.1
    ensures Near(Point(p.x, p.y, p.z + t), p, radius) <==> -(radius * 0.1) <= t <= radius * 0.1
  {
    SquareOrder(t, radius * 0.1);
    assert Squared(0.0) == 0.0;
    hide Squared;
  }

  lemma SquareOrder(t: real, r: real)
    requires r >= 0.0
    ensures Squared(t) <= Squared(r) <==> -r <= t <= r
  {
    var a := if t < 0.0 then -t else t;
    assert Squared(a) == Squared(t);
    if a <= r {
      LargerSquare(a, r);
    } else {
      LargerSquare(r, a);
      StrictSquare(r, a);
    }
  }

  lemma LargerSquare(a: real, r: real)
    requires 0.0 <= a <= r
    ensures Squared(a) <= Squared(r)
  {
    assert a * a <= a * r;
    assert a * r <= r * r;
  }

  lemma StrictSquare(r: real, a: real)
    requires 0.0 <= r < a
    ensures Squared(r) < Squared(a)
  {
    LargerSquare(r, a);
    if Squared(r) == Squared(a) && r != 0.0 {
      RootUnique(a, r);
    }
    SquaredPositive(a);
  }

  /** A brush size between 0.5 and 50 is taken as it is, any other cut off to the nearer of the two. */
  lemma BrushSize(s: Tool, radius: real)
    ensures Run(s, [Radius(radius)]) ==
      s.(repairRadius := if radius > 50.0 then 50.0 else if radius < 0.5 then 0.5 else radius)
  {
    assert Run(s, []) == s;
  }

  // ----- Frames

  /** A frame records for every animation how much of its 1200 ms has gone, at 60 frames to the whole. */
  lemma FramesRecorded(s: Tool, now: real, k: nat)
    requires k < |s.animating|
    ensures var a, after := s.animating[k], Run(s, [FrameAt(now)]);
      |after.frames| == |s.frames| + |s.animating|
      && var f := after.frames[|s.frames| + k];
         && f.crackId == a.crackId && f.timestamp == now
         && f.progress == (if now - a.startTime < 1200.0 then (now - a.startTime) / 1200.0 else 1.0)
         && f.frame as real <= f.progress * 60.0 < f.frame as real + 1.0
  {
    hide Progress, Surviving;
    assert Run(s, []) == s;
    assert Recorded(s.animating, now)[k] == FrameOf(s.animating[k], now);
    ProgressOf(s.animating[k], now);
    FloorBounds(Progress(s.animating[k], now) * 60.0);
  }

  lemma ProgressOf(a: Animation, now: real)
    ensures Progress(a, now) == (if now - a.startTime < 1200.0 then (now - a.startTime) / 1200.0 else 1.0)
  {
  }

  lemma FloorBounds(x: real)
    ensures x.Floor as real <= x < x.Floor as real + 1.0
  {
  }

  /** Every animation began at the bound or before. */
  ghost predicate BegunBy(animating: seq<Animation>, bound: real) {
    forall k :: 0 <= k < |animating| ==> animating[k].startTime <= bound
  }

  lemma {:induction false} SurvivorsBegunBy(animating: seq<Animation>, now: real, bound: real)
    requires BegunBy(animating, bound)
    ensures BegunBy(Surviving(animating, now), bound)
    ensures now >= bound + 1200.0 ==> Surviving(animating, now) == []
  {
    if animating != [] {
      SurvivorsBegunBy(animating[..|animating| - 1], now, bound);
      var last := animating[|animating| - 1];
      assert last.startTime <= bound;
      if now >= bound + 1200.0 {
        assert (now - last.startTime) / 1200.0 >= 1.0;
      }
    }
  }

  lemma {:induction false} PointsLeaveAnimations(s: Tool, crack: Crack, m: nat, world: Point)
    requires m <= |crack.points|
    ensures RepairPoints(s, crack, m, world).animating == s.animating
    ensures RepairPoints(s, crack, m, world).closureThreshold == s.closureThreshold
    ensures RepairPoints(s, crack, m, world).repairRadius == s.repairRadius
  {
    if m > 0 {
      PointsLeaveAnimations(s, crack, m - 1, world);
    }
  }

  lemma StrokeBegins(s: Tool, crack: Crack, world: Point, now: real, bound: real)
    requires BegunBy(s.animating, bound) && now <= bound
    ensures var after := RepairCrack(s, crack, world, now);
      BegunBy(after.animating, bound) && after.closureThreshold == s.closureThreshold
      && after.repairRadius == s.repairRadius
  {
    PointsLeaveAnimations(s, crack, |crack.points|, world);
    hide RepairPoints, Reached;
  }

  lemma {:induction false} StrokesBegin(s: Tool, m: nat, world: Point, now: real, bound: real)
    requires m <= |s.crackData| && BegunBy(s.animating, bound) && now <= bound
    ensures var after := RepairCracks(s, m, world, now);
      BegunBy(after.animating, bound) && after.closureThreshold == s.closureThreshold
      && after.repairRadius == s.repairRadius
  {
    hide RepairCrack;
    if m > 0 {
      StrokesBegin(s, m - 1, world, now, bound);
      StrokeBegins(RepairCracks(s, m - 1, world, now), s.crackData[m - 1], world, now, bound);
    }
  }

  // ----- Runs of strokes and frames

  /** Strokes no later than the bound, and frames. */
  ghost predicate StrokesAndFrames(events: seq<Event>, bound: real) {
    forall k :: 0 <= k < |events| ==>
      (events[k].StrokeAt? && events[k].now <= bound) || events[k].FrameAt?
  }

  lemma {:induction false} RunBegunBy(s: Tool, events: seq<Event>, bound: real)
    requires BegunBy(s.animating, bound) && StrokesAndFrames(events, bound)
    ensures var after := Run(s, events);
      BegunBy(after.animating, bound) && after.closureThreshold == s.closureThreshold
      && after.repairRadius == s.repairRadius
  {
    hide RepairCracks;
    if events != [] {
      var front, last := events[..|events| - 1], events[|events| - 1];
      RunBegunBy(s, front, bound);
      match last
      case StrokeAt(world, now) => StrokesBegin(Run(s, front), |Run(s, front).crackData|, world, now, bound);
      case FrameAt(now) => SurvivorsBegunBy(Run(s, front).animating, now, bound);
      case _ =>
    }
  }

  lemma {:induction false} ClosedStays(s: Tool, m: nat, world: Point, now: real, id: int)
    requires m <= |s.crackData| && id in s.data && s.data[id].isClosed
    ensures id in RepairCracks(s, m, world, now).data && RepairCracks(s, m, world, now).data[id].isClosed
  {
    if m > 0 {
      ClosedStays(s, m - 1, world, now, id);
      RepairCrackFlags(RepairCracks(s, m - 1, world, now), s.crackData[m - 1], world, now);
      hide RepairPoints, AnimateClosure, FlagsAfter;
    }
  }

  /** Point i of crack k came within reach of a stroke of the run. */
  ghost predicate Touched(events: seq<Event>, p: Point, radius: real) {
    exists m :: 0 <= m < |events| && events[m].StrokeAt?
      && Squared(events[m].world.x - p.x) + Squared(events[m].world.y - p.y) + Squared(events[m].world.z - p.z)
         <= Squared(radius * 0.1)
  }

  ghost predicate Done(s: Tool, k: nat, i: nat) {
    && k < |s.crackData| && s.crackData[k].id in s.data
    && (s.data[s.crackData[k].id].isClosed || Flag(s.data[s.crackData[k].id], i))
  }

  lemma DoneStays(s: Tool, k: nat, i: nat, e: Event)
    requires DistinctCracks(s.crackData) && Done(s, k, i) && (e.StrokeAt? || e.FrameAt?)
    ensures Done(Handle(s, e), k, i)
  {
    if e.StrokeAt? {
      var id := s.crackData[k].id;
      StrokeRepairsExactly(s, e.world, e.now, k, i);
      RepairCracksFlags(s, |s.crackData|, e.world, e.now);
      if s.data[id].isClosed {
        ClosedStays(s, |s.crackData|, e.world, e.now, id);
      }
      hide RepairCracks, Near, FlagsAfter, Flag;
    }
  }

  lemma TouchDoes(s: Tool, k: nat, i: nat, world: Point, now: real)
    requires DistinctCracks(s.crackData) && k < |s.crackData| && s.crackData[k].id in s.data
    requires i < |s.crackData[k].points| && Near(world, s.crackData[k].points[i], s.repairRadius)
    ensures Done(Stroke(s, world, now), k, i)
  {
    var id := s.crackData[k].id;
    StrokeRepairsExactly(s, world, now, k, i);
    RepairCracksFlags(s, |s.crackData|, world, now);
    if s.data[id].isClosed {
      ClosedStays(s, |s.crackData|, world, now, id);
    }
    hide RepairCracks, Near, FlagsAfter, Flag;
  }

  /** A tool with a record for every crack, its cracks distinct. */
  ghost predicate Ready(s: Tool, cracks: seq<Crack>) {
    && s.crackData == cracks && DistinctCracks(cracks) && s.repairRadius >= 0.0
    && forall k :: 0 <= k < |cracks| ==> cracks[k].id in s.data
  }

  lemma {:induction false} RunReady(s: Tool, events: seq<Event>, bound: real, cracks: seq<Crack>)
    requires Ready(s, cracks) && BegunBy(s.animating, bound) && StrokesAndFrames(events, bound)
    ensures Ready(Run(s, events), cracks) && Run(s, events).repairRadius == s.repairRadius
  {
    hide RepairCracks;
    RunBegunBy(s, events, bound);
    if events != [] {
      var front, last := events[..|events| - 1], events[|events| - 1];
      RunReady(s, front, bound, cracks);
      if last.StrokeAt? {
        RepairCracksFlags(Run(s, front), |cracks|, last.world, last.now);
        hide FlagsAfter;
      }
    }
  }

  lemma {:induction false} TouchedDone(s: Tool, events: seq<Event>, bound: real, cracks: seq<Crack>, k: nat, i: nat)
    requires Ready(s, cracks) && BegunBy(s.animating, bound) && StrokesAndFrames(events, bound)
    requires k < |cracks| && i < |cracks[k].points| && Touched(events, cracks[k].points[i], s.repairRadius)
    ensures Done(Run(s, events), k, i)
  {
    hide Stroke, FrameStep, BegunBy, Done, DistinctCracks;
    var front, last := events[..|events| - 1], events[|events| - 1];
    assert StrokesAndFrames(front, bound);
    RunReady(s, front, bound, cracks);
    var p := cracks[k].points[i];
    var m :| 0 <= m < |events| && events[m].StrokeAt?
      && Squared(events[m].world.x - p.x) + Squared(events[m].world.y - p.y) + Squared(events[m].world.z - p.z)
         <= Squared(s.repairRadius * 0.1);
    if m < |front| {
      assert front[m] == events[m];
      TouchedDone(s, front, bound, cracks, k, i);
      DoneStays(Run(s, front), k, i, last);
    } else {
      TouchDoes(Run(s, front), k, i, last.world, last.now);
    }
  }

  // ----- The whole crack

  lemma {:induction false} AllBelow(indices: set<nat>, n: nat)
    requires forall i: nat :: i < n ==> i in indices
    ensures |indices| >= n
  {
    if n > 0 {
      AllBelow(indices - {n - 1}, n - 1);
    }
  }

  lemma AllFlaggedCounted(s: Tool, id: int, n: nat)
    requires Consistent(s) && id in s.data && forall i: nat :: i < n ==> Flag(s.data[id], i)
    ensures s.data[id].repairedCount >= n
  {
    IndicesCardinality(s.log, id);
    forall i: nat | i < n ensures i in IndicesOf(s.log, id) {
      assert Logged(s.log, id, i);
    }
    AllBelow(IndicesOf(s.log, id), n);
  }

  lemma FullCountReached(d: RepairData, threshold: real)
    requires threshold <= 1.0 && d.repairedCount >= d.totalPoints
    ensures Reached(d, threshold)
  {
    PartOfTotal(threshold, d.totalPoints as real);
  }

  lemma PartOfTotal(threshold: real, n: real)
    requires threshold <= 1.0 && n >= 0.0
    ensures threshold * n <= n
  {
    assert (1.0 - threshold) * n >= 0.0;
  }

  /** What the options come to: zero stands for the default. */
  lemma DefaultOptions(radius: real, threshold: real)
    ensures NewTool(radius, threshold).repairRadius == (if radius == 0.0 then 5.0 else radius)
    ensures NewTool(radius, threshold).closureThreshold == (if threshold == 0.0 then 0.8 else threshold)
  {
  }

  /** On a scene just applied, a crack each of whose points comes within reach of some stroke is closed
      in the end, whatever else is stroked in between; and once 1200 ms have passed since the last
      stroke, a frame leaves nothing moving. */
  lemma StrokedCrackCloses(
    radius: real, threshold: real, cracks: seq<Crack>, events: seq<Event>, bound: real, k: nat, later: real)
    requires DistinctCracks(cracks) && k < |cracks| && |cracks[k].points| > 0
    requires radius > 0.0 && threshold <= 1.0 && StrokesAndFrames(events, bound)
    requires forall i :: 0 <= i < |cracks[k].points| ==> Touched(events, cracks[k].points[i], radius)
    ensures var s := Run(ApplyToScene(NewTool(radius, threshold), cracks), events);
      cracks[k].id in s.data && s.data[cracks[k].id].isClosed && cracks[k].id in s.closedCracks
    ensures later >= bound + 1200.0 ==>
      Run(ApplyToScene(NewTool(radius, threshold), cracks), events + [FrameAt(later)]).animating == []
  {
    hide Run, Settled, Done, Loaded, FreshData, DistinctCracks, StrokesAndFrames, BegunBy, Touched;
    var first := ApplyToScene(NewTool(radius, threshold), cracks);
    RunConsistent(radius, threshold, cracks, events);
    RunLoaded(radius, threshold, cracks, events);
    FirstReady(radius, threshold, cracks, bound);
    RunBegunBy(first, events, bound);
    forall i: nat | i < |cracks[k].points| ensures Done(Run(first, events), k, i) {
      TouchedDone(first, events, bound, cracks, k, i);
    }
    DoneCloses(Run(first, events), k);
    SurvivorsBegunBy(Run(first, events).animating, later, bound);
    OneMoreEvent(first, events, FrameAt(later));
  }

  lemma FirstReady(radius: real, threshold: real, cracks: seq<Crack>, bound: real)
    requires DistinctCracks(cracks) && radius > 0.0 && threshold <= 1.0
    ensures var first := ApplyToScene(NewTool(radius, threshold), cracks);
      Ready(first, cracks) && BegunBy(first.animating, bound)
      && first.repairRadius == radius && first.closureThreshold <= 1.0
  {
    InitialRecords(cracks);
  }

  lemma DoneCloses(s: Tool, k: nat)
    requires Consistent(s) && Loaded(s) && k < |s.crackData| && |s.crackData[k].points| > 0
    requires s.closureThreshold <= 1.0
    requires forall i: nat :: i < |s.crackData[k].points| ==> Done(s, k, i)
    ensures var id := s.crackData[k].id; id in s.data && s.data[id].isClosed && id in s.closedCracks
  {
    var id, n := s.crackData[k].id, |s.crackData[k].points|;
    hide Flag, Reached, LogMatchesFlags, Counted, AnimationsClosed, ClosuresListed;
    assert s.data[id].totalPoints == n;
    if !s.data[id].isClosed {
      forall i: nat | i < n ensures Flag(s.data[id], i) {
        assert Done(s, k, i);
      }
      AllFlaggedCounted(s, id, n);
      FullCountReached(s.data[id], s.closureThreshold);
    }
  }

  lemma OneMoreEvent(s: Tool, events: seq<Event>, e: Event)
    ensures Run(s, events + [e]) == Handle(Run(s, events), e)
  {
    assert (events + [e])[..|events|] == events;
  }

  /** A reset at any time gives back a scene with nothing repaired, closed, moving or logged. */
  lemma ResetStartsOver(radius: real, threshold: real, cracks: seq<Crack>, events: seq<Event>)
    requires DistinctCracks(cracks)
    ensures var s := Run(ApplyToScene(NewTool(radius, threshold), cracks), events + [ResetAll]);
      && s.log == [] && s.closedCracks == {} && s.animating == [] && s.closures == [] && s.frames == []
      && s.repairedCrackPoints == 0 && s.totalCrackPoints == PointCount(cracks)
      && RecordsFor(s.data, cracks) && FreshData(s.data)
  {
    hide Run, RecordsFor, FreshData, DistinctCracks, InitialData;
    OneMoreEvent(ApplyToScene(NewTool(radius, threshold), cracks), events, ResetAll);
    RunLoaded(radius, threshold, cracks, events);
    InitialRecords(cracks);
    InitialDataFresh(cracks);
  }

  // ----- How many points there are

  function PointsOf(cracks: seq<Crack>): set<(nat, nat)> {
    set k: nat, i: nat | k < |cracks| && i < |cracks[k].points| :: (k, i)
  }

  lemma {:induction false} PairsWith(k: nat, n: nat)
    ensures |set i: nat | i < n :: (k, i)| == n
  {
    var pairs := set i: nat | i < n :: (k, i);
    if n == 0 {
      assert pairs == {};
    } else {
      PairsWith(k, n - 1);
      assert pairs == (set i: nat | i < n - 1 :: (k, i)) + {(k, n - 1)};
    }
  }

  /** The total is the number of points of all cracks. */
  lemma {:induction false} PointsCounted(cracks: seq<Crack>)
    ensures |PointsOf(cracks)| == PointCount(cracks)
  {
    if cracks == [] {
      assert PointsOf(cracks) == {};
    } else {
      var k := |cracks| - 1;
      var front, last := PointsOf(cracks[..k]), set i: nat | i < |cracks[k].points| :: (k, i);
      PointsCounted(cracks[..k]);
      PairsWith(k, |cracks[k].points|);
      assert PointsOf(cracks) == front + last;
      assert front !! last;
    }
  }
}
