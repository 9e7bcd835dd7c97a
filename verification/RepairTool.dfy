/** The virtual repair tool: repaired crack points, closed cracks, and closures being animated. */
module RepairTool {
  import opened Reals

  // Ids index a crack's record as in the original's Map; an absent crack list behaves as an empty
  // one.

  const CLOSURE_DURATION: real := 1200.0

  datatype Point = Point(x: real, y: real, z: real)

  datatype Crack = Crack(id: int, points: seq<Point>)

  datatype RepairData = RepairData(
    crack: Crack,
    repairedPoints: map<nat, bool>,
    totalPoints: nat,
    repairedCount: nat,
    isClosed: bool)

  datatype Repair = Repair(crackId: int, pointIndex: nat, position: Point, worldPosition: Point)

  datatype Animation = Animation(crackId: int, points: seq<Point>, startTime: real, progress: real)

  datatype Closure = Closure(crackId: int, startTime: real, startPoints: seq<Point>)

  datatype Frame = Frame(crackId: int, frame: int, timestamp: real, progress: real)

  /** The tool's fields. animating is an insertion-ordered Map with distinct crack ids. */
  datatype Tool = Tool(
    crackData: seq<Crack>,
    closureThreshold: real,
    repairRadius: real,
    data: map<int, RepairData>,
    closedCracks: set<int>,
    animating: seq<Animation>,
    closures: seq<Closure>,
    log: seq<Repair>,
    frames: seq<Frame>,
    totalCrackPoints: nat,
    repairedCrackPoints: nat)

  // ----- Operations

  /** distanceTo(point) <= radius * 0.1, squared. */
  predicate Near(world: Point, p: Point, radius: real) {
    && radius >= 0.0
    && Squared(world.x - p.x) + Squared(world.y - p.y) + Squared(world.z - p.z) <= Squared(radius * 0.1)
  }

  predicate Flag(d: RepairData, i: nat) {
    i in d.repairedPoints && d.repairedPoints[i]
  }

  function RepairPoint(s: Tool, crack: Crack, i: nat, world: Point): Tool
    requires i < |crack.points|
  {
    if crack.id !in s.data || Flag(s.data[crack.id], i) || !Near(world, crack.points[i], s.repairRadius) then s
    else
      var d := s.data[crack.id];
      s.(data := s.data[crack.id := d.(repairedPoints := d.repairedPoints[i := true],
                                       repairedCount := d.repairedCount + 1)],
         log := s.log + [Repair(crack.id, i, crack.points[i], world)],
         repairedCrackPoints := s.repairedCrackPoints + 1)
  }

  function RepairPoints(s: Tool, crack: Crack, m: nat, world: Point): Tool
    requires m <= |crack.points|
  {
    if m == 0 then s else RepairPoint(RepairPoints(s, crack, m - 1, world), crack, m - 1, world)
  }

  predicate IsAnimating(s: Tool, id: int) {
    HasEntry(s.animating, id)
  }

  predicate HasEntry(animating: seq<Animation>, id: int) {
    exists k :: 0 <= k < |animating| && animating[k].crackId == id
  }

  /** The crack has an animation that has not yet run for its whole duration. */
  predicate HasYoungEntry(animating: seq<Animation>, now: real, id: int) {
    exists k :: 0 <= k < |animating| && animating[k].crackId == id
                && now - animating[k].startTime < CLOSURE_DURATION
  }

  /** animateCrackClosure. A crack with fewer than two points has nothing to animate. */
  function AnimateClosure(s: Tool, id: int, now: real): Tool {
    if id !in s.data || s.data[id].isClosed || IsAnimating(s, id) then s
    else
      var points := s.data[id].crack.points;
      var marked := s.(data := s.data[id := s.data[id].(isClosed := true)],
                       closedCracks := s.closedCracks + {id});
      if |points| < 2 then marked
      else marked.(animating := s.animating + [Animation(id, points, now, 0.0)],
                   closures := s.closures + [Closure(id, now, points)])
  }

  /** Division by a zero total gives Infinity, which reaches every threshold. */
  predicate Reached(d: RepairData, threshold: real) {
    d.repairedCount as real >= threshold * (d.totalPoints as real)
  }

  function RepairCrack(s: Tool, crack: Crack, world: Point, now: real): Tool {
    if crack.id !in s.data || s.data[crack.id].isClosed then s
    else
      var after := RepairPoints(s, crack, |crack.points|, world);
      if |after.log| > |s.log| && crack.id in after.data && Reached(after.data[crack.id], s.closureThreshold)
      then AnimateClosure(after, crack.id, now)
      else after
  }

  function RepairCracks(s: Tool, m: nat, world: Point, now: real): Tool
    requires m <= |s.crackData|
  {
    if m == 0 then s else RepairCrack(RepairCracks(s, m - 1, world, now), s.crackData[m - 1], world, now)
  }

  /** One brush stroke at a world point. */
  function Stroke(s: Tool, world: Point, now: real): Tool {
    RepairCracks(s, |s.crackData|, world, now)
  }

  function Progress(a: Animation, now: real): real {
    var t := (now - a.startTime) / CLOSURE_DURATION;
    if t < 1.0 then t else 1.0
  }

  function FrameOf(a: Animation, now: real): Frame {
    Frame(a.crackId, (Progress(a, now) * 60.0).Floor, now, Progress(a, now))
  }

  function Recorded(animating: seq<Animation>, now: real): seq<Frame> {
    seq(|animating|, k requires 0 <= k < |animating| => FrameOf(animating[k], now))
  }

  function Surviving(animating: seq<Animation>, now: real): (r: seq<Animation>)
    ensures forall k :: 0 <= k < |r| ==> exists j :: 0 <= j < |animating| && animating[j].crackId == r[k].crackId
  {
    if animating == [] then []
    else
      var last := animating[|animating| - 1];
      var t := Progress(last, now);
      Surviving(animating[..|animating| - 1], now) + if t >= 1.0 then [] else [last.(progress := t)]
  }

  /** One animation frame. */
  function FrameStep(s: Tool, now: real): Tool {
    s.(animating := Surviving(s.animating, now), frames := s.frames + Recorded(s.animating, now))
  }

  function Untouched(n: nat): map<nat, bool> {
    if n == 0 then map[] else Untouched(n - 1)[n - 1 := false]
  }

  function InitialData(cracks: seq<Crack>): map<int, RepairData> {
    if cracks == [] then map[]
    else
      var c := cracks[|cracks| - 1];
      InitialData(cracks[..|cracks| - 1])[c.id := RecordOf(c)]
  }

  function PointCount(cracks: seq<Crack>): nat {
    if cracks == [] then 0 else PointCount(cracks[..|cracks| - 1]) + |cracks[|cracks| - 1].points|
  }

  /** _initCrackRepairData leaves the closed set, the animations and the logs alone. */
  function InitRepairData(s: Tool): Tool {
    s.(data := InitialData(s.crackData), totalCrackPoints := PointCount(s.crackData), repairedCrackPoints := 0)
  }

  function Reset(s: Tool): Tool {
    InitRepairData(s.(log := [], closures := [], frames := [], closedCracks := {}, animating := []))
  }

  function ApplyToScene(s: Tool, cracks: seq<Crack>): Tool {
    InitRepairData(s.(crackData := cracks))
  }

  function SetRepairRadius(s: Tool, radius: real): Tool {
    var capped := if radius < 50.0 then radius else 50.0;
    s.(repairRadius := if capped > 0.5 then capped else 0.5)
  }

  /** A new tool; a zero option falls back to the default. */
  function NewTool(radius: real, threshold: real): Tool {
    Tool([], if threshold == 0.0 then 0.8 else threshold, if radius == 0.0 then 5.0 else radius,
         map[], {}, [], [], [], [], 0, 0)
  }

  // ----- The invariant

  /** The log lists exactly the flagged points, once each. */
  ghost predicate LogMatchesFlags(data: map<int, RepairData>, log: seq<Repair>) {
    && (forall k :: 0 <= k < |log| ==> log[k].crackId in data && Flag(data[log[k].crackId], log[k].pointIndex))
    && (forall id, i: nat :: id in data && Flag(data[id], i) ==> Logged(log, id, i))
    && (forall j, k :: 0 <= j < k < |log| ==>
          log[j].crackId != log[k].crackId || log[j].pointIndex != log[k].pointIndex)
  }

  ghost predicate Logged(log: seq<Repair>, id: int, i: nat) {
    exists k :: 0 <= k < |log| && log[k].crackId == id && log[k].pointIndex == i
  }

  function LogCount(log: seq<Repair>, id: int): nat {
    if log == [] then 0
    else LogCount(log[..|log| - 1], id) + if log[|log| - 1].crackId == id then 1 else 0
  }

  ghost predicate Counted(s: Tool) {
    && s.repairedCrackPoints == |s.log|
    && forall id :: id in s.data ==> s.data[id].repairedCount == LogCount(s.log, id)
  }

  /** Closed is exactly having reached the threshold, except for a crack still being processed. */
  ghost predicate ClosedWhenReached(s: Tool, exempt: set<int>) {
    forall id :: id in s.data && id !in exempt ==>
      (s.data[id].isClosed <==> s.data[id].repairedCount > 0 && Reached(s.data[id], s.closureThreshold))
  }

  ghost predicate ClosedSetRight(s: Tool) {
    forall id :: id in s.closedCracks <==> id in s.data && s.data[id].isClosed
  }

  ghost predicate AnimationsClosed(s: Tool) {
    && (forall k :: 0 <= k < |s.animating| ==> s.animating[k].crackId in s.closedCracks)
    && (forall j, k :: 0 <= j < k < |s.animating| ==> s.animating[j].crackId != s.animating[k].crackId)
  }

  /** Each closed crack with a line to shrink is listed once among the closures. */
  ghost predicate ClosuresListed(s: Tool) {
    && (forall k :: 0 <= k < |s.closures| ==>
          s.closures[k].crackId in s.data && s.data[s.closures[k].crackId].isClosed
          && |s.data[s.closures[k].crackId].crack.points| >= 2)
    && (forall id :: id in s.data && s.data[id].isClosed && |s.data[id].crack.points| >= 2 ==>
          exists k :: 0 <= k < |s.closures| && s.closures[k].crackId == id)
    && (forall j, k :: 0 <= j < k < |s.closures| ==> s.closures[j].crackId != s.closures[k].crackId)
  }

  ghost predicate Settled(s: Tool, exempt: set<int>) {
    && LogMatchesFlags(s.data, s.log) && Counted(s) && ClosedWhenReached(s, exempt)
    && ClosedSetRight(s) && AnimationsClosed(s) && ClosuresListed(s)
  }

  ghost predicate Consistent(s: Tool) {
    Settled(s, {})
  }

  // ----- Every operation keeps it

  lemma LogCountSnoc(log: seq<Repair>, e: Repair, id: int)
    ensures LogCount(log + [e], id) == LogCount(log, id) + if e.crackId == id then 1 else 0
  {
    assert (log + [e])[..|log|] == log;
  }

  lemma NewFlagLogged(data: map<int, RepairData>, log: seq<Repair>, id: int, d: RepairData, e: Repair)
    requires LogMatchesFlags(data, log) && id in data && !Flag(data[id], e.pointIndex) && e.crackId == id
    requires d.repairedPoints == data[id].repairedPoints[e.pointIndex := true]
    ensures LogMatchesFlags(data[id := d], log + [e])
  {
    var data', log' := data[id := d], log + [e];
    forall k, i: nat | k in data' && Flag(data'[k], i) ensures Logged(log', k, i) {
      if k == id && i == e.pointIndex {
        assert log'[|log|] == e;
      } else {
        assert Flag(data[k], i);
        assert Logged(log, k, i);
        var j :| 0 <= j < |log| && log[j].crackId == k && log[j].pointIndex == i;
        assert log'[j] == log[j];
      }
    }
  }

  lemma RepairPointSettled(s: Tool, crack: Crack, i: nat, world: Point)
    requires i < |crack.points| && crack.id in s.data && !s.data[crack.id].isClosed
    requires Settled(s, {crack.id})
    ensures var after := RepairPoint(s, crack, i, world);
            && Settled(after, {crack.id})
            && crack.id in after.data && !after.data[crack.id].isClosed
            && after.data[crack.id].totalPoints == s.data[crack.id].totalPoints
            && after.data[crack.id].crack == s.data[crack.id].crack
            && |after.log| - |s.log| == after.data[crack.id].repairedCount - s.data[crack.id].repairedCount
            && |after.log| >= |s.log|
            && after.closureThreshold == s.closureThreshold && after.crackData == s.crackData
            && after.animating == s.animating && after.repairRadius == s.repairRadius
  {
    var after := RepairPoint(s, crack, i, world);
    if after != s {
      var e := Repair(crack.id, i, crack.points[i], world);
      NewFlagLogged(s.data, s.log, crack.id, after.data[crack.id], e);
      forall id | id in after.data ensures after.data[id].repairedCount == LogCount(after.log, id) {
        LogCountSnoc(s.log, e, id);
      }
      hide Near, Flag, Reached;
    }
  }

  lemma {:induction false} RepairPointsSettled(s: Tool, crack: Crack, m: nat, world: Point)
    requires m <= |crack.points| && crack.id in s.data && !s.data[crack.id].isClosed
    requires Settled(s, {crack.id})
    ensures var after := RepairPoints(s, crack, m, world);
            && Settled(after, {crack.id})
            && crack.id in after.data && !after.data[crack.id].isClosed
            && after.data[crack.id].totalPoints == s.data[crack.id].totalPoints
            && after.data[crack.id].crack == s.data[crack.id].crack
            && |after.log| - |s.log| == after.data[crack.id].repairedCount - s.data[crack.id].repairedCount
            && |after.log| >= |s.log|
            && after.closureThreshold == s.closureThreshold && after.crackData == s.crackData
            && after.animating == s.animating && after.repairRadius == s.repairRadius
  {
    hide Settled, RepairPoint;
    if m > 0 {
      RepairPointsSettled(s, crack, m - 1, world);
      RepairPointSettled(RepairPoints(s, crack, m - 1, world), crack, m - 1, world);
    }
  }

  lemma SameFlags(data: map<int, RepairData>, log: seq<Repair>, id: int, d: RepairData)
    requires LogMatchesFlags(data, log) && id in data && d.repairedPoints == data[id].repairedPoints
    ensures LogMatchesFlags(data[id := d], log)
  {
    forall k, i: nat | k in data[id := d] && Flag(data[id := d][k], i) ensures Logged(log, k, i) {
      assert Flag(data[k], i);
    }
  }

  lemma AnimateClosureSettled(s: Tool, id: int, now: real)
    requires Settled(s, {id}) && id in s.data && !s.data[id].isClosed
    requires s.data[id].repairedCount > 0 && Reached(s.data[id], s.closureThreshold)
    ensures Consistent(AnimateClosure(s, id, now))
    ensures var after := AnimateClosure(s, id, now);
            after.crackData == s.crackData && after.closureThreshold == s.closureThreshold
            && after.repairRadius == s.repairRadius
  {
    var after := AnimateClosure(s, id, now);
    assert !IsAnimating(s, id);
    SameFlags(s.data, s.log, id, after.data[id]);
    ClosureListed(s, id, now);
    ClosureAnimated(s, id, now);
    hide HasEntry, Flag, LogCount, LogMatchesFlags, ClosuresListed, ClosedSetRight, AnimationsClosed, IsAnimating;
  }

  lemma ClosureAnimated(s: Tool, id: int, now: real)
    requires ClosedSetRight(s) && AnimationsClosed(s) && id in s.data && !IsAnimating(s, id)
    ensures ClosedSetRight(AnimateClosure(s, id, now)) && AnimationsClosed(AnimateClosure(s, id, now))
  {
  }

  lemma ClosureListed(s: Tool, id: int, now: real)
    requires ClosuresListed(s) && id in s.data && !s.data[id].isClosed && !IsAnimating(s, id)
    ensures ClosuresListed(AnimateClosure(s, id, now))
  {
    hide IsAnimating;
    var after := AnimateClosure(s, id, now);
    if |s.data[id].crack.points| >= 2 {
      assert after.closures[|s.closures|].crackId == id;
      assert forall k :: 0 <= k < |s.closures| ==> after.closures[k] == s.closures[k];
    }
  }

  lemma RepairCrackConsistent(s: Tool, crack: Crack, world: Point, now: real)
    requires Consistent(s)
    ensures var after := RepairCrack(s, crack, world, now);
            Consistent(after) && after.crackData == s.crackData && after.closureThreshold == s.closureThreshold
            && after.repairRadius == s.repairRadius
  {
    hide RepairPoints, AnimateClosure, Settled;
    if crack.id in s.data && !s.data[crack.id].isClosed {
      WeakerExemption(s, crack.id);
      RepairPointsSettled(s, crack, |crack.points|, world);
      var after := RepairPoints(s, crack, |crack.points|, world);
      if |after.log| > |s.log| && Reached(after.data[crack.id], s.closureThreshold) {
        AnimateClosureSettled(after, crack.id, now);
      } else {
        NotReachedConsistent(s, after, crack.id);
      }
    }
  }

  lemma NotReachedConsistent(s: Tool, after: Tool, id: int)
    requires Consistent(s) && Settled(after, {id}) && after.closureThreshold == s.closureThreshold
    requires id in s.data && !s.data[id].isClosed && id in after.data && !after.data[id].isClosed
    requires after.data[id].totalPoints == s.data[id].totalPoints
    requires after.data[id].repairedCount == s.data[id].repairedCount || !Reached(after.data[id], s.closureThreshold)
    ensures Consistent(after)
  {
  }

  lemma WeakerExemption(s: Tool, id: int)
    requires Consistent(s)
    ensures Settled(s, {id})
  {
  }

  lemma {:induction false} RepairCracksConsistent(s: Tool, m: nat, world: Point, now: real)
    requires Consistent(s) && m <= |s.crackData|
    ensures var after := RepairCracks(s, m, world, now);
            Consistent(after) && after.crackData == s.crackData && after.closureThreshold == s.closureThreshold
            && after.repairRadius == s.repairRadius
  {
    hide Settled, RepairCrack;
    if m > 0 {
      RepairCracksConsistent(s, m - 1, world, now);
      RepairCrackConsistent(RepairCracks(s, m - 1, world, now), s.crackData[m - 1], world, now);
    }
  }

  predicate DistinctIds(animating: seq<Animation>) {
    forall j, k :: 0 <= j < k < |animating| ==> animating[j].crackId != animating[k].crackId
  }

  /** A frame keeps exactly the animations younger than the duration, under the same ids. */
  lemma {:induction false} SurvivingExactly(animating: seq<Animation>, now: real, id: int)
    ensures HasEntry(Surviving(animating, now), id) <==> HasYoungEntry(animating, now, id)
  {
    if animating != [] {
      var front, last := animating[..|animating| - 1], animating[|animating| - 1];
      SurvivingExactly(front, now, id);
      EntryAppended(front, last, now, id);
      EntryAppended(Surviving(front, now), last.(progress := Progress(last, now)), now, id);
      assert animating == front + [last];
      assert Surviving(front, now) + [] == Surviving(front, now);
      hide HasEntry, HasYoungEntry;
      assert Progress(last, now) >= 1.0 <==> now - last.startTime >= CLOSURE_DURATION;
    }
  }

  lemma EntryAppended(animating: seq<Animation>, a: Animation, now: real, id: int)
    ensures HasEntry(animating + [a], id) <==> HasEntry(animating, id) || a.crackId == id
    ensures HasYoungEntry(animating + [a], now, id)
            <==> HasYoungEntry(animating, now, id) || (a.crackId == id && now - a.startTime < CLOSURE_DURATION)
  {
    var all := animating + [a];
    assert all[|animating|] == a;
    assert forall k :: 0 <= k < |animating| ==> all[k] == animating[k];
  }

  lemma {:induction false} SurvivingDistinct(animating: seq<Animation>, now: real)
    requires DistinctIds(animating)
    ensures DistinctIds(Surviving(animating, now))
  {
    if animating != [] {
      SurvivingDistinct(animating[..|animating| - 1], now);
    }
  }

  lemma OneMoreEntry(entries: seq<Animation>, p: nat, now: real)
    requires p < |entries|
    ensures var t := Progress(entries[p], now);
            && Surviving(entries[..p + 1], now)
               == Surviving(entries[..p], now) + (if t >= 1.0 then [] else [entries[p].(progress := t)])
            && Recorded(entries[..p + 1], now)
               == Recorded(entries[..p], now) + [FrameOf(entries[p], now)]
  {
    assert entries[..p + 1][..p] == entries[..p];
  }

  /** The Map's entries when the walk has passed the first p of them. */
  function Walked(entries: seq<Animation>, p: nat, now: real): seq<Animation>
    requires p <= |entries|
  {
    Surviving(entries[..p], now) + entries[p..]
  }

  lemma WalkEntry(entries: seq<Animation>, p: nat, now: real)
    requires p < |entries|
    ensures var i, t := |Surviving(entries[..p], now)|, Progress(entries[p], now);
            var walked := Walked(entries, p, now);
            && i < |walked| && walked[i] == entries[p]
            && |Surviving(entries[..p + 1], now)| == (if t >= 1.0 then i else i + 1)
            && Walked(entries, p + 1, now)
               == if t >= 1.0 then walked[..i] + walked[i + 1..] else walked[i := entries[p].(progress := t)]
  {
    OneMoreEntry(entries, p, now);
    hide Surviving, Progress;
    var kept, t, walked := Surviving(entries[..p], now), Progress(entries[p], now), Walked(entries, p, now);
    var i := |kept|;
    if t >= 1.0 {
      assert walked[..i] == kept && walked[i + 1..] == entries[p + 1..];
    } else {
      assert walked[i := entries[p].(progress := t)] == kept + [entries[p].(progress := t)] + entries[p + 1..];
    }
  }

  lemma WalkEnds(entries: seq<Animation>, now: real)
    ensures Walked(entries, 0, now) == entries && |Surviving(entries[..0], now)| == 0
    ensures Recorded(entries[..0], now) == []
    ensures Walked(entries, |entries|, now) == Surviving(entries, now)
    ensures Recorded(entries[..|entries|], now) == Recorded(entries, now)
  {
    assert entries[..|entries|] == entries;
  }

  lemma WalkLength(entries: seq<Animation>, p: nat, now: real)
    requires p <= |entries|
    ensures |Walked(entries, p, now)| == |Surviving(entries[..p], now)| + |entries| - p
  {
  }

  /** After a frame a crack is animating exactly when its animation is younger than the duration. */
  lemma FrameKeepsYoung(s: Tool, now: real, id: int)
    ensures IsAnimating(FrameStep(s, now), id) <==> HasYoungEntry(s.animating, now, id)
  {
    SurvivingExactly(s.animating, now, id);
  }

  lemma {:induction false} SurvivingWithin(animating: seq<Animation>, now: real, ids: set<int>)
    requires forall k :: 0 <= k < |animating| ==> animating[k].crackId in ids
    ensures forall k :: 0 <= k < |Surviving(animating, now)| ==> Surviving(animating, now)[k].crackId in ids
  {
    if animating != [] { SurvivingWithin(animating[..|animating| - 1], now, ids); }
  }

  lemma FrameConsistent(s: Tool, now: real)
    requires Consistent(s)
    ensures Consistent(FrameStep(s, now))
  {
    SurvivingDistinct(s.animating, now);
    SurvivingWithin(s.animating, now, s.closedCracks);
    hide Surviving;
  }

  /** The crack records before any stroke. */
  ghost predicate FreshData(data: map<int, RepairData>) {
    forall id :: id in data ==>
      !data[id].isClosed && data[id].repairedCount == 0 && forall i: nat :: !Flag(data[id], i)
  }

  lemma {:induction false} UntouchedUnset(n: nat)
    ensures forall i: nat :: i in Untouched(n) <==> i < n
    ensures forall i: nat :: i in Untouched(n) ==> !Untouched(n)[i]
  {
    if n > 0 { UntouchedUnset(n - 1); }
  }

  function RecordOf(c: Crack): RepairData {
    RepairData(c, Untouched(|c.points|), |c.points|, 0, false)
  }

  lemma FreshRecord(c: Crack)
    ensures forall i: nat :: !Flag(RecordOf(c), i)
  {
    UntouchedUnset(|c.points|);
  }

  lemma {:induction false} InitialDataFresh(cracks: seq<Crack>)
    ensures FreshData(InitialData(cracks))
  {
    if cracks != [] {
      InitialDataFresh(cracks[..|cracks| - 1]);
      FreshRecord(cracks[|cracks| - 1]);
      hide Flag, Untouched;
    }
  }

  /** Resetting gives a consistent tool from any state at all. */
  lemma ResetConsistent(s: Tool)
    ensures Consistent(Reset(s))
  {
    InitialDataFresh(s.crackData);
  }

  /** Applying a consistent tool to a scene keeps it consistent exactly when nothing was repaired
      or closed before, because the log, the closed set and the animations are not cleared. */
  lemma ReapplyConsistentExactlyWhenUnused(s: Tool, cracks: seq<Crack>)
    requires Consistent(s)
    ensures Consistent(ApplyToScene(s, cracks)) <==> s.log == [] && s.closedCracks == {}
  {
    var after := ApplyToScene(s, cracks);
    InitialDataFresh(cracks);
    if s.log == [] && s.closedCracks == {} {
      NothingClosed(s);
    }
    if Consistent(after) {
      assert |s.log| == 0;
      assert forall id :: id !in s.closedCracks;
    }
  }

  lemma NothingClosed(s: Tool)
    requires Consistent(s)
    ensures s.closures != [] || s.animating != [] ==> s.closedCracks != {}
  {
    if s.closures != [] { assert s.closures[0].crackId in s.closedCracks; }
    if s.animating != [] { assert s.animating[0].crackId in s.closedCracks; }
  }

  // ----- Whole runs

  datatype Event = StrokeAt(world: Point, now: real) | FrameAt(now: real) | ResetAll | Radius(radius: real)

  function Handle(s: Tool, e: Event): Tool {
    match e
    case StrokeAt(world, now) => Stroke(s, world, now)
    case FrameAt(now) => FrameStep(s, now)
    case ResetAll => Reset(s)
    case Radius(radius) => SetRepairRadius(s, radius)
  }

  function Run(s: Tool, events: seq<Event>): Tool {
    if events == [] then s else Handle(Run(s, events[..|events| - 1]), events[|events| - 1])
  }

  /** Over any run of strokes, frames, resets and brush changes the tool's books agree. */
  lemma {:induction false} RunConsistent(radius: real, threshold: real, cracks: seq<Crack>, events: seq<Event>)
    ensures Consistent(Run(ApplyToScene(NewTool(radius, threshold), cracks), events))
  {
    if events == [] {
      ReapplyConsistentExactlyWhenUnused(NewTool(radius, threshold), cracks);
    } else {
      RunConsistent(radius, threshold, cracks, events[..|events| - 1]);
      var s := Run(ApplyToScene(NewTool(radius, threshold), cracks), events[..|events| - 1]);
      match events[|events| - 1]
      case StrokeAt(world, now) => RepairCracksConsistent(s, |s.crackData|, world, now);
      case FrameAt(now) => FrameConsistent(s, now);
      case ResetAll => ResetConsistent(s);
      case Radius(_) =>
    }
  }

  // ----- What a consistent tool reports

  function SumCounts(data: map<int, RepairData>, ids: seq<int>): nat
    requires forall k :: 0 <= k < |ids| ==> ids[k] in data
  {
    if ids == [] then 0
    else SumCounts(data, ids[..|ids| - 1]) + data[ids[|ids| - 1]].repairedCount
  }

  ghost predicate ListsKeys(ids: seq<int>, data: map<int, RepairData>) {
    && (forall k :: 0 <= k < |ids| ==> ids[k] in data)
    && (forall id :: id in data ==> id in ids)
    && (forall j, k :: 0 <= j < k < |ids| ==> ids[j] != ids[k])
  }

  function LogSum(log: seq<Repair>, ids: seq<int>): nat {
    if ids == [] then 0 else LogSum(log, ids[..|ids| - 1]) + LogCount(log, ids[|ids| - 1])
  }

  lemma {:induction false} LogSumSnoc(log: seq<Repair>, e: Repair, ids: seq<int>)
    requires forall j, k :: 0 <= j < k < |ids| ==> ids[j] != ids[k]
    ensures LogSum(log + [e], ids) == LogSum(log, ids) + if e.crackId in ids then 1 else 0
  {
    if ids != [] {
      var front, last := ids[..|ids| - 1], ids[|ids| - 1];
      LogSumSnoc(log, e, front);
      LogCountSnoc(log, e, last);
      assert e.crackId in ids <==> e.crackId in front || e.crackId == last;
    }
  }

  lemma {:induction false} LogSumIsLength(log: seq<Repair>, ids: seq<int>)
    requires forall j, k :: 0 <= j < k < |ids| ==> ids[j] != ids[k]
    requires forall k :: 0 <= k < |log| ==> log[k].crackId in ids
    ensures LogSum(log, ids) == |log|
  {
    if log == [] {
      EmptyLogSum(ids);
    } else {
      LogSumIsLength(log[..|log| - 1], ids);
      LogSumSnoc(log[..|log| - 1], log[|log| - 1], ids);
      assert log == log[..|log| - 1] + [log[|log| - 1]];
    }
  }

  lemma {:induction false} EmptyLogSum(ids: seq<int>)
    ensures LogSum([], ids) == 0
  {
    if ids != [] { EmptyLogSum(ids[..|ids| - 1]); }
  }

  lemma {:induction false} SumCountsIsLogSum(s: Tool, ids: seq<int>)
    requires Counted(s) && forall k :: 0 <= k < |ids| ==> ids[k] in s.data
    ensures SumCounts(s.data, ids) == LogSum(s.log, ids)
  {
    if ids != [] { SumCountsIsLogSum(s, ids[..|ids| - 1]); }
  }

  /** The distinct (crack, point) pairs in a log. */
  function LoggedPairs(log: seq<Repair>): set<(int, nat)> {
    set k | 0 <= k < |log| :: (log[k].crackId, log[k].pointIndex)
  }

  lemma {:induction false} PairsCardinality(log: seq<Repair>)
    requires forall j, k :: 0 <= j < k < |log| ==>
               log[j].crackId != log[k].crackId || log[j].pointIndex != log[k].pointIndex
    ensures |LoggedPairs(log)| == |log|
  {
    if log != [] {
      var front, e := log[..|log| - 1], log[|log| - 1];
      PairsCardinality(front);
      assert LoggedPairs(log) == LoggedPairs(front) + {(e.crackId, e.pointIndex)} by {
        assert forall k :: 0 <= k < |front| ==> front[k] == log[k];
      }
      assert (e.crackId, e.pointIndex) !in LoggedPairs(front);
    }
  }

  /** The global counter, the sum of the per-crack counts, the length of the log and the number of
      flagged points are one number. */
  lemma CountersAgree(s: Tool, ids: seq<int>)
    requires Consistent(s) && ListsKeys(ids, s.data)
    ensures s.repairedCrackPoints == |s.log| == SumCounts(s.data, ids)
    ensures |LoggedPairs(s.log)| == |s.log|
    ensures forall id, i: nat :: (id, i) in LoggedPairs(s.log) <==> id in s.data && Flag(s.data[id], i)
  {
    PairsCardinality(s.log);
    SumCountsIsLogSum(s, ids);
    LogSumIsLength(s.log, ids);
    forall id, i: nat | id in s.data && Flag(s.data[id], i) ensures (id, i) in LoggedPairs(s.log) {
      assert Logged(s.log, id, i);
    }
  }

  // ----- Which points a stroke repairs

  ghost predicate DistinctCracks(cracks: seq<Crack>) {
    forall j, k :: 0 <= j < k < |cracks| ==> cracks[j].id != cracks[k].id
  }

  lemma {:induction false} RepairPointsFlags(s: Tool, crack: Crack, m: nat, world: Point)
    requires m <= |crack.points| && crack.id in s.data
    ensures var after := RepairPoints(s, crack, m, world);
            && crack.id in after.data && after.data == s.data[crack.id := after.data[crack.id]]
            && after.repairRadius == s.repairRadius && after.crackData == s.crackData
            && after.data[crack.id].isClosed == s.data[crack.id].isClosed
            && forall i: nat :: Flag(after.data[crack.id], i) <==>
                 Flag(s.data[crack.id], i) || (i < m && Near(world, crack.points[i], s.repairRadius))
  {
    hide Near;
    if m > 0 { RepairPointsFlags(s, crack, m - 1, world); }
  }

  /** The flags a crack record should have after a stroke. */
  ghost predicate FlagsAfter(before: RepairData, after: RepairData, crack: Crack, world: Point, radius: real) {
    forall i: nat :: Flag(after, i) <==>
      Flag(before, i) || (!before.isClosed && i < |crack.points| && Near(world, crack.points[i], radius))
  }

  lemma RepairCrackFlags(s: Tool, crack: Crack, world: Point, now: real)
    ensures var after := RepairCrack(s, crack, world, now);
            && after.data.Keys == s.data.Keys
            && after.repairRadius == s.repairRadius && after.crackData == s.crackData
            && (forall id :: id in s.data && id != crack.id ==> after.data[id] == s.data[id])
            && (crack.id in s.data ==>
                  FlagsAfter(s.data[crack.id], after.data[crack.id], crack, world, s.repairRadius))
  {
    hide Near, RepairPoints;
    if crack.id in s.data && !s.data[crack.id].isClosed {
      RepairPointsFlags(s, crack, |crack.points|, world);
    }
  }

  lemma {:induction false} RepairCracksFlags(s: Tool, m: nat, world: Point, now: real)
    requires m <= |s.crackData| && DistinctCracks(s.crackData)
    ensures var after := RepairCracks(s, m, world, now);
            && after.data.Keys == s.data.Keys
            && after.repairRadius == s.repairRadius && after.crackData == s.crackData
            && (forall k :: 0 <= k < |s.crackData| && s.crackData[k].id in s.data ==>
                  var id := s.crackData[k].id;
                  if k < m then FlagsAfter(s.data[id], after.data[id], s.crackData[k], world, s.repairRadius)
                  else after.data[id] == s.data[id])
  {
    hide FlagsAfter, RepairCrack;
    if m > 0 {
      RepairCracksFlags(s, m - 1, world, now);
      RepairCrackFlags(RepairCracks(s, m - 1, world, now), s.crackData[m - 1], world, now);
    }
  }

  /** With distinct ids a stroke flags exactly the points within reach of cracks that were open,
      whatever order the cracks come in. */
  lemma StrokeRepairsExactly(s: Tool, world: Point, now: real, k: nat, i: nat)
    requires DistinctCracks(s.crackData) && k < |s.crackData| && s.crackData[k].id in s.data
    ensures var crack := s.crackData[k];
            var after := Stroke(s, world, now);
            crack.id in after.data
            && (Flag(after.data[crack.id], i) <==>
                 Flag(s.data[crack.id], i)
                 || (!s.data[crack.id].isClosed && i < |crack.points| && Near(world, crack.points[i], s.repairRadius)))
  {
    RepairCracksFlags(s, |s.crackData|, world, now);
  }

  // ----- A stale animation

  lemma {:induction false} RepairPointsAnimations(s: Tool, crack: Crack, m: nat, world: Point)
    requires m <= |crack.points|
    ensures RepairPoints(s, crack, m, world).animating == s.animating
    ensures RepairPoints(s, crack, m, world).data.Keys == s.data.Keys
    ensures forall id :: id in s.data ==> RepairPoints(s, crack, m, world).data[id].isClosed == s.data[id].isClosed
  {
    if m > 0 { RepairPointsAnimations(s, crack, m - 1, world); }
  }

  /** An animation left over from before a scene was applied again keeps its crack open: no stroke
      closes it, even one that repairs the last point. */
  lemma {:induction false} StaleAnimationBlocksClosing(s: Tool, m: nat, world: Point, now: real, id: int)
    requires m <= |s.crackData| && id in s.data && !s.data[id].isClosed && IsAnimating(s, id)
    ensures var after := RepairCracks(s, m, world, now);
            id in after.data && !after.data[id].isClosed && IsAnimating(after, id)
            && after.crackData == s.crackData
  {
    if m > 0 {
      StaleAnimationBlocksClosing(s, m - 1, world, now, id);
      StaleOneCrack(RepairCracks(s, m - 1, world, now), s.crackData[m - 1], world, now, id);
    }
  }

  lemma StaleOneCrack(s: Tool, crack: Crack, world: Point, now: real, id: int)
    requires id in s.data && !s.data[id].isClosed && IsAnimating(s, id)
    ensures var after := RepairCrack(s, crack, world, now);
            id in after.data && !after.data[id].isClosed && IsAnimating(after, id)
            && after.crackData == s.crackData
  {
    hide RepairPoints;
    RepairPointsAnimations(s, crack, |crack.points|, world);
    if crack.id in s.data {
      RepairPointsFlags(s, crack, |crack.points|, world);
    }
    var k :| 0 <= k < |s.animating| && s.animating[k].crackId == id;
    assert RepairCrack(s, crack, world, now).animating[k] == s.animating[k];
  }

  lemma {:induction false} RepairPointsGrowth(s: Tool, crack: Crack, m: nat, world: Point)
    requires m <= |crack.points| && crack.id in s.data
    ensures var after := RepairPoints(s, crack, m, world);
      && crack.id in after.data && after.closureThreshold == s.closureThreshold
      && after.data[crack.id].totalPoints == s.data[crack.id].totalPoints
      && after.data[crack.id].crack == s.data[crack.id].crack
      && |after.log| - |s.log| == after.data[crack.id].repairedCount - s.data[crack.id].repairedCount
  {
    hide Near;
    if m > 0 { RepairPointsGrowth(s, crack, m - 1, world); }
  }

  /** What closes a crack on its turn: new repairs that reach the threshold, and no animation. */
  ghost predicate ClosesNow(before: RepairData, after: RepairData, threshold: real, animating: bool) {
    after.isClosed <==> after.repairedCount > before.repairedCount && Reached(after, threshold) && !animating
  }

  lemma OwnTurnCloses(s: Tool, crack: Crack, world: Point, now: real)
    requires crack.id in s.data && !s.data[crack.id].isClosed
    ensures var after := RepairCrack(s, crack, world, now);
      crack.id in after.data
      && ClosesNow(s.data[crack.id], after.data[crack.id], s.closureThreshold, IsAnimating(s, crack.id))
  {
    hide RepairPoints;
    RepairPointsGrowth(s, crack, |crack.points|, world);
    RepairPointsFlags(s, crack, |crack.points|, world);
    RepairPointsAnimations(s, crack, |crack.points|, world);
  }

  lemma OtherTurnLeaves(s: Tool, crack: Crack, world: Point, now: real, id: int)
    requires id != crack.id
    ensures var after := RepairCrack(s, crack, world, now);
      && after.closureThreshold == s.closureThreshold
      && (IsAnimating(after, id) <==> IsAnimating(s, id))
  {
    RepairPointsKeeps(s, crack, |crack.points|, world);
    hide RepairPoints, Reached;
    if crack.id in s.data && !s.data[crack.id].isClosed {
      AnimationAppended(RepairPoints(s, crack, |crack.points|, world), crack.id, now, id);
    }
  }

  lemma {:induction false} RepairPointsKeeps(s: Tool, crack: Crack, m: nat, world: Point)
    requires m <= |crack.points|
    ensures RepairPoints(s, crack, m, world).animating == s.animating
    ensures RepairPoints(s, crack, m, world).closureThreshold == s.closureThreshold
  {
    if m > 0 { RepairPointsKeeps(s, crack, m - 1, world); }
  }

  lemma AnimationAppended(s: Tool, closing: int, now: real, id: int)
    requires id != closing
    ensures IsAnimating(AnimateClosure(s, closing, now), id) <==> IsAnimating(s, id)
    ensures AnimateClosure(s, closing, now).closureThreshold == s.closureThreshold
  {
    var after := AnimateClosure(s, closing, now);
    assert forall k :: 0 <= k < |s.animating| ==> after.animating[k] == s.animating[k];
  }

  lemma {:induction false} TurnsBefore(s: Tool, m: nat, world: Point, now: real, id: int)
    requires m <= |s.crackData| && forall k :: 0 <= k < m ==> s.crackData[k].id != id
    ensures var after := RepairCracks(s, m, world, now);
      && after.closureThreshold == s.closureThreshold && after.crackData == s.crackData
      && (IsAnimating(after, id) <==> IsAnimating(s, id))
      && (id in s.data ==> id in after.data && after.data[id] == s.data[id])
  {
    hide RepairCrack, IsAnimating;
    if m > 0 {
      TurnsBefore(s, m - 1, world, now, id);
      var before := RepairCracks(s, m - 1, world, now);
      OtherTurnLeaves(before, s.crackData[m - 1], world, now, id);
      RepairCrackFlags(before, s.crackData[m - 1], world, now);
    }
  }

  lemma {:induction false} TurnsAfter(s: Tool, m: nat, k: nat, world: Point, now: real)
    requires DistinctCracks(s.crackData) && k < m <= |s.crackData| && s.crackData[k].id in s.data
    ensures var id := s.crackData[k].id;
      id in RepairCracks(s, m, world, now).data && id in RepairCracks(s, k + 1, world, now).data
      && RepairCracks(s, m, world, now).data[id] == RepairCracks(s, k + 1, world, now).data[id]
  {
    hide RepairCrack, FlagsAfter;
    RepairCracksFlags(s, k + 1, world, now);
    if m > k + 1 {
      TurnsAfter(s, m - 1, k, world, now);
      RepairCracksFlags(s, m - 1, world, now);
      RepairCrackFlags(RepairCracks(s, m - 1, world, now), s.crackData[m - 1], world, now);
    }
  }

  /** With distinct ids a stroke closes an open crack exactly when it repairs some of its points, its
      ratio then reaches the threshold, and no animation of it is still running. */
  lemma StrokeClosesExactly(s: Tool, world: Point, now: real, k: nat)
    requires DistinctCracks(s.crackData) && k < |s.crackData| && s.crackData[k].id in s.data
    requires !s.data[s.crackData[k].id].isClosed
    ensures var id := s.crackData[k].id;
      id in Stroke(s, world, now).data
      && ClosesNow(s.data[id], Stroke(s, world, now).data[id], s.closureThreshold, IsAnimating(s, id))
  {
    hide RepairCrack, ClosesNow, IsAnimating;
    var id := s.crackData[k].id;
    TurnsBefore(s, k, world, now, id);
    OwnTurnCloses(RepairCracks(s, k, world, now), s.crackData[k], world, now);
    TurnsAfter(s, |s.crackData|, k, world, now);
  }

  /** Crack k is open although every one of its points has been repaired. */
  ghost predicate StuckOpen(s: Tool, k: nat) {
    && DistinctCracks(s.crackData) && k < |s.crackData|
    && var crack := s.crackData[k];
       crack.id in s.data && !s.data[crack.id].isClosed
       && forall i: nat :: i < |crack.points| ==> Flag(s.data[crack.id], i)
  }

  lemma {:induction false} NothingToRepair(s: Tool, crack: Crack, m: nat, world: Point)
    requires m <= |crack.points| && crack.id in s.data
    requires forall i: nat :: i < m ==> Flag(s.data[crack.id], i)
    ensures RepairPoints(s, crack, m, world) == s
  {
    if m > 0 { NothingToRepair(s, crack, m - 1, world); }
  }

  lemma StuckThroughStroke(s: Tool, k: nat, world: Point, now: real)
    requires StuckOpen(s, k)
    ensures StuckOpen(Stroke(s, world, now), k)
  {
    hide RepairCrack, Flag;
    var crack := s.crackData[k];
    TurnsBefore(s, k, world, now, crack.id);
    var before := RepairCracks(s, k, world, now);
    IdleTurn(before, crack, world, now);
    TurnsAfter(s, |s.crackData|, k, world, now);
    RepairCracksFlags(s, |s.crackData|, world, now);
  }

  lemma IdleTurn(s: Tool, crack: Crack, world: Point, now: real)
    requires crack.id in s.data && forall i: nat :: i < |crack.points| ==> Flag(s.data[crack.id], i)
    ensures RepairCrack(s, crack, world, now) == s
  {
    NothingToRepair(s, crack, |crack.points|, world);
  }

  /** A crack that is stuck open stays so through any run without a reset. */
  lemma {:induction false} StuckForGood(s: Tool, k: nat, events: seq<Event>)
    requires StuckOpen(s, k) && ResetAll !in events
    ensures StuckOpen(Run(s, events), k)
  {
    if events != [] {
      var front, last := events[..|events| - 1], events[|events| - 1];
      assert last in events;
      StuckForGood(s, k, front);
      hide Stroke, Flag;
      match last
      case StrokeAt(world, now) => StuckThroughStroke(Run(s, front), k, world, now);
      case FrameAt(_) =>
      case Radius(_) =>
      case ResetAll =>
    }
  }

  lemma {:induction false} AllRepaired(s: Tool, crack: Crack, m: nat, world: Point)
    requires m <= |crack.points| && crack.id in s.data
    requires forall i: nat :: i < |crack.points| ==> Near(world, crack.points[i], s.repairRadius)
    requires forall i: nat :: !Flag(s.data[crack.id], i)
    ensures var after := RepairPoints(s, crack, m, world);
      && crack.id in after.data && after.repairRadius == s.repairRadius
      && after.data[crack.id].repairedCount == s.data[crack.id].repairedCount + m
      && !after.data[crack.id].isClosed == !s.data[crack.id].isClosed
      && forall i: nat :: i < m <==> Flag(after.data[crack.id], i)
  {
    RepairPointsFlags(s, crack, m, world);
    if m > 0 {
      AllRepaired(s, crack, m - 1, world);
      var before := RepairPoints(s, crack, m - 1, world);
      assert !Flag(before.data[crack.id], m - 1);
      assert Near(world, crack.points[m - 1], before.repairRadius);
      hide Near, Flag;
    }
  }

  /** One stroke over a whole crack of a scene freshly applied to the tool. */
  lemma FreshStroke(s: Tool, crack: Crack, world: Point, now: real)
    requires s.crackData == [crack] && s.data == InitialData([crack]) && |crack.points| >= 2
    requires 0.0 < s.closureThreshold <= 1.0
    requires forall i: nat :: i < |crack.points| ==> Near(world, crack.points[i], s.repairRadius)
    ensures var after := Stroke(s, world, now);
      && after.crackData == s.crackData && after.closureThreshold == s.closureThreshold
      && after.repairRadius == s.repairRadius && crack.id in after.data && IsAnimating(after, crack.id)
      && (forall i: nat :: i < |crack.points| ==> Flag(after.data[crack.id], i))
      && (after.data[crack.id].isClosed <==> !IsAnimating(s, crack.id))
  {
    OneCrackStroke(s, crack, world, now);
    FreshTurn(s, crack, world, now);
    hide RepairCrack, Flag, Near;
  }

  lemma OneCrackStroke(s: Tool, crack: Crack, world: Point, now: real)
    requires s.crackData == [crack] && s.data == InitialData([crack])
    ensures Stroke(s, world, now) == RepairCrack(s, crack, world, now)
    ensures crack.id in s.data && s.data[crack.id] == RecordOf(crack)
  {
    hide RepairCrack;
    assert InitialData([]) == map[] && [crack][..0] == [];
    assert RepairCracks(s, 0, world, now) == s;
  }

  lemma FreshTurn(s: Tool, crack: Crack, world: Point, now: real)
    requires crack.id in s.data && s.data[crack.id] == RecordOf(crack) && |crack.points| >= 2
    requires 0.0 < s.closureThreshold <= 1.0
    requires forall i: nat :: i < |crack.points| ==> Near(world, crack.points[i], s.repairRadius)
    ensures var after := RepairCrack(s, crack, world, now);
      && after.crackData == s.crackData && after.closureThreshold == s.closureThreshold
      && after.repairRadius == s.repairRadius && crack.id in after.data && IsAnimating(after, crack.id)
      && (forall i: nat :: i < |crack.points| ==> Flag(after.data[crack.id], i))
      && (after.data[crack.id].isClosed <==> !IsAnimating(s, crack.id))
  {
    hide *;
    FreshPoints(s, crack, world, now);
    var after := RepairPoints(s, crack, |crack.points|, world);
    AnimatedAfter(after, crack.id, now);
    SameAnimations(s, after, crack.id);
    FlagsOf(after.data[crack.id], AnimateClosure(after, crack.id, now).data[crack.id]);
  }

  lemma FlagsOf(d: RepairData, d': RepairData)
    ensures d.repairedPoints == d'.repairedPoints ==> forall i: nat :: Flag(d, i) <==> Flag(d', i)
  {
  }

  /** The turn of a fresh crack that lies wholly within reach: every point is repaired, and the
      closing is attempted. */
  lemma FreshPoints(s: Tool, crack: Crack, world: Point, now: real)
    requires crack.id in s.data && s.data[crack.id] == RecordOf(crack) && |crack.points| >= 2
    requires 0.0 < s.closureThreshold <= 1.0
    requires forall i: nat :: i < |crack.points| ==> Near(world, crack.points[i], s.repairRadius)
    ensures var after := RepairPoints(s, crack, |crack.points|, world);
      && RepairCrack(s, crack, world, now) == AnimateClosure(after, crack.id, now)
      && after.crackData == s.crackData && after.closureThreshold == s.closureThreshold
      && after.repairRadius == s.repairRadius && after.animating == s.animating
      && crack.id in after.data && !after.data[crack.id].isClosed && after.data[crack.id].crack == crack
      && forall i: nat :: i < |crack.points| ==> Flag(after.data[crack.id], i)
  {
    hide *;
    FreshRecord(crack);
    FreshFields(crack);
    AllRepaired(s, crack, |crack.points|, world);
    RepairPointsGrowth(s, crack, |crack.points|, world);
    RepairPointsFlags(s, crack, |crack.points|, world);
    RepairPointsKeeps(s, crack, |crack.points|, world);
    WholeCrackReaches(RepairPoints(s, crack, |crack.points|, world).data[crack.id], s.closureThreshold);
    ClosingAttempted(s, crack, world, now);
  }

  lemma FreshFields(crack: Crack)
    ensures var d := RecordOf(crack);
      d.crack == crack && d.totalPoints == |crack.points| && d.repairedCount == 0 && !d.isClosed
  {
  }

  lemma WholeCrackReaches(d: RepairData, threshold: real)
    requires d.repairedCount == d.totalPoints && threshold <= 1.0
    ensures Reached(d, threshold)
  {
    ThresholdReached(d.totalPoints, threshold);
  }

  lemma ClosingAttempted(s: Tool, crack: Crack, world: Point, now: real)
    requires crack.id in s.data && !s.data[crack.id].isClosed
    requires var after := RepairPoints(s, crack, |crack.points|, world);
      |after.log| > |s.log| && crack.id in after.data && Reached(after.data[crack.id], s.closureThreshold)
    ensures RepairCrack(s, crack, world, now)
            == AnimateClosure(RepairPoints(s, crack, |crack.points|, world), crack.id, now)
  {
    hide RepairPoints, AnimateClosure, Reached;
  }

  lemma SameAnimations(s: Tool, t: Tool, id: int)
    requires s.animating == t.animating
    ensures IsAnimating(s, id) <==> IsAnimating(t, id)
  {
  }

  lemma ThresholdReached(n: nat, threshold: real)
    requires threshold <= 1.0
    ensures n as real >= threshold * (n as real)
  {
  }

  lemma AnimatedAfter(s: Tool, id: int, now: real)
    requires id in s.data && !s.data[id].isClosed && |s.data[id].crack.points| >= 2
    ensures var after := AnimateClosure(s, id, now);
      && IsAnimating(after, id) && id in after.data
      && after.data[id].repairedPoints == s.data[id].repairedPoints
      && (after.data[id].isClosed <==> !IsAnimating(s, id))
      && after.crackData == s.crackData && after.closureThreshold == s.closureThreshold
      && after.repairRadius == s.repairRadius
  {
    var after := AnimateClosure(s, id, now);
    if !IsAnimating(s, id) { assert after.animating[|s.animating|].crackId == id; }
  }

  /** Such a crack exists: stroke a crack closed, apply the scene again while it is animating, and
      stroke it again. It is then wholly repaired and never closes, whatever follows but a reset. */
  lemma ReappliedCrackNeverCloses(
    radius: real, threshold: real, crack: Crack, world: Point, first: real, second: real, events: seq<Event>)
    requires |crack.points| >= 2 && ResetAll !in events
    requires 0.0 < NewTool(radius, threshold).closureThreshold <= 1.0
    requires forall i: nat :: i < |crack.points| ==>
      Near(world, crack.points[i], NewTool(radius, threshold).repairRadius)
    ensures var closing := Stroke(ApplyToScene(NewTool(radius, threshold), [crack]), world, first);
      var again := Stroke(ApplyToScene(closing, [crack]), world, second);
      && crack.id in closing.data && closing.data[crack.id].isClosed
      && StuckOpen(Run(again, events), 0)
  {
    var applied := ApplyToScene(NewTool(radius, threshold), [crack]);
    hide Stroke, Near, Flag, InitialData;
    FreshStroke(applied, crack, world, first);
    var closing := Stroke(applied, world, first);
    FreshStroke(ApplyToScene(closing, [crack]), crack, world, second);
    StuckForGood(Stroke(ApplyToScene(closing, [crack]), world, second), 0, events);
  }

  // ----- Loaded tools: every record belongs to the crack list

  ghost predicate Loaded(s: Tool) {
    && DistinctCracks(s.crackData)
    && s.totalCrackPoints == PointCount(s.crackData)
    && RecordsFor(s.data, s.crackData)
  }

  ghost predicate RecordsFor(data: map<int, RepairData>, cracks: seq<Crack>) {
    && (forall k :: 0 <= k < |cracks| ==> cracks[k].id in data && data[cracks[k].id].crack == cracks[k])
    && (forall id :: id in data ==>
          && (exists k :: 0 <= k < |cracks| && cracks[k].id == id)
          && data[id].totalPoints == |data[id].crack.points|
          && forall i: nat :: Flag(data[id], i) ==> i < data[id].totalPoints)
  }

  lemma {:induction false} InitialRecords(cracks: seq<Crack>)
    requires DistinctCracks(cracks)
    ensures RecordsFor(InitialData(cracks), cracks)
  {
    if cracks != [] {
      InitialRecords(cracks[..|cracks| - 1]);
      RecordAdded(InitialData(cracks[..|cracks| - 1]), cracks);
    }
  }

  lemma RecordAdded(data: map<int, RepairData>, cracks: seq<Crack>)
    requires cracks != [] && DistinctCracks(cracks) && RecordsFor(data, cracks[..|cracks| - 1])
    ensures var c := cracks[|cracks| - 1];
            RecordsFor(data[c.id := RecordOf(c)], cracks)
  {
    var front, c := cracks[..|cracks| - 1], cracks[|cracks| - 1];
    FreshRecord(c);
    hide Flag, Untouched;
    assert forall k :: 0 <= k < |front| ==> cracks[k] == front[k];
    var added := data[c.id := RecordOf(c)];
    forall id | id in added ensures exists k :: 0 <= k < |cracks| && cracks[k].id == id {
      if id == c.id {
        assert cracks[|front|].id == id;
      } else {
        var k :| 0 <= k < |front| && front[k].id == id;
        assert cracks[k].id == id;
      }
    }
  }

  lemma RecordReplaced(data: map<int, RepairData>, cracks: seq<Crack>, id: int, d: RepairData)
    requires RecordsFor(data, cracks) && id in data
    requires d.crack == data[id].crack && d.totalPoints == data[id].totalPoints
    requires forall i: nat :: Flag(d, i) ==> i < d.totalPoints
    ensures RecordsFor(data[id := d], cracks)
  {
  }

  lemma {:induction false} RepairPointsLoaded(s: Tool, crack: Crack, m: nat, world: Point)
    requires m <= |crack.points| && Loaded(s) && crack in s.crackData
    ensures Loaded(RepairPoints(s, crack, m, world))
    ensures RepairPoints(s, crack, m, world).crackData == s.crackData
  {
    if m > 0 {
      RepairPointsLoaded(s, crack, m - 1, world);
      var before := RepairPoints(s, crack, m - 1, world);
      var d := before.data[crack.id];
      assert forall i: nat :: Flag(d, i) ==> i < d.totalPoints;
      assert d.totalPoints == |crack.points|;
      var d' := RepairPoint(before, crack, m - 1, world).data[crack.id];
      hide Near;
      assert forall i: nat :: Flag(d', i) ==> Flag(d, i) || i == m - 1;
      hide Flag;
      RecordReplaced(before.data, s.crackData, crack.id, d');
    }
  }

  lemma AnimateClosureLoaded(s: Tool, id: int, now: real)
    requires Loaded(s) && id in s.data
    ensures Loaded(AnimateClosure(s, id, now))
    ensures AnimateClosure(s, id, now).crackData == s.crackData
  {
    var d := s.data[id].(isClosed := true);
    assert forall i: nat :: Flag(d, i) ==> Flag(s.data[id], i);
    RecordReplaced(s.data, s.crackData, id, d);
  }

  lemma RepairCrackLoaded(s: Tool, crack: Crack, world: Point, now: real)
    requires Loaded(s) && crack in s.crackData
    ensures Loaded(RepairCrack(s, crack, world, now))
    ensures RepairCrack(s, crack, world, now).crackData == s.crackData
  {
    hide RepairPoints, AnimateClosure, Loaded, Reached;
    var after := RepairPoints(s, crack, |crack.points|, world);
    RepairPointsLoaded(s, crack, |crack.points|, world);
    if crack.id in after.data { AnimateClosureLoaded(after, crack.id, now); }
  }

  lemma {:induction false} RepairCracksLoaded(s: Tool, m: nat, world: Point, now: real)
    requires Loaded(s) && m <= |s.crackData|
    ensures Loaded(RepairCracks(s, m, world, now))
    ensures RepairCracks(s, m, world, now).crackData == s.crackData
  {
    hide RepairCrack, Loaded;
    if m > 0 {
      RepairCracksLoaded(s, m - 1, world, now);
      RepairCrackLoaded(RepairCracks(s, m - 1, world, now), s.crackData[m - 1], world, now);
    }
  }

  lemma {:induction false} RunLoaded(radius: real, threshold: real, cracks: seq<Crack>, events: seq<Event>)
    requires DistinctCracks(cracks)
    ensures var s := Run(ApplyToScene(NewTool(radius, threshold), cracks), events);
            Loaded(s) && s.crackData == cracks
  {
    InitialRecords(cracks);
    if events != [] {
      RunLoaded(radius, threshold, cracks, events[..|events| - 1]);
      var s := Run(ApplyToScene(NewTool(radius, threshold), cracks), events[..|events| - 1]);
      match events[|events| - 1]
      case StrokeAt(world, now) => RepairCracksLoaded(s, |s.crackData|, world, now);
      case FrameAt(_) =>
      case ResetAll =>
      case Radius(_) =>
    }
  }

  function IndicesOf(log: seq<Repair>, id: int): set<nat> {
    set k | 0 <= k < |log| && log[k].crackId == id :: log[k].pointIndex
  }

  lemma {:induction false} IndicesCardinality(log: seq<Repair>, id: int)
    requires forall j, k :: 0 <= j < k < |log| ==>
               log[j].crackId != log[k].crackId || log[j].pointIndex != log[k].pointIndex
    ensures |IndicesOf(log, id)| == LogCount(log, id)
  {
    if log != [] {
      var front, e := log[..|log| - 1], log[|log| - 1];
      IndicesCardinality(front, id);
      assert forall k :: 0 <= k < |front| ==> front[k] == log[k];
      if e.crackId == id {
        assert IndicesOf(log, id) == IndicesOf(front, id) + {e.pointIndex};
        assert e.pointIndex !in IndicesOf(front, id);
      } else {
        assert IndicesOf(log, id) == IndicesOf(front, id);
      }
    }
  }

  lemma {:induction false} BoundedSet(indices: set<nat>, n: nat)
    requires forall i :: i in indices ==> i < n
    ensures |indices| <= n
  {
    if n > 0 { BoundedSet(indices - {n - 1}, n - 1); }
    if n == 0 { assert indices == {}; }
  }

  lemma CountWithinTotal(s: Tool, id: int)
    requires Consistent(s) && RecordsFor(s.data, s.crackData) && id in s.data
    ensures s.data[id].repairedCount <= s.data[id].totalPoints
  {
    IndicesCardinality(s.log, id);
    BoundedSet(IndicesOf(s.log, id), s.data[id].totalPoints);
  }

  function Ids(cracks: seq<Crack>): seq<int> {
    seq(|cracks|, k requires 0 <= k < |cracks| => cracks[k].id)
  }

  lemma {:induction false} CountsWithinPoints(s: Tool, m: nat)
    requires Consistent(s) && RecordsFor(s.data, s.crackData) && m <= |s.crackData|
    ensures SumCounts(s.data, Ids(s.crackData[..m])) <= PointCount(s.crackData[..m])
  {
    hide Settled, Flag;
    if m > 0 {
      CountsWithinPoints(s, m - 1);
      CountWithinTotal(s, s.crackData[m - 1].id);
      assert s.crackData[..m][..m - 1] == s.crackData[..m - 1];
      assert Ids(s.crackData[..m])[..m - 1] == Ids(s.crackData[..m - 1]);
    }
  }

  /** In every run over cracks with distinct ids the counters agree and stay within their totals:
      per crack, and over all cracks, so that no reported progress exceeds 1. */
  lemma RunCounters(radius: real, threshold: real, cracks: seq<Crack>, events: seq<Event>)
    requires DistinctCracks(cracks)
    ensures var s := Run(ApplyToScene(NewTool(radius, threshold), cracks), events);
            && ListsKeys(Ids(cracks), s.data)
            && SumCounts(s.data, Ids(cracks)) == s.repairedCrackPoints == |s.log|
            && s.repairedCrackPoints <= s.totalCrackPoints == PointCount(cracks)
            && forall id :: id in s.data ==> s.data[id].repairedCount <= s.data[id].totalPoints
  {
    RunConsistent(radius, threshold, cracks, events);
    RunLoaded(radius, threshold, cracks, events);
    var s := Run(ApplyToScene(NewTool(radius, threshold), cracks), events);
    hide Settled, Run;
    KeysListed(s.data, cracks);
    CountersAgree(s, Ids(cracks));
    CountsWithinPoints(s, |cracks|);
    assert cracks[..|cracks|] == cracks;
    forall id | id in s.data ensures s.data[id].repairedCount <= s.data[id].totalPoints {
      CountWithinTotal(s, id);
    }
  }

  lemma KeysListed(data: map<int, RepairData>, cracks: seq<Crack>)
    requires RecordsFor(data, cracks) && DistinctCracks(cracks)
    ensures ListsKeys(Ids(cracks), data)
  {
    forall id | id in data ensures id in Ids(cracks) {
      var k :| 0 <= k < |cracks| && cracks[k].id == id;
      assert Ids(cracks)[k] == id;
    }
  }

  // ----- The tool object

  class VirtualRepairTool {
    var crackData: seq<Crack>
    var closureThreshold: real
    var repairRadius: real
    var crackRepairData: map<int, RepairData>
    var closedCracks: set<int>
    var animatingCracks: seq<Animation>
    var crackClosureData: seq<Closure>
    var repairedPoints: seq<Repair>
    var animationFrames: seq<Frame>
    var totalCrackPoints: nat
    var repairedCrackPoints: nat

    function View(): Tool
      reads this
    {
      Tool(crackData, closureThreshold, repairRadius, crackRepairData, closedCracks, animatingCracks,
           crackClosureData, repairedPoints, animationFrames, totalCrackPoints, repairedCrackPoints)
    }

    constructor (radius: real, threshold: real)
      ensures View() == NewTool(radius, threshold)
    {
      crackData := [];
      closureThreshold := if threshold == 0.0 then 0.8 else threshold;
      repairRadius := if radius == 0.0 then 5.0 else radius;
      crackRepairData := map[];
      closedCracks := {};
      animatingCracks := [];
      crackClosureData := [];
      repairedPoints := [];
      animationFrames := [];
      totalCrackPoints := 0;
      repairedCrackPoints := 0;
    }

    method InitCrackRepairData()
      modifies this`crackRepairData, this`totalCrackPoints, this`repairedCrackPoints
      ensures View() == InitRepairData(old(View()))
    {
      crackRepairData := map[];
      totalCrackPoints := 0;
      repairedCrackPoints := 0;
      for k := 0 to |crackData|
        invariant crackRepairData == InitialData(crackData[..k])
        invariant totalCrackPoints == PointCount(crackData[..k])
        invariant repairedCrackPoints == 0
      {
        var crack := crackData[k];
        var repairedMap := map[];
        for i := 0 to |crack.points|
          invariant repairedMap == Untouched(i)
        {
          repairedMap := repairedMap[i := false];
        }
        assert crackData[..k + 1][..k] == crackData[..k];
        crackRepairData := crackRepairData[crack.id := RepairData(crack, repairedMap, |crack.points|, 0, false)];
        totalCrackPoints := totalCrackPoints + |crack.points|;
      }
      assert crackData[..|crackData|] == crackData;
    }

    method ApplyScene(cracks: seq<Crack>)
      modifies this
      ensures View() == ApplyToScene(old(View()), cracks)
    {
      crackData := cracks;
      InitCrackRepairData();
    }

    method ResetAll()
      modifies this
      ensures View() == Reset(old(View()))
    {
      repairedPoints := [];
      crackClosureData := [];
      animationFrames := [];
      closedCracks := {};
      animatingCracks := [];
      InitCrackRepairData();
    }

    method AnimateCrackClosure(id: int, now: real)
      modifies this`crackRepairData, this`closedCracks, this`animatingCracks, this`crackClosureData
      ensures View() == AnimateClosure(old(View()), id, now)
    {
      if id !in crackRepairData { return; }
      var repairData := crackRepairData[id];
      if repairData.isClosed || IsAnimating(View(), id) { return; }
      crackRepairData := crackRepairData[id := repairData.(isClosed := true)];
      closedCracks := closedCracks + {id};
      var points := repairData.crack.points;
      if |points| < 2 { return; }
      animatingCracks := animatingCracks + [Animation(id, points, now, 0.0)];
      crackClosureData := crackClosureData + [Closure(id, now, points)];
    }

    /** The stroke's work on one crack. */
    method RepairOneCrack(crack: Crack, world: Point, now: real)
      modifies this`crackRepairData, this`closedCracks, this`animatingCracks, this`crackClosureData,
               this`repairedPoints, this`repairedCrackPoints
      ensures View() == RepairCrack(old(View()), crack, world, now)
    {
      hide Near, AnimateClosure;
      if crack.id !in crackRepairData || crackRepairData[crack.id].isClosed { return; }
      ghost var before := View();
      var newlyRepaired := 0;
      for i := 0 to |crack.points|
        invariant View() == RepairPoints(before, crack, i, world)
        invariant newlyRepaired == |repairedPoints| - |before.log|
        invariant crack.id in crackRepairData
      {
        var repairData := crackRepairData[crack.id];
        if Flag(repairData, i) || !Near(world, crack.points[i], repairRadius) { continue; }
        crackRepairData := crackRepairData[crack.id :=
          repairData.(repairedPoints := repairData.repairedPoints[i := true],
                      repairedCount := repairData.repairedCount + 1)];
        newlyRepaired := newlyRepaired + 1;
        repairedCrackPoints := repairedCrackPoints + 1;
        repairedPoints := repairedPoints + [Repair(crack.id, i, crack.points[i], world)];
      }
      if newlyRepaired > 0 && Reached(crackRepairData[crack.id], closureThreshold) {
        AnimateCrackClosure(crack.id, now);
      }
    }

    method RepairCracksNearPoint(world: Point, now: real)
      modifies this`crackRepairData, this`closedCracks, this`animatingCracks, this`crackClosureData,
               this`repairedPoints, this`repairedCrackPoints
      ensures View() == Stroke(old(View()), world, now)
      ensures old(Consistent(View())) ==> Consistent(View())
    {
      hide RepairCrack, Settled;
      if Consistent(View()) { RepairCracksConsistent(View(), |crackData|, world, now); }
      for k := 0 to |crackData|
        invariant View() == RepairCracks(old(View()), k, world, now)
      {
        RepairOneCrack(crackData[k], world, now);
      }
    }

    /** An entry is removed while the Map is being walked; the walk goes on with the next one. */
    method UpdateCrackAnimations(now: real)
      modifies this`animatingCracks, this`animationFrames
      ensures View() == FrameStep(old(View()), now)
    {
      hide Surviving, Recorded, Progress, FrameOf, Walked;
      ghost var entries := animatingCracks;
      ghost var p := 0;
      var i := 0;
      WalkEnds(entries, now);
      while i < |animatingCracks|
        invariant p <= |entries| && i == |Surviving(entries[..p], now)|
        invariant animatingCracks == Walked(entries, p, now)
        invariant |animatingCracks| == i + |entries| - p
        invariant animationFrames == old(animationFrames) + Recorded(entries[..p], now)
        decreases |animatingCracks| - i
      {
        OneMoreEntry(entries, p, now);
        WalkEntry(entries, p, now);
        WalkLength(entries, p + 1, now);
        var animData := animatingCracks[i];
        var t := Progress(animData, now);
        animationFrames := animationFrames + [FrameOf(animData, now)];
        if t >= 1.0 {
          animatingCracks := animatingCracks[..i] + animatingCracks[i + 1..];
        } else {
          animatingCracks := animatingCracks[i := animData.(progress := t)];
          i := i + 1;
        }
        p := p + 1;
      }
    }

    method SetRadius(radius: real)
      modifies this`repairRadius
      ensures View() == SetRepairRadius(old(View()), radius)
      ensures 0.5 <= repairRadius <= 50.0
    {
      var capped := if radius < 50.0 then radius else 50.0;
      repairRadius := if capped > 0.5 then capped else 0.5;
    }

    /** The fraction repaired over all cracks. */
    method GetOverallProgress() returns (progress: real)
      requires Consistent(View()) && Loaded(View())
      ensures 0.0 <= progress <= 1.0
      ensures progress * (totalCrackPoints as real) == |repairedPoints| as real
    {
      var s := View();
      hide Settled, SumCounts, PointCount;
      KeysListed(s.data, s.crackData);
      CountersAgree(s, Ids(s.crackData));
      CountsWithinPoints(s, |s.crackData|);
      assert s.crackData[..|s.crackData|] == s.crackData;
      if totalCrackPoints == 0 { return 0.0; }
      progress := repairedCrackPoints as real / totalCrackPoints as real;
    }
  }
}