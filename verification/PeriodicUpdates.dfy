/**
 The periodic processes of scratch/nr-x2-conditional-handover-test.cc: `UpdateLeoGnbPositions` moves the
 beams, `UpdateLiveCellGeometry` refreshes what is cached of them and `UpdateDynamicX2Delays` refreshes
 the delays of the links between them. Each schedules itself again one period later while that is not
 after the end of the simulation.

 Assumed of the simulator: events run in the order of their times, events of equal time in the order in
 which they were scheduled, and the event behind `Simulator::Stop` ends the run. Other events may be
 scheduled and run at any point, but do not touch positions, caches or delays. Times are whole
 nanoseconds; where a beam is at a given time, and the antenna and distance formulas, are given functions.
 */
module PeriodicUpdates {
  import opened Sequences

  type Time = int

  type CellId = nat

  datatype Point = Point(x: real, y: real, z: real)

  datatype Scenario = Scenario(
    cells: seq<CellId>,                 // the cell of each beam
    links: seq<(nat, nat)>,             // the pairs of beams joined by an X2 link
    period: Time,
    stopTime: Time,
    orbit: (nat, Time) -> Point,        // where a beam is
    offAxis: Point -> real,             // its off-axis angle towards the terminal
    gain: real -> real,                 // the antenna gain at an off-axis angle
    distance: (Point, Point) -> real)
  {
    ghost predicate Valid() {
      && NoDuplicates(cells)
      && period > 0
      && stopTime >= 0
      && forall k :: 0 <= k < |links| ==> links[k].0 < |cells| && links[k].1 < |cells|
    }
  }

  const LIGHT_SPEED: real := 299792458.0

  datatype Kind = Move | Geometry | X2 | Stop | Other

  datatype Event = Event(time: Time, uid: nat, kind: Kind)

  datatype World = World(
    now: Time,
    nextUid: nat,
    queue: set<Event>,
    positions: seq<Point>,
    cellPosition: map<CellId, Point>,
    cellOffAxis: map<CellId, real>,
    cellGain: map<CellId, real>,
    nodeGain: map<nat, real>,
    delays: seq<real>,
    stopped: bool)

  // ----- The updates, as functions -----

  function Schedule(w: World, delay: Time, kind: Kind): World {
    w.(queue := w.queue + {Event(w.now + delay, w.nextUid, kind)}, nextUid := w.nextUid + 1)
  }

  function ScheduleAgain(sc: Scenario, w: World, kind: Kind): World {
    if w.now + sc.period <= sc.stopTime then Schedule(w, sc.period, kind) else w
  }

  function Located(sc: Scenario, time: Time): (positions: seq<Point>)
    ensures |positions| == |sc.cells|
    ensures forall i :: 0 <= i < |positions| ==> positions[i] == sc.orbit(i, time)
  {
    seq(|sc.cells|, i requires 0 <= i < |sc.cells| => sc.orbit(i, time))
  }

  function MoveBeams(sc: Scenario, w: World): World {
    ScheduleAgain(sc, w.(positions := Located(sc, w.now)), Move)
  }

  /** The caches after the first n beams have been looked at. */
  function Cached(sc: Scenario, w: World, n: nat): World
    requires n <= |sc.cells| && n <= |w.positions|
  {
    if n == 0 then w
    else
      var v := Cached(sc, w, n - 1);
      var p, cell := w.positions[n - 1], sc.cells[n - 1];
      v.(cellPosition := v.cellPosition[cell := p],
         cellOffAxis := v.cellOffAxis[cell := sc.offAxis(p)],
         cellGain := v.cellGain[cell := sc.gain(sc.offAxis(p))],
         nodeGain := v.nodeGain[n - 1 := sc.gain(sc.offAxis(p))])
  }

  function RefreshGeometry(sc: Scenario, w: World): World
    requires |w.positions| == |sc.cells|
  {
    ScheduleAgain(sc, Cached(sc, w, |sc.cells|), Geometry)
  }

  function LinkDelay(sc: Scenario, positions: seq<Point>, link: (nat, nat)): real
    requires link.0 < |positions| && link.1 < |positions|
  {
    sc.distance(positions[link.0], positions[link.1]) / LIGHT_SPEED
  }

  function LinkDelays(sc: Scenario, positions: seq<Point>): (delays: seq<real>)
    requires forall k :: 0 <= k < |sc.links| ==> sc.links[k].0 < |positions| && sc.links[k].1 < |positions|
    ensures |delays| == |sc.links|
    ensures forall k :: 0 <= k < |delays| ==> delays[k] == LinkDelay(sc, positions, sc.links[k])
  {
    seq(|sc.links|, k requires 0 <= k < |sc.links| => LinkDelay(sc, positions, sc.links[k]))
  }

  function RefreshX2(sc: Scenario, w: World): World
    requires sc.Valid() && |w.positions| == |sc.cells|
  {
    ScheduleAgain(sc, w.(delays := LinkDelays(sc, w.positions)), X2)
  }

  function ScheduleOthers(w: World, others: seq<nat>): World
    decreases others
  {
    if others == [] then w else ScheduleOthers(Schedule(w, others[0], Other), others[1..])
  }

  // ----- Runs -----

  predicate Before(e: Event, f: Event) {
    e.time < f.time || (e.time == f.time && e.uid <= f.uid)
  }

  predicate IsNext(w: World, e: Event) {
    !w.stopped && e in w.queue && forall f :: f in w.queue ==> Before(e, f)
  }

  /** Runs one event; an event that is none of the modelled ones schedules some others of its kind. */
  function Execute(sc: Scenario, w: World, e: Event, others: seq<nat>): World
    requires sc.Valid() && |w.positions| == |sc.cells|
  {
    var v := w.(now := e.time, queue := w.queue - {e});
    match e.kind
    case Move => MoveBeams(sc, v)
    case Geometry => RefreshGeometry(sc, v)
    case X2 => RefreshX2(sc, v)
    case Stop => v.(stopped := true)
    case Other => ScheduleOthers(v, others)
  }

  /**
   What `main` does before the run: it moves the beams to their places at time 0, fills the caches, sets
   up the links with their current delays, schedules the first refresh of the delays if there are links,
   and schedules the end. Other events are scheduled before, between and after these steps.
   */
  function Setup(sc: Scenario, first: seq<nat>, second: seq<nat>, third: seq<nat>, fourth: seq<nat>): World
    requires sc.Valid()
  {
    SetupBeamsKeeps(sc, first, second);
    SetupLinks(sc, SetupBeams(sc, first, second), third, fourth)
  }

  /** Before the setup every beam is at the origin and nothing is cached or scheduled. */
  function Blank(sc: Scenario): World {
    World(0, 0, {}, seq(|sc.cells|, _ => Point(0.0, 0.0, 0.0)), map[], map[], map[], map[], [], false)
  }

  function SetupBeams(sc: Scenario, first: seq<nat>, second: seq<nat>): World {
    var blank := Blank(sc);
    var moved := MoveBeams(sc, ScheduleOthers(blank, first));
    SchedulingKeeps(moved, second);
    RefreshGeometry(sc, ScheduleOthers(moved, second))
  }

  function SetupLinks(sc: Scenario, w: World, third: seq<nat>, fourth: seq<nat>): World
    requires sc.Valid() && |w.positions| == |sc.cells|
  {
    SchedulingKeeps(w, third);
    var others := ScheduleOthers(w, third);
    var linked := others.(delays := LinkDelays(sc, others.positions));
    var timed := if sc.links != [] then Schedule(linked, sc.period, X2) else linked;
    ScheduleOthers(Schedule(timed, sc.stopTime, Stop), fourth)
  }

  lemma SetupBeamsKeeps(sc: Scenario, first: seq<nat>, second: seq<nat>)
    ensures SetupBeams(sc, first, second).positions == Located(sc, 0)
    ensures SetupBeams(sc, first, second).now == 0 && !SetupBeams(sc, first, second).stopped
  {
    var blank := Blank(sc);
    var moved := MoveBeams(sc, ScheduleOthers(blank, first));
    SchedulingKeeps(blank, first);
    SchedulingKeeps(moved, second);
    CachingKeeps(sc, ScheduleOthers(moved, second), |sc.cells|);
  }

  ghost predicate IsRun(sc: Scenario, worlds: seq<World>, events: seq<(Event, seq<nat>)>)
    requires sc.Valid()
  {
    // the number of beams never changes, as the invariant below shows
    && |worlds| == |events| + 1
    && (exists a, b, c, d :: worlds[0] == Setup(sc, a, b, c, d))
    && forall i :: 0 <= i < |events| ==>
         && IsNext(worlds[i], events[i].0)
         && |worlds[i].positions| == |sc.cells|
         && worlds[i + 1] == Execute(sc, worlds[i], events[i].0, events[i].1)
  }

  // ----- Frames -----

  ghost predicate SameData(v: World, w: World) {
    && v.positions == w.positions && v.cellPosition == w.cellPosition && v.cellOffAxis == w.cellOffAxis
    && v.cellGain == w.cellGain && v.nodeGain == w.nodeGain && v.delays == w.delays
  }

  /** Scheduling other events only adds to the queue. */
  lemma {:induction false} SchedulingKeeps(w: World, others: seq<nat>)
    ensures var v := ScheduleOthers(w, others);
      && SameData(v, w) && v.now == w.now && v.stopped == w.stopped
      && v.nextUid >= w.nextUid && w.queue <= v.queue
      && forall e :: e in v.queue && e !in w.queue ==>
           e.kind == Other && e.time >= w.now && w.nextUid <= e.uid < v.nextUid
    decreases others
  {
    if others != [] {
      SchedulingKeeps(Schedule(w, others[0], Other), others[1..]);
    }
  }

  lemma {:induction false} CachingKeeps(sc: Scenario, w: World, n: nat)
    requires n <= |sc.cells| && n <= |w.positions|
    ensures var v := Cached(sc, w, n);
      && v.now == w.now && v.nextUid == w.nextUid && v.queue == w.queue && v.positions == w.positions
      && v.delays == w.delays && v.stopped == w.stopped
  {
    if n > 0 {
      CachingKeeps(sc, w, n - 1);
    }
  }

  // ----- The invariant -----

  /** The caches hold what follows from the present positions. */
  ghost predicate CachesOk(sc: Scenario, w: World) {
    && |w.positions| == |sc.cells|
    && forall i :: 0 <= i < |sc.cells| ==> CacheOk(sc, w, i)
  }

  ghost predicate CacheOk(sc: Scenario, w: World, i: nat)
    requires i < |sc.cells| == |w.positions|
  {
    var p, cell := w.positions[i], sc.cells[i];
    && cell in w.cellPosition && w.cellPosition[cell] == p
    && cell in w.cellOffAxis && w.cellOffAxis[cell] == sc.offAxis(p)
    && cell in w.cellGain && w.cellGain[cell] == sc.gain(sc.offAxis(p))
    && i in w.nodeGain && w.nodeGain[i] == sc.gain(sc.offAxis(p))
  }

  /** In the delay of every link light covers the present distance of its two ends. */
  ghost predicate DelaysOk(sc: Scenario, w: World) {
    && |w.delays| == |sc.links|
    && forall k :: 0 <= k < |sc.links| ==>
         && sc.links[k].0 < |w.positions| && sc.links[k].1 < |w.positions|
         && w.delays[k] * 299792458.0 == sc.distance(w.positions[sc.links[k].0], w.positions[sc.links[k].1])
  }

  lemma LightDelay(distance: real)
    ensures distance / LIGHT_SPEED * 299792458.0 == distance
  {
  }

  lemma LinkDelaysOk(sc: Scenario, w: World)
    requires sc.Valid() && |w.positions| == |sc.cells| && w.delays == LinkDelays(sc, w.positions)
    ensures DelaysOk(sc, w)
  {
    forall k | 0 <= k < |sc.links|
      ensures w.delays[k] * 299792458.0 == sc.distance(w.positions[sc.links[k].0], w.positions[sc.links[k].1])
    {
      LightDelay(sc.distance(w.positions[sc.links[k].0], w.positions[sc.links[k].1]));
      assert w.delays[k] == LinkDelay(sc, w.positions, sc.links[k]);
    }
  }

  lemma DelaysDependOnData(sc: Scenario, v: World, w: World)
    requires v.positions == w.positions && v.delays == w.delays
    ensures DelaysOk(sc, v) <==> DelaysOk(sc, w)
  {
  }

  ghost predicate Only(q: set<Event>, kind: Kind, time: Time, uid: nat) {
    Event(time, uid, kind) in q && forall e :: e in q && e.kind == kind ==> e == Event(time, uid, kind)
  }

  ghost predicate NoneOf(q: set<Event>, kind: Kind) {
    forall e :: e in q ==> e.kind != kind
  }

  /** The event is the only one of its kind if it is not after the end; otherwise there is none. */
  ghost predicate Due(sc: Scenario, q: set<Event>, kind: Kind, time: Time, uid: nat) {
    if time <= sc.stopTime then Only(q, kind, time, uid) else NoneOf(q, kind)
  }

  /** Like `Due`, but the first refresh of the delays is scheduled even when it is after the end. */
  ghost predicate X2Due(sc: Scenario, q: set<Event>, time: Time, uid: nat) {
    if sc.links == [] then NoneOf(q, X2)
    else if time <= sc.stopTime then Only(q, X2, time, uid)
    else forall e :: e in q && e.kind == X2 ==> e.time > sc.stopTime
  }

  /**
   Where a run is within a tick: the updates of a tick are all still to come, or the beams have moved,
   or the caches have been refreshed too. The numbers are those of the pending Move, Geometry and X2 events.
   */
  datatype Phase =
    | AtRest(next: Time, a: nat, b: nat, c: nat)
    | Moved(tick: Time, a: nat, b: nat, c: nat)
    | Refreshed(tick: Time, a: nat, b: nat, c: nat)
  {
    function Tick(sc: Scenario): Time {
      match this
      case AtRest(next, _, _, _) => next - sc.period
      case Moved(tick, _, _, _) => tick
      case Refreshed(tick, _, _, _) => tick
    }
  }

  ghost predicate IsTick(sc: Scenario, n: nat, time: Time) {
    time == n * sc.period
  }

  ghost predicate OnTick(sc: Scenario, time: Time) {
    exists n: nat :: IsTick(sc, n, time)
  }

  ghost predicate Basics(sc: Scenario, w: World, ph: Phase, stop: nat) {
    && sc.period > 0
    && w.positions == Located(sc, ph.Tick(sc))
    && 0 <= ph.Tick(sc) <= w.now <= ph.Tick(sc) + sc.period
    && OnTick(sc, ph.Tick(sc))
    && |w.delays| == |sc.links|
    && w.now <= sc.stopTime
    && stop < w.nextUid
    && (forall e :: e in w.queue ==> e.time >= w.now && e.uid < w.nextUid)
    && (!w.stopped ==> Only(w.queue, Stop, sc.stopTime, stop))
    && (w.stopped ==> ph.AtRest?)
  }

  ghost predicate PhaseOk(sc: Scenario, w: World, ph: Phase, stop: nat) {
    match ph
    case AtRest(next, a, b, c) =>
      && CachesOk(sc, w) && DelaysOk(sc, w)
      && Due(sc, w.queue, Move, next, a) && Due(sc, w.queue, Geometry, next, b) && X2Due(sc, w.queue, next, c)
      && a < b && (sc.links != [] ==> b < c)
      && (stop < a || (b < stop && (sc.links != [] ==> c < stop)))
    case Moved(tick, a, b, c) =>
      && w.now == tick <= sc.stopTime
      && Due(sc, w.queue, Move, tick + sc.period, a) && Only(w.queue, Geometry, tick, b) && X2Due(sc, w.queue, tick, c)
      && stop < a && (sc.links != [] ==> b < c)
      && (tick == sc.stopTime ==> b < stop && (sc.links != [] ==> c < stop))
    case Refreshed(tick, a, b, c) =>
      && w.now == tick <= sc.stopTime
      && sc.links != []
      && CachesOk(sc, w)
      && Due(sc, w.queue, Move, tick + sc.period, a) && Due(sc, w.queue, Geometry, tick + sc.period, b)
      && Only(w.queue, X2, tick, c)
      && stop < a < b
      && (tick == sc.stopTime ==> c < stop)
  }

  ghost predicate Inv(sc: Scenario, w: World, ph: Phase, stop: nat) {
    Basics(sc, w, ph, stop) && PhaseOk(sc, w, ph, stop)
  }

  /** The updates of the present tick are over, and those of the next are not at the present time. */
  ghost predicate BetweenTicks(w: World) {
    forall e :: e in w.queue && e.kind in {Move, Geometry, X2} ==> e.time > w.now
  }

  // ----- What the updates establish -----

  lemma {:induction false} CachingFills(sc: Scenario, w: World, n: nat)
    requires sc.Valid() && |w.positions| == |sc.cells| && n <= |sc.cells|
    ensures Cached(sc, w, n).positions == w.positions
    ensures forall i :: 0 <= i < n ==> CacheOk(sc, Cached(sc, w, n), i)
  {
    if n > 0 {
      CachingFills(sc, w, n - 1);
      forall i | 0 <= i < n ensures CacheOk(sc, Cached(sc, w, n), i) {
        if i < n - 1 {
          assert CacheOk(sc, Cached(sc, w, n - 1), i);
          assert sc.cells[i] != sc.cells[n - 1];
        }
      }
    }
  }

  lemma CachesDependOnData(sc: Scenario, v: World, w: World)
    requires v.positions == w.positions && v.cellPosition == w.cellPosition && v.cellOffAxis == w.cellOffAxis
    requires v.cellGain == w.cellGain && v.nodeGain == w.nodeGain
    requires CachesOk(sc, w)
    ensures CachesOk(sc, v)
  {
    forall i | 0 <= i < |sc.cells| ensures CacheOk(sc, v, i) {
      assert CacheOk(sc, w, i);
    }
  }

  lemma RefreshGeometryEffect(sc: Scenario, w: World)
    requires sc.Valid() && |w.positions| == |sc.cells|
    ensures var v := RefreshGeometry(sc, w);
      && CachesOk(sc, v) && v.positions == w.positions && v.delays == w.delays
      && v.now == w.now && v.stopped == w.stopped
      && v.queue == ScheduleAgain(sc, w, Geometry).queue && v.nextUid == ScheduleAgain(sc, w, Geometry).nextUid
  {
    CachingFills(sc, w, |sc.cells|);
    CachingKeeps(sc, w, |sc.cells|);
    CachesDependOnData(sc, RefreshGeometry(sc, w), Cached(sc, w, |sc.cells|));
  }

  // ----- Queues -----

  lemma SameKind(q: set<Event>, r: set<Event>, kind: Kind)
    requires forall e: Event :: e.kind == kind ==> (e in q <==> e in r)
    ensures NoneOf(q, kind) <==> NoneOf(r, kind)
    ensures forall time, uid :: Only(q, kind, time, uid) <==> Only(r, kind, time, uid)
  {
  }

  /** A queue that differs only in events of kind `Other` is as good. */
  lemma OthersDoNotMatter(sc: Scenario, q: set<Event>, r: set<Event>)
    requires forall e: Event :: e.kind != Other ==> (e in q <==> e in r)
    ensures forall kind, time, uid :: kind != Other ==> (Only(q, kind, time, uid) <==> Only(r, kind, time, uid))
    ensures forall kind, time, uid :: kind != Other ==> (Due(sc, q, kind, time, uid) <==> Due(sc, r, kind, time, uid))
    ensures forall time, uid :: X2Due(sc, q, time, uid) <==> X2Due(sc, r, time, uid)
  {
    forall kind: Kind | kind != Other
      ensures NoneOf(q, kind) <==> NoneOf(r, kind)
      ensures forall time, uid :: Only(q, kind, time, uid) <==> Only(r, kind, time, uid)
    {
      SameKind(q, r, kind);
    }
  }

  // ----- One event -----

  lemma StepOther(sc: Scenario, w: World, ph: Phase, stop: nat, e: Event, others: seq<nat>)
    requires sc.Valid() && Inv(sc, w, ph, stop) && IsNext(w, e) && e.kind == Other
    ensures |w.positions| == |sc.cells| && Inv(sc, Execute(sc, w, e, others), ph, stop)
  {
    var v := w.(now := e.time, queue := w.queue - {e});
    SchedulingKeeps(v, others);
    var x := ScheduleOthers(v, others);
    OthersDoNotMatter(sc, w.queue, x.queue);
    assert Before(e, Event(sc.stopTime, stop, Stop));
    match ph
    case AtRest(next, a, b, c) =>
      CachesDependOnData(sc, x, w);
      if next <= sc.stopTime {
        assert Before(e, Event(next, a, Move));
      }
    case Moved(tick, a, b, c) =>
      assert Before(e, Event(tick, b, Geometry));
    case Refreshed(tick, a, b, c) =>
      CachesDependOnData(sc, x, w);
      assert Before(e, Event(tick, c, X2));
  }

  lemma NextTick(sc: Scenario, time: Time)
    requires OnTick(sc, time)
    ensures OnTick(sc, time + sc.period)
  {
    var n: nat :| IsTick(sc, n, time);
    assert n * sc.period + sc.period == (n + 1) * sc.period;
    assert IsTick(sc, n + 1, time + sc.period);
  }

  /** Taking an event of one kind off the queue and adding at most one later event of that kind. */
  lemma Replaced(sc: Scenario, q: set<Event>, r: set<Event>, e: Event, again: Event)
    requires e.kind == again.kind && Only(q, e.kind, e.time, e.uid)
    requires r == q - {e} + (if again.time <= sc.stopTime then {again} else {})
    ensures Due(sc, r, e.kind, again.time, again.uid)
    ensures forall f: Event :: f.kind != e.kind ==> (f in q <==> f in r)
  {
  }

  lemma OtherKinds(sc: Scenario, q: set<Event>, r: set<Event>, kind: Kind)
    requires forall f: Event :: f.kind != kind ==> (f in q <==> f in r)
    ensures forall k, time, uid :: k != kind ==> (Only(q, k, time, uid) <==> Only(r, k, time, uid))
    ensures forall k, time, uid :: k != kind ==> (Due(sc, q, k, time, uid) <==> Due(sc, r, k, time, uid))
    ensures kind != X2 ==> forall time, uid :: X2Due(sc, q, time, uid) <==> X2Due(sc, r, time, uid)
  {
    forall k: Kind | k != kind
      ensures NoneOf(q, k) <==> NoneOf(r, k)
      ensures forall time, uid :: Only(q, k, time, uid) <==> Only(r, k, time, uid)
    {
      SameKind(q, r, k);
    }
  }

  /** What can come next within a tick: the updates run in their order, and the end does not come between them. */
  lemma KindsByPhase(sc: Scenario, w: World, ph: Phase, stop: nat, e: Event)
    requires sc.Valid() && Inv(sc, w, ph, stop) && IsNext(w, e)
    ensures match ph
      case AtRest(_, _, _, _) => e.kind in {Move, Stop, Other}
      case Moved(_, _, _, _) => e.kind in {Geometry, Other}
      case Refreshed(_, _, _, _) => e.kind in {X2, Other}
  {
    hide CachesOk, DelaysOk, Located;
    assert Before(e, Event(sc.stopTime, stop, Stop));
    match ph
    case AtRest(next, a, b, c) =>
      assert next <= sc.stopTime ==> Before(e, Event(next, a, Move));
    case Moved(tick, a, b, c) =>
      assert Before(e, Event(tick, b, Geometry));
    case Refreshed(tick, a, b, c) =>
      assert Before(e, Event(tick, c, X2));
  }

  /** The beams are where they are at the tick; refreshes of the caches and the delays are due in the same tick. */
  lemma StepMove(sc: Scenario, w: World, ph: Phase, stop: nat, e: Event, others: seq<nat>) returns (ph': Phase)
    requires sc.Valid() && Inv(sc, w, ph, stop) && IsNext(w, e) && e.kind == Move
    ensures |w.positions| == |sc.cells| && Inv(sc, Execute(sc, w, e, others), ph', stop)
    ensures ph'.Moved? && ph'.tick == e.time
    ensures var x := Execute(sc, w, e, others);
      && x.positions == Located(sc, e.time)
      && Only(x.queue, Geometry, e.time, ph'.b)
      && (sc.links != [] ==> Only(x.queue, X2, e.time, ph'.c))
      && Due(sc, x.queue, Move, e.time + sc.period, ph'.a)
  {
    KindsByPhase(sc, w, ph, stop, e);
    hide CachesOk, DelaysOk;
    var x := Execute(sc, w, e, others);
    assert Before(e, Event(sc.stopTime, stop, Stop));
    var AtRest(next, a, b, c) := ph;
    ph' := Moved(next, w.nextUid, b, c);
    NextTick(sc, next - sc.period);
    var again := Event(next + sc.period, w.nextUid, Move);
    assert x.queue == w.queue - {e} + (if again.time <= sc.stopTime then {again} else {});
    Replaced(sc, w.queue, x.queue, e, again);
    OtherKinds(sc, w.queue, x.queue, Move);
    hide Due, Only, X2Due;
  }

  /** The queue after the caches have been refreshed: the next refresh is in it, if it is in time. */
  lemma GeometryQueue(sc: Scenario, w: World, ph: Phase, stop: nat, e: Event, q: set<Event>)
    requires ph.Moved? && Inv(sc, w, ph, stop) && e == Event(ph.tick, ph.b, Geometry)
    requires var again := Event(ph.tick + sc.period, w.nextUid, Geometry);
      q == w.queue - {e} + (if again.time <= sc.stopTime then {again} else {})
    ensures var next := ph.tick + sc.period;
      && Due(sc, q, Geometry, next, w.nextUid) && Due(sc, q, Move, next, ph.a)
      && (next <= sc.stopTime ==> Event(next, ph.a, Move) in w.queue)
      && (next > sc.stopTime ==> forall n :: Due(sc, q, Move, next, n) && Due(sc, q, Geometry, next, n))
    ensures if sc.links != [] then Only(q, X2, ph.tick, ph.c) else X2Due(sc, q, ph.tick + sc.period, 0)
    ensures forall uid :: Only(q, Stop, sc.stopTime, uid) <==> Only(w.queue, Stop, sc.stopTime, uid)
  {
    hide CachesOk, DelaysOk, Located;
    Replaced(sc, w.queue, q, e, Event(ph.tick + sc.period, w.nextUid, Geometry));
    OtherKinds(sc, w.queue, q, Geometry);
  }

  /** What one refresh of the caches does to the state. */
  lemma GeometryEffect(sc: Scenario, w: World, e: Event, others: seq<nat>)
    requires sc.Valid() && |w.positions| == |sc.cells| && e.kind == Geometry
    ensures var x, again := Execute(sc, w, e, others), Event(e.time + sc.period, w.nextUid, Geometry);
      && x.now == e.time && x.positions == w.positions && x.delays == w.delays && x.stopped == w.stopped
      && CachesOk(sc, x)
      && x.nextUid == w.nextUid + (if again.time <= sc.stopTime then 1 else 0)
      && x.queue == w.queue - {e} + (if again.time <= sc.stopTime then {again} else {})
  {
    hide CachesOk, RefreshGeometry;
    RefreshGeometryEffect(sc, w.(now := e.time, queue := w.queue - {e}));
  }

  /** The caches hold what follows from where the beams are; a refresh of the delays is still due if there are links. */
  lemma StepGeometry(sc: Scenario, w: World, ph: Phase, stop: nat, e: Event, others: seq<nat>) returns (ph': Phase)
    requires sc.Valid() && Inv(sc, w, ph, stop) && IsNext(w, e) && e.kind == Geometry
    ensures |w.positions| == |sc.cells| && Inv(sc, Execute(sc, w, e, others), ph', stop)
    ensures if sc.links != [] then ph'.Refreshed? && ph'.tick == e.time
            else ph'.AtRest? && ph'.next == e.time + sc.period
    ensures var x := Execute(sc, w, e, others);
      && x.positions == w.positions && CachesOk(sc, x)
      && (sc.links != [] ==> Only(x.queue, X2, e.time, ph'.c))
      && Due(sc, x.queue, Geometry, e.time + sc.period, ph'.b)
  {
    KindsByPhase(sc, w, ph, stop, e);
    hide CachesOk, Located, RefreshGeometry;
    GeometryEffect(sc, w, e, others);
    var Moved(tick, a, b, c) := ph;
    var x := Execute(sc, w, e, others);
    GeometryQueue(sc, w, ph, stop, e, x.queue);
    var on := tick + sc.period <= sc.stopTime;
    hide Due, Only, X2Due, Execute;
    var a', b' := if on then a else stop + 1, if on then w.nextUid else stop + 2;
    if sc.links != [] {
      hide DelaysOk;
      ph' := Refreshed(tick, a', b', c);
    } else {
      assert x.delays == [];
      ph' := AtRest(tick + sc.period, a', b', 0);
    }
  }

  /** The delays are those of the present distances, and the tick is complete. */
  lemma StepX2(sc: Scenario, w: World, ph: Phase, stop: nat, e: Event, others: seq<nat>) returns (ph': Phase)
    requires sc.Valid() && Inv(sc, w, ph, stop) && IsNext(w, e) && e.kind == X2
    ensures |w.positions| == |sc.cells| && Inv(sc, Execute(sc, w, e, others), ph', stop)
    ensures ph'.AtRest? && ph'.next == e.time + sc.period
    ensures var x := Execute(sc, w, e, others);
      x.positions == w.positions && CachesOk(sc, x) && DelaysOk(sc, x) && BetweenTicks(x)
  {
    KindsByPhase(sc, w, ph, stop, e);
    var Refreshed(tick, a, b, c) := ph;
    var x := Execute(sc, w, e, others);
    CachesDependOnData(sc, x, w);
    hide CachesOk, Located;
    var again := Event(tick + sc.period, w.nextUid, X2);
    assert x.queue == w.queue - {e} + (if again.time <= sc.stopTime then {again} else {});
    Replaced(sc, w.queue, x.queue, e, again);
    OtherKinds(sc, w.queue, x.queue, X2);
    ph' := AtRest(tick + sc.period, a, b, if again.time <= sc.stopTime then w.nextUid else b + 1);
  }

  lemma StepStop(sc: Scenario, w: World, ph: Phase, stop: nat, e: Event, others: seq<nat>)
    requires sc.Valid() && Inv(sc, w, ph, stop) && IsNext(w, e) && e.kind == Stop
    ensures |w.positions| == |sc.cells| && Inv(sc, Execute(sc, w, e, others), ph, stop)
  {
    KindsByPhase(sc, w, ph, stop, e);
    var AtRest(next, a, b, c) := ph;
    var x := Execute(sc, w, e, others);
    assert forall f: Event :: f.kind != Stop ==> (f in w.queue <==> f in x.queue);
    OtherKinds(sc, w.queue, x.queue, Stop);
    CachesDependOnData(sc, x, w);
    hide CachesOk, Located;
    assert next <= sc.stopTime ==> Before(e, Event(next, a, Move));
  }

  lemma Step(sc: Scenario, w: World, ph: Phase, stop: nat, e: Event, others: seq<nat>) returns (ph': Phase)
    requires sc.Valid() && Inv(sc, w, ph, stop) && IsNext(w, e)
    ensures |w.positions| == |sc.cells| && Inv(sc, Execute(sc, w, e, others), ph', stop)
  {
    ph' := ph;
    match e.kind
    case Move => ph' := StepMove(sc, w, ph, stop, e, others);
    case Geometry => ph' := StepGeometry(sc, w, ph, stop, e, others);
    case X2 => ph' := StepX2(sc, w, ph, stop, e, others);
    case Stop => StepStop(sc, w, ph, stop, e, others);
    case Other => StepOther(sc, w, ph, stop, e, others);
  }

  // ----- The start -----

  lemma SetupData(sc: Scenario, first: seq<nat>, second: seq<nat>, third: seq<nat>, fourth: seq<nat>)
    requires sc.Valid()
    ensures var w := Setup(sc, first, second, third, fourth);
      && w.positions == Located(sc, 0) && w.now == 0 && !w.stopped
      && CachesOk(sc, w) && DelaysOk(sc, w) && |w.delays| == |sc.links|
  {
    SetupBeamsKeeps(sc, first, second);
    BeamsCached(sc, first, second);
    var cached := SetupBeams(sc, first, second);
    hide SetupBeams, CachesOk, Located;
    SchedulingKeeps(cached, third);
    var others := ScheduleOthers(cached, third);
    var linked := others.(delays := LinkDelays(sc, others.positions));
    var timed := if sc.links != [] then Schedule(linked, sc.period, X2) else linked;
    SchedulingKeeps(Schedule(timed, sc.stopTime, Stop), fourth);
    CachesDependOnData(sc, Setup(sc, first, second, third, fourth), cached);
  }

  lemma BeamsCached(sc: Scenario, first: seq<nat>, second: seq<nat>)
    requires sc.Valid()
    ensures CachesOk(sc, SetupBeams(sc, first, second))
  {
    var blank := Blank(sc);
    var moved := MoveBeams(sc, ScheduleOthers(blank, first));
    SchedulingKeeps(moved, second);
    RefreshGeometryEffect(sc, ScheduleOthers(moved, second));
  }

  /** The events that matter. */
  ghost function Relevant(q: set<Event>): set<Event> {
    set e | e in q && e.kind != Other
  }

  ghost predicate Numbered(w: World) {
    w.now >= 0 && forall e :: e in w.queue ==> e.time >= 0 && e.uid < w.nextUid
  }

  lemma RelevantAfterOthers(w: World, others: seq<nat>)
    requires Numbered(w)
    ensures var v := ScheduleOthers(w, others);
      Relevant(v.queue) == Relevant(w.queue) && v.nextUid >= w.nextUid && Numbered(v) && v.now == w.now
  {
    SchedulingKeeps(w, others);
  }

  lemma RelevantAfterSchedule(w: World, delay: nat, kind: Kind)
    requires Numbered(w) && kind != Other
    ensures var v := Schedule(w, delay, kind);
      && Relevant(v.queue) == Relevant(w.queue) + {Event(w.now + delay, w.nextUid, kind)}
      && v.nextUid == w.nextUid + 1 && Numbered(v) && v.now == w.now
  {
  }

  lemma MovedQueue(sc: Scenario, first: seq<nat>) returns (a: nat)
    requires sc.Valid()
    ensures var w := MoveBeams(sc, ScheduleOthers(Blank(sc), first));
      && Numbered(w) && w.now == 0 && |w.positions| == |sc.cells|
      && (sc.period <= sc.stopTime ==> a < w.nextUid)
      && Relevant(w.queue) == if sc.period <= sc.stopTime then {Event(sc.period, a, Move)} else {}
  {
    RelevantAfterOthers(Blank(sc), first);
    var before := ScheduleOthers(Blank(sc), first);
    a := before.nextUid;
    RelevantAfterSchedule(before.(positions := Located(sc, before.now)), sc.period, Move);
    hide ScheduleOthers, Relevant, Schedule;
  }

  lemma BeamsQueue(sc: Scenario, first: seq<nat>, second: seq<nat>) returns (a: nat, b: nat)
    requires sc.Valid()
    ensures var w := SetupBeams(sc, first, second);
      && Numbered(w)
      && (sc.period <= sc.stopTime ==> a < b < w.nextUid)
      && Relevant(w.queue) ==
           if sc.period <= sc.stopTime then {Event(sc.period, a, Move), Event(sc.period, b, Geometry)} else {}
  {
    a := MovedQueue(sc, first);
    var moved := MoveBeams(sc, ScheduleOthers(Blank(sc), first));
    RelevantAfterOthers(moved, second);
    SchedulingKeeps(moved, second);
    var others := ScheduleOthers(moved, second);
    b := others.nextUid;
    RefreshGeometryEffect(sc, others);
    RelevantAfterSchedule(others, sc.period, Geometry);
    hide RefreshGeometry, MoveBeams, ScheduleOthers, Schedule, CachesOk, Located;
  }

  /** After the setup the events that matter are those of the three processes and the end, in this order. */
  lemma SetupQueue(sc: Scenario, first: seq<nat>, second: seq<nat>, third: seq<nat>, fourth: seq<nat>)
    returns (a: nat, b: nat, c: nat, stop: nat)
    requires sc.Valid()
    ensures sc.period <= sc.stopTime ==> a < b < stop && (sc.links != [] ==> b < c < stop)
    ensures var w := Setup(sc, first, second, third, fourth);
      && stop < w.nextUid && Numbered(w)
      && Relevant(w.queue) ==
           (if sc.period <= sc.stopTime then {Event(sc.period, a, Move), Event(sc.period, b, Geometry)} else {})
           + (if sc.links != [] then {Event(sc.period, c, X2)} else {}) + {Event(sc.stopTime, stop, Stop)}
  {
    a, b := BeamsQueue(sc, first, second);
    SetupBeamsKeeps(sc, first, second);
    var w := SetupBeams(sc, first, second);
    hide SetupBeams, Located;
    SchedulingKeeps(w, third);
    RelevantAfterOthers(w, third);
    var others := ScheduleOthers(w, third);
    c := others.nextUid;
    var linked := others.(delays := LinkDelays(sc, others.positions));
    RelevantAfterSchedule(linked, sc.period, X2);
    var timed := if sc.links != [] then Schedule(linked, sc.period, X2) else linked;
    stop := timed.nextUid;
    RelevantAfterSchedule(timed, sc.stopTime, Stop);
    RelevantAfterOthers(Schedule(timed, sc.stopTime, Stop), fourth);
    hide Relevant, ScheduleOthers, Schedule;
  }

  lemma SetupInv(sc: Scenario, first: seq<nat>, second: seq<nat>, third: seq<nat>, fourth: seq<nat>)
    returns (ph: Phase, stop: nat)
    requires sc.Valid()
    ensures Inv(sc, Setup(sc, first, second, third, fourth), ph, stop)
  {
    SetupData(sc, first, second, third, fourth);
    var a, b, c;
    a, b, c, stop := SetupQueue(sc, first, second, third, fourth);
    var w := Setup(sc, first, second, third, fourth);
    hide Setup, CachesOk, DelaysOk, Located, X2Due, Due, Scenario.Valid;
    assert IsTick(sc, 0, 0);
    if sc.period <= sc.stopTime {
      ph := AtRest(sc.period, a, b, c);
    } else {
      ph := AtRest(sc.period, stop + 1, stop + 2, stop + 3);
    }
    SetupDue(sc, w.queue, a, b, c, stop);
  }

  lemma SetupDue(sc: Scenario, q: set<Event>, a: nat, b: nat, c: nat, stop: nat)
    requires Relevant(q) ==
      (if sc.period <= sc.stopTime then {Event(sc.period, a, Move), Event(sc.period, b, Geometry)} else {})
      + (if sc.links != [] then {Event(sc.period, c, X2)} else {}) + {Event(sc.stopTime, stop, Stop)}
    ensures Only(q, Stop, sc.stopTime, stop)
    ensures sc.period <= sc.stopTime ==>
      Due(sc, q, Move, sc.period, a) && Due(sc, q, Geometry, sc.period, b) && X2Due(sc, q, sc.period, c)
    ensures sc.period > sc.stopTime ==> forall n ::
      Due(sc, q, Move, sc.period, n) && Due(sc, q, Geometry, sc.period, n) && X2Due(sc, q, sc.period, n)
  {
    var known := Relevant(q);
    assert forall e :: e in known <==> e in q && e.kind != Other;
    hide Relevant;
  }

  // ----- Whole runs -----

  lemma {:induction false} RunInv(sc: Scenario, worlds: seq<World>, events: seq<(Event, seq<nat>)>, i: nat)
    returns (ph: Phase, stop: nat)
    requires sc.Valid() && IsRun(sc, worlds, events) && i <= |events|
    ensures Inv(sc, worlds[i], ph, stop)
  {
    hide Inv, Setup, Execute;
    if i == 0 {
      var a, b, c, d :| worlds[0] == Setup(sc, a, b, c, d);
      ph, stop := SetupInv(sc, a, b, c, d);
    } else {
      ph, stop := RunInv(sc, worlds, events, i - 1);
      ph := Step(sc, worlds[i - 1], ph, stop, events[i - 1].0, events[i - 1].1);
    }
  }

  /**
   In every reachable state between ticks, and in every state in which the run has ended, the caches
   and the link delays agree with where the beams are; and the beams are where they were at a tick less
   than one period ago (or exactly one, if the end comes before the updates of its own tick).
   */
  lemma CoherentBetweenTicks(sc: Scenario, worlds: seq<World>, events: seq<(Event, seq<nat>)>, i: nat)
    requires sc.Valid() && IsRun(sc, worlds, events) && i <= |events|
    requires BetweenTicks(worlds[i]) || worlds[i].stopped
    ensures CachesOk(sc, worlds[i]) && DelaysOk(sc, worlds[i])
    ensures exists n: nat ::
      && IsTick(sc, n, n * sc.period)
      && worlds[i].positions == Located(sc, n * sc.period)
      && n * sc.period <= worlds[i].now <= (n + 1) * sc.period
      && (!worlds[i].stopped ==> worlds[i].now < (n + 1) * sc.period)
  {
    var w := worlds[i];
    var ph, stop := RunInv(sc, worlds, events, i);
    WithinTick(sc, w, ph, stop);
    hide CachesOk, DelaysOk, Located;
    var AtRest(next, a, b, c) := ph;
    var n: nat :| IsTick(sc, n, next - sc.period);
    assert (n + 1) * sc.period == n * sc.period + sc.period;
    if !w.stopped && next <= sc.stopTime {
      assert Event(next, a, Move) in w.queue;
    }
  }

  lemma WithinTick(sc: Scenario, w: World, ph: Phase, stop: nat)
    requires Inv(sc, w, ph, stop)
    ensures !ph.AtRest? ==> !BetweenTicks(w) && !w.stopped
  {
    match ph
    case AtRest(_, _, _, _) =>
    case Moved(tick, a, b, c) => assert Event(tick, b, Geometry) in w.queue;
    case Refreshed(tick, a, b, c) => assert Event(tick, c, X2) in w.queue;
  }

  // ----- The links -----

  /** The pairs that the loops over the beams have joined, when the outer one is at i and the inner one at j. */
  ghost predicate Joined(links: seq<(nat, nat)>, i: nat, j: nat, n: nat) {
    && NoDuplicates(links)
    && forall a: nat, b: nat :: (a, b) in links <==> a < b < n && (a < i || (a == i && b < j))
  }

  /** Every two of n beams are joined by one link, from the one with the lower number to the other. */
  method X2Links(n: nat) returns (links: seq<(nat, nat)>)
    ensures NoDuplicates(links)
    ensures forall a: nat, b: nat :: (a, b) in links <==> a < b < n
    ensures 2 * |links| == n * (n - 1)
  {
    links := [];
    for i := 0 to n
      invariant Joined(links, i, 0, n)
      invariant 2 * |links| == i * (2 * n - i - 1)
    {
      ghost var before := |links|;
      for j := i + 1 to n
        invariant Joined(links, i, j, n)
        invariant |links| == before + j - i - 1
      {
        NoDuplicatesAppend(links, (i, j));
        links := links + [(i, j)];
      }
      assert Joined(links, i + 1, 0, n);
      Pairs(n, i);
    }
  }

  lemma Pairs(n: nat, i: nat)
    requires i < n
    ensures i * (2 * n - i - 1) + 2 * (n - i - 1) == (i + 1) * (2 * n - (i + 1) - 1)
  {
  }

  // ----- The program -----

  class Simulation {
    const sc: Scenario
    var now: Time
    var nextUid: nat
    var queue: set<Event>
    var positions: seq<Point>
    var cellPosition: map<CellId, Point>
    var cellOffAxis: map<CellId, real>
    var cellGain: map<CellId, real>
    var nodeGain: map<nat, real>
    var delays: seq<real>
    var stopped: bool

    ghost function State(): World
      reads this
    {
      World(now, nextUid, queue, positions, cellPosition, cellOffAxis, cellGain, nodeGain, delays, stopped)
    }

    ghost predicate Valid()
      reads this
    {
      sc.Valid() && |positions| == |sc.cells| && |delays| == |sc.links|
    }

    method ScheduleIfInTime(kind: Kind)
      modifies this`queue, this`nextUid
      ensures State() == ScheduleAgain(sc, old(State()), kind)
    {
      if now + sc.period <= sc.stopTime {
        queue := queue + {Event(now + sc.period, nextUid, kind)};
        nextUid := nextUid + 1;
      }
    }

    method UpdateLeoGnbPositions()
      requires Valid()
      modifies this`positions, this`queue, this`nextUid
      ensures Valid() && State() == MoveBeams(sc, old(State()))
      ensures forall i :: 0 <= i < |sc.cells| ==> positions[i] == sc.orbit(i, now)
    {
      for i := 0 to |sc.cells|
        invariant |positions| == |sc.cells|
        invariant forall k :: 0 <= k < i ==> positions[k] == sc.orbit(k, now)
        invariant State() == old(State()).(positions := positions)
      {
        positions := positions[i := sc.orbit(i, now)];
      }
      assert positions == Located(sc, now);
      ScheduleIfInTime(Move);
    }

    method UpdateLiveCellGeometry()
      requires Valid()
      modifies this`cellPosition, this`cellOffAxis, this`cellGain, this`nodeGain, this`queue, this`nextUid
      ensures Valid() && State() == RefreshGeometry(sc, old(State()))
      ensures CachesOk(sc, State())
    {
      RefreshGeometryEffect(sc, State());
      hide CachesOk;
      for i := 0 to |sc.cells|
        invariant State() == Cached(sc, old(State()), i)
        invariant positions == old(positions) && delays == old(delays)
      {
        var livePosition, cellId := positions[i], sc.cells[i];
        var offAxis := sc.offAxis(livePosition);
        cellPosition := cellPosition[cellId := livePosition];
        cellOffAxis := cellOffAxis[cellId := offAxis];
        cellGain := cellGain[cellId := sc.gain(offAxis)];
        nodeGain := nodeGain[i := sc.gain(offAxis)];
      }
      ScheduleIfInTime(Geometry);
    }

    method UpdateDynamicX2Delays()
      requires Valid()
      modifies this`delays, this`queue, this`nextUid
      ensures Valid() && State() == RefreshX2(sc, old(State()))
      ensures DelaysOk(sc, State())
    {
      for k := 0 to |sc.links|
        invariant |delays| == |sc.links|
        invariant forall m :: 0 <= m < k ==> delays[m] == LinkDelay(sc, positions, sc.links[m])
        invariant State() == old(State()).(delays := delays)
      {
        delays := delays[k := LinkDelay(sc, positions, sc.links[k])];
      }
      assert delays == LinkDelays(sc, positions);
      LinkDelaysOk(sc, State());
      hide DelaysOk, LinkDelays;
      DelaysDependOnData(sc, RefreshX2(sc, old(State())), State());
      ScheduleIfInTime(X2);
    }
  }
}
