/** The pin hit tracker of the pinball table: eight fixed pins whose outline
    turns from teal to green when a collision with them starts, and back to
    teal once more than three seconds have passed without a new strike.

    The code changes a pin's colour by despawning its entity and spawning a
    new one; here a world is the sequence of live pin entities, and a respawn
    replaces the entity at the same index by one with a fresh entity id. */
module Pins {
  import opened Optional

  /** World units per physical metre; every pin coordinate and radius is a
      multiple of it. */
  const PixelsPerMeter: real := 692.3

  /** Radius used when a pin's layout entry names none. */
  const DefaultRadius: real := PixelsPerMeter * 0.05
  /** Radius of the two upper pins (layout indices 0 and 1). */
  const LargeRadius: real := PixelsPerMeter * 0.07
  /** Radius of the two middle pins (layout indices 2 and 3). */
  const SmallRadius: real := PixelsPerMeter * 0.04

  /** The stored timestamp meaning "never hit" (an absent timestamp is stored as it). */
  const NeverHit: real := 0.0

  /** Seconds a pin keeps its struck colour; the reset needs strictly more. */
  const CoolDown: real := 3.0

  /** Number of pins on the table. */
  const PinCount: nat := 8

  datatype Vec2 = Vec2(x: real, y: real)

  /** Outline colour of a pin's circle. */
  datatype Colour = Teal | Green

  type EntityId = nat

  /** The Pin component: when it was last hit, where it stands, how large it is. */
  datatype Pin = Pin(lastHit: real, position: Vec2, radius: real)

  /** A live pin entity: its id, its Pin component and the outline colour its
      shape was built with. */
  datatype PinEntity = PinEntity(id: EntityId, pin: Pin, outline: Colour)

  /** The live pin entities, and the first entity id the engine has not handed out yet. */
  datatype World = World(pins: seq<PinEntity>, nextId: EntityId)

  /** A collision notification from the physics engine naming its two bodies. */
  datatype CollisionEvent = Started(h1: EntityId, h2: EntityId) | Stopped(h1: EntityId, h2: EntityId)

  /** The pin positions, in layout order. */
  const PinPositions: seq<Vec2> := [
    Vec2(PixelsPerMeter * (-0.20), PixelsPerMeter * 0.35),
    Vec2(PixelsPerMeter * 0.20, PixelsPerMeter * 0.35),
    Vec2(PixelsPerMeter * 0.15, PixelsPerMeter * 0.2),
    Vec2(PixelsPerMeter * (-0.15), PixelsPerMeter * 0.2),
    Vec2(PixelsPerMeter * 0.09, PixelsPerMeter * 0.8),
    Vec2(PixelsPerMeter * (-0.15), PixelsPerMeter * 0.8),
    Vec2(PixelsPerMeter * 0.17, PixelsPerMeter * (-0.01)),
    Vec2(PixelsPerMeter * (-0.20), PixelsPerMeter * (-0.01))
  ]

  /** The outline colour chosen for a stored timestamp: teal exactly for "never hit". */
  function OutlineFor(lastHit: real): (c: Colour)
    ensures c == Teal <==> lastHit == NeverHit
    ensures c == Green <==> lastHit != NeverHit
  {
    if lastHit == 0.0 then Teal else Green
  }

  /** Builds one pin entity. An absent timestamp is stored as "never hit" and
      an absent radius becomes the default radius. */
  function SpawnSinglePin(id: EntityId, position: Vec2, timestampLastHit: Option<real>, radius: Option<real>): (e: PinEntity)
    ensures e.id == id && e.pin.position == position
    ensures radius.Some? ==> e.pin.radius == radius.value
    ensures radius.None? ==> e.pin.radius == DefaultRadius
    ensures timestampLastHit.Some? ==> e.pin.lastHit == timestampLastHit.value
    ensures timestampLastHit.None? ==> e.pin.lastHit == NeverHit && e.outline == Teal
    ensures e.outline == Teal <==> (timestampLastHit.None? || timestampLastHit.value == NeverHit)
  {
    var r := radius.UnwrapOr(DefaultRadius);
    var t := timestampLastHit.UnwrapOr(NeverHit);
    PinEntity(id, Pin(t, position, r), OutlineFor(t))
  }

  /** The radius the layout names for pin `i`, if any: the small radius for
      indices 2 and 3, then the large one for indices 0 and 1. */
  function LayoutRadius(i: nat): (r: Option<real>)
  {
    var size := if i == 2 || i == 3 then Some(SmallRadius) else None;
    if i == 0 || i == 1 then Some(LargeRadius) else size
  }

  /** Invariant of every world the tracker produces: each live pin has an id
      the engine already issued, no two live pins share an id, and each
      outline agrees with the stored timestamp. */
  predicate WellFormed(w: World)
  {
    && (forall i :: 0 <= i < |w.pins| ==> w.pins[i].id < w.nextId)
    && (forall i, j :: 0 <= i < j < |w.pins| ==> w.pins[i].id != w.pins[j].id)
    && (forall i :: 0 <= i < |w.pins| ==> w.pins[i].outline == OutlineFor(w.pins[i].pin.lastHit))
  }

  /** Spawns the eight pins of the layout as entities `firstId`, `firstId + 1`, ...,
      after the entities spawned before them (ids below `firstId`). */
  function SpawnPins(firstId: EntityId): (w: World)
    ensures |w.pins| == PinCount && WellFormed(w)
    ensures forall i :: 0 <= i < |w.pins| ==>
      && w.pins[i].pin.position == PinPositions[i]
      && w.pins[i].pin.lastHit == NeverHit
      && w.pins[i].outline == Teal
      && w.pins[i].id >= firstId
    ensures forall i :: 0 <= i < |w.pins| ==>
      w.pins[i].pin.radius == if i < 2 then LargeRadius else if i < 4 then SmallRadius else DefaultRadius
  {
    World(seq(PinCount, i requires 0 <= i < PinCount => SpawnSinglePin(firstId + i, PinPositions[i], None, LayoutRadius(i))),
          firstId + PinCount)
  }

  /** Whether a collision event reports that the entity `id` started touching something. */
  predicate Names(e: CollisionEvent, id: EntityId)
  {
    e.Started? && (e.h1 == id || e.h2 == id)
  }

  /** Whether one of the first `n` events starts a collision with the entity `id`. */
  predicate StruckWithin(events: seq<CollisionEvent>, n: nat, id: EntityId)
    requires n <= |events|
  {
    exists k :: 0 <= k < n && Names(events[k], id)
  }

  /** Whether any of the events starts a collision with the entity `id`. */
  predicate StruckBy(events: seq<CollisionEvent>, id: EntityId)
  {
    StruckWithin(events, |events|, id)
  }

  /** The id given to the entity that replaces the pin at index `i` during one
      system run: one the engine has not handed out before. */
  function FreshId(w: World, i: nat): EntityId
  {
    w.nextId + i
  }

  /** The entity that replaces the pin at index `i` when it is struck at time `now`. */
  function Restruck(w: World, i: nat, now: real): (e: PinEntity)
    requires i < |w.pins|
    ensures e.id == FreshId(w, i)
    ensures e.pin == Pin(now, w.pins[i].pin.position, w.pins[i].pin.radius)
    ensures e.outline == Teal <==> now == NeverHit
  {
    SpawnSinglePin(FreshId(w, i), w.pins[i].pin.position, Some(now), Some(w.pins[i].pin.radius))
  }

  /** The idle entity that replaces the pin at index `i` when its cool-down has elapsed. */
  function Reset(w: World, i: nat): (e: PinEntity)
    requires i < |w.pins|
    ensures e.id == FreshId(w, i)
    ensures e.pin == Pin(NeverHit, w.pins[i].pin.position, w.pins[i].pin.radius)
    ensures e.outline == Teal
  {
    SpawnSinglePin(FreshId(w, i), w.pins[i].pin.position, None, Some(w.pins[i].pin.radius))
  }

  /** The collision system, over one frame's events at time `now`: every pin
      that some started collision names is respawned, at the same place and
      size, stamped with `now`; every other pin stays as it is. */
  function HandlePinEvents(w: World, events: seq<CollisionEvent>, now: real): (r: World)
    ensures |r.pins| == |w.pins| && r.nextId == w.nextId + |w.pins|
    ensures forall i :: 0 <= i < |w.pins| && StruckBy(events, w.pins[i].id) ==>
      && r.pins[i].id == FreshId(w, i)
      && r.pins[i].pin == Pin(now, w.pins[i].pin.position, w.pins[i].pin.radius)
      && (r.pins[i].outline == Teal <==> now == NeverHit)
    ensures forall i :: 0 <= i < |w.pins| && !StruckBy(events, w.pins[i].id) ==> r.pins[i] == w.pins[i]
    ensures WellFormed(w) ==> WellFormed(r)
  {
    World(seq(|w.pins|, i requires 0 <= i < |w.pins| =>
                if StruckBy(events, w.pins[i].id) then Restruck(w, i, now) else w.pins[i]),
          w.nextId + |w.pins|)
  }

  /** Whether a pin's cool-down has run out at time `now`: it has been hit
      (its timestamp is positive) and strictly more than the cool-down has
      passed since. */
  predicate CoolDownElapsed(p: Pin, now: real)
  {
    p.lastHit > 0.0 && now - p.lastHit > CoolDown
  }

  /** The reset system at time `now`: every pin whose cool-down has elapsed is
      respawned idle at the same place and size; every other pin stays as it is. */
  function RespawnExpired(w: World, now: real): (r: World)
    ensures |r.pins| == |w.pins| && r.nextId == w.nextId + |w.pins|
    ensures forall i :: 0 <= i < |w.pins| && CoolDownElapsed(w.pins[i].pin, now) ==>
      && r.pins[i].id == FreshId(w, i)
      && r.pins[i].pin == Pin(NeverHit, w.pins[i].pin.position, w.pins[i].pin.radius)
      && r.pins[i].outline == Teal
    ensures forall i :: 0 <= i < |w.pins| && !CoolDownElapsed(w.pins[i].pin, now) ==> r.pins[i] == w.pins[i]
    ensures WellFormed(w) ==> WellFormed(r)
  {
    World(seq(|w.pins|, i requires 0 <= i < |w.pins| =>
                if CoolDownElapsed(w.pins[i].pin, now) then Reset(w, i) else w.pins[i]),
          w.nextId + |w.pins|)
  }

  /** The collision system as the engine runs it: for each event in turn, walk
      the pins as they were when the system started, and respawn each one the
      event names. Computes exactly `HandlePinEvents`. */
  method HandlePinEventsByQuery(w: World, events: seq<CollisionEvent>, now: real) returns (r: World)
    ensures r == HandlePinEvents(w, events, now)
  {
    var pins := w.pins;
    var k := 0;
    while k < |events|
      invariant 0 <= k <= |events|
      invariant |pins| == |w.pins|
      invariant forall m :: 0 <= m < |pins| ==>
        pins[m] == if StruckWithin(events, k, w.pins[m].id) then Restruck(w, m, now) else w.pins[m]
    {
      var j := 0;
      while j < |w.pins|
        invariant 0 <= j <= |w.pins|
        invariant |pins| == |w.pins|
        invariant forall m :: 0 <= m < |pins| ==>
          pins[m] == if StruckWithin(events, k, w.pins[m].id) || (m < j && Names(events[k], w.pins[m].id))
                     then Restruck(w, m, now) else w.pins[m]
      {
        var entity := w.pins[j].id;
        if events[k].Started? && (events[k].h1 == entity || events[k].h2 == entity) {
          pins := pins[j := Restruck(w, j, now)];
        }
        j := j + 1;
      }
      k := k + 1;
    }
    r := World(pins, w.nextId + |w.pins|);
  }

  /** The reset system as the engine runs it: one walk over the pins. Computes
      exactly `RespawnExpired`. */
  method RespawnExpiredByQuery(w: World, now: real) returns (r: World)
    ensures r == RespawnExpired(w, now)
  {
    var pins := w.pins;
    var j := 0;
    while j < |w.pins|
      invariant 0 <= j <= |w.pins|
      invariant |pins| == |w.pins|
      invariant forall m :: 0 <= m < |pins| ==>
        pins[m] == if m < j && CoolDownElapsed(w.pins[m].pin, now) then Reset(w, m) else w.pins[m]
    {
      var diff := now - w.pins[j].pin.lastHit;
      if w.pins[j].pin.lastHit > 0.0 && diff > CoolDown {
        pins := pins[j := Reset(w, j)];
      }
      j := j + 1;
    }
    r := World(pins, w.nextId + |w.pins|);
  }

  /** One run of one of the two update systems. */
  datatype Step = Collisions(events: seq<CollisionEvent>, now: real) | Tick(now: real)

  /** Applies one system run. */
  function Apply(w: World, s: Step): World
  {
    match s
    case Collisions(events, now) => HandlePinEvents(w, events, now)
    case Tick(now) => RespawnExpired(w, now)
  }

  /** Applies a sequence of system runs, first to last. */
  function Run(w: World, steps: seq<Step>): World
    decreases |steps|
  {
    if |steps| == 0 then w else Run(Apply(w, steps[0]), steps[1..])
  }
}
