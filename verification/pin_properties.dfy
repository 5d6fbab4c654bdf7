/** Properties of the pin hit tracker across strikes, resets and whole runs
    of the two update systems. */
module PinProperties {
  import opened Pins

  /** Frames in which only the reset system runs, at the given times. */
  function Ticks(times: seq<real>): (steps: seq<Step>)
    ensures |steps| == |times|
    ensures forall k :: 0 <= k < |times| ==> steps[k] == Tick(times[k])
  {
    seq(|times|, k requires 0 <= k < |times| => Tick(times[k]))
  }

  /** Running `a` then `b` is running `a + b`. */
  lemma {:induction false} RunAppend(w: World, a: seq<Step>, b: seq<Step>)
    ensures Run(w, a + b) == Run(Run(w, a), b)
    decreases |a|
  {
    if |a| == 0 {
      assert a + b == b;
    } else {
      assert (a + b)[1..] == a[1..] + b;
      RunAppend(Apply(w, a[0]), a[1..], b);
    }
  }

  /** No sequence of strikes and resets moves a pin or changes its size, and
      none adds or removes a pin. */
  lemma {:induction false} RunPreservesGeometry(w: World, steps: seq<Step>)
    ensures |Run(w, steps).pins| == |w.pins|
    ensures forall i :: 0 <= i < |w.pins| ==>
      && Run(w, steps).pins[i].pin.position == w.pins[i].pin.position
      && Run(w, steps).pins[i].pin.radius == w.pins[i].pin.radius
    decreases |steps|
  {
    if |steps| > 0 {
      RunPreservesGeometry(Apply(w, steps[0]), steps[1..]);
    }
  }

  /** Every world reached from a well-formed one is well-formed: ids stay
      unique and issued, and every outline agrees with its timestamp. */
  lemma {:induction false} RunPreservesWellFormed(w: World, steps: seq<Step>)
    requires WellFormed(w)
    ensures WellFormed(Run(w, steps))
    decreases |steps|
  {
    if |steps| > 0 {
      RunPreservesWellFormed(Apply(w, steps[0]), steps[1..]);
    }
  }

  /** From the initial layout, in every reachable world each pin is teal
      exactly when its timestamp is "never hit", still stands at its layout
      position and keeps its layout radius. */
  lemma LayoutSurvivesEveryRun(firstId: EntityId, steps: seq<Step>)
    ensures var w := Run(SpawnPins(firstId), steps);
      && |w.pins| == PinCount
      && forall i :: 0 <= i < PinCount ==>
        && (w.pins[i].outline == Teal <==> w.pins[i].pin.lastHit == NeverHit)
        && w.pins[i].pin.position == PinPositions[i]
        && w.pins[i].pin.radius == if i < 2 then LargeRadius else if i < 4 then SmallRadius else DefaultRadius
  {
    RunPreservesGeometry(SpawnPins(firstId), steps);
    RunPreservesWellFormed(SpawnPins(firstId), steps);
  }

  /** The collision system replaces a pin exactly when some started collision
      names it, and the replaced entity id no longer names any live pin. */
  lemma StrikeReplacesExactlyNamedPins(w: World, events: seq<CollisionEvent>, now: real, i: nat)
    requires WellFormed(w) && i < |w.pins|
    ensures HandlePinEvents(w, events, now).pins[i] != w.pins[i] <==> StruckBy(events, w.pins[i].id)
    ensures StruckBy(events, w.pins[i].id) ==>
      forall j :: 0 <= j < |w.pins| ==> HandlePinEvents(w, events, now).pins[j].id != w.pins[i].id
  {
  }

  /** Events that start no collision with a pin leave every pin as it is. */
  lemma UnrelatedEventsChangeNothing(w: World, events: seq<CollisionEvent>, now: real)
    requires forall k, i :: 0 <= k < |events| && 0 <= i < |w.pins| ==> !Names(events[k], w.pins[i].id)
    ensures HandlePinEvents(w, events, now).pins == w.pins
  {
    var r := HandlePinEvents(w, events, now);
    forall i | 0 <= i < |w.pins|
      ensures r.pins[i] == w.pins[i]
    {
      assert !StruckBy(events, w.pins[i].id);
    }
  }

  /** In particular, a frame with only ended collisions changes no pin. */
  lemma StoppedEventsChangeNothing(w: World, events: seq<CollisionEvent>, now: real)
    requires forall k :: 0 <= k < |events| ==> events[k].Stopped?
    ensures HandlePinEvents(w, events, now).pins == w.pins
  {
    UnrelatedEventsChangeNothing(w, events, now);
  }

  /** The reset system replaces a pin exactly when it has been hit and more
      than the cool-down has passed; the replacement is idle. */
  lemma ResetExactlyExpiredPins(w: World, now: real, i: nat)
    requires WellFormed(w) && i < |w.pins|
    ensures RespawnExpired(w, now).pins[i] != w.pins[i] <==> (w.pins[i].pin.lastHit > 0.0 && now - w.pins[i].pin.lastHit > CoolDown)
    ensures RespawnExpired(w, now).pins[i] != w.pins[i] ==> RespawnExpired(w, now).pins[i].outline == Teal
  {
  }

  /** Striking a pin again stamps it with the later time, whatever its old
      timestamp, so it is reset at the first tick strictly more than the
      cool-down after that later strike, and at no tick before. */
  lemma RestrikeRestartsCoolDown(w: World, events: seq<CollisionEvent>, t: real, i: nat, now: real)
    requires WellFormed(w) && i < |w.pins| && StruckBy(events, w.pins[i].id) && t > 0.0
    ensures HandlePinEvents(w, events, t).pins[i].pin.lastHit == t
    ensures HandlePinEvents(w, events, t).pins[i].outline == Green
    ensures var r := HandlePinEvents(w, events, t);
      RespawnExpired(r, now).pins[i] != r.pins[i] <==> now - t > CoolDown
  {
    ResetExactlyExpiredPins(HandlePinEvents(w, events, t), now, i);
  }

  /** A pin whose cool-down has not run out at any of the given tick times
      comes through those ticks untouched. */
  lemma {:induction false} TicksLeavePinAlone(w: World, i: nat, times: seq<real>)
    requires i < |w.pins|
    requires forall k :: 0 <= k < |times| ==> !CoolDownElapsed(w.pins[i].pin, times[k])
    ensures i < |Run(w, Ticks(times)).pins|
    ensures Run(w, Ticks(times)).pins[i] == w.pins[i]
    decreases |times|
  {
    if |times| > 0 {
      var w' := RespawnExpired(w, times[0]);
      assert Ticks(times)[1..] == Ticks(times[1..]);
      TicksLeavePinAlone(w', i, times[1..]);
    }
  }

  /** A pin struck at a positive time `t` stays struck, with timestamp `t`,
      through every tick up to `t` plus the cool-down, and the first later tick
      resets it to idle. */
  lemma StruckUntilCoolDownElapses(w: World, events: seq<CollisionEvent>, t: real, i: nat, times: seq<real>, late: real)
    requires i < |w.pins| && StruckBy(events, w.pins[i].id) && t > 0.0
    requires forall k :: 0 <= k < |times| ==> times[k] - t <= CoolDown
    requires late - t > CoolDown
    ensures var r := Run(HandlePinEvents(w, events, t), Ticks(times));
      i < |r.pins| && r.pins[i].pin.lastHit == t && r.pins[i].outline == Green
    ensures var r := Run(HandlePinEvents(w, events, t), Ticks(times + [late]));
      i < |r.pins| && r.pins[i].pin.lastHit == NeverHit && r.pins[i].outline == Teal
  {
    var h := HandlePinEvents(w, events, t);
    TicksLeavePinAlone(h, i, times);
    assert Ticks(times + [late]) == Ticks(times) + [Tick(late)];
    RunAppend(h, Ticks(times), [Tick(late)]);
    var mid := Run(h, Ticks(times));
    assert Run(mid, [Tick(late)]) == RespawnExpired(mid, late);
  }

  /** As written, a strike at time 0 stores the "never hit" value: the pin
      keeps its idle colour and no later tick ever resets it. */
  lemma StrikeAtTimeZeroLooksIdle(w: World, events: seq<CollisionEvent>, i: nat, times: seq<real>)
    requires i < |w.pins| && StruckBy(events, w.pins[i].id)
    ensures HandlePinEvents(w, events, 0.0).pins[i].pin.lastHit == NeverHit
    ensures HandlePinEvents(w, events, 0.0).pins[i].outline == Teal
    ensures var h := HandlePinEvents(w, events, 0.0);
      i < |Run(h, Ticks(times)).pins| && Run(h, Ticks(times)).pins[i] == h.pins[i]
  {
    TicksLeavePinAlone(HandlePinEvents(w, events, 0.0), i, times);
  }

  /** A concrete frame sequence: pin 4 struck at 1.0 s is green at 3.9 s and,
      left alone, would be teal at 4.5 s; instead it is struck again at 3.9 s, is still green at 6.8 s and teal at 7.0 s, while
      pin 0 stays idle throughout. The ball is an entity spawned before the pins. */
  lemma Pin4Scenario(firstId: EntityId, ball: EntityId)
    requires ball < firstId
    ensures var w0 := SpawnPins(firstId);
      var w1 := HandlePinEvents(w0, [Started(w0.pins[4].id, ball)], 1.0);
      var w2 := RespawnExpired(w1, 3.9);
      var w3 := HandlePinEvents(w2, [Started(ball, w2.pins[4].id)], 3.9);
      var w4 := RespawnExpired(w3, 6.8);
      var w5 := RespawnExpired(w4, 7.0);
      && w1.pins[4].pin.lastHit == 1.0 && w1.pins[4].outline == Green
      && w2.pins[4].pin.lastHit == 1.0 && w2.pins[4].outline == Green
      && RespawnExpired(w1, 4.5).pins[4].pin.lastHit == NeverHit && RespawnExpired(w1, 4.5).pins[4].outline == Teal
      && w3.pins[4].pin.lastHit == 3.9 && w3.pins[4].outline == Green
      && w4.pins[4].pin.lastHit == 3.9 && w4.pins[4].outline == Green
      && w5.pins[4].pin.lastHit == NeverHit && w5.pins[4].outline == Teal
      && w5.pins[0] == w0.pins[0]
  {
    var w0 := SpawnPins(firstId);
    var w1 := HandlePinEvents(w0, [Started(w0.pins[4].id, ball)], 1.0);
    assert Names([Started(w0.pins[4].id, ball)][0], w0.pins[4].id);
    assert !StruckBy([Started(w0.pins[4].id, ball)], w0.pins[0].id);
    var w2 := RespawnExpired(w1, 3.9);
    var w3 := HandlePinEvents(w2, [Started(ball, w2.pins[4].id)], 3.9);
    assert Names([Started(ball, w2.pins[4].id)][0], w2.pins[4].id);
    assert !StruckBy([Started(ball, w2.pins[4].id)], w2.pins[0].id);
  }
}
