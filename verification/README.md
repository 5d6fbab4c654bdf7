# Pinball2D pin hit tracker, in Dafny

This project models the pin hit tracker of the Pinball2D table (`src/pins.rs`).
The table has eight fixed pins. Each pin is drawn as a circle. Its outline is
teal while the pin is idle. It turns green when a collision with the pin
starts, whatever the other body is. It turns back to teal once more than
three seconds have passed since the last strike.

The code changes a pin's colour by despawning the pin entity and spawning a
new one, with the same position and radius and a new "last hit" timestamp. In the model:

- a `World` is the sequence of live pin entities plus the next entity id the engine will issue;
- a respawn replaces the entity at the same index with one that has a fresh id;
- the two update systems are pure functions of the world:
  - `HandlePinEvents(world, events, now)` for the collision system;
  - `RespawnExpired(world, now)` for the reset system;
- the frame's clock value and collision events are passed in as parameters.

Each system also has a method that iterates the way the source does. The
collision method walks the events, and for each event the pins. The reset
method walks the pins once. Each method is proved to compute its function.

Modules:

- `Optional` (`optional.dfy`): the optional timestamp and radius, with `UnwrapOr`.
- `Pins` (`pins.dfy`): the data model, the pin layout, pin construction and the two systems.
- `PinProperties` (`pin_properties.dfy`): lemmas across strikes, resets and whole runs.

Time, coordinates and radii are `real`. `PixelsPerMeter` is the scale constant
692.3 from `src/main.rs:20`. Every layout coordinate and radius is a multiple
of it.

An absent timestamp could be read as "never hit" stored separately. The code
instead stores it as `0.0`, and the model follows the code. So a strike at
clock value 0.0 cannot be told apart from "never hit": the pin stays teal and
is never reset (`StrikeAtTimeZeroLooksIdle`).

## Model

| member | source | states |
|---|---|---|
| Pins.OutlineFor | src/pins.rs:61-66 | The outline is teal exactly when the stored timestamp is 0.0, and green otherwise. |
| Pins.SpawnSinglePin | src/pins.rs:55-86 | The new pin keeps the given position. A missing radius becomes 0.05 x scale. A missing timestamp is stored as 0.0 and drawn teal. The outline is teal exactly when no timestamp is given or it is 0.0. |
| Pins.SpawnPins | src/pins.rs:23-53 | Spawns exactly 8 pins at the layout positions, all never hit and teal. Radii are 0.07 x scale for indices 0-1, 0.04 x scale for 2-3, and 0.05 x scale for 4-7. Ids are unique and come after the entities spawned earlier. |
| Pins.Restruck | src/pins.rs:115-118 | A struck pin's replacement has a fresh id, the same position and radius, and timestamp `now`. It is teal only when `now` is 0.0. |
| Pins.Reset | src/pins.rs:97-99 | A reset pin's replacement has a fresh id, the same position and radius, and timestamp 0.0. It is teal. |
| Pins.HandlePinEvents | src/pins.rs:104-123 | A pin named as either body of some `Started` event is replaced by one with the same geometry and timestamp `now`. Every other pin is unchanged. The well-formedness invariant is kept. |
| Pins.HandlePinEventsByQuery | src/pins.rs:110-122 | The engine's loop (each event, then each pin as the query saw it at system start) computes `HandlePinEvents`. |
| Pins.RespawnExpired | src/pins.rs:88-102 | A pin is replaced by an idle one with the same geometry when its timestamp is > 0 and `now - timestamp > 3.0`. Every other pin is unchanged. The well-formedness invariant is kept. |
| Pins.RespawnExpiredByQuery | src/pins.rs:93-101 | The engine's single loop over the pins computes `RespawnExpired`. |
| PinProperties.RunPreservesGeometry | src/pins.rs:93-119 | No sequence of strike and reset steps adds, removes, moves or resizes a pin. |
| PinProperties.RunPreservesWellFormed | src/pins.rs:61-85 | Every reachable world keeps three properties: live ids are unique, live ids were already issued, and each outline matches its timestamp. |
| PinProperties.LayoutSurvivesEveryRun | src/pins.rs:24-51 | From the initial layout, every reachable world has 8 pins at their layout positions and radii. Each is teal exactly when never hit. |
| PinProperties.StrikeReplacesExactlyNamedPins | src/pins.rs:111-119 | A pin is replaced exactly when some `Started` event names it. Its old entity id then names no live pin. |
| PinProperties.UnrelatedEventsChangeNothing | src/pins.rs:112-113 | Events that start no collision with any pin leave every pin unchanged. |
| PinProperties.StoppedEventsChangeNothing | src/pins.rs:112 | A frame of only `Stopped` events changes no pin. |
| PinProperties.ResetExactlyExpiredPins | src/pins.rs:94-100 | The reset system replaces a pin if and only if its timestamp is > 0 and more than 3.0 s have passed. The replacement is teal. |
| PinProperties.RestrikeRestartsCoolDown | src/pins.rs:95-118 | After a strike at time t > 0, the timestamp is t whatever it was before, and the pin is green. A tick at `now` resets it exactly when `now - t > 3.0`. |
| PinProperties.TicksLeavePinAlone | src/pins.rs:93-101 | A pin whose cool-down has not elapsed at any tick time comes through all those ticks unchanged. |
| PinProperties.StruckUntilCoolDownElapses | src/pins.rs:94-99 | A pin struck at t > 0 stays green with timestamp t through every tick up to t + 3.0. The first tick after that makes it idle. |
| PinProperties.StrikeAtTimeZeroLooksIdle | src/pins.rs:61-66 | A strike at time 0.0 stores 0.0. The pin stays teal, and later ticks never reset it, because the test on line 95 needs a positive timestamp. |
| PinProperties.Pin4Scenario | src/pins.rs:88-123 | Pin 4 is struck at 1.0 and is still green at 3.9. Left alone, it would be teal at 4.5. It is instead struck again at 3.9, is green, is still green at 6.8, and is teal at 7.0. Pin 0 stays untouched throughout. |

## Left out

- Rendering and physics are not modelled: the lyon circle, fill and stroke modes, the Rapier fixed rigid body, the ball collider, the transform and the restitution 2.3 (src/pins.rs:56-59, 68-80). These are foreign library calls. Only the outline colour is kept, as a two-value enum.
- Floating point is not modelled: `f32` coordinates and radii and `f64` timestamps are exact `real`s. So the rounding of `692.3 * 0.05` and of `now - timestamp` is not modelled.
- The engine's `Time` resource and `EventReader` are not modelled. The clock value and the frame's events are parameters.
- Engine entity allocation is not modelled. A respawned pin gets the fresh id `nextId + index`, and `nextId` advances by the number of pins on every system run.
- Deferred `Commands` are not modelled. In the engine, two `Started` events naming the same pin in one frame each despawn the old entity and each spawn a new pin. The model replaces the pin once, in place, by index.
- Frame scheduling is not modelled. The two update systems run as separate steps. In the engine both can see the same pin in one frame and respawn it twice; that case is not modelled.
- Plugin registration and system ordering (src/pins.rs:8-14) are not modelled.
- `src/main.rs` is not modelled: app, window, camera and gravity setup. Only `PixelsPerMeter` (src/main.rs:20) is used.
- The third field of a collision event (its flags) is not modelled, because the tracker ignores it.
