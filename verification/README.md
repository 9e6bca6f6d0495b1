# snake-rs simulation core in Dafny

This project models the simulation logic of snake-rs, a one-file Bevy snake game.
The model covers one snake: a head position, a direction, a `lenght` counter
(spelled `length` here), and body segments. Each segment carries a
`move_countdown` (called `countdown` here). The ECS systems become pure functions
on an immutable `Snake` value:

- `Controls.Input` is the arrow-key poll.
- `Simulation.Movement` is one movement tick.
- `Simulation.Grow` is one growth event.
- `Game.Run` replays any sequence of these events.

The follow-the-leader trick works like this. On every tick, a segment whose
countdown is positive counts down by one and stays put. A segment at zero jumps
to the cell the head occupies before the head moves, and waits `length - 1`
ticks again. The head moves only after every segment has been processed.

Positions are `i64` and the length and countdowns are `u64`. These are modelled
as bounded integer subset types (`Ints`). Arithmetic that leaves its range is
modelled as a debug-build panic (`Outcomes.Result.Panic`), and the `Fault` says
where the panic happened:

- `HeadOverflow`: the head steps out of the `i64` range.
- `LengthUnderflow`: the `lenght - 1` at line 165 underflows.
- `GrowOverflow`: an increment in `grow` overflows.

The central invariant is `Simulation.Valid`: the length equals the number of
segments, and no countdown exceeds the length. It holds at start and is kept by
every event. Because of it, the `lenght - 1` never underflows. The stronger ghost
invariant `Follow.Trail` (it implies `Valid`, by `Follow.TrailImpliesValid`) explains why the body follows the head: a segment with
countdown `c` sits exactly where the head was `length - c` ticks earlier.

The game has none of the following, and neither does the model:

- No reversal is rejected. `Controls.ReversalAccepted` shows this.
- There is no grid bound, wrap or clamp. The ensures of `Grid.Mv` show this: a step adds exactly one unit to one coordinate.
- Food is never spawned or eaten. The `Food` component at src/main.rs:59 is unused.
- There is no collision detection and no `kill`/reset.

## Model

| member | source | states |
|---|---|---|
| Grid.Mv | src/main.rs:27-34 | A head step changes exactly one coordinate by exactly 1. Right is x+1, Up is y-1, Left is x-1, Down is y+1. It fails only when that coordinate would leave the i64 range |
| Grid.MoveTo | src/main.rs:36-39 | moving to a position copies both of its coordinates and forgets the old ones |
| Grid.MvThenOpposite | src/main.rs:27-34 | a step followed by a step the opposite way returns to the start, so no step clamps |
| Grid.MvDistinguishesDirections | src/main.rs:27-34 | two different directions never step to the same cell |
| Simulation.Init | src/main.rs:64-78 | the initial snake is at (0,0), heads Right, has no segments and satisfies the length invariant |
| Simulation.StepBody | src/main.rs:160-169 | Each segment is updated against the same length and head. The step panics exactly when the length is 0 and some segment is due |
| Simulation.Movement | src/main.rs:154-174 | A segment with countdown > 0 keeps its cell and its countdown drops by 1. A segment at 0 moves to the pre-move head and waits length-1. The head then steps in `dir`. Length, dir and segment count are unchanged, and each panic case is characterised |
| Simulation.MovementSafe | src/main.rs:160-172 | under the invariant, line 165 never underflows, and a tick succeeds exactly when the head step stays in range |
| Simulation.MovementKeepsValid | src/main.rs:154-173 | a tick preserves length == segment count and countdown <= length |
| Simulation.MovementInOrder | src/main.rs:160-169 | Visiting the segments in any query order and updating them in place gives the same outcome as `Movement` |
| Simulation.BumpBody | src/main.rs:184-186 | every countdown goes up by exactly 1 and every position is kept. It panics exactly when some countdown is at the u64 maximum |
| Simulation.Grow | src/main.rs:176-211 | Old segments keep their cells and countdown+1. One new segment sits at the head with countdown length+1. Length rises by 1. Head and dir are unchanged. It panics exactly on u64 overflow |
| Simulation.GrowSafe | src/main.rs:184-208 | under the invariant, growth panics only when the length is at the u64 maximum |
| Simulation.GrowKeepsValid | src/main.rs:184-208 | growth preserves length == segment count and countdown <= length |
| Controls.KeysToDir | src/main.rs:129-140 | A lone vertical key picks Up/Down whatever the horizontal keys are. Otherwise a lone horizontal key picks Left/Right. Otherwise the result is None |
| Controls.Input | src/main.rs:142-146 | a picked direction overwrites `dir` unconditionally; with none the snake is unchanged; head, length and body are never touched |
| Controls.EveryDirReachable | src/main.rs:129-140 | each direction is picked by holding its key alone |
| Controls.ReversalAccepted | src/main.rs:142-146 | holding the key opposite to the heading reverses the snake; nothing rejects it |
| Controls.InputKeepsValid | src/main.rs:142-146 | input preserves the length invariant |
| Follow.TrailInit | src/main.rs:64-78 | the initial snake satisfies the trail invariant with the one-entry history |
| Follow.TrailMovement | src/main.rs:160-172 | after a tick, each segment with countdown c is where the head was length-c ticks ago |
| Follow.TrailGrow | src/main.rs:184-208 | growth keeps the trail invariant: the extra delay matches the extra length, and the new segment is on the head |
| Follow.TrailInput | src/main.rs:142-146 | input keeps the trail invariant |
| Follow.TrailImpliesValid | src/main.rs:75-78 | the trail invariant implies the length invariant `Valid` |
| Game.RunKeepsValid | src/main.rs:154-211 | Along any sequence of input, tick and growth events from a valid state, length == segment count holds, and `lenght - 1` never underflows |
| Game.RunCountsFeeds | src/main.rs:184-208 | after any run the length is the starting length plus the number of growth events |
| Game.RunKeepsTrail | src/main.rs:154-211 | along any run, every segment stays where the head was length-countdown ticks before |
| Game.GrowFromInit | src/main.rs:184-208 | growing the initial snake gives length 1 and one segment at (0,0) with countdown 1 |
| Game.GrowThenTwoTicks | src/main.rs:154-211 | From init, after grow and a tick: head (1,0), segment at (0,0) with countdown 0. After one more tick: the segment is at (1,0) with countdown 0 and the head is at (2,0) |
| Game.TwoGrowsStack | src/main.rs:184-208 | Two growths with no tick between put two segments on the same cell with the same countdown. The game's timers never produce this order (see Left out); it exists only because `Game.Run` accepts any event order |
| Game.StackedStayStacked | src/main.rs:154-211 | two equal segments stay equal along any run, so stacked segments never separate |

## Left out

- Bevy wiring is not modelled. This covers the app builder, stages, `Commands`, `Query` and `Res<Input<KeyCode>>` (src/main.rs:93-104). Events are explicit calls (`Game.Run`), and held keys are a `Keys` parameter.
- The three `Timer` resources are not modelled. Their f32 durations and `just_finished` gating are engine time behaviour (src/main.rs:3-10, 100-102, 128, 150-152, 183). `Game.Run` takes the order in which the timers fire as its input.
- `input` and `movement` run in the same Bevy stage with no declared order. The model does not fix their interleaving within one frame; any order can be written as an event sequence.
- `Pos::translate`, `sprite_transforms`, the sprites and the camera are float rendering glue and are not modelled (src/main.rs:41-44, 62, 80-89, 114-120, 198-206).
- `log` is console output and is not modelled (src/main.rs:106-112).
- Only one snake is modelled, since `init` spawns exactly one (src/main.rs:74). The per-snake inner loops in `movement` and `grow` run once.
- Arithmetic overflow is modelled as a debug-build panic. A release build would wrap instead. Under the invariant this matters only for the head after 2^63 steps or the length after 2^64 growths.
- `grow` spawns its segment through deferred `Commands`. The model appends it to the end of the body at once; segment order has no effect (see `Simulation.MovementInOrder`).
- The code has no food spawning or eating, no collision or death, no grid bound or wrap, and no reversal rejection, so none of these is modelled.
- Two growth events with no tick between cannot happen in the game. Both timers advance by the same frame delta, and the 2.0 s food period is a multiple of the 0.5 s tick period. So every frame that runs `grow` also runs `movement`, and `movement` runs first (src/main.rs:97-102). `Game.Run` accepts any event order, so `Game.TwoGrowsStack` describes a state the game itself never reaches.
