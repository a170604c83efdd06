# Spikes: a verified model of the game's simulation core

Spikes is a one-screen arcade game on a 500 x 500 canvas. A ball of radius 20
moves sideways at speed 5 and falls under gravity 0.5 per tick. A click makes
it jump (vertical velocity -10). Each time the ball crosses the left or right
wall it bounces and scores a point. The spikes on the wall it is heading for
are then laid out afresh: a random count of triangles, 20 wide and 30 tall, at
random heights. Touching a spike, the floor or the ceiling resets the game.

The model covers the whole simulation in `Spikes/game.js`:

- `geometry.dfy`, module `SpikeGeometry` (pure). It holds the spike
  constructor's vertex derivation, the overlap test, and the per-spike
  collision test with its two parts: a vertex inside the ball, and the
  three-cross-product "centre inside the triangle" test. It also proves what
  these tests mean geometrically.
- `game.dfy`, module `SpikesGame` (imperative). The module-level state
  (`player`, `spikes`, `score`, `spikeX`, `spikeY`, `spikeCount`) becomes two
  classes:
  - `Player` with the ball's fields;
  - `Game` holding the rest, with the methods `Update`, `ResetGame`, `Jump`
    and `GenerateSpikes`.

  The read-only `for` scans `overlaps` and `collides` are methods with loop
  invariants, proved against the predicates of `SpikeGeometry`.
  `Game.Valid()` is the invariant every operation keeps:
  - the score is never negative;
  - the horizontal speed is always 5;
  - the anchor is 0 or 460;
  - the spikes on screen form a layout for that anchor.

`update` returns nothing in the game. `Game.Update` also reports, for its
contract, whether the tick bounced, whether it ended in a death and whether
spike generation completed, plus (as a ghost value) the spikes the death
check saw.

`Math.random()` is an oracle. A `Game` holds the sequence of values, each in
[0, 1), that the calls will return, and consumes it in order.

What the proofs establish about the code, including where it behaves otherwise
than a reader of the comments might expect:

- **Spike count.** The count `Math.random()*5 + 1` is never floored. The loop
  `i < spikeCount` therefore runs between 1 and 6 times, and both 1 and 6
  occur. A single spike occurs only for the sample 0: any sample in (0, 0.2]
  already gives two.
- **Spike heights.** Heights `(Math.random()*14 + 1)*30` are also not
  floored. They can be any real in [30, 450), not one of 14 slots.
- **Overlap test.** All its comparisons are strict, so a candidate exactly
  level with a placed spike is accepted. In a layout, any two spikes are
  either at the same height or at least 30 apart.
- **Left-spike sign test.** For a left spike anchored at 0, the three
  cross-products always sum to -600, so the inside-triangle test can never
  fire. For right spikes they sum to +600, and the test fires exactly when
  the centre is in the closed triangle.
- **Centre inside a spike.** The left-side sign test is dead code, but nothing
  is missed. Every point of a spike the game places is within 20 of a vertex,
  because the triangle's circumradius is 15.625. So a ball whose centre is
  inside any spike is caught by the vertex test.
- **Right-wall crossing.** Crossing the right wall always bounces and scores,
  and the tick cannot end in a death on the left spikes generated in that same
  tick (`ClearOfLeftLayout`). A ball at x = 510 and y = 250 with score 7 ends
  the tick with score 8 (`ExampleBounce`). A floor or ceiling crossing in the
  same tick still kills: a ball at (490, 485) moving at (5, 2) bounces and
  dies, and the score returns to 0 (`ExampleBounceAndDie`).
- **Rejection sampling.** `Fill` states the whole of `generateSpikes` as a
  function of the oracle values: each drawn value r gives the candidate height
  (14r + 1) * 30, a candidate that clashes with the spikes placed so far is
  dropped, and the next one that does not becomes the next spike.

## Model

| member | source | states |
|---|---|---|
| `SpikeGeometry.MakeSpike` | Spikes/game.js:24-46 | Each spike's base is vertical, spans y to y+30, and has the apex level with its middle. A left anchor (x < 250) keeps its x for the base, with the apex at x = 20. Any other anchor gets its base on the right edge x = 500, with the apex 20 inward, whatever the anchor. |
| `SpikeGeometry.OverlapsIffNear` | Spikes/game.js:99-106 | The overlap scan rejects a candidate iff some placed spike is at a distance strictly between 0 and 30. With no spikes, nothing is rejected. |
| `SpikeGeometry.SameHeightNotRejected` | Spikes/game.js:101-102 | A candidate exactly level with a placed spike passes the overlap test. |
| `SpikesGame.Game.Overlaps` | Spikes/game.js:99-106 | The early-return scan returns true exactly when some placed spike clashes with the candidate height spikeY. |
| `SpikesGame.SpikeHit` | Spikes/game.js:111-138 | The per-spike body returns true exactly when a vertex lies within the radius (squared distance minus r² at most 0), or all three edge cross-products are non-negative. |
| `SpikesGame.Game.Collides` | Spikes/game.js:109-141 | The scan returns true exactly when some spike on screen is hit by the ball at its current position and radius. |
| `SpikeGeometry.NoSpikesNoCollision` | Spikes/game.js:109-141 | With no spikes, nothing collides. |
| `SpikeGeometry.LeftCrossSum` | Spikes/game.js:128-137 | For a left spike, the three tested cross-products sum to 30·(x − 20), which is −600 for the anchor 0, wherever the ball is. |
| `SpikeGeometry.RightCrossSum` | Spikes/game.js:128-137 | For a right spike, the three cross-products sum to +600, wherever the ball is. |
| `SpikeGeometry.LeftSignTestNeverFires` | Spikes/game.js:128-137 | For any left anchor below x = 20 (including the anchor 0 the game uses), the inside-triangle test never fires. |
| `SpikeGeometry.RightSignTestIsInside` | Spikes/game.js:128-137 | For a right spike, the sign test fires iff the centre lies in the closed triangle v1 + b(v2−v1) + c(v3−v1), b, c ≥ 0, b + c ≤ 1. |
| `SpikeGeometry.CentreInsideCaught` | Spikes/game.js:111-125 | For spikes anchored at 0 or on the right, a centre inside the triangle always has a vertex within distance 20. |
| `SpikeGeometry.CollidesWhenCentreInside` | Spikes/game.js:109-141 | The collision scan reports every ball of radius 20 whose centre lies inside such a spike. |
| `SpikeGeometry.CollisionExamples` | Spikes/game.js:109-141 | Take the spike at (0, 100), with vertices (0,100), (20,115), (0,130). A ball of radius 20 at (5, 115) collides with it; one at (250, 250) does not. |
| `SpikesGame.LoopCount` | Spikes/game.js:148-149 | The number of iterations of `i < c` for a real bound c ≥ 0 is the least natural number not below c. |
| `SpikesGame.LoopCountUnique` | Spikes/game.js:149 | That iteration count is the only natural number with this property. |
| `SpikesGame.SpikeCountRange` | Spikes/game.js:148-149 | For a sample in [0, 1), the unfloored count 5r + 1 makes the loop place between 1 and 6 spikes. |
| `SpikesGame.OneSpikeOnlyAtZero` | Spikes/game.js:148-149 | For a sample r in [0, 1), the loop places exactly one spike iff r = 0. |
| `SpikesGame.SixSpikesAboveFourFifths` | Spikes/game.js:148-149 | Any sample above 0.8 makes the loop place 6 spikes. |
| `SpikesGame.LayoutSeparated` | Spikes/game.js:149-155 | In a generated layout, any two spikes are at the same height or at least 30 apart. |
| `SpikesGame.FillShape` | Spikes/game.js:149-155 | Placing spikes keeps those already placed as a prefix and consumes a prefix of the oracle values. It places exactly the requested number unless the values run out, in which case fewer are placed and none are left. |
| `SpikesGame.FillLayout` | Spikes/game.js:149-155 | From samples in [0, 1), placing spikes at an anchor keeps a layout a layout: every new spike's height is in [30, 450) and passes the overlap scan against the spikes before it. |
| `SpikesGame.LayoutCollidesWhenInside` | Spikes/game.js:109-141 | For both anchors the game uses, a ball whose centre is inside any spike of a layout collides. |
| `SpikesGame.ClearOfLeftLayout` | Spikes/game.js:206-220 | A ball more than 40 from the left wall cannot collide with a left layout. So bouncing off the right wall never kills the ball on the spikes just generated. |
| `SpikesGame.Player.constructor` | Spikes/game.js:62-70 | The ball starts at the canvas centre (250, 250) with velocities (5, 2). |
| `SpikesGame.Game.constructor` | Spikes/game.js:13-21 | The game starts with no spikes and score 0. The invariant holds. |
| `SpikesGame.Game.NextRandom` | Spikes/game.js:148-151 | Each draw returns and consumes the next oracle value, and fails only when none is left. |
| `SpikesGame.Game.GenerateSpikes` | Spikes/game.js:144-156 | Clears the spikes and sets spikeCount to 5r + 1, r the first value drawn. The spikes, the values left and `complete` are then exactly what `Fill` gives for LoopCount(spikeCount) spikes at spikeX from the remaining values: each spike's height is (14r' + 1) * 30 for the next value r' whose height passes the overlap scan, and values whose height clashes are dropped. The result is a layout. When the oracle lasts, 1 to 6 spikes are placed and spikeY is the last one's height. With no values at all, nothing is placed and spikeCount is unchanged. Only spikes, spikeY, spikeCount and the oracle change. |
| `SpikesGame.Game.Jump` | Spikes/game.js:181-183 | Sets velY to −10 outright, whatever it was. Nothing else changes. |
| `SpikesGame.Game.ResetGame` | Spikes/game.js:186-194 | Puts the ball at (250, 250) with velocities (5, 2), clears the spikes, and zeroes spikeCount and score. The anchor and the oracle are untouched. |
| `SpikesGame.Game.Update` | Spikes/game.js:197-221 | Moves x and y by the pre-gravity velocity, then adds 0.5 to velY. On a horizontal crossing it negates velX once, adds 1 to the score, anchors at 0 if x > 250 (else 460), and regenerates the spikes. A vertical crossing, or a collision with the spikes now on screen, then resets the game, even after a bounce. After a bounce the spikes checked are exactly the `Fill` of the remaining oracle values for LoopCount(5r + 1) spikes at the new anchor, and spikeCount is 5r + 1 unless the tick dies. Without a bounce, the score, the spikes, the anchor, spikeY, spikeCount and velX are unchanged (apart from a death). A death sets spikeCount to 0. The invariant (score ≥ 0, velX = ±5, a valid layout) is kept. |

## Left out

- Drawing (`drawRect`, `drawCircle`, `drawText`, `Spike.drawTriangle`, `drawSpikes`, `draw`) and the canvas and context lookup. These are rendering side effects and change no state.
- The `mousedown` listener and the `setInterval` driver loop. They are browser plumbing; `Jump` and `Update` are called directly instead.
- `Math.random` itself. No generator is modelled; its results are the supplied oracle sequence.
- Termination of the rejection loop in `generateSpikes`. The code gives no bound, so none is claimed. Each retry consumes one oracle value, so a finite oracle always ends the loop.
- Game.GenerateSpikes: the bound of 1 to 6 spikes and the final spikeY are stated only when the oracle did not run out (`complete`); `Fill` still describes the spikes placed before it ran out. When it runs out, the spikes accepted so far are kept and the method returns false. The game itself never runs out; it would keep retrying.
- Game.Update: the spike count after a bounce is bounded only when generation was `complete`, for the same reason.
- IEEE-754 rounding. All numbers are mathematical reals. No branch of the game depends on rounding.
- The `width` and `height` fields of a spike are not stored. They are always the constants 20 and 30, which the model uses directly.
- `spikeX`, `spikeY` and `spikeCount` start out undefined in the game. `spikeX` and `spikeY` are read only after `update` assigns them, and `spikeCount` is only assigned (by `generateSpikes` and `resetGame`), never read outside `generateSpikes`. The model starts all three at 0.
- Whether the ball's circle overlaps a triangle is decided here exactly as the code decides it. Its blind spot (an edge crossing the ball without a vertex or the centre inside) is not modelled as a separate geometric notion.
