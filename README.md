# Bicycle for the mind: a model of the sketch's state machine

"Bicycle for the mind" is a p5.js sketch. The user types ideas into a text
box. An in-browser zero-shot classifier and a sentence encoder analyse each
idea. The first idea drops a bicycle onto the canvas. Every later idea sends
the bicycle riding toward a point displaced by how far the new idea's
embedding moved from the previous one. As the bicycle rides it leaves a
trail of fading, coloured particles. Their colours mix the colours of the
most recent ideas. When the bicycle arrives, the idea is committed to the
idea trajectory. The trajectory can be exported as a numbered text log.

This project models the state of the sketch closure in `sketch.js` and the
operations that change it, in Dafny:

- `Sketch.Sketch` holds the closure's module-level state: `gameState`,
  `bicycle`, `particles`, `ideaTrajectory`, `colorPalette` and the
  disabled flag of the idea input.
- `Sketch.Bicycle` is the bicycle object, updated field by field.
- The operations are:
  - the keydown listener and `handleInput`, a two-state machine over
    `SEEDING`/`DEVELOPING`;
  - `spawnBicycle`;
  - the drop, travel and arrival branches of `p.draw`;
  - the reverse particle pass with in-place `splice`;
  - `emitParticles`;
  - `getMixedColor` with its retry loop;
  - the palette `unshift`/`pop`;
  - the line format of `saveArt`.
- Every method is proved against a specification:
  - The particle pass equals the function `Particles.Step`. That function is
    proved equal to "the old particles whose lifespan exceeded 2, in order,
    each advanced one frame".
  - The palette is kept equal to `Colors.RecentFirst` of every colour ever
    added, through a ghost history.
  - Every accepted idea is either in the trajectory or the single pending
    idea. A ghost log of accepted ideas tracks this.
  - The input is disabled exactly while the bicycle drops or travels, so at
    most one idea is ever in flight.

Random values (spawn position, particle velocities, index draws and the blend
amount) are parameters of the operations. So is the analysis the awaited
models return. `p.atan2`, `p.cos`, `p.sin` and `p.dist` are given functions
(the `Motion.Geometry` datatype). Coordinates, vector components and colours
are exact reals.

Modules:

| module | file | contents |
|---|---|---|
| `Wrappers` | `wrappers.dfy` | `Option` |
| `Ideas` | `ideas.dfy` | embeddings, the analysis result, trajectory records, the `trim` blank test |
| `Colors` | `colors.dfy` | the colour of an idea, blending, the bounded palette, `getMixedColor` |
| `Particles` | `particles.dfy` | particles and the per-frame pass as a function |
| `Motion` | `motion.dfy` | constants of the motion, `lerp`, `lerpAngle`, the geometry oracle |
| `Export` | `export.dfy` | the `saveArt` log line format and readers for its numbers and coordinates |
| `Sketch` | `sketch.dfy` | the `Bicycle` and `Sketch` classes and their operations |

## Model

| member | source | states |
|---|---|---|
| `Colors.Channel` | sketch.js:152 | `p.map(c, -0.1, 0.1, 0, 255)` sends -0.1 to 0 and 0.1 to 255, and maps the interval [-0.1, 0.1] into [0, 255]. |
| `Colors.ColorOfInRange` | sketch.js:152 | The colour of an idea takes embedding components 10, 150 and 300 as red, green and blue. Components in [-0.1, 0.1] give channels in [0, 255], and the zero vector gives mid grey (127.5 on every channel). |
| `Colors.Blend` | sketch.js:240 | `lerpColor` gives the first colour at amount 0 and the second at amount 1. Blending a colour with itself gives that colour. |
| `Colors.AddColor` | sketch.js:153-154 | The new colour goes to index 0 and the previous entries follow in their order. The length grows by one up to MAX_PALETTE_SIZE = 4; past that, the last (oldest) entry is dropped. A palette within the bound stays within it. |
| `Colors.RecentFirstShape` | sketch.js:20 | The palette of any history has at most 4 entries: all the colours when there are fewer than 4, otherwise exactly 4. Its first entry is the newest colour. |
| `Colors.RecentFirstSingle` | sketch.js:173 | The palette of a one-colour history is exactly that colour. |
| `Colors.AddColorKeepsRecentFirst` | sketch.js:153-154 | Adding a colour to the palette of a history gives the palette of the history extended by that colour. So `unshift`+`pop` keeps the palette equal to the 4 newest colours, newest first. |
| `Colors.MixedColor` | sketch.js:234-241 | An empty palette gives white and a one-colour palette gives that colour. Otherwise the result blends two distinct in-range entries. The first index is the first draw; the second is the first retry that differs from it, and every earlier retry equalled the first index. |
| `Ideas.TrimStart` | sketch.js:32 | The leading whitespace is removed: the result is a suffix of the text, every removed character is trimmable, and the result does not start with one. |
| `Ideas.TrimEnd` | sketch.js:32 | The trailing whitespace is removed: the result is a prefix of the text, every removed character is trimmable, and the result does not end with one. |
| `Ideas.BlankIffTrimsToEmpty` | sketch.js:32 | `text.trim() === ''` holds exactly when every character of the text is trimmable, the test `IsBlank` makes. |
| `Particles.Advance` | sketch.js:65-67 | One frame lowers a particle's lifespan by exactly 2 and keeps its velocity and colour. |
| `Particles.Step` | sketch.js:63-77 | The pass adds no particle, and every particle that remains has lifespan above 0. |
| `Particles.SpliceStep` | sketch.js:68-76 | One iteration of the reverse loop extends the processed suffix by one. A particle whose lifespan reaches 0 is spliced out; any other is overwritten in place with its advanced self. |
| `Particles.StepIsAdvancedSurvivors` | sketch.js:63-77 | The pass keeps exactly the old particles whose lifespan exceeded 2, in their original relative order, each advanced one frame. |
| `Particles.StepCount` | sketch.js:63-77 | After the pass the list holds exactly one particle per old particle whose lifespan exceeded 2. |
| `Particles.StepLowersLifespans` | sketch.js:67 | If every lifespan lies in (0, b], then after the pass every lifespan lies in (0, b - 2]. |
| `Particles.StepNExpires` | sketch.js:63-77 | Lifespans at most 2·n are all gone after n passes without emission. |
| `Particles.FreshParticlesExpire` | sketch.js:204 | Particles emitted with lifespan 255 are all gone after 128 passes without emission. |
| `Motion.Lerp` | sketch.js:98-99 | `p.lerp` gives the start at amount 0 and the stop at amount 1. |
| `Motion.ShortestTurn` | sketch.js:228-230 | The folded difference is the raw difference, possibly shifted by one full turn. It lies in [-π, π] whenever the raw difference is within ±3π, and it equals the raw difference within ±π. |
| `Motion.LerpAngle` | sketch.js:227-232 | At amount 0 the heading is unchanged. At amount 1 it equals the target angle up to one full turn. |
| `Export.NatToDecimal` | sketch.js:222 | The numeral of a line number is a nonempty string of decimal digits. |
| `Export.IntToDecimal` | sketch.js:222 | A printed coordinate is nonempty and starts with `-` exactly when it is negative. |
| `Export.Round` | sketch.js:222 | `p.round(x)` is within half a unit of x: x − ½ < n ≤ x + ½. |
| `Export.DecimalRoundTrip` | sketch.js:222 | Reading back the printed line number gives the number. |
| `Export.FormatLine` | sketch.js:222 | A log line starts with the numeral of its number followed by `. [`, and ends with `] - ` followed by the idea's text. It is at least 11 characters longer than the numeral and text together. |
| `Export.IntReadsBack` | sketch.js:222 | A printed integer, negative or not, followed by a non-digit reads back as that integer, and its signed digit run is exactly the printed text. |
| `Export.PointReadsBack` | sketch.js:222 | After any prefix, two printed integers joined by `, ` read back as the pair `(x, y)`, provided each printed form reads back on its own. |
| `Export.FormatLineCoordinates` | sketch.js:222 | What follows `<number>. [` in a log line reads back as `p.round` of the entry's x, then `, `, then `p.round` of its y. |
| `Export.FormatTrajectory` | sketch.js:221-223 | The log has exactly one line per trajectory entry. |
| `Export.FormatLineReadsBack` | sketch.js:222 | A log line starts with its number, read back exactly, and ends with the idea's text. |
| `Export.ExportNumbering` | sketch.js:221-223 | Line i of the log carries number i + 1 and ends with the text of entry i, for every i. |
| `Sketch.Bicycle.Spawn` | sketch.js:166-171 | Every field is as the object literal sets it (`AsSpawned`), with `targetX`/`targetY` as one optional target. The bicycle is 200 above its ground line at the random x; `py` is the drop height too, and `px`, which the literal leaves unset, starts at x. It is dropping and at rest: vertical velocity, heading, speed and wheel rotation 0, gravity 0.5, wheel radius 15 and wheel base 25. It has no target, no pending idea, no arrival point, and the initial vector as its current vector. |
| `Sketch.Sketch.constructor` | sketch.js:13-19 | The sketch starts in SEEDING with no bicycle, no particles, an empty trajectory and palette, and the input enabled. |
| `Sketch.Sketch.OnEnter` | sketch.js:28-36 | A disabled input or a blank text changes nothing. So does a failed analysis, apart from the input being re-enabled. An accepted idea with a successful analysis leaves the sketch in DEVELOPING with the input locked and the idea accepted. From SEEDING, there is a fresh bicycle with every field as `spawnBicycle` sets it (`AsSpawned`), the palette is the idea's colour and the trajectory is one record at (x, groundY). From DEVELOPING, the target is the position plus 750·(v[5]−cur[5], v[8]−cur[8]); the arrival point, pending text and current vector are set, and the palette is `AddColor` of the idea's colour. Every other bicycle field is unchanged (`BodyUnchanged`), and so are the trajectory and the particles. The invariant is kept. |
| `Sketch.Sketch.HandleInput` | sketch.js:126-161 | A failed analysis leaves the state, bicycle, palette, particles and trajectory unchanged and re-enables the input. In SEEDING the sketch moves to DEVELOPING, a fresh bicycle is created with every field as `spawnBicycle` sets it (`AsSpawned`), the palette becomes the idea's colour, and the trajectory becomes one record at (x, groundY). In DEVELOPING the target is the position plus 750·(v[5]−cur[5], v[8]−cur[8]); the pending text, arrival point and current vector are set and the colour is added to the palette. Every other bicycle field (positions, ground line, vertical velocity, gravity, dropping flag, heading, speed, wheel) is unchanged (`BodyUnchanged`), and so are the trajectory and particles. The invariant is kept, and DEVELOPING never returns to SEEDING. |
| `Sketch.Sketch.PlantSeed` | sketch.js:138-142 | The SEEDING branch spawns a fresh bicycle with every field as `spawnBicycle` sets it (`AsSpawned`), records the seed idea at (bicycle.x, groundY) as the only trajectory entry, resets the palette to its colour, and moves to DEVELOPING with the input locked. |
| `Sketch.Sketch.DevelopIdea` | sketch.js:143-156 | The DEVELOPING branch sets the target 750 times the change in components 5 and 8 away. The pending text is the idea and the arrival point is the target. The palette is `AddColor` of the idea's colour and the current vector is replaced. Every other bicycle field is unchanged (`BodyUnchanged`), and so is the trajectory. |
| `Sketch.Sketch.PushColor` | sketch.js:153-154 | The palette becomes `AddColor(old, c)` and stays the newest colours of its history. |
| `Sketch.Sketch.SpawnBicycle` | sketch.js:163-174 | A fresh bicycle with every field as the object literal sets it (`AsSpawned`): dropping, at rest, no target and no pending idea. The palette is reset to exactly one entry, the initial colour. |
| `Sketch.Sketch.Draw` | sketch.js:52-117 | A frame keeps the invariant, the state, the bicycle reference and the palette. It also keeps the ground line, gravity, wheel radius, wheel base and current vector (`ShapeKept`); its frame names exactly the bicycle fields the drop and travel branches write. The trajectory is either unchanged or grows by exactly the pending idea at its arrival point. With the input enabled, a frame changes neither the input nor the trajectory. Without a bicycle, nothing changes. |
| `Sketch.Sketch.UpdateParticles` | sketch.js:61-78 | The reverse loop with in-place splice leaves exactly `Step` of the old particles, and keeps every lifespan in (0, 255]. |
| `Sketch.Sketch.DropTick` | sketch.js:83-94 | Gravity accelerates the bicycle. Reaching the ground clamps y to the ground line and multiplies the velocity by −0.6. A bounce slower than 1 ends the drop, and the input is enabled exactly when it has ended. Only y, the vertical velocity, the dropping flag and the input change. |
| `Sketch.Sketch.TravelTick` | sketch.js:95-117 | Closer than 2 to the target: the trajectory grows by exactly the pending idea at the target. The target and pending idea are cleared, speed is 0 and the input enabled. Otherwise the trajectory, target, pending idea and the locked input are unchanged. Its frame is exactly the fields the travel branch writes, so the ground line, gravity, vertical velocity, dropping flag, wheel geometry and current vector are kept. |
| `Sketch.Sketch.RideAndEmit` | sketch.js:96-104 | The frame's motion is exactly that of `Ride` (`Rode`): previous position remembered, 3% easing toward the target, 10% shortest-turn heading easing, speed the distance covered, wheel turned by a tenth of it. Below speed 0.1 the particles are unchanged; otherwise exactly two particles are appended at the back wheel as `EmitParticles` states (`Emitted`). The invariant, target, dropping flag and locked input are kept. |
| `Sketch.Sketch.Ride` | sketch.js:96-103 | The previous position is remembered. x and y ease 3% toward the target and the heading eases 10% toward it along the shortest turn. Speed is the distance covered, and the wheel turns by a tenth of it. |
| `Sketch.Sketch.Arrive` | sketch.js:105-116 | The pending idea is appended once at its arrival point. The pending text, arrival point and target are cleared, speed becomes 0 and the input is re-enabled. |
| `Sketch.Sketch.EmitParticles` | sketch.js:199-206 | Below speed 0.1 the particle list is unchanged. Otherwise exactly two particles are appended behind the untouched old ones. Each is at the back wheel, with its drawn velocity, lifespan 255, and a colour `getMixedColor` may return. |
| `Sketch.Sketch.EmitAt` | sketch.js:203-205 | The loop appends exactly two particles at the given point behind the untouched old ones, each with its draw's velocity, lifespan 255 and a colour `getMixedColor` may return, and keeps every lifespan in (0, 255]. |
| `Sketch.ExportCountsCommittedIdeas` | sketch.js:107 | In every reachable state the trajectory holds every accepted idea but the one still in flight, so the log has one line per committed idea. While an idea is in flight the input is locked, so `OnEnter` accepts no further idea until it arrives. |

## Left out

- `backend/app.py` is not part of this model. It is an HTTP wrapper around the same models.
- The zero-shot classifier, the encoder and the model loading in `main` (sketch.js:132-135, 288-296) are not modelled. Their outcome is the `AnalysisResult` parameter of `HandleInput`, and the `await` is treated as atomic. The intent label is carried in `Analysis` but not used, as in the sketch.
- Randomness (`p.random`) is an injected parameter. For `getMixedColor` the index draws are a stream `pick`. The stream is required to stay in range and to eventually differ from the first index; without that, the sketch's retry loop need not terminate.
- `p.atan2`, `p.cos`, `p.sin` and `p.dist` are uninterpreted given functions.
- JavaScript doubles are modelled as exact reals, so rounding in the motion and colour arithmetic is not captured. Lifespans are integers, as in the sketch.
- `Colors.Channel`: `p.color`'s clamping of channels to [0, 255] and its 8-bit storage are not modelled. The channel is the unclamped `p.map`.
- `Export.IntToDecimal`: JavaScript prints integers of 10^21 or more in exponent notation; that is not modelled.
- `Sketch.Bicycle.Spawn`: the sketch leaves `px` undefined until the first travel frame. The model starts it at `x`; it is overwritten before any read.
- `Motion.Lerp`: does not state that the result lies between start and stop for amounts in [0, 1]. That needs nonlinear real reasoning the proofs avoid.
- `Motion.LerpAngle`: does not bound the turn per frame, for the same reason.
- `Sketch.Sketch.TravelTick`: its ensures state only the arrival commit; the fields it keeps follow from its frame. The position, heading, speed and emitted particles of the frame are stated by `RideAndEmit`, which it calls first.
- `Colors.Blend`: p5's `lerpColor` clamps the amount to [0, 1], and `Blend` does not. The sketch only passes amounts drawn from `p.random(0.2, 0.8)`, so no reachable colour differs.
- `Sketch.Sketch.Draw`: states a summary of the frame: the invariant, the append-only trajectory, the input and the untouched bicycle fields. The particle pass and the new position, velocity and heading are stated by `UpdateParticles`, `DropTick` and `RideAndEmit`.
- All drawing and DOM work is not modelled. It is a state-free view of the modelled state:
  - the background, starfield and trail layer;
  - `drawBicycle`, `drawIdeaNodes`, `drawTooltip` and the hover state;
  - the particle ellipses;
  - focus and placeholder changes, and clearing the input's value;
  - `saveCanvas`, and `saveStrings` writing the file.
- The `console.log` and `console.error` calls of `handleInput` (sketch.js:130, 137, 158) are not modelled: they only write diagnostics.
- Star generation in `setup` is not modelled: it only feeds the starfield drawing.
- Key events other than Enter without Shift are not modelled: the sketch ignores them as well.
