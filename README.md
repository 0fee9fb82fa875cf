# Tower-defense simulation core, modelled in Dafny

This project models the game logic of the tower-defense prototype in
`src/main.cpp`. That logic is surrounded by SDL, OpenGL and ImGui code. The
model covers these parts:

- **Geometry** (`geometry.dfy`). A `Box` is anchored at its top-left corner in
  device coordinates, with y pointing up, so its bottom edge is `y - height`.
  There are two tests: strict overlap (`Collides`, from `collision_box_box`)
  and the side classifier (`DirectionalCollision`, from
  `collision_box_box_directional`). The classifier picks the axis with the
  smaller penetration and breaks a tie in favour of the vertical axis.
- **Transforms** (`transforms.dfy`). Maps between normalised window
  coordinates and normalised device coordinates, in both directions.
- **Path** (`path.dfy`). The fifteen route markers, built from hand-authored
  window coordinates.
- **Enemies** (`enemy.dfy`). The `Enemy` class (`is_active`, `hp`,
  `hp_max`, `box`, `pathfinding_target`) with `Death`, `TakeDamage` and
  `OnTick`. `OnTick` is specified by the value-level function `Tick`. One tick
  does this to an active enemy:
  - it looks up its current marker;
  - if it is closer than 0.01 to that marker, the cursor advances cyclically;
  - it steps towards the marker it looked up at the start, even if the
    cursor has just moved on;
  - it switches off if `hp <= 0`.

  An inactive enemy is left completely alone.
- **Pathing and Simulation** (`pathing.dfy`, `simulation.dfy`).
  - The start-up pass in `main` gives each enemy the first marker of minimum
    distance. It uses strict `<`, starts from a sentinel of 100000 and index
    -1, and stores the result whether or not the scan ran.
  - The per-frame loop ticks every enemy in list order.
- **Duration** (`duration.dfy`). `format_duration` splits milliseconds into
  hours, minutes, seconds and milliseconds by truncating division. It then
  prints them with printf's `%02lld:%02lld:%02lld.%03lld` zero padding,
  signs included.

Modelling choices:

- Floats are exact reals.
- `glm::distance` is compared squared. The square root is monotone, so every
  comparison decides the same way. The 0.01 and 100000 thresholds become
  0.0001 and 1e10.
- The movement step (normalise, scale y by the aspect ratio, multiply by
  0.007) is a function parameter `move` of type `Enemies.Step`.
- The global marker array and the enemy vector are passed explicitly as a
  `seq<Box>` and a `seq<Enemy>` of distinct objects.
- `on_tick_enemy` indexes the marker array without a bounds check. Its model
  therefore requires that an active enemy's cursor names a marker
  (`TargetValid`). `Tick` and `TickEnemies` preserve that condition.
  `InitialEnemiesGetMarkers` shows that the start-up pass establishes it for
  the game's three initial enemies.

What `src/main.cpp` does not have, and so the model does not have either:

- There is no lap completion: arrival at the last marker wraps the cursor
  with `% 15` and resets nothing else, neither health nor lives.
- There is no merging of enemies.
- Towers are never updated: there is no tower targeting or firing.
- There is no projectile logic.

The nearest-marker pass runs once, in `main`, before the frame loop. It
measures from the enemy's top-left corner to each marker's top-left corner.

## Model

| member | source | states |
|---|---|---|
| Geometry.DirectionalCollision | src/main.cpp:123-158 | `None` exactly when the boxes do not overlap. A `Left`/`Right` answer means the x penetration is strictly smaller. `Top`/`Bottom` means the y penetration is smaller or equal (vertical wins ties). `Left` means the centre offset dx > 0, `Right` means dx <= 0, `Bottom` means dy > 0, `Top` means dy <= 0 |
| Geometry.DirectionalOnOverlap | src/main.cpp:142-157 | On overlapping boxes the result is never `None`. It is `Left`/`Right` by the sign of dx when penX < penY, otherwise `Bottom`/`Top` by the sign of dy, including the tie |
| Geometry.Collides | src/main.cpp:160-168 | The strict overlap test of `collision_box_box`. Its properties are stated by `CollidesIffSharedInteriorPoint` (overlap means a point strictly inside both boxes), `EdgeContactIsNoCollision`, `CollidesSymmetric` and `CollidesIffPositivePenetration` |
| Geometry.CollidesIffPositivePenetration | src/main.cpp:123-168 | The strict overlap test holds exactly when both penetration depths of the directional test are positive, so the two functions agree on whether boxes collide |
| Geometry.CollidesIffSharedInteriorPoint | src/main.cpp:160-168 | For boxes of positive size, the overlap test holds exactly when some point lies strictly inside both boxes |
| Geometry.CollidesSymmetric | src/main.cpp:160-168 | The overlap test does not depend on argument order |
| Geometry.EdgeContactIsNoCollision | src/main.cpp:160-168 | Boxes that only share a vertical or horizontal edge do not collide, and the directional test returns `None` for them |
| Geometry.DirectionalSwap | src/main.cpp:142-157 | Swapping the boxes gives the opposite side, provided the centres differ along the separation axis (x when penX < penY, otherwise y) |
| Geometry.SqDist | src/main.cpp:284 | The squared distance used in place of `glm::distance` is non-negative and zero for equal points |
| Geometry.SqDistPositive | src/main.cpp:662 | Points with different x are at a positive distance |
| Transforms.WindowNormalizedToNdc | src/main.cpp:97-101 | Maps [0,1] onto [-1,1] on each axis, in both directions of the equivalence, and flips y: the upper half of the window has positive device y |
| Transforms.NdcToWindowNormalized | src/main.cpp:103-107 | Maps [-1,1] onto [0,1] on each axis, and positive device y onto the upper half of the window |
| Transforms.NdcRoundTrip | src/main.cpp:97-107 | Converting window to device coordinates and back gives the original point |
| Transforms.WindowRoundTrip | src/main.cpp:97-107 | Converting device to window coordinates and back gives the original point |
| Path.PathMarkers | src/main.cpp:247-262 | The fifteen markers, each converted from window to device coordinates, with the marker size of the route. `PathMarkersShape` and `Simulation.MarkersApart` state their layout |
| Path.PathMarkersShape | src/main.cpp:247-262 | The route has 15 markers, all inside the device square, with strictly increasing x |
| Pathing.NearestFrom | src/main.cpp:659-667 | From any consistent intermediate scan state, the rest of the scan ends in a state allowed by `IsNearestChoice` |
| Pathing.Nearest | src/main.cpp:656-667 | The scan returns -1 only when no marker is nearer than the sentinel. Otherwise it returns a marker of minimum distance, closer than the sentinel and strictly closer than every marker before it (first minimum wins) |
| Pathing.NearestChoiceUnique | src/main.cpp:656-667 | That characterisation determines the index uniquely |
| Pathing.NearestMarker | src/main.cpp:656-667 | The loop with `min_dist`/`min_idx` returns exactly `Nearest`, so it meets the characterisation |
| Pathing.NearestAtMarker | src/main.cpp:659-667 | An enemy exactly on marker k selects k, provided every earlier marker is at a positive distance |
| Pathing.NearestFindsMarker | src/main.cpp:663-666 | If any marker is nearer than the sentinel, the result is a real index, not -1 |
| Simulation.BootstrapTarget | src/main.cpp:656-669 | An enemy still at -1 receives the nearest-marker choice. An enemy with a cursor already set has it overwritten with -1, because the store is outside the `if` |
| Simulation.Bootstrap | src/main.cpp:654-670 | After the start-up pass, every enemy's cursor is `BootstrapTarget` of its old state and every other field is unchanged |
| Simulation.MarkersApart | src/main.cpp:247-262 | Any two distinct markers of the route are at a positive distance |
| Simulation.BootstrapAtMarker | src/main.cpp:654-670 | An un-targeted enemy (cursor -1) placed exactly on marker k of the route is given k by the start-up pass |
| Simulation.BootstrapOnScreenFindsMarker | src/main.cpp:654-670 | An un-targeted enemy anywhere in the device square gets a cursor in [0,15), so its first tick indexes the route safely |
| Simulation.InitialEnemies | src/main.cpp:264-267 | The three starting enemies: health 100/100, 100/500 and 300/300, on the horizontal centre line at x = 0, 0.2 and -0.2, with no waypoint. `InitialEnemiesGetMarkers` states what the start-up pass gives them |
| Simulation.InitialEnemiesGetMarkers | src/main.cpp:264-267 | Each of the three initial enemies gets a cursor in [0,15) from the start-up pass |
| Simulation.TickEnemies | src/main.cpp:682-684 | The frame loop applies `Tick` to every enemy in the list. Afterwards every active enemy's cursor still names a marker |
| Enemies.Tick | src/main.cpp:281-298 | Keeps an active enemy's cursor inside the route. Leaves an inactive enemy unchanged. Never changes `hp`, `hp_max` or the box size. An active enemy is active afterwards exactly when `hp > 0` |
| Enemies.Arrived | src/main.cpp:284-285 | The enemy is within 0.01 of the marker (compared squared). `TickAdvancesOnArrival` states that this decides whether the cursor advances |
| Enemies.TickAdvancesOnArrival | src/main.cpp:283-287 | The cursor becomes `(t+1) % |path|` exactly when the enemy is within 0.01 of marker t, and stays t otherwise |
| Enemies.TickWrapsAtLastMarker | src/main.cpp:286 | At the last marker the cursor wraps to 0, and health is not touched |
| Enemies.TickMovesTowardsOldTarget | src/main.cpp:283-293 | The step heads for the marker looked up at the start of the tick, even when the cursor has advanced |
| Enemies.InactiveStaysInactive | src/main.cpp:282 | The tick does nothing to an inactive enemy |
| Enemies.DamageThenTickKills | src/main.cpp:295-297 | An enemy whose damage reaches its remaining health is switched off by its next tick |
| Enemies.Enemy.constructor | src/main.cpp:177-183 | A new enemy has the given flag, health and box, and cursor -1 |
| Enemies.Enemy.Death | src/main.cpp:184-186 | Clears `is_active` and changes nothing else |
| Enemies.Enemy.TakeDamage | src/main.cpp:187-189 | Subtracts the amount from `hp` and changes nothing else |
| Enemies.Enemy.OnTick | src/main.cpp:281-298 | The object's new fields are `Tick` of its old fields |
| Duration.TruncDiv | src/main.cpp:320-326 | Truncation towards zero: the quotient has the dividend's sign, and the remainder is smaller than the divisor in magnitude and has the same sign |
| Duration.Split | src/main.cpp:316-326 | `h*3600000 + m*60000 + s*1000 + ms' == ms` for every duration. For ms >= 0: h >= 0, m < 60, s < 60, ms' < 1000, all non-negative. For ms <= 0 the fields are non-positive with the same bounds on their magnitude |
| Duration.SplitUnique | src/main.cpp:320-326 | Any in-range fields that add up to ms are the ones `Split` produces |
| Duration.FormatField | src/main.cpp:328-334 | printf `%0Nlld`: for n >= 0 the text is all digits, reads back as n and has length max(width, digits of n). For n < 0 it is `-` followed by digits that read back as -n, with length max(width, 1 + digits of -n). So the sign takes one place of the width |
| Duration.FormatDuration | src/main.cpp:316-337 | The text of `format_duration`. Its properties are stated by `FormatParseRoundTrip` (non-negative durations read back), `FormatInjective`, `FormatFitsBuffer` and the two examples |
| Duration.FormatExample | src/main.cpp:328-334 | 3723004 ms prints as `01:02:03.004` |
| Duration.FormatNegativeExample | src/main.cpp:328-334 | -61001 ms prints as `00:-1:-1.-01`: the minus sign takes one of each field's places |
| Duration.FormatParseRoundTrip | src/main.cpp:316-334 | For ms >= 0, the text is `HH:MM:SS.mmm`: the fields zero-padded to at least 2, 2, 2 and 3 digits. Reading it back gives ms |
| Duration.FormatInjective | src/main.cpp:316-334 | Different non-negative durations print differently |
| Duration.FormatFitsBuffer | src/main.cpp:317-334 | For every signed 64-bit millisecond count the text has at most 31 characters, so the 32-byte buffer never truncates it |

## Left out

- Window, GL context, ImGui, shader, VAO/VBO setup, rendering and cleanup (src/main.cpp:339-359, 389-449, 454-646): these are calls into foreign libraries and I/O.
- Event polling and mouse capture in `_main_handle_inputs` (src/main.cpp:361-387): this is I/O.
- `format_time` (src/main.cpp:306-314): it depends on `localtime`/`strftime`, which carry locale and time-zone state.
- The wall-clock frame timing of the main loop (src/main.cpp:672-693): it reads the system clock. Only its loop over the enemies is modelled (`TickEnemies`).
- `panic` and `handle_gl_error` (src/main.cpp:32-35, 300-304): these are process exit paths.
- The health-percentage colour blend (src/main.cpp:418-419): it is float arithmetic for drawing only.
- `Tower`, `Block` and `GameState` (src/main.cpp:170-176, 192-207): these are data only, with no update logic in this file.
- Enemies.Step: the float movement step (`normalize`, `dir.y *= aspect_ratio`, `* 0.007f`) is an arbitrary function parameter. The model therefore does not capture that normalising a zero vector (an enemy exactly on its marker) gives NaN coordinates.
- Enemies.Enemy.TakeDamage: `hp` is an unbounded integer. Signed 32-bit overflow is undefined behaviour in C++, so there is no wrap-around to model.
- Geometry.SqDist: float rounding of coordinates and of the square root is not modelled. Over exact reals, comparing squared distances decides exactly like comparing distances.
- Duration.FormatParseRoundTrip: only non-negative durations are read back. Negative ones print with signs inside the fields, as `FormatNegativeExample` shows.
- Duration: `format_duration` returns a pointer into a static buffer, and the next call overwrites it. The model returns the text as a value, so that aliasing is not captured.
- The enemy list is modelled as a sequence of distinct objects. The `std::vector` stores its enemies by value, so they cannot alias.
