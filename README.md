# Rusty Sandbox: a Dafny model of the falling-sand engine

Rusty Sandbox is a falling-sand toy. The world is a list of columns of slot
records (`Vec<Vec<Particle>>`). Each slot holds an id, a variant (Sand or
Brick) and an `active` flag. A slot that is not active is empty space.

Every frame, the program's main loop:

1. grows the world to the window, giving each new slot a fresh id from a
   running counter;
2. applies the controls:
   - the left button fills with Sand the window of x in [mx - r, mx + r) and
     y in [my, my + r): 2r columns, r of them left of the pointer's column,
     the pointer's own and r - 1 to its right, and r rows from the
     pointer's row down;
   - the right button lays Brick along a step-by-step walk from the last
     pointer sample to the current one, once the drag is armed;
   - the numpad keys change the brush radius;
3. runs one simulation pass over every slot, column by column and top to
   bottom:
   - active Sand falls one row into an empty slot below;
   - otherwise, on a random coin, it slides sideways by a random offset
     into an empty slot;
   - a per-frame list of ids keeps a particle from moving twice.

The model follows the program's own imperative form. The world is a value
of type `seq<seq<Particle>>`. The locals that `main` keeps across frames
form a `State` record. Each block of the loop body is a method with the
loops of the source, and its contract ties the result to a specification
function:

- `Placeholders` and `NewColumns` for growth;
- `PaintCells`, `AreaCells` and `Walk` for the brushes;
- `Destination` and `Relocate` for one move;
- `VisitNext`, `ColumnFrom` and `PassFrom`, folded into `Pass`, for the
  simulation pass: one slot, the rest of a column, the rest of the columns.

The properties the program relies on are proved about those functions:

- conservation of the occupied records and of the ids;
- "fill empty only";
- the walk's length, direction and end point;
- gravity before sliding;
- the exact conditions for a sideways move;
- every particle handled at most once per frame;
- a lone grain above empty space falls exactly one row per frame.

Modules (one file each): `Particles` (the slot record), `Grid` (the world and
the multisets it holds), `Path` (the smoothing walk), `Growth`, `Brush`,
`Simulation`, and `Sandbox` (one frame).

## Model

| member | source | states |
|---|---|---|
| Particles.Fill | src/main.rs:76-80 | the brush write: the slot ends active with its id unchanged; an occupied slot is kept as it was; an empty one takes the brush's variant |
| Grid.SetCell | src/main.rs:103-107 | a single-slot write keeps the shape, puts the record into that slot and changes no other slot |
| Grid.GatherUpdate | src/main.rs:173-178 | overwriting one slot takes that slot's share out of a world total and adds the new record's share |
| Grid.GatherReplace | src/main.rs:45-59 | replacing one column takes the old column's share out of a world total and adds the new column's share |
| Grid.GatherPush | src/main.rs:59 | pushing a record onto a column adds exactly that record's share to a world total |
| Grid.GatherColumnConcat | src/main.rs:48-59 | a column's total is the sum of the totals of its two halves |
| Grid.GatherHas | src/main.rs:157 | the share of any one slot is contained in the world total |
| Grid.GatherWitness | src/main.rs:157 | whatever is in a world total comes from some slot on the grid |
| Grid.GatherMono | src/main.rs:153-157 | a per-slot share that is always smaller gives a smaller world total |
| Grid.ActiveIdsWithinIds | src/main.rs:153-160 | the ids of the occupied slots are among all ids of the world |
| Path.Toward | src/main.rs:98-101 | one coordinate's move: it holds when it already matches the target, and otherwise moves by exactly one and ends one closer to the target |
| Path.NextStep | src/main.rs:98-101 | one iteration of the step toward the pointer: the cell stays put exactly when it is the target already, and otherwise each coordinate moves by at most one and neither moves away from the target |
| Path.NextStepCloser | src/main.rs:97-101 | one loop iteration brings the walk exactly one step closer to the target, in Chebyshev distance |
| Path.Walk | src/main.rs:97-108 | the cells the drag loop visits, in order; their number is exactly max(\|dx\|, \|dy\|), the number of iterations |
| Path.WalkApproaches | src/main.rs:97-101 | the k-th cell visited is k+1 steps closer to the target than the start |
| Path.WalkEndsAtTarget | src/main.rs:97 | a walk to a different cell ends exactly on the pointer |
| Path.WalkSkipsStart | src/main.rs:97-103 | the anchor cell is never visited, so the walk never paints it |
| Path.WalkCellsDistinct | src/main.rs:97-103 | no cell is visited twice |
| Path.WalkSteps | src/main.rs:98-101 | each iteration moves each coordinate by at most 1 and never away from the target |
| Path.WalkInBox | src/main.rs:98-101 | every cell visited lies in the rectangle that the anchor and the pointer span |
| Path.WalkStaysInGrid | src/main.rs:103 | on a grid whose columns share one height, a walk between two cells on the grid stays on the grid, so the unchecked indexing is safe |
| Path.WalkExample | src/main.rs:97-101 | a drag from (0,0) to (3,2) visits (1,1), (2,2), (3,2): diagonal first, then straight |
| Growth.Placeholders | src/main.rs:48-59 | a filled column has h slots, and slot y is an empty Sand placeholder with id first + y |
| Growth.NewColumns | src/main.rs:41-61 | k new columns, each of height h |
| Growth.SpanIsProduct | src/main.rs:41-61 | k columns of height h hold k·h slots |
| Growth.TopUp | src/main.rs:48-60 | the inner loop keeps the column's slots and appends placeholders until it has h; their ids are the next ones after the counter, and the counter advances by the number added |
| Growth.AddedGather | src/main.rs:48-59 | appending placeholders to a column adds exactly their ids and no occupied record |
| Growth.RunCount | src/main.rs:51-59 | a run of placeholders from first holds each id in [first, first+\|run\|) once and no other id |
| Growth.RunIds | src/main.rs:51-59 | the ids of a run of placeholders are the range [first, end) |
| Growth.RunInactive | src/main.rs:52-56 | a run of placeholders holds no occupied record |
| Growth.AddColumn | src/main.rs:43-60 | one outer iteration appends one column of h placeholders with the next h ids; the occupied records are unchanged |
| Growth.Grow | src/main.rs:41-61 | the growth as written: the world is extended by exactly the missing columns, each of screen height, with the old columns untouched; the counter advances by (missing columns)·h; the new ids are exactly the next range after the counter; occupied records are unchanged; unique ids stay unique and bounded by the counter |
| Growth.GrowStart | src/main.rs:41 | the growth loop's invariant holds before the first column |
| Growth.GrowStep | src/main.rs:41-60 | one appended column keeps the growth loop's invariant |
| Growth.GrowDone | src/main.rs:41-61 | on exit the loop has added exactly the missing columns, (missing)·h slots, and kept the old columns |
| Growth.NewColumnsSnoc | src/main.rs:41-60 | the next column of the growth is the placeholder column whose ids start where the previous columns' ids end |
| Growth.IdRangeChain | src/main.rs:51 | ids taken from the counter in two consecutive rounds form one consecutive range |
| Growth.AppendRunGather | src/main.rs:45-59 | appending a column of placeholders adds exactly their id range and no occupied record |
| Growth.FreshIdsKeepUnique | src/main.rs:51 | adding the ids above the counter keeps the ids unique and bounded by the new counter |
| Growth.GrowToScreen | src/main.rs:41-61 | the corrected growth: every old column is topped up to the screen height with its slots kept, and the missing columns are added; the counter only grows, and the ids it hands out are exactly the next range; occupied records are unchanged; ids stay unique; with no column taller than the screen the result has the screen's shape; on a world already of screen height it is exactly the growth as written |
| Growth.TopUpAll | src/main.rs:48-60 | the inner loop run on every old column: each is topped up to h with its slots kept and only empty Sand added; the new ids are the next range after the counter; a world already of height h is unchanged |
| Growth.TopUpColumn | src/main.rs:48-60 | topping up column x appends exactly the missing placeholders to that column and advances the counter by their number |
| Growth.TopUpAllStart | src/main.rs:48 | the top-up loop's invariant holds before the first column |
| Growth.TopUpAllStep | src/main.rs:48-60 | topping up one more column keeps the top-up loop's invariant |
| Growth.TopUpIds | src/main.rs:51-59 | after topping up a column, the world's ids are the old ids plus the whole range handed out so far, and the occupied records are unchanged |
| Growth.ToppedUpFull | src/main.rs:48 | topping up a world whose columns already have the screen height changes nothing |
| Growth.TopUpKeeps | src/main.rs:48-60 | topping up column x keeps that column's slots, adds only empty Sand, and leaves every other column as it was |
| Growth.ExtendColumnGather | src/main.rs:48-59 | appending placeholders to column x adds exactly their ids and no occupied record to the world |
| Growth.ScreenShape | src/main.rs:41-61 | after the top-up and the growth, old columns are topped up and kept; with no column taller than the screen, every column has the screen height and there are at least w of them |
| Growth.NewColumnsAt | src/main.rs:41-59 | slot (j, y) of the new columns is an empty Sand placeholder with id first + j·h + y |
| Growth.NewColumnsSlot | src/main.rs:41-59 | slot (j, y) of the new columns carries the id after j full columns and y slots |
| Growth.NewIdsIncrease | src/main.rs:51 | the ids handed out by one growth strictly increase in creation order (column by column, top to bottom) |
| Growth.DisjointUnionUnique | src/main.rs:51 | adding ids that are all above every existing id, each once, keeps every id unique |
| Brush.OnScreen | src/main.rs:74 | the bounds check of line 74 is strict: a cell in column 0 or row 0 never passes |
| Brush.AreaCells | src/main.rs:70-74 | the cells the area brush fills, in scan order: a cell is listed exactly when it lies in the window my ≤ y < my+r, mx−r ≤ x < mx+r and passes the check of line 74 |
| Brush.PaintCells | src/main.rs:70-80 | filling a list of cells keeps the world's shape |
| Brush.PaintStep | src/main.rs:76-80 | the source's write (test the slot, then set variant and active) extends the fill by that cell |
| Brush.PaintCellsAt | src/main.rs:70-80 | after a fill, each listed slot holds the fill of its old record and every other slot is untouched |
| Brush.PaintCellsKeepsIds | src/main.rs:76-80 | painting changes no id |
| Brush.PaintCellsKeepsActive | src/main.rs:76-80 | painting removes no occupied record |
| Brush.PaintCellsConcat | src/main.rs:70-71 | filling a + b is filling a, then b |
| Brush.RowCellsExactly | src/main.rs:71-74 | one row of the window lists exactly the cells in [lo, hi) of that row that pass the bounds check |
| Brush.RowsExactly | src/main.rs:70-74 | the rows of the window list exactly the cells of the window that pass the bounds check |
| Brush.RowsWindow | src/main.rs:70-74 | every cell at once: the rows of the window list exactly the cells in it that pass the bounds check |
| Brush.AreaCellsExactly | src/main.rs:70-74 | the area brush visits exactly the cells with my ≤ y < my+r, mx−r ≤ x < mx+r, 0 < x < w and 0 < y < h |
| Brush.AreaCellsInGrid | src/main.rs:74-75 | on a world of the screen's shape the bounds check of line 74 is enough for the indexing to be legal |
| Brush.PaintArea | src/main.rs:70-83 | the two loops fill exactly the window's cells that pass the bounds check: such a slot becomes active (Sand if it was empty), every other slot is unchanged; ids are kept and no occupied record is lost |
| Brush.PaintRow | src/main.rs:71-82 | the inner loop fills exactly one row of the window |
| Brush.RowStep | src/main.rs:72-80 | one iteration of the row scan fills the next cell when it passes the bounds check and changes nothing otherwise |
| Brush.AreaPaintEffect | src/main.rs:70-80 | what the area fill leaves in each slot, and that it keeps ids and occupied records |
| Brush.DragWalk | src/main.rs:97-108 | the drag loop ends on the pointer after exactly max(\|dx\|, \|dy\|) iterations; each visited slot becomes active (Brick if it was empty) and every other slot is unchanged; ids are kept and no occupied record is lost |
| Brush.Approach | src/main.rs:98-101 | the four tests move (lastX, lastY) to exactly the next cell of the walk toward the pointer |
| Brush.WalkStep | src/main.rs:97-107 | one iteration of the drag loop reaches the next cell of the walk, which is on the grid and one step closer, and extends the fill |
| Brush.WalkPaintEffect | src/main.rs:97-108 | what the walk fill leaves in each slot, and that it keeps ids and occupied records |
| Brush.RightButtonHeld | src/main.rs:87-116 | the first held frame writes nothing, stores the pointer as the anchor and arms; an armed frame walks to the pointer and paints; either way the machine ends armed on the pointer |
| Simulation.BelowFree | src/main.rs:165-166 | "below is free" means the slot under (px, py) exists in the column and is empty |
| Simulation.Destination | src/main.rs:163-199 | a move only ever starts from active Sand and only ever lands on an empty slot of the grid |
| Simulation.Relocate | src/main.rs:173-178 | the swap: the destination gets the mover's record, made active; the source keeps its variant, takes the destination's old id and becomes empty; no other slot changes |
| Simulation.GravityPrecedence | src/main.rs:165-178 | a particle falls one row exactly when it is active Sand above the floor row and the slot below is empty, whatever the random draws |
| Simulation.LateralMove | src/main.rs:181-196 | a sideways move to x happens exactly when the particle is active Sand resting on something, 1 < px ≤ w−1, the coin is up, x = px + offset, 1 < x < w and slot x of the same row is empty |
| Simulation.MoveShape | src/main.rs:169-196 | every move goes one row down or slides by −2..1 columns in the same row into columns 2..w−1; a particle never moves up and never lands on itself |
| Simulation.NoSidewaysWithoutOffset | src/main.rs:185-188 | an offset of 0 never moves a particle sideways |
| Simulation.RelocateConserves | src/main.rs:173-178 | a move into an empty slot keeps the occupied records, all ids and the occupied ids |
| Simulation.Visit | src/main.rs:153-199 | the visit's result is exactly VisitNext: an empty slot, or one whose id is already listed, is skipped with nothing changed; otherwise the id is listed once and the world becomes the move of the particle to its Destination (Relocate), or stays as it is when it has none; the shape, Bricks, occupied records and ids are kept; the list stays duplicate-free; a changed occupied slot holds the record of (px, py), which was unlisted before, one move away |
| Simulation.VisitNext | src/main.rs:153-199 | one visit as a function of the state before it; it keeps the screen's shape |
| Simulation.VisitNextKeeps | src/main.rs:153-199 | a visit keeps the shape, every Brick, the occupied records and all ids; the list stays duplicate-free within the occupied ids and covers the slot just passed; a changed occupied slot holds the record of (px, py), which was not listed yet, one move away |
| Simulation.ListedPush | src/main.rs:157-160 | listing a new occupied slot's id keeps the list duplicate-free and within the occupied ids |
| Simulation.Advance | src/main.rs:163-199 | the particle moves to its destination if it has one and stays otherwise; the only slot that gains an occupant is one move from (px, py) and holds the mover's record |
| Simulation.SkipTracks | src/main.rs:153-158 | going past a skipped slot keeps every occupied slot passed so far listed |
| Simulation.MoveKeeps | src/main.rs:173-195 | a move keeps the shape and every Brick, and only the destination gains an occupant, the mover's record |
| Simulation.VisitTracks | src/main.rs:157-178 | after a visit, every occupied slot passed so far, including where the mover landed, carries a listed id |
| Simulation.BricksKeptTrans | src/main.rs:145-149 | keeping every Brick across two steps keeps it across both |
| Simulation.TrackedColumn | src/main.rs:149 | having passed every row of a column is having passed the column |
| Simulation.Simulate | src/main.rs:142-211 | the two loops compute exactly Pass of the world, with the list starting empty; the pass keeps the shape, the occupied records (no material made or lost), every id and every Brick slot; it lists each handled id once and only ids of occupied slots; every occupied slot at the end carries a listed id; every occupied slot at the end holds a record that started there or one move away (one row up, or one column left or one or two right in the same row); with unique ids the list is exactly the occupied ids, each once |
| Simulation.PassColumn | src/main.rs:149-211 | the inner loop over column px computes exactly ColumnFrom from row 0: each row visited once, top to bottom, each visit seeing the world the previous one left |
| Simulation.ColumnFrom | src/main.rs:149-211 | the visits of the rest of column px, top to bottom; they keep the screen's shape |
| Simulation.PassFrom | src/main.rs:145-211 | the column scans of the remaining columns, left to right; they keep the screen's shape |
| Simulation.Pass | src/main.rs:142-211 | the whole pass from an empty id list; it keeps the screen's shape |
| Simulation.ColumnFromStep | src/main.rs:149-160 | scanning a column from row py is visiting row py, then scanning from row py+1 |
| Simulation.PassFromStep | src/main.rs:145-149 | the pass from column px is the scan of column px, then the pass from column px+1 |
| Simulation.ColumnFromKeeps | src/main.rs:149-211 | the scan of the rest of a column keeps the shape, the occupied records, the ids, the Bricks, the duplicate-free list and the record of origins, and leaves every occupied slot up to that column listed |
| Simulation.PassFromKeeps | src/main.rs:145-211 | the pass from column px keeps the same and, at its end, every occupied slot is listed |
| Simulation.PassKeepsAll | src/main.rs:142-211 | the whole pass keeps the shape, the occupied records, the ids, the Bricks, a duplicate-free list of occupied ids and the record of origins, and passes every column |
| Simulation.PassDone | src/main.rs:142-211 | at the end of the pass every occupied slot is listed and holds a record at most one move from its start, and with unique ids the list is exactly the occupied ids, each once |
| Simulation.ColumnSkips | src/main.rs:153-158 | rows that the scan skips (empty, or already listed) change nothing |
| Simulation.PassSkips | src/main.rs:145-158 | columns whose every slot the scan skips change nothing |
| Simulation.LoneGrainFalls | src/main.rs:145-178 | a lone grain of Sand above an empty slot and above the floor row ends the pass exactly one row lower, whatever the random draws, and its id is listed once: the scan meets it again in its new slot and skips it |
| Simulation.OriginsStep | src/main.rs:153-196 | a visit keeps the record of origins: only a particle whose id is not yet listed moves, it is still in its start slot, it moves once, and its id is listed as it does |
| Simulation.MovedAtMostOnce | src/main.rs:140-160 | with unique ids, a particle occupied at the start of the pass ends in exactly one slot, its start slot or one move from it, so no particle is simulated twice in a frame |
| Simulation.Origin | src/main.rs:169-196 | the slot a record came from is its own slot or one from which a single move reaches it |
| Simulation.DistinctSlotsDistinctIds | src/main.rs:157 | with unique ids, two different slots carry different ids |
| Simulation.ExactlyOnce | src/main.rs:157-160 | with unique ids, a duplicate-free list that covers the occupied slots is exactly their multiset of ids |
| Simulation.NoDupCount | src/main.rs:157 | an id in a duplicate-free list occurs there exactly once |
| Sandbox.Valid | src/main.rs:25-34 | what every frame keeps of main's locals: radius at least 1, unique ids, none above the counter; so no slot's id exceeds the counter |
| Sandbox.SlotIdsAtMost | src/main.rs:51 | a bound on the world's ids bounds the id of every slot |
| Sandbox.Initial | src/main.rs:25-34 | the starting state is valid: an empty world, radius 1, smoothing off |
| Sandbox.AdjustRadius | src/main.rs:123-131 | the radius after the keys is RadiusAfter (widen on plus, then narrow on minus if above 1); it never drops below 1; plus alone widens by 1; minus alone narrows by 1 unless at 1; both or neither keep it |
| Sandbox.RadiusAfter | src/main.rs:123-131 | the radius after the keys: it never drops below 1; plus alone widens by 1; minus alone narrows by 1 unless at 1; both or neither keep it; it changes by at most one |
| Sandbox.DragAfter | src/main.rs:86-121 | the drag machine across a frame: a release disarms it; holding the button, or an armed drag not released, leaves it armed; with the button held the anchor moves to the pointer, otherwise it stays |
| Sandbox.Painted | src/main.rs:63-116 | painting keeps the world's shape |
| Sandbox.PaintedAt | src/main.rs:63-116 | after the brushes, a slot of the left-button area holds the Sand fill of its old record, then a slot of the armed walk the Brick fill of that; every other slot is unchanged |
| Sandbox.Controls | src/main.rs:63-131 | the new world is exactly the area filled with Sand (left button), then the walk filled with Brick (right button held, drag armed); the new radius is exactly RadiusAfter of the keys; the shape and every id are kept and no occupied record is lost; the drag machine moves as stated |
| Sandbox.Prepare | src/main.rs:38-131 | lines 38-131 with the corrected growth (Growth.GrowToScreen) in place of lines 41-61: the grown world has the screen's shape, keeps every old slot and every occupied record, and on a world already of screen height is exactly the growth as written; the new world is exactly Painted of the grown world and the new radius exactly RadiusAfter; the sandbox stays valid (radius at least 1, unique ids, none above the counter) |
| Sandbox.Frame | src/main.rs:38-212 | lines 38-212 with the corrected growth in place of lines 41-61: growth and controls as in Prepare; the pass keeps the screen's shape, the occupied records, the ids and the Bricks of the painted world, and each occupied slot at the end holds a record that started there or one move away; the sandbox stays valid and material is never lost; with valid state the id list is exactly the occupied ids, each once; the world after the pass and the id list are exactly Pass of the painted world |
| Sandbox.SameIdsKeepUnique | src/main.rs:142-160 | the validity of ids depends only on the multiset of ids |
| Sandbox.BoundedWalkOnGrid | src/main.rs:103 | cells within the width and the screen height are on a grid of the screen's shape |
| Sandbox.GrowLeavesShortColumn | src/main.rs:48-75 | the growth as written leaves a 2-row column in a 3-row window, and a left click at (1, 2) passes the bounds check but is off the grid |
| Sandbox.SubMultisetSize | src/main.rs:142-200 | a sub-multiset of occupied records is no larger, so the number of particles never drops |

## Left out

- Rendering is not modelled: clear_background, draw_text, draw_rectangle and the colour match (lines 38, 133-138, 202-210) only produce output.
- Input polling becomes plain parameters, as the fields of `Input`: mouse buttons, mouse position, numpad keys. The pointer arrives already cast to whole pixels.
- The window size, screen_width() and screen_height(), becomes the natural-number parameters `w` and `h`. The float comparisons of lines 169 and 181 are stated on those integers, where they agree exactly.
- Randomness: rand::gen_range is a supplied function `roll(px, py)`. It gives the coin of line 184 and an offset in [-2, 2) for line 185, per slot. Each slot is visited at most once per pass, so this is the same as drawing from one stream.
- The frame loop itself (next_frame().await) is not modelled; `Frame` is one turn of it.
- Integer widths are not modelled: last_id is an i32, paint_radius and the pointer are i16, and the code casts to usize. The model uses unbounded integers, so counter overflow after about 2^31 slots and radius overflow are out of scope.
- Simulation.Destination: the offset is signed addition `px + offset`. Line 185 casts the negative offset to usize and adds it. That gives px + offset only under the wrap-around of release builds. In a debug build the addition overflows and the program stops.
- Brush.DragWalk: requires every cell of the walk to be on the grid. Line 103 indexes with no bounds check, so a walk off the grid stops the program, and the model does not describe that stop.
- Simulation.Simulate: requires a world of exactly the screen's shape, at least w columns of exactly h rows. That is the shape every frame leaves with the corrected growth (Growth.GrowToScreen), not with the growth as written. The source also runs on other shapes, and the model does not cover them.
- Sandbox.Prepare and Sandbox.Frame model the frame with the corrected growth. The frame as written after the window gets taller is modelled only up to its growth: Growth.Grow, and Sandbox.GrowLeavesShortColumn for the short column it leaves. Such a frame has short columns, and the indexing at line 75, line 103 or line 188 can go past the end of one, which stops the program.
- Sandbox.Prepare: requires the world's columns to be no taller than the window. A window that becomes shorter, leaving columns taller than the screen, is not modelled, because the simulation pass is modelled only on the screen's exact shape.
- Sandbox.Prepare: states the counter's exact advance ((missing columns)·h) only when the old columns already have the window's height. Otherwise it states that the counter only grows, with the exact range of ids in Growth.GrowToScreen.
- Sandbox.Frame: like Prepare, it states the counter's exact advance only for a world already of the window's height.
- The walk never paints the anchor cell: it moves before it paints. The model follows the code (Path.WalkSkipsStart).

## Findings

| source | as written | input that shows it | evidently intended | confidence | as-written member | corrected member |
|---|---|---|---|---|---|---|
| src/main.rs:48 | The inner loop starts at `world[x].len()` of a column that was just pushed, so it always starts at 0. Only new columns are filled; columns already there keep their height when the window gets taller. | A 2×2 world with ids 1-4; the window becomes 2×3; left click at (1, 2) with radius 1. The cell passes the check at line 74, but column 1 has only 2 rows, so line 75 indexes past its end. | Every column topped up to the screen height, so that the check at line 74 keeps line 75 in bounds. | medium; not executed | Growth.Grow, Sandbox.GrowLeavesShortColumn | Growth.GrowToScreen, Sandbox.Prepare |
