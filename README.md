# Pill splitter: a verified model of the partition engine

The pill splitter is a canvas of coloured, rounded rectangles called pills.
A drag on empty canvas draws a new pill. A click cuts the canvas with a
vertical line and a horizontal line through the click point. A press on a
pill brings it to the front and lets it be dragged.

This project models the engine behind those gestures in Dafny and proves
what it promises:

- the geometry tests;
- the corner-radius inheritance of fragments;
- the id counter;
- `performSplit`, which decides for every pill whether it passes through,
  is cut into two or four fragments, or is nudged toward its larger side,
  which can leave it on the line when the move is clamped at 0;
- the list operations for committing a drawn pill, bringing a pill to the
  front and dragging it;
- the moved flag that tells a click from a drag.

Files and modules:

- `types.dfy` (`Types`): the records and collection invariants. Pills,
  radii, corners, cell containment, area, tiling, distinct ids, and the
  concatenation of per-pill results (`Flatten`) with its lemmas.
- `utils.dfy` (`Utils`): the constants, `IntersectsV`/`IntersectsH`,
  `ComputeRadii`, the list invariant `WellFormed`, and the id counter as
  the class `Uid`.
- `split.dfy` (`Split`): the partition engine.
  - `SplitPill` says what one pill becomes under a cut at (vx, hy).
  - `SplitAll` says what the whole list becomes, with ids threaded in list
    order.
  - `PerformSplit` is the imperative loop, proved equal to `SplitAll`. It
    follows the source's branch order: miss, cross, vertical, horizontal.
    Each branch's minting and radius assignment is in `SplitOne`,
    `CutAcross`, `CutVertical` and `CutHorizontal`.
- `app.dfy` (`App`): the click threshold, `CommitDraw`, `BringToFront`
  and `DragTo`, with the lemmas saying that each keeps the list invariant.
  The pointer handlers are the class `Canvas`.
- `scenarios.dfy` (`Scenarios`): concrete cuts and draws on small canvases.

Modelling decisions:

- Coordinates and sizes are integers, so `Math.round` is the identity.
- The source mints ids as the strings `p1`, `p2`, …. The model uses the
  counter value itself, starting at 1. Distinct counter values give
  distinct strings, so id equality is the same.
- `computeRadii` never reads the id of the piece passed to it. In the
  vertical and horizontal branches the source passes `""` there, and the
  model passes 0, which is never minted.
- The list invariant `WellFormed` says three things:
  - ids are distinct;
  - every pill is at least `MIN_PART` wide and high;
  - no radius is negative.

  A drawn pill is at least `MIN_PILL` (40) on each side, and every
  fragment is at least `MIN_PART` (20). A pill at least `MIN_PART` on each
  side therefore yields fragments that are at least `MIN_PART` on both
  sides, including the side the cut keeps.
- After a cross cut through the middle of a freshly drawn pill, each
  quadrant keeps the initial radius at the single outer corner it shares
  with the parent, and its other three corners are square
  (`Scenarios.CrossCutOfSquare`). This is what `computeRadii` does; the
  code does not square all four corners.

## Model

| member | source | states |
|---|---|---|
| Utils.FragmentMinimumBelowDrawMinimum | src/utils/index.ts:4-5 | the fragment minimum 20 is positive and below the drawing minimum 40 |
| Utils.IntersectsV | src/utils/index.ts:19-20 | a vertical line at x meets a pill when x lies strictly between its left and right edges; its meaning in cells is IntersectsVSplitsCells |
| Utils.IntersectsH | src/utils/index.ts:22-23 | a horizontal line at y meets a pill when y lies strictly between its top and bottom edges; its meaning in cells is IntersectsHSplitsCells |
| Utils.IntersectsVSplitsCells | src/utils/index.ts:19-20 | a vertical line meets a pill iff the pill has cells on both sides of it; a line on either vertical edge meets nothing |
| Utils.IntersectsHSplitsCells | src/utils/index.ts:22-23 | a horizontal line meets a pill iff the pill has cells above and below it; a line on either horizontal edge meets nothing |
| Utils.ComputeRadii | src/utils/index.ts:25-49 | the radii of a piece cut from a pill: each corner takes the parent's radius (or the initial radius when the parent has none) when both its edges are the parent's edges, and 0 otherwise; proved corner by corner in ComputeRadiiCorner |
| Utils.ComputeRadiiCorner | src/utils/index.ts:33-48 | a corner of a piece keeps the parent's radius iff both of its edges lie on the parent's edges, and is 0 otherwise |
| Utils.ComputeRadiiFromParent | src/utils/index.ts:26-48 | every corner is 0 or the parent's radius at that corner; with no parent radii, every corner is 0 or INITIAL_BORDER_RADIUS |
| Utils.ComputeRadiiWholePill | src/utils/index.ts:26-48 | a piece with the parent's geometry gets the parent's radii, or the initial radii when the parent has none |
| Utils.ComputeRadiiAncestor | src/utils/index.ts:43-48 | after two cuts, a rounded corner still has both edges on the original pill's edges |
| Utils.Uid.constructor | src/utils/index.ts:14-15 | the counter starts at 1 with nothing issued |
| Utils.Uid.Mint | src/utils/index.ts:16 | returns the counter, advances it by one, and the id returned was never issued before |
| Split.AnyTooSmall | src/App.tsx:208-210 | the `some` over the would-be fragment sizes, scanning from the first; its meaning is AnyTooSmallIff |
| Split.AnyTooSmallIff | src/App.tsx:208-210 | the `some` test holds iff some listed size is below MIN_PART in width or height |
| Split.NudgeCoord | src/App.tsx:212-215 | moves past the cut by 2 when the far side is strictly larger; otherwise ends 2 before the cut, or stops at 0 exactly when that would land at or below 0 |
| Split.Nudged | src/App.tsx:211-217 | an uncut pill moved along each axis whose line runs through it, toward the larger side by NudgeCoord (which can leave it on the line when the move is clamped at 0), and kept in place along an axis whose line misses it (the vertical-only and horizontal-only nudges at 236-240 and 267-271 are the cases where one line misses); stated in SplitNudge |
| Split.SplitPill | src/App.tsx:188-293 | what one pill pushes: itself when no line meets it, its 4 or 2 fragments with inherited radii when it fits the cut, else itself nudged; its properties are SplitOutcome, SplitNudge, SplitFragments, SplitTiles, SplitArea and SplitCorners |
| Split.SplitAll | src/App.tsx:184-299 | the list after the cut: each pill's SplitPill result in list order, ids threaded from the counter through the pills in order; its properties are SplitAllAt, SplitAllMiss, SplitAllArea and SplitAllWellFormed |
| Split.CrossTooSmall | src/App.tsx:196-211 | when both lines cross a pill, some would-be quadrant is too small iff the pill does not fit the cut |
| Split.SplitOutcome | src/App.tsx:191-293 | a pill becomes 4 pieces iff both lines cross it and it fits, 2 iff exactly one line crosses it and it fits, and 1 otherwise; ids consumed equal the pieces made |
| Split.SplitNudge | src/App.tsx:191-271 | a pill that is not cut keeps id, colour, size and radii; x and y follow the nudge rules of the cross, vertical and horizontal branches (211-217, 236-240, 267-271) on each crossed axis, with ties moving left or up; a pill neither line meets is unchanged |
| Split.SplitFragments | src/App.tsx:220-291 | in all three branches (220-229, 242-260, 273-291), fragments take ids n, n+1, … in order and the parent's colour; on a crossed axis they are at least MIN_PART, on the other they keep the parent's extent; radii come from computeRadii against the parent |
| Split.SplitTiles | src/App.tsx:220-291 | in all three branches, a cut pill's fragments tile it: every cell of the parent is in exactly one fragment and no fragment leaves the parent; no cut line runs through any fragment, so the seams lie on the cut lines |
| Split.SplitArea | src/App.tsx:197-291 | fragment areas sum to the parent's area; in each branch the fragments start at the parent's edge and at the cut line (x = vx, y = hy), and their sides across each cut add up to the parent's side |
| Split.SplitCorners | src/App.tsx:226-291 | each fragment keeps the parent's radius only at its outer corners, exactly as listed for cross, vertical and horizontal cuts |
| Split.SplitPillWellFormed | src/App.tsx:208-291 | a pill meeting the list invariant becomes pieces meeting it; an uncut pill keeps its id, fragments take ids in [n, n + IdsUsed) |
| Split.SplitAllAt | src/App.tsx:186-297 | the cut keeps list order: pill i becomes 1, 2 or 4 consecutive entries between the outputs of the pills before and after it |
| Split.SplitAllMiss | src/App.tsx:191-194 | a cut that meets no pill returns the list unchanged and mints no id |
| Split.SplitAllArea | src/App.tsx:186-297 | the cut conserves the total area of the list |
| Split.ChunksDisjoint | src/utils/index.ts:14-17 | the outputs of two different pills share no id: old ids are distinct and below the counter, fresh ids come in disjoint stretches |
| Split.SplitAllWellFormed | src/App.tsx:186-297 | the cut keeps the list invariant; every id is old or freshly minted and below the advanced counter |
| Split.CutAcross | src/App.tsx:220-230 | mints four ids and returns the quadrants in reading order with radii inherited from the parent |
| Split.CutVertical | src/App.tsx:242-260 | mints two ids and returns the left and right halves with inherited radii |
| Split.CutHorizontal | src/App.tsx:273-291 | mints two ids and returns the top and bottom halves with inherited radii |
| Split.SplitOne | src/App.tsx:188-295 | what one pill pushes equals SplitPill, and the counter advances by the ids it consumes |
| Split.PerformSplit | src/App.tsx:184-299 | the loop's result equals SplitAll of the list with ids from the counter, and the counter advances by TotalIds |
| App.MovedAfter | src/App.tsx:75-77 | after a move the flag is set iff it was set or the move goes beyond 5 in x or y |
| App.MovedOver | src/App.tsx:75-77 | the flag after a run of moves, each updating it as at 75-77; its meaning is MovedOverIff |
| App.MovedOverIff | src/App.tsx:75-77 | over a run of moves the flag ends set iff it started set or some move went beyond the threshold |
| App.Normalize | src/App.tsx:97-110 | the committed pill has its corner at the lesser drag corner, the absolute drag size, the preview's colour and the initial radii |
| App.NormalizeCovers | src/App.tsx:99-102 | the committed pill covers exactly the cells between the drag's start and end |
| App.CommitDraw | src/App.tsx:96-112 | a large-enough preview is appended normalised; a smaller one leaves the list as it is |
| App.CommitDrawWellFormed | src/App.tsx:96-112 | committing with a fresh id keeps the list invariant, adds the drawn area, and the new pill is at least MIN_PILL on each side |
| App.Without | src/App.tsx:136 | a pill is kept iff it is in the list and its id differs |
| App.Find | src/App.tsx:137 | the result is a list member with that id; it is absent iff no pill has that id |
| App.WithoutAppend | src/App.tsx:136 | filtering distributes over concatenation, so the kept pills stay in their original order |
| App.WithoutFound | src/App.tsx:136-137 | in a list with distinct ids, the filtered list plus the found pill is the original multiset |
| App.WithoutUnique | src/App.tsx:136 | filtering keeps ids distinct |
| App.BringToFront | src/App.tsx:135-139 | the pill with the pressed id moved to the end, where it is drawn on top, or the list itself when no pill has that id; its properties are BringToFrontMoves, BringToFrontAbsent and BringToFrontWellFormed |
| App.BringToFrontMoves | src/App.tsx:135-139 | with distinct ids, the same pills come back, the chosen one last and before it the filtered list, which keeps their order (WithoutAppend) |
| App.BringToFrontAbsent | src/App.tsx:138 | a press on an id that is not present leaves the list unchanged |
| App.BringToFrontWellFormed | src/App.tsx:135-139 | bringing to front keeps the list invariant |
| App.Dragged | src/App.tsx:153-157 | only x and y change; each is the pointer minus the grab offset, clamped at 0 |
| App.DragTo | src/App.tsx:150-160 | maps the list, moving each pill with the dragged id by Dragged; the result has the same length and the same ids and sizes at every position |
| App.DragToMovesOne | src/App.tsx:150-160 | with distinct ids, the drag replaces exactly the dragged pill by its moved copy |
| App.DragToAbsent | src/App.tsx:150-160 | a drag of an id that is not present changes nothing |
| App.DragToWellFormed | src/App.tsx:150-160 | a drag keeps the list invariant and the total area |
| App.Canvas.constructor | src/App.tsx:18-27 | an empty canvas, not drawing, not dragging, flag clear |
| App.Canvas.PressCanvas | src/App.tsx:45-64 | starts a zero-size preview at the press point with a freshly minted id and clears the flag |
| App.Canvas.MoveCanvas | src/App.tsx:66-84 | while drawing, updates the flag by the threshold and, once it is set, stretches the preview to the pointer |
| App.Canvas.ReleaseCanvas | src/App.tsx:86-120 | a click cuts the list at the release point; a drag commits a large-enough preview with a fresh id; drawing ends and the flag clears |
| App.Canvas.PressPill | src/App.tsx:124-142 | records the grab offset, brings the pill to front and clears the flag |
| App.Canvas.MoveWindow | src/App.tsx:144-161 | while dragging, sets the flag and applies DragTo |
| App.Canvas.ReleaseWindow | src/App.tsx:163-172 | ends the drag and changes nothing else |
| Scenarios.CrossCutOfSquare | src/App.tsx:196-229 | cutting a drawn 100×100 pill at (50,50) gives the four listed 50×50 quadrants with outer-corner radii; their areas total 10000 |
| Scenarios.SliverCutNudgesRight | src/App.tsx:233-240 | a cut at (5, 150), whose horizontal line misses the square, takes the vertical-only branch and nudges it to x = 7 with y unchanged |
| Scenarios.TieMovesLeftAndUp | src/App.tsx:211-216 | a 10×10 pill at the origin cut at its centre ties on both axes and moves left and up, stopping at the origin |
| Scenarios.TieMovesLeftAndUpUnclamped | src/App.tsx:211-216 | the same tie at (100, 100) cut at (105, 105) lands 2 before each line, at (93, 93) |
| Scenarios.SmallDrawCommitsNothing | src/App.tsx:96 | a 30×30 drag commits nothing |
| Scenarios.BackwardDrawNormalizes | src/App.tsx:99-102 | a drag from (100,100) by (−60,−50) commits a 60×50 pill at (40,50) |
| Scenarios.CutOfEmptyCanvas | src/App.tsx:186-187 | cutting an empty list gives an empty list |

## Left out

- Rendering: the pill, preview and crosshair components, and the crosshair position state, are presentation only.
- Pointer plumbing is left out: the container offset (`getBoundingClientRect`), listener registration, pointer capture and its logged failure, and `clickPosRef`, which is written but never read. Handlers receive canvas coordinates directly.
- `rndColor` uses `Math.random`. A colour is a parameter of `PressCanvas`, and the model never inspects it.
- Floating point is not modelled. Coordinates are integers, so `Math.round` is the identity. With fractional cut points, the source rounds widths but places fragments at the unrounded `vx`/`hy`, and that is not captured.
- The id counter is a module-level closure in the source. Here it is a `Uid` object handed to `Canvas`. Ids are counter values, not the strings `p<n>`.
- `isDrawing`, `drawStart` and `drawPreview` are set and cleared together, and `drawStart` is always the preview's corner. They are one field, `Canvas.preview`.
- React's deferred state updates and stale closures are not modelled. Each handler runs to completion on the current state.
- The fall-through `next.push(p)` after the horizontal branch (src/App.tsx:295) cannot be reached, because the three branches before it cover every pill a line meets. `SplitOne` has no such branch.
- Split.SplitFragments: along an axis the cut does not cross, a fragment is at least `MIN_PART` only when its parent is, so the lemma states the parent's extent there. The list invariant supplies the minimum.
- Split.SplitNudge: after a move left or up clamped at 0, a nudged pill may still straddle the cut line. The lemma states the exact coordinate, not "off the line".
