# World map: an incremental 2D range index

This project models `game-template/lib/worldmap.js` in Dafny. The file defines three classes.

- **`WorldMap`** registers rectangular elements on two sorted axes of `Line`s. The x lines (`VERTICAL`) hold left and right edges, and the y lines (`HORIZONTAL`) hold top and bottom edges. Each axis starts with a −∞ sentinel line and ends with a +∞ one.
- **`Line`** is one position on an axis. Its AFTER map holds the elements whose lower edge (left or top) is at the line. Its BEFORE map holds those whose upper edge (right or bottom) is there.
- **`Area`** is a window over the map. It keeps:
  - `elementHash`, the elements currently inside the window;
  - `lineIndexRange`, the cached line index of each edge;
  - `callbacks`, a list told ADD, REMOVE and UPDATE as elements enter, leave or stay.

  `getArea` builds an area with one sweep over the x lines. `update` moves the window edge by edge, scanning only the lines between the old and the new edge.

Modules:
- `Geometry`: coordinates with explicit ±∞, windows, elements, and the closed intersection test.
- `Notify`: notes and callback events. An area's `log` records every callback call in order.
- `Membership`: the specification of membership.
  - `Batch` is the brute-force answer of a one-shot query.
  - `Delta` describes exactly the ADD/REMOVE notes of a membership change.
  - `BetweenSteps` is the invariant between two edge steps of `update`: every element inside both the window reached so far and the target window is a member, and every member is inside one of the two.
- `Lines`: the `Line` class and line values.
  - the registration invariant `Reg`;
  - the cached-index predicates `LowAt`, `HighAt`, `LowCached` and `HighCached`;
  - lemmas about what each scan visits.
- `Worldmap`: the `WorldMap` and `Area` classes, whose methods follow the source's loops.
- `Findings`: the discrepancies listed under "## Findings", modelled as written.

The line arrays, the line maps, the area fields and the callback list are mutable state, so the model keeps them as class fields that methods update in place. `intersect` and `binarySearch` are pure functions. `elements` on `WorldMap` is a ghost record of every element added so far. Callbacks are identified by a number, and calling one appends an `Event` to the area's `log`. Map enumeration order (`for ... in`) is left open. The loops of `iterate`, `addCallback` and the closing loop of `update` return a ghost `order` that lists every key once. The re-check and removal loops of `update`'s edge blocks (`RecheckAll`, `RemoveAll`) return no order; their contracts state the resulting membership and that every ADD they send carries the current window.

Where the code as written departs from its evident intent, the model follows the intent, and `Findings` models the code as written:
- A line drops an element of zero width or height from both of its maps. As written, that path throws (line 35).
- Shrinking an edge keeps the elements that only touch the new edge. As written, the scan removes them too.

A separate, admitted limitation: `update` matches a fresh query only for elements of nonzero extent (see "## Left out").

## Model

| member | source | states |
|---|---|---|
| Geometry.IntersectsIsOverlapOnBothAxes | game-template/lib/worldmap.js:67-69 | intersection is overlap of the closed intervals on both axes, is symmetric, and holds for rectangles that only share an edge |
| Geometry.Window.WithLow | game-template/lib/worldmap.js:134 | `this.range.left = left` (or `top`) changes that edge only |
| Geometry.Window.WithHigh | game-template/lib/worldmap.js:161 | `this.range.right = right` (or `bottom`) changes that edge only |
| Notify.Broadcast | game-template/lib/worldmap.js:73-75 | `callbacks.forEach`: one call per callback, in list order, each with the same note |
| Notify.BroadcastsToNobody | game-template/lib/worldmap.js:336-346 | an area without callbacks records no call, so `getArea` notifies no one |
| Notify.Without | game-template/lib/worldmap.js:232-234 | `filter(c => c !== callback)` keeps exactly the other callbacks and drops every occurrence; an absent callback changes nothing |
| Notify.WithoutAppend | game-template/lib/worldmap.js:233 | filtering keeps the relative order of the remaining callbacks |
| Notify.OrderingSize | game-template/lib/worldmap.js:227-229 | an enumeration of the members lists each once, so the replay has one ADD per member |
| Notify.Replay | game-template/lib/worldmap.js:227-229 | the replay holds one ADD per listed member, in order, with the area's window, and only for the new callback |
| Notify.Updates | game-template/lib/worldmap.js:217-220 | one UPDATE per listed member, with the new and the previous window |
| Membership.DeltaThen | game-template/lib/worldmap.js:105-215 | two successive membership changes toward the same window form one change: nothing is added and then removed again |
| Membership.CheckStep | game-template/lib/worldmap.js:57-65 | one `checkElement` extends a change: ADD for a new intersecting element, REMOVE for a member that no longer intersects, no note otherwise |
| Membership.RecheckedStep | game-template/lib/worldmap.js:57-65 | after `checkElement(e)`, `e` is a member exactly when it intersects the window, and every other membership is unchanged |
| Membership.BetweenStepsStart | game-template/lib/worldmap.js:104-107 | before the first edge step, a membership equal to the old window's query answer satisfies the step invariant |
| Membership.BetweenStepsEnd | game-template/lib/worldmap.js:215 | after the last edge step, the step invariant is the query answer for the new window |
| Membership.ExpandLowKeepsBetweenSteps | game-template/lib/worldmap.js:108-118 | re-checking elements whose upper edge lies between the new and the old lower edge keeps the step invariant |
| Membership.ContractLowKeepsBetweenSteps | game-template/lib/worldmap.js:120-131 | removing the elements whose upper edge lies between the old and the new lower edge keeps the step invariant |
| Membership.ExpandHighKeepsBetweenSteps | game-template/lib/worldmap.js:135-146 | re-checking elements whose lower edge lies between the old and the new upper edge keeps the step invariant |
| Membership.ContractHighKeepsBetweenSteps | game-template/lib/worldmap.js:147-158 | removing the elements whose lower edge lies between the new and the old upper edge keeps the step invariant |
| Lines.Entered | game-template/lib/worldmap.js:19-37 | `addElement` records the element on the requested sides, changes no other entry, and never leaves the same element on both sides of a line. The other side's entry at the element's id is kept unless it held this element, which is then dropped |
| Lines.Line.constructor | game-template/lib/worldmap.js:11-17 | a new line sits at its position with two empty maps |
| Lines.Line.AddElement | game-template/lib/worldmap.js:19-31 | the line's new value is `Entered` of its old value |
| Lines.Line.RemoveElement | game-template/lib/worldmap.js:33-37 | the element's id leaves both maps and nothing else changes |
| Lines.LowerBoundFinds | game-template/lib/worldmap.js:278-281 | on a sorted axis, the lower-bound index holds `p` exactly when some line does; otherwise it is the insertion place, strictly between the sentinels |
| Lines.InsertKeepsSorted | game-template/lib/worldmap.js:283-285 | splicing a new line into its place keeps the axis strictly increasing, with the sentinels first and last |
| Lines.LowWalkDown | game-template/lib/worldmap.js:109-117 | the line where the expanding lower-edge walk stops is the last line strictly before the new edge |
| Lines.LowWalkUp | game-template/lib/worldmap.js:121-130 | (corrected) the line where the contracting lower-edge walk stops is the last line strictly before the new edge |
| Lines.HighWalkUp | game-template/lib/worldmap.js:136-145 | the line where the expanding upper-edge walk stops is the first line strictly after the new edge, or the last line |
| Lines.HighWalkDown | game-template/lib/worldmap.js:148-157 | (corrected) the line where the contracting upper-edge walk stops is the first line strictly after the new edge |
| Lines.RegInsert | game-template/lib/worldmap.js:283-284 | inserting an empty line at a new position keeps the registration invariant |
| Lines.RegEnterLow | game-template/lib/worldmap.js:270 | `addElement(element, 0, 1)` on the line at the lower edge records that edge |
| Lines.RegEnterHigh | game-template/lib/worldmap.js:271 | `addElement(element, 1, 0)` on the line at the upper edge completes the registration, including the zero-extent drop |
| Lines.RegLowStep | game-template/lib/worldmap.js:270 | finding or creating the lower-edge line and then recording the edge moves the registration from stage 0 to stage 1 |
| Lines.RegHighStep | game-template/lib/worldmap.js:271 | finding or creating the upper-edge line and then recording the edge restores the registration invariant |
| Lines.EntriesOutside | game-template/lib/worldmap.js:125-128 | the BEFORE entries of a line strictly before the new lower edge lie outside the window, and so do the AFTER entries of a line strictly after the new upper edge |
| Lines.KeysAreEdges | game-template/lib/worldmap.js:19-30 | the entries of one side of a run of lines are exactly the elements of nonzero extent whose edge is on one of those lines |
| Lines.ExpandLowScan | game-template/lib/worldmap.js:108-118 | the lines the expanding lower-edge scan visits hold every element whose upper edge lies between the new and the old edge, and nothing at or after the old edge |
| Lines.ContractLowScan | game-template/lib/worldmap.js:120-131 | the lines the corrected contracting lower-edge scan visits hold every element whose upper edge lies in `[old, new)`, and only elements strictly before the new edge |
| Lines.ExpandHighScan | game-template/lib/worldmap.js:135-146 | the expanding upper-edge scan holds every element whose lower edge lies in `(old, new]`, and only elements strictly after the old edge |
| Lines.ContractHighScan | game-template/lib/worldmap.js:147-158 | the corrected contracting upper-edge scan holds every element whose lower edge lies in `(new, old]`, and only elements strictly after the new edge |
| Lines.IterateScan | game-template/lib/worldmap.js:314-329 | the AFTER entries of the lines `iterate` visits are exactly the registered elements of nonzero extent whose lower edge is at or before `end` |
| Lines.IterateCaches | game-template/lib/worldmap.js:313-331 | for an ordered window, `iterate`'s start line and end line are the cached lines of the window's two edges |
| Lines.ListingRegistered | game-template/lib/worldmap.js:326-329 | every element `iterate` hands to its callback is a registered element under its own id |
| Worldmap.WorldMap.constructor | game-template/lib/worldmap.js:260-265 | each axis is exactly the two empty sentinel lines, all of them new, and the map is valid and indexed (its line positions are the sentinels) with nothing registered |
| Worldmap.WorldMap.Sentinels | game-template/lib/worldmap.js:262-263 | the axis literal `[new Line(-Infinity), new Line(Infinity)]`: two new, sorted, empty sentinel lines |
| Worldmap.WorldMap.BinarySearch | game-template/lib/worldmap.js:294-303 | the least index in `first .. last` whose line is at or after `p`, or `last` when there is none |
| Worldmap.WorldMap.BinarySearchBetweenSentinels | game-template/lib/worldmap.js:289-293 | searched over the whole array, a position other than −∞ lands in `1 .. len-1`, and −∞ lands on the first sentinel |
| Worldmap.WorldMap.FindLineOrCreate | game-template/lib/worldmap.js:276-287 | returns the line at `p`. If none exists, it inserts exactly one new empty line at its sorted place; otherwise the axis is unchanged. The axis stays sorted with its sentinels, its positions gain exactly `p`, and the other axis is untouched |
| Worldmap.WorldMap.InsertLine | game-template/lib/worldmap.js:283-285 | `splice(i, 0, new Line(p))`: the axis and its values gain exactly one empty line at `i` |
| Worldmap.WorldMap.Enter | game-template/lib/worldmap.js:270-273 | one `findLineOrCreate(p).addElement(...)`: the line at `p` (found or inserted) takes `Entered`, no other line changes, and the axis's positions gain exactly `p` |
| Worldmap.WorldMap.EnterLine | game-template/lib/worldmap.js:270 | `addElement` on one line of an axis changes only that line of the axis and leaves the other axis alone |
| Worldmap.WorldMap.Register | game-template/lib/worldmap.js:270-273 | the two calls for one axis leave that axis satisfying the registration invariant with the new element, and its positions gain exactly the element's two edges on that axis |
| Worldmap.WorldMap.Add | game-template/lib/worldmap.js:267-274 | the element is registered on both axes: AFTER at its left and top lines, BEFORE at its right and bottom lines, and the map stays valid. The x positions gain exactly its left and right edges and the y positions its top and bottom edges, each axis grows by at most two lines, and an indexed map (one line per registered edge coordinate, plus the sentinels) stays indexed. Every line it adds is new, so a caller can `add` again |
| Worldmap.IndexedAdd | game-template/lib/worldmap.js:267-274 | adding a new element's two edges to an axis whose positions are the sentinels and the registered edges gives the sentinels and the edges with the new element |
| Worldmap.WorldMap.Collect | game-template/lib/worldmap.js:326-329 | the inner `for ... in` lists every entry of the map once, in enumeration order, and nothing else |
| Worldmap.WorldMap.Iterate | game-template/lib/worldmap.js:312-332 | the walk stops at the first line after `end`. `startLine` is the last line before `start` (or `null`), `endLine` is the stop line (or the last line), and `found` lists the AFTER entries of the walked lines in order |
| Worldmap.WorldMap.GetArea | game-template/lib/worldmap.js:334-347 | the new area's members are exactly the registered elements of nonzero width that intersect `r`; it has no callbacks and sends nothing, and its cached lines fit `r` |
| Worldmap.WorldMap.Build | game-template/lib/worldmap.js:336-346 | an element becomes a member exactly when the walk found it and it intersects `r`, and the cached lines are the ones the walks returned |
| Worldmap.ExpandLowBetweenSteps | game-template/lib/worldmap.js:108-118 | the expanding lower-edge step keeps the invariant of `update` |
| Worldmap.ContractLowBetweenSteps | game-template/lib/worldmap.js:120-131 | the corrected contracting lower-edge step keeps the invariant of `update` |
| Worldmap.ExpandHighBetweenSteps | game-template/lib/worldmap.js:135-146 | the expanding upper-edge step keeps the invariant of `update` |
| Worldmap.ContractHighBetweenSteps | game-template/lib/worldmap.js:147-158 | the corrected contracting upper-edge step keeps the invariant of `update` |
| Worldmap.Area.constructor | game-template/lib/worldmap.js:45-55 | the window is as given; membership, callbacks and log are empty; all cached indices are 0 |
| Worldmap.Area.Tell | game-template/lib/worldmap.js:73-75 | the log gains one call per callback, in list order |
| Worldmap.Area.AddElement | game-template/lib/worldmap.js:71-76 | the element becomes a member, and every callback is told ADD with the current window |
| Worldmap.Area.RemoveElement | game-template/lib/worldmap.js:78-86 | a member is dropped and every callback is told REMOVE; a non-member changes nothing and sends nothing |
| Worldmap.Area.UpdateElement | game-template/lib/worldmap.js:88-92 | every callback is told UPDATE with the current and the previous window |
| Worldmap.Area.CheckElement | game-template/lib/worldmap.js:57-65 | an intersecting absent element is added (ADD); an intersecting member is left alone; a non-intersecting element is removed (REMOVE only if it was a member) |
| Worldmap.Area.CheckOne | game-template/lib/worldmap.js:338-340 | one call of `getArea`'s callback re-checks one more element |
| Worldmap.Area.RecheckOne | game-template/lib/worldmap.js:111-113 | one `checkElement` of an expanding scan re-checks one more element and extends the change and the log |
| Worldmap.Area.RemoveOne | game-template/lib/worldmap.js:126-128 | one `removeElement` of a contracting scan removes one more element and extends the change and the log |
| Worldmap.Area.RecheckAll | game-template/lib/worldmap.js:111-113 | every entry of one side of a line is re-checked against the new window, and every ADD sent carries the current window |
| Worldmap.Area.RecheckLine | game-template/lib/worldmap.js:111-113 | one line of an expanding scan: the entries of its side join the re-checked set, the change stays exact, and the scan's ADDs still carry its window |
| Worldmap.Area.RemoveAll | game-template/lib/worldmap.js:125-128 | every entry of one side of a line is removed from membership |
| Worldmap.Area.RemoveLine | game-template/lib/worldmap.js:125-128 | one line beyond the new edge in a contracting scan: the entries of its side leave membership, the change stays exact, and no ADD is sent with another window |
| Worldmap.Area.ExpandLow | game-template/lib/worldmap.js:108-118 | the walk re-checks the BEFORE entries of every line from the cache down to the first line before the new edge, and caches that line |
| Worldmap.Area.ContractLow | game-template/lib/worldmap.js:120-131 | (corrected) the walk removes the BEFORE entries of the lines strictly before the new edge, and caches the last such line |
| Worldmap.Area.ExpandHigh | game-template/lib/worldmap.js:135-146 | the walk re-checks the AFTER entries of every line from the cache up to the first line after the new edge, and caches that line |
| Worldmap.Area.ContractHigh | game-template/lib/worldmap.js:147-158 | (corrected) the walk removes the AFTER entries of the lines strictly after the new edge, and caches the first such line |
| Worldmap.Area.StepLow | game-template/lib/worldmap.js:108-133 | expand, contract or keep a lower edge, then set it. The cache fits the new edge, notes are an exact change, and the step invariant holds. An unchanged edge scans nothing: no notes, and membership and caches are unchanged |
| Worldmap.Area.StepHigh | game-template/lib/worldmap.js:135-161 | the same for an upper edge, including the unchanged-edge case |
| Worldmap.Area.UpdateAll | game-template/lib/worldmap.js:217-220 | every member gets exactly one UPDATE per callback with the new and the old window, members in enumeration order |
| Worldmap.Area.MoveEdges | game-template/lib/worldmap.js:105-215 | after the four edge blocks the window is the new one, the caches fit it, the ADD/REMOVE notes are one exact change, and a query answer becomes the new query answer. The notes are the left, right, top and bottom blocks in that order, and each block's ADDs carry the window as that block sees it: the old one, then with the new left, then with the new left and right, then with only the old bottom. The block of an unchanged edge sends nothing |
| Worldmap.Area.Update | game-template/lib/worldmap.js:104-221 | the window becomes `r` and the area stays valid. The log gets the ADD/REMOVE notes of an exact membership change, then one UPDATE per member and callback with the old window. If membership was the query answer for the old window, it becomes the query answer for `r`. The ADD/REMOVE notes come block by block (left, right, top, bottom), each block's ADDs carrying the partly moved window; the block of an unchanged edge sends nothing |
| Worldmap.Area.CheckAll | game-template/lib/worldmap.js:338-340 | after checking the found elements in order, each becomes a member exactly when it intersects the window; other memberships are unchanged |
| Worldmap.Area.SetLines | game-template/lib/worldmap.js:94-99 | the four cached indices become the arguments |
| Worldmap.Area.AddCallback | game-template/lib/worldmap.js:223-230 | the callback is appended, and only it receives one ADD per current member with the current window |
| Worldmap.Area.RemoveCallback | game-template/lib/worldmap.js:232-234 | every occurrence of the callback is removed, the others keep their order, and nothing is sent |
| Findings.ContractLowAsWritten | game-template/lib/worldmap.js:120-131 | the contracting lower-edge walk as written only removes members |
| Findings.ContractHighAsWritten | game-template/lib/worldmap.js:147-158 | the contracting upper-edge walk as written only removes members |
| Findings.ContractLowDropsTouching | game-template/lib/worldmap.js:122-124 | as written, moving the left edge onto an element's right edge removes an element that still intersects |
| Findings.ContractHighDropsTouching | game-template/lib/worldmap.js:150-152 | as written, moving the right edge onto an element's left edge removes an element that still intersects |
| Findings.EnteredAsWritten | game-template/lib/worldmap.js:19-37 | as written, `addElement` agrees with the corrected `Entered` whenever it returns normally. It throws whenever the element would end up on both sides: both flags set, or the other side already holding it |
| Findings.ZeroWidthAddThrows | game-template/lib/worldmap.js:28-35 | registering both edges of a zero-width element on one line throws on the second call |

## Left out

- Floating-point coordinates and NaN: coordinates are integers with explicit ±∞.
- `makeRangeAutoUpdate` (lines 236-249): it depends on `Utils.checkNewCell`, which is not part of this model, and on the shared `tempRange`.
- `injector.register` (line 352) and the exported constants (lines 349-350): module glue.
- `incrementElementCount` (lines 305-310): nothing calls it.
- Elements without a `range` (line 269): the model's elements always have one, because `checkElement` would fail on them.
- Registering an identifier twice: `Worldmap.WorldMap.Add` requires a new identifier, because the source keeps duplicate bookkeeping for a repeated one.
- Object identity: elements and callbacks are compared by value and by number, not by reference.
- `Lines.Entered`: the test `BEFORE[id] === AFTER[id]` is modelled as equality of the looked-up values.
- Callback side effects and re-entrant calls: a callback only appends to the log.
- The window passed to callbacks is the live `this.range` object: the model records its value at the time of the call (in `update`, with the edges of the earlier blocks already moved), not later mutations.
- Map enumeration order: no fixed order. The `for ... in` loops of `iterate`, `addCallback` and `update`'s closing loop return a ghost `order` covering every key once; the edge-block loops state only their combined effect.
- `Worldmap.WorldMap.GetArea`: the callback of `iterate` is modelled as the list `found` of the elements it is called with. `Build` then applies `checkElement` to them in order after the walk. This is equivalent, because the callback only touches the new area.
- `Worldmap.WorldMap.GetArea`: the area invariant is proved only for a window whose edges are ordered (left ≤ right, top ≤ bottom). For other windows the cached lines need not fit.
- `Worldmap.Area.Update` requires a valid area whose cached lines fit its window. Registrations between `getArea` and `update` shift the cached indices (line 284), and nothing adjusts them.
- `Worldmap.Area.Update` requires that a `null` cached start line (a −∞ left or top edge) is not followed by a contraction of that edge. In the source that contraction reads a line that does not exist and throws.
- `Worldmap.Area.Update` reads both line arrays as values, since `update` never changes them.
- `Worldmap.Area.MoveEdges` and `Worldmap.Area.Update` say which window each block's ADDs carry, but not which REMOVEs each block sends. Over the whole update, the REMOVEs are exactly the members that leave.
- `Worldmap.Area.Update` and `Worldmap.Area.MoveEdges` (its four edge blocks): that membership ends as the fresh query answer for `r` is proved only when every registered element has nonzero width and height. An element of zero height is on no y line, so no top or bottom scan can find it, although a fresh query counts it.
- `Worldmap.WorldMap.Iterate`: `endLine` on an empty array stays `null`; the axes are never empty.
- `Worldmap.WorldMap.BinarySearch`: the default-argument branch (lines 290-293) is the caller passing `0` and `len-1`.

## Findings

| source | as written | input that shows it | evidently intended | confidence | as-written member | corrected member |
|---|---|---|---|---|---|---|
| game-template/lib/worldmap.js:120-131, 176-188 | the contracting lower-edge walk breaks only on `position > left`, so it also removes the BEFORE entries of the line exactly at the new edge | element `{0, 2, 0, 2}`; area `{1, 3, 0, 2}` updated to `{2, 3, 0, 2}`: the element is removed although `intersect` is true (right edge 2 = new left 2) | break on `position >= left`, so elements touching the new edge stay, as in `getArea` | high; not executed | Findings.ContractLowAsWritten, Findings.ContractLowDropsTouching | Worldmap.Area.ContractLow, Lines.ContractLowScan |
| game-template/lib/worldmap.js:147-158, 202-214 | the contracting upper-edge walk breaks only on `position < right`, so it also removes the AFTER entries of the line exactly at the new edge | element `{0, 2, 0, 2}`; area `{-1, 1, 0, 2}` updated to `{-1, 0, 0, 2}`: the element is removed although its left edge 0 = new right 0 | break on `position <= right` | high; not executed | Findings.ContractHighAsWritten, Findings.ContractHighDropsTouching | Worldmap.Area.ContractHigh, Lines.ContractHighScan |
| game-template/lib/worldmap.js:35 | `removeElement` deletes from an undeclared `elementHashes`, which throws a ReferenceError | `add` of an element with left == right: the second `addElement` on the same x line calls `removeElement` | `this.elementHashes`: drop the element from both maps of the line | high; not executed | Findings.EnteredAsWritten, Findings.ZeroWidthAddThrows | Lines.Entered, Lines.Line.RemoveElement |
