# RearrangeListView, modelled in Dafny

A model of the core of an Android list widget that animates its rows into
their new places when the adapter's data set is reordered. It has two parts.

- **The list view** (`RearrangeListView`). On a data-set change, it compares
  the cached order of stable row ids (`oldIds`) with the adapter's new order.
  The result is a movement map, old index -> new index, with one entry per
  row whose index changed. For every entry that touches the visible window,
  it hides the row's new position and builds a hover cell (a start and an end
  rectangle) plus a bounds animator. The animator set's start and end
  callbacks drive the adapter wrapper's gate and the `animating` flag, which
  blocks touches.
- **The adapter wrapper** (`RearrangeAdapterWrapper`). It passes data queries
  through to the wrapped adapter. It marks hidden positions invisible in
  `getView`. It also gates `notifyDataSetChanged`: while views are moving, a
  notification only sets `updatePending`. The toggle that ends the moving
  phase replays it as exactly one forwarded notification.

The id diff, the window arithmetic and the rectangles are pure functions:
`Movement`, `Geometry`, and the gate as values in `Gate`. The two classes
(`AdapterWrapper`, `ListView`) hold the source's mutable fields. Their
methods change those fields in place, and their contracts link the new state
to the pure functions.

Platform views are parameters. The visible window is a `ListLayout`:
first visible position, child count, list height and divider height. The row
view the adapter returns is `getView(position, recycledChildIndex)`, which
gives its measured size and its place in the list. Ids (Java `long`) and
pixel values are unbounded integers. The ghost counter `forwarded` counts
the notifications that reach the wrapped adapter.

Where the flags live: `animating` is a field of the list view, while
`movingViews` and `updatePending` belong to the wrapper. In the movement map,
a row whose index is unchanged gets no entry. Every entry is keyed by the
*first* old index of its id, and every id missing from the old order gets
the key -1, so later such rows overwrite earlier ones.

The end callback is modelled with its re-entry. When an update is pending,
leaving the moving phase forwards it to the wrapped adapter. The adapter's
observer is the list view, so `onChanged` runs before the toggle returns and
builds the next batch. The two places where the code does something other
than what it evidently means are listed under Findings. Each is modelled
both as written and corrected, and the classes use the code as written.

## Model

| member | source | states |
|---|---|---|
| `Movement.FirstIndexOf` | src/com/rearrangeexample/widget/RearrangeListView.java:282-289 | the inner search returns -1 exactly when the id is absent, and otherwise an index holding the id with no earlier occurrence |
| `Movement.MovementUpToEntries` | src/com/rearrangeexample/widget/RearrangeListView.java:279-293 | after n rows every entry k -> v comes from a moved row v < n with old index k and k != v; every moved row's old index is a key whose value is that row or a later one (later puts overwrite) |
| `Movement.EntriesAreMoves` | src/com/rearrangeexample/widget/RearrangeListView.java:290 | every entry of the map has key != value and a value that is a current index |
| `Movement.EntryMatchesFirstOldIndex` | src/com/rearrangeexample/widget/RearrangeListView.java:282-290 | for an entry k -> v with k >= 0, oldIds[k] equals the current id at v, and k is the first index of that id in oldIds |
| `Movement.KeysAreOldIndicesOfMovedRows` | src/com/rearrangeexample/widget/RearrangeListView.java:281-291 | k is a key iff some current row whose index changed has old index k |
| `Movement.SameOrderIsEmpty` | src/com/rearrangeexample/widget/RearrangeListView.java:279-293 | with unique ids, an unchanged order gives the empty map |
| `Movement.DuplicateIdsMoveInPlace` | src/com/rearrangeexample/widget/RearrangeListView.java:282-290 | without unique ids that fails: [5, 5] against itself gives {0: 1} |
| `Movement.MissingIdsShareKeyNone` | src/com/rearrangeexample/widget/RearrangeListView.java:282-290 | key -1 is present iff some current id is missing from oldIds; its value is the last such index (earlier ones are overwritten) |
| `Movement.ReorderingFindsEveryId` | src/com/rearrangeexample/widget/RearrangeListView.java:283-288 | when both orders hold the same unique ids, the search finds every current id |
| `Movement.ReorderingMap` | src/com/rearrangeexample/widget/RearrangeListView.java:279-293 | for a reordering of unique ids, k -> v is an entry iff k != v and oldIds[k] == current[v] |
| `Movement.ReorderingMapIsInjective` | src/com/rearrangeexample/widget/RearrangeListView.java:279-293 | for a reordering of unique ids there is no key -1 and no two keys share a value |
| `Gate.NotifyWhileMoving` | src/com/rearrangeexample/widget/RearrangeAdapterWrapper.java:53-56 | a notification while moving forwards nothing and leaves an update pending |
| `Gate.ToggleFlipsPhase` | src/com/rearrangeexample/widget/RearrangeAdapterWrapper.java:90-96 | the toggle flips the phase, forwards exactly when it leaves the moving phase with an update pending, and leaves the invariant true outside the moving phase |
| `Gate.RunPreservesInvariant` | src/com/rearrangeexample/widget/RearrangeAdapterWrapper.java:53-96 | updatePending implies movingViews after any sequence of notifications and toggles from a state where it held |
| `Gate.NotifiesWhileMoving` | src/com/rearrangeexample/widget/RearrangeAdapterWrapper.java:53-56 | any number of notifications while moving forward nothing; the phase stays moving, and an update is pending iff one was before or k > 0 |
| `Gate.Coalesce` | src/com/rearrangeexample/widget/RearrangeAdapterWrapper.java:90-95 | k >= 1 notifications while moving followed by the toggle forward exactly one notification and end idle |
| `Gate.AnimationCycle` | src/com/rearrangeexample/widget/RearrangeListView.java:95-110 | from idle, start toggle, k notifications, end toggle forward one notification if k > 0 and none otherwise, ending idle |
| `Gate.PendingIsKept` | src/com/rearrangeexample/widget/RearrangeAdapterWrapper.java:53-96 | a pending update stays pending until some call forwards a notification |
| `Gate.NoNotificationLost` | src/com/rearrangeexample/widget/RearrangeAdapterWrapper.java:53-96 | once a notification is made, either one is forwarded or one is pending; a run ending outside the moving phase has forwarded at least one |
| `Gate.ForwardedAtMostNotified` | src/com/rearrangeexample/widget/RearrangeAdapterWrapper.java:53-96 | no run forwards more than its notifications plus one already pending |
| `Geometry.PositionsOutOfView` | src/com/rearrangeexample/widget/RearrangeListView.java:233-238 | the four-way disjunction holds exactly when neither position lies in [first, first + childCount - 1] |
| `Geometry.ChildPosition` | src/com/rearrangeexample/widget/RearrangeListView.java:135-136 | -1 off screen; otherwise currentPosition - first, within [0, childCount - 1] |
| `Geometry.StartBounds` | src/com/rearrangeexample/widget/RearrangeListView.java:166-181 | the start rectangle has the measured width and height in every case: just above the list, in the last visible slot, or at the row's own place |
| `Geometry.EndAsWrittenShape` | src/com/rearrangeexample/widget/RearrangeListView.java:191-207 | the as-written end keeps the start's left and right; for an on-screen newPos its top is newPos*(h+divider) and its height h+divider; off screen it ends just above or just below the list |
| `Geometry.EndAsWrittenLeavesScrolledList` | src/com/rearrangeexample/widget/RearrangeListView.java:199-202 | the as-written end sends an on-screen row of a scrolled list past the visible slots (the finding below) |
| `Geometry.EndBounds` | src/com/rearrangeexample/widget/RearrangeListView.java:191-207 | the corrected end: same edges and off-screen cases; for an on-screen newPos its top is (newPos - first)*(h+divider) and its height h+divider |
| `Geometry.EndWithinVisibleSlots` | src/com/rearrangeexample/widget/RearrangeListView.java:199-202 | the corrected end of an on-screen row lies within the childCount visible slots |
| `Geometry.EndBoundsAgreeAtTop` | src/com/rearrangeexample/widget/RearrangeListView.java:199-202 | with the list scrolled to the top, the as-written and corrected ends coincide |
| `Geometry.SetUpHoverCell` | src/com/rearrangeexample/widget/RearrangeListView.java:156-212 | as the source computes it: the start has the measured size, the end keeps the start's left and right edges, and an on-screen new position ends at top newPos*(h+divider), one slot high |
| `Geometry.CorrectedHoverCell` | src/com/rearrangeexample/widget/RearrangeListView.java:199-202 | with the corrected end: an on-screen new position ends at top (newPos - first)*(h+divider), inside the visible slots |
| `AdapterWrapper.RearrangeAdapterWrapper.constructor` | src/com/rearrangeexample/widget/RearrangeAdapterWrapper.java:19-25 | a new wrapper is idle, hides nothing and has forwarded nothing |
| `AdapterWrapper.RearrangeAdapterWrapper.GetCount` | src/com/rearrangeexample/widget/RearrangeAdapterWrapper.java:27-30 | the count is the wrapped adapter's; no wrapper state is read |
| `AdapterWrapper.RearrangeAdapterWrapper.GetItemId` | src/com/rearrangeexample/widget/RearrangeAdapterWrapper.java:37-40 | the id is the wrapped adapter's id at that position; no wrapper state is read |
| `AdapterWrapper.RearrangeAdapterWrapper.HasStableIds` | src/com/rearrangeexample/widget/RearrangeAdapterWrapper.java:70-73 | the wrapped adapter's answer; no wrapper state is read |
| `AdapterWrapper.RearrangeAdapterWrapper.GetView` | src/com/rearrangeexample/widget/RearrangeAdapterWrapper.java:42-47 | a hidden position is made invisible; any other keeps the visibility the wrapped adapter gave it |
| `AdapterWrapper.RearrangeAdapterWrapper.NotifyDataSetChanged` | src/com/rearrangeexample/widget/RearrangeAdapterWrapper.java:52-58 | while moving: sets updatePending and forwards nothing; otherwise forwards exactly one and leaves updatePending; keeps the invariant |
| `AdapterWrapper.RearrangeAdapterWrapper.ToggleUpdatingState` | src/com/rearrangeexample/widget/RearrangeAdapterWrapper.java:90-96 | flips movingViews; leaving the moving phase with an update pending clears it and forwards exactly one; otherwise nothing is forwarded |
| `AdapterWrapper.RearrangeAdapterWrapper.AddHiddenPosition` | src/com/rearrangeexample/widget/RearrangeAdapterWrapper.java:79-81 | appends the position; earlier entries are untouched |
| `AdapterWrapper.RearrangeAdapterWrapper.ClearHiddenPositions` | src/com/rearrangeexample/widget/RearrangeAdapterWrapper.java:86-88 | the list becomes empty |
| `ListView.BatchTargetsAreShownMoves` | src/com/rearrangeexample/widget/RearrangeListView.java:85-89 | a batch hides exactly the new positions of the entries that touch the window, with one cell per hidden position |
| `ListView.BatchSize` | src/com/rearrangeexample/widget/RearrangeListView.java:85-89 | visiting each key once builds as many cells as there are entries touching the window |
| `ListView.RearrangeListView.constructor` | src/com/rearrangeexample/widget/RearrangeListView.java:29-36 | empty lists, not animating, duration 500, no adapter |
| `ListView.RearrangeListView.SetAnimationDuration` | src/com/rearrangeexample/widget/RearrangeListView.java:77-79 | sets the duration used by later animators |
| `ListView.RearrangeListView.DispatchTouchEvent` | src/com/rearrangeexample/widget/RearrangeListView.java:322-326 | while animating the touch is consumed; otherwise the platform's result is returned |
| `ListView.RearrangeListView.SetAdapter` | src/com/rearrangeexample/widget/RearrangeListView.java:313-320 | a non-wrapper fails with the first error, a wrapper without stable ids with the second, and both leave the view unchanged; it succeeds exactly otherwise, installs the wrapper and caches its ids |
| `ListView.RearrangeListView.CacheIdOrder` | src/com/rearrangeexample/widget/RearrangeListView.java:331-336 | oldIds becomes exactly getItemId(0 .. count-1); nothing of the previous contents remains |
| `ListView.RearrangeListView.PrepareMovementMap` | src/com/rearrangeexample/widget/RearrangeListView.java:279-293 | the nested loops with early break compute exactly MovementMap(oldIds, adapter ids), the function the Movement lemmas describe |
| `ListView.RearrangeListView.PrepareAnimation` | src/com/rearrangeexample/widget/RearrangeListView.java:244-258 | appends one animator from the cell's start bounds to its end bounds with the current duration |
| `ListView.RearrangeListView.MoveView` | src/com/rearrangeexample/widget/RearrangeListView.java:130-147 | an off-screen pair changes nothing; otherwise exactly one hidden position (newPosition), one hover cell and its animator are appended |
| `ListView.RearrangeListView.RearrangeViews` | src/com/rearrangeexample/widget/RearrangeListView.java:85-89 | for some order visiting every key once, the new cells and hidden positions are those of the batch in that order |
| `ListView.RearrangeListView.OnChanged` | src/com/rearrangeexample/widget/RearrangeListView.java:341-347 | rearranges by the diff of the old cached order against the adapter's ids, then caches the new order |
| `ListView.RearrangeListView.OnAnimationStart` | src/com/rearrangeexample/widget/RearrangeListView.java:95-98 | toggles the wrapper's gate and sets animating |
| `ListView.RearrangeListView.OnAnimationEnd` | src/com/rearrangeexample/widget/RearrangeListView.java:101-110 | animating is false and the gate takes its toggle step; without a pending update the cells and animators are empty and the cached order is kept; with one, onChanged re-enters, so the cells are the next batch's and the new order is cached; either way the hidden positions end empty |
| `ListView.RearrangeListView.OnAnimationEndCorrected` | src/com/rearrangeexample/widget/RearrangeListView.java:101-110 | with the clearing moved before the toggle, a replayed batch keeps its hidden positions, exactly that batch's targets and one per hover cell |
| `ListView.ReplayUnhidesMovedRows` | src/com/rearrangeexample/widget/RearrangeListView.java:107-109 | two on-screen rows swapped during an animation: after the source's end callback the replayed batch has two hover cells and no hidden position |
| `ListView.RearrangeListView.AnimateWithNotifications` | src/com/rearrangeexample/widget/RearrangeListView.java:95-110 | from an idle wrapper, start, k notifications and end forward exactly one notification if k > 0 and none otherwise, and the gate ends idle; with k > 0 the replayed diff's cells are present while no position is hidden |

## Left out

- Bitmap capture, drawables, canvas drawing, `dispatchDraw`, view measuring and layout: the measured row and the window are parameters (`RowView`, `ListLayout`).
- The bitmap capture lays the view out at (0, 0, measured width, measured height). The model therefore takes the view's height in the end rectangle to be its measured height.
- The animator machinery (`ObjectAnimator`, `AnimatorSet`, listener scheduling, `invalidate` on every frame), and the float interpolation of `sBoundEvaluator`. An animator is kept as the pair of rectangles it runs between, plus its duration. The start and end callbacks are separate methods. The empty cancel and repeat callbacks do nothing.
- The loop in `onAnimationEnd` that sets every child view visible again: child views are platform objects. `GetView` states the hiding rule. The visibility of the view that `moveView` obtains is not tracked.
- `getItem` (it returns an opaque `Object`), `registerDataSetObserver` and `unregisterDataSetObserver`, `onAttachedToWindow` and `onDetachedFromWindow`: platform observer plumbing.
- `AdapterWrapper.RearrangeAdapterWrapper.NotifyDataSetChanged`: a forward only increments `forwarded`. The dispatch to the list view's observer is modelled where the list view itself causes the forward (the replay in `OnAnimationEnd`). A forward the application causes outside the moving phase does not run `OnChanged` in the model. The platform list's own observer, which requests a layout, is not modelled.
- `ListView.RearrangeListView.OnAnimationEnd`: the replayed batch's `set.start()` delivers its start callback through the animation library. That callback (toggling back into the moving phase and setting `animating`) is not part of the end state. So the promised idle gate and `!animating` hold up to that callback.
- `ListView.RearrangeListView.AnimateWithNotifications`: for the same reason, its idle gate and `!animating` with k > 0 describe the state before the replayed batch's start callback.
- `ListView.RearrangeListView.RearrangeViews`: the HashMap's iteration order is unspecified. The contract only says that some order visits every key once.
- `AdapterWrapper.RearrangeAdapterWrapper.GetItemId`: requires an in-range position. What the wrapped adapter does out of range depends on that adapter's own code.
- `Geometry.StartBounds`, `Geometry.EndBounds`: Java's 32-bit `int` overflow is not modelled, because pixel sizes and positions stay far below 2^31. Ids are Java `long`, and the diff only compares them for equality.
- `src/com/rearrangeexample/MyActivity.java`, the demo screen: menus, layout inflation, random dates and library sorts. MyActivity is not part of this model.

## Findings

| source | as written | input that shows it | evidently intended | confidence | as-written member | corrected member |
|---|---|---|---|---|---|---|
| src/com/rearrangeexample/widget/RearrangeListView.java:199-202 | a row whose new position is on screen ends at top `newPos * (h + divider)`, counted from adapter position 0 | first visible 5, three children, rows 90 px plus a 10 px divider, newPos 7 (on screen): end top 700, while the visible slots span 0 to 300 | top `(newPos - first) * (h + divider)`, so that an on-screen row ends inside the visible slots, as the off-screen and start cases (relative to the list) already do | medium, not executed | `Geometry.SetUpHoverCell` and `Geometry.EndBoundsAsWritten`, shown by `Geometry.EndAsWrittenLeavesScrolledList` | `Geometry.CorrectedHoverCell` and `Geometry.EndBounds`, with `Geometry.EndWithinVisibleSlots` |
| src/com/rearrangeexample/widget/RearrangeListView.java:108-109 | the end callback toggles the gate before clearing the hidden positions; with an update pending, the toggle re-enters `onChanged`, which hides the next batch's new positions, and the clearing then drops them | ids [1, 2] swapped while an animation runs, both rows on screen: the replayed batch has two hover cells and no hidden position, so a layout during that batch shows those rows in place beneath their moving cells | clear the hidden positions before toggling, so that only the finished batch's positions are cleared | medium, not executed | `ListView.RearrangeListView.OnAnimationEnd`, shown by `ListView.ReplayUnhidesMovedRows` | `ListView.RearrangeListView.OnAnimationEndCorrected` |
