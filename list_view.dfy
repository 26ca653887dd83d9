/**
 The rearranging list view. On a data-set change it diffs the cached id
 order against the adapter's, builds one hover cell and one bounds animator
 per moved row that touches the visible window, hides the moved rows, and
 on the animation's start and end callbacks drives the wrapper's gate.
 The platform's views are abstracted: the window is a ListLayout, and the
 row view the adapter returns for (position, recycled child index) is given
 by a function getView.
 */
module ListView {
  import opened Gate
  import opened Movement
  import opened Geometry
  import opened AdapterWrapper

  const DefaultAnimationDuration: int := 500

  /** One object animator: it moves a hover cell's bounds from `from` to `to`. */
  datatype BoundsAnimator = BoundsAnimator(from: Rect, to: Rect, duration: int)

  /** What setAdapter is handed: a wrapper, or any other adapter (or none). */
  datatype AdapterArg = WrapperArg(wrapper: RearrangeAdapterWrapper) | OtherAdapter

  /** The two IllegalStateExceptions of setAdapter. */
  datatype SetAdapterError = NotRearrangeAdapter | NoStableIds

  datatype Outcome = Pass | Fail(error: SetAdapterError)

  /** The hover cell moveView builds for the entry k -> movement[k]. */
  function CellFor(movement: map<int, int>, k: int, l: ListLayout, getView: (int, int) -> RowView): HoverCell
    requires k in movement
  {
    var newPosition := movement[k];
    SetUpHoverCell(k, newPosition, l, getView(newPosition, ChildPosition(k, l)))
  }

  /** The entry k -> movement[k] touches the visible window, so moveView acts on it. */
  predicate Shown(movement: map<int, int>, k: int, l: ListLayout)
    requires k in movement
  {
    !PositionsOutOfView(k, movement[k], l)
  }

  /** The hover cells of a batch whose keys were visited in `order`. */
  function BatchCells(movement: map<int, int>, order: seq<int>, l: ListLayout, getView: (int, int) -> RowView): seq<HoverCell>
    requires forall k | k in order :: k in movement
  {
    if order == [] then []
    else
      var k := order[|order| - 1];
      BatchCells(movement, order[..|order| - 1], l, getView)
        + (if Shown(movement, k, l) then [CellFor(movement, k, l, getView)] else [])
  }

  /** The positions a batch whose keys were visited in `order` hides. */
  function BatchTargets(movement: map<int, int>, order: seq<int>, l: ListLayout): seq<int>
    requires forall k | k in order :: k in movement
  {
    if order == [] then []
    else
      var k := order[|order| - 1];
      BatchTargets(movement, order[..|order| - 1], l)
        + (if Shown(movement, k, l) then [movement[k]] else [])
  }

  /** `order` lists every key of `keys` exactly once. */
  ghost predicate Enumerates(order: seq<int>, keys: set<int>)
  {
    && (forall i, j | 0 <= i < j < |order| :: order[i] != order[j])
    && (forall k :: k in order <==> k in keys)
  }

  /**
   A batch hides exactly the new positions of the entries that touch the
   window, and builds one cell per hidden position.
   */
  lemma {:induction false} BatchTargetsAreShownMoves(movement: map<int, int>, order: seq<int>, l: ListLayout,
                                                     getView: (int, int) -> RowView, p: int)
    requires forall k | k in order :: k in movement
    ensures |BatchCells(movement, order, l, getView)| == |BatchTargets(movement, order, l)|
    ensures p in BatchTargets(movement, order, l) <==>
      exists k :: k in order && Shown(movement, k, l) && movement[k] == p
    decreases |order|
  {
    if order != [] {
      var init := order[..|order| - 1];
      var k := order[|order| - 1];
      assert forall k' :: k' in order <==> k' in init || k' == k;
      BatchTargetsAreShownMoves(movement, init, l, getView, p);
    }
  }

  /** With an order that visits every key once, the batch size is the number of shown entries. */
  lemma {:induction false} BatchSize(movement: map<int, int>, order: seq<int>, l: ListLayout,
                                     getView: (int, int) -> RowView)
    requires forall k | k in order :: k in movement
    requires forall i, j | 0 <= i < j < |order| :: order[i] != order[j]
    ensures |BatchCells(movement, order, l, getView)|
      == |set k | k in order && Shown(movement, k, l)|
    decreases |order|
  {
    if order != [] {
      var init := order[..|order| - 1];
      var k := order[|order| - 1];
      BatchSize(movement, init, l, getView);
      var before := set k' | k' in init && Shown(movement, k', l);
      var after := set k' | k' in order && Shown(movement, k', l);
      assert k !in init;
      if Shown(movement, k, l) {
        assert after == before + {k};
      } else {
        assert after == before;
      }
    }
  }

  class RearrangeListView {
    var adapter: RearrangeAdapterWrapper?
    var hoverCells: seq<HoverCell>
    var animators: seq<BoundsAnimator>
    var oldIds: seq<int>
    var animating: bool
    var animationDuration: int

    /** Each animator animates the hover cell at the same index. */
    ghost predicate Valid()
      reads this
    {
      && |animators| == |hoverCells|
      && forall i | 0 <= i < |animators| ::
           animators[i].from == hoverCells[i].initialBounds && animators[i].to == hoverCells[i].endBounds
    }

    constructor ()
      ensures Valid() && adapter == null
      ensures hoverCells == [] && animators == [] && oldIds == []
      ensures !animating && animationDuration == DefaultAnimationDuration
    {
      adapter := null;
      hoverCells := [];
      animators := [];
      oldIds := [];
      animating := false;
      animationDuration := DefaultAnimationDuration;
    }

    method SetAnimationDuration(animationDuration: int)
      modifies this`animationDuration
      ensures this.animationDuration == animationDuration
    {
      this.animationDuration := animationDuration;
    }

    /** dispatchTouchEvent: touches are swallowed while animating; otherwise the platform decides. */
    function DispatchTouchEvent(platformResult: bool): (consumed: bool)
      reads this
      ensures animating ==> consumed
      ensures !animating ==> consumed == platformResult
    {
      animating || platformResult
    }

    /**
     setAdapter: only a wrapper whose wrapped adapter has stable ids is
     accepted; it becomes the adapter and its id order is cached. A refused
     adapter leaves the view as it was.
     */
    method SetAdapter(arg: AdapterArg) returns (outcome: Outcome)
      modifies this`adapter, this`oldIds
      ensures arg.OtherAdapter? ==> outcome == Fail(NotRearrangeAdapter)
      ensures arg.WrapperArg? && !arg.wrapper.adapter.stableIds ==> outcome == Fail(NoStableIds)
      ensures outcome.Fail? ==> adapter == old(adapter) && oldIds == old(oldIds)
      ensures outcome.Pass? <==> arg.WrapperArg? && arg.wrapper.adapter.stableIds
      ensures outcome.Pass? ==> adapter == arg.wrapper && oldIds == arg.wrapper.adapter.ids
    {
      if !arg.WrapperArg? {
        return Fail(NotRearrangeAdapter);
      }
      if !arg.wrapper.HasStableIds() {
        return Fail(NoStableIds);
      }
      adapter := arg.wrapper;
      CacheIdOrder();
      outcome := Pass;
    }

    /** cacheIdOrder: oldIds becomes exactly the adapter's current ids, in order. */
    method CacheIdOrder()
      requires adapter != null
      modifies this`oldIds
      ensures oldIds == adapter.adapter.ids
    {
      oldIds := [];
      var i := 0;
      while i < adapter.GetCount()
        invariant 0 <= i <= |adapter.adapter.ids|
        invariant oldIds == adapter.adapter.ids[..i]
      {
        oldIds := oldIds + [adapter.GetItemId(i)];
        i := i + 1;
      }
    }

    /** prepareMovementMap: the diff of the cached order against the adapter's. */
    method PrepareMovementMap() returns (movementMap: map<int, int>)
      requires adapter != null
      ensures movementMap == MovementMap(oldIds, adapter.adapter.ids)
    {
      ghost var ids := adapter.adapter.ids;
      movementMap := map[];
      var i := 0;
      while i < adapter.GetCount()
        invariant 0 <= i <= |ids|
        invariant movementMap == MovementUpTo(oldIds, ids, i)
      {
        var foundPos := NotFound;
        var j := 0;
        while j < |oldIds|
          invariant 0 <= j <= |oldIds|
          invariant foundPos == NotFound
          invariant forall j' | 0 <= j' < j :: oldIds[j'] != ids[i]
        {
          if adapter.GetItemId(i) == oldIds[j] {
            foundPos := j;
            break;
          }
          j := j + 1;
        }
        FirstIndexIsUnique(oldIds, ids[i], foundPos);
        if i != foundPos {
          movementMap := movementMap[foundPos := i];
        }
        i := i + 1;
      }
    }

    /** prepareAnimation: one animator for the cell, from its start to its end bounds. */
    method PrepareAnimation(cell: HoverCell)
      modifies this`animators
      ensures animators == old(animators) + [BoundsAnimator(cell.initialBounds, cell.endBounds, animationDuration)]
    {
      animators := animators + [BoundsAnimator(cell.initialBounds, cell.endBounds, animationDuration)];
    }

    /**
     moveView: a pair entirely off screen changes nothing; otherwise the new
     position is hidden and one hover cell and its animator are appended.
     The recycled child handed to getView is the one showing the current
     position, if any.
     */
    method MoveView(currentPosition: int, newPosition: int, l: ListLayout, getView: (int, int) -> RowView)
      requires adapter != null && Valid()
      modifies this`hoverCells, this`animators, adapter`hiddenPositions
      ensures Valid()
      ensures PositionsOutOfView(currentPosition, newPosition, l) ==>
        && hoverCells == old(hoverCells) && animators == old(animators)
        && adapter.hiddenPositions == old(adapter.hiddenPositions)
      ensures !PositionsOutOfView(currentPosition, newPosition, l) ==>
        var cell := SetUpHoverCell(currentPosition, newPosition, l,
                                   getView(newPosition, ChildPosition(currentPosition, l)));
        && hoverCells == old(hoverCells) + [cell]
        && animators == old(animators) + [BoundsAnimator(cell.initialBounds, cell.endBounds, animationDuration)]
        && adapter.hiddenPositions == old(adapter.hiddenPositions) + [newPosition]
    {
      if PositionsOutOfView(currentPosition, newPosition, l) {
        return;
      }
      var childPosition := ChildPosition(currentPosition, l);
      var currentView := getView(newPosition, childPosition);
      adapter.AddHiddenPosition(newPosition);
      var cell := SetUpHoverCell(currentPosition, newPosition, l, currentView);
      hoverCells := hoverCells + [cell];
      PrepareAnimation(cell);
    }

    /**
     rearrangeViews, up to starting the animator set: every entry of the map
     is visited once, in some order, and moveView is applied to it.
     */
    method RearrangeViews(movement: map<int, int>, l: ListLayout, getView: (int, int) -> RowView)
      requires adapter != null && Valid()
      modifies this`hoverCells, this`animators, adapter`hiddenPositions
      ensures Valid()
      ensures exists order ::
        && Enumerates(order, movement.Keys)
        && hoverCells == old(hoverCells) + BatchCells(movement, order, l, getView)
        && adapter.hiddenPositions == old(adapter.hiddenPositions) + BatchTargets(movement, order, l)
    {
      ghost var order: seq<int> := [];
      var keys := movement.Keys;
      while keys != {}
        invariant keys <= movement.Keys && Valid()
        invariant forall i, j | 0 <= i < j < |order| :: order[i] != order[j]
        invariant forall k :: k in order <==> k in movement.Keys && k !in keys
        invariant hoverCells == old(hoverCells) + BatchCells(movement, order, l, getView)
        invariant adapter.hiddenPositions == old(adapter.hiddenPositions) + BatchTargets(movement, order, l)
        decreases keys
      {
        NonEmptyHasKey(keys);
        var k :| k in keys;
        assert (order + [k])[..|order|] == order;
        assert BatchCells(movement, order + [k], l, getView) == BatchCells(movement, order, l, getView)
          + (if Shown(movement, k, l) then [CellFor(movement, k, l, getView)] else []);
        assert BatchTargets(movement, order + [k], l) == BatchTargets(movement, order, l)
          + (if Shown(movement, k, l) then [movement[k]] else []);
        MoveView(k, movement[k], l, getView);
        order := order + [k];
        keys := keys - {k};
      }
      assert Enumerates(order, movement.Keys);
    }

    /** The observer's onChanged: rearrange by the diff, then cache the new order. */
    method OnChanged(l: ListLayout, getView: (int, int) -> RowView)
      requires adapter != null && Valid()
      modifies this`hoverCells, this`animators, this`oldIds, adapter`hiddenPositions
      ensures Valid() && oldIds == adapter.adapter.ids
      ensures var movement := MovementMap(old(oldIds), adapter.adapter.ids);
        exists order ::
          && Enumerates(order, movement.Keys)
          && hoverCells == old(hoverCells) + BatchCells(movement, order, l, getView)
          && adapter.hiddenPositions == old(adapter.hiddenPositions) + BatchTargets(movement, order, l)
    {
      var movement := PrepareMovementMap();
      RearrangeViews(movement, l, getView);
      CacheIdOrder();
    }

    /** The animator set's start callback: enter the moving phase and block touches. */
    method OnAnimationStart()
      requires adapter != null
      modifies this`animating, adapter`movingViews, adapter`updatePending, adapter`forwarded
      ensures animating
      ensures adapter.State() == ToggleStep(old(adapter.State())).next
      ensures adapter.forwarded == old(adapter.forwarded) + ToggleStep(old(adapter.State())).forwarded
    {
      adapter.ToggleUpdatingState();
      animating := true;
    }

    /**
     The animator set's end callback, in the source's order: drop the cells
     and animators, leave the moving phase, then clear the hidden positions.
     When an update was pending, leaving the moving phase forwards it to the
     wrapped adapter, whose observer is this view: onChanged runs before the
     toggle returns and builds the next batch, and the clearing that follows
     also drops the positions that batch hid (see ReplayUnhidesMovedRows).
     */
    method OnAnimationEnd(l: ListLayout, getView: (int, int) -> RowView)
      requires adapter != null
      modifies this`hoverCells, this`animators, this`animating, this`oldIds
      modifies adapter`movingViews, adapter`updatePending, adapter`forwarded, adapter`hiddenPositions
      ensures Valid() && !animating && adapter.hiddenPositions == []
      ensures adapter.State() == ToggleStep(old(adapter.State())).next
      ensures adapter.forwarded == old(adapter.forwarded) + ToggleStep(old(adapter.State())).forwarded
      ensures !old(adapter.movingViews && adapter.updatePending) ==>
        hoverCells == [] && animators == [] && oldIds == old(oldIds)
      ensures old(adapter.movingViews && adapter.updatePending) ==>
        && oldIds == adapter.adapter.ids
        && var movement := MovementMap(old(oldIds), adapter.adapter.ids);
           exists order ::
             && Enumerates(order, movement.Keys)
             && hoverCells == BatchCells(movement, order, l, getView)
    {
      hoverCells := [];
      animators := [];
      animating := false;
      // The toggle forwards exactly when it leaves the moving phase with an
      // update pending; the forwarded notification reaches onChanged.
      var replay := adapter.movingViews && adapter.updatePending;
      adapter.ToggleUpdatingState();
      if replay {
        OnChanged(l, getView);
      }
      adapter.ClearHiddenPositions();
    }

    /**
     The end callback with the hidden positions cleared before the moving
     phase is left: a replayed batch keeps its hidden positions, one per
     hover cell, as every batch does while it animates.
     */
    method OnAnimationEndCorrected(l: ListLayout, getView: (int, int) -> RowView)
      requires adapter != null
      modifies this`hoverCells, this`animators, this`animating, this`oldIds
      modifies adapter`movingViews, adapter`updatePending, adapter`forwarded, adapter`hiddenPositions
      ensures Valid() && !animating && |adapter.hiddenPositions| == |hoverCells|
      ensures adapter.State() == ToggleStep(old(adapter.State())).next
      ensures adapter.forwarded == old(adapter.forwarded) + ToggleStep(old(adapter.State())).forwarded
      ensures !old(adapter.movingViews && adapter.updatePending) ==>
        hoverCells == [] && animators == [] && adapter.hiddenPositions == [] && oldIds == old(oldIds)
      ensures old(adapter.movingViews && adapter.updatePending) ==>
        && oldIds == adapter.adapter.ids
        && var movement := MovementMap(old(oldIds), adapter.adapter.ids);
           exists order ::
             && Enumerates(order, movement.Keys)
             && hoverCells == BatchCells(movement, order, l, getView)
             && adapter.hiddenPositions == BatchTargets(movement, order, l)
    {
      hoverCells := [];
      animators := [];
      animating := false;
      adapter.ClearHiddenPositions();
      ghost var before := oldIds;
      var replay := adapter.movingViews && adapter.updatePending;
      adapter.ToggleUpdatingState();
      if replay {
        OnChanged(l, getView);
        ghost var movement := MovementMap(before, adapter.adapter.ids);
        ghost var order :| && Enumerates(order, movement.Keys)
                           && hoverCells == [] + BatchCells(movement, order, l, getView)
                           && adapter.hiddenPositions == [] + BatchTargets(movement, order, l);
        BatchTargetsAreShownMoves(movement, order, l, getView, 0);
      }
    }

    /**
     One animation from an idle wrapper: the start callback, k notifications
     from the application, the end callback. Exactly one notification is
     forwarded if any was made, and the gate is idle again. With k > 0 that
     forward replays the diff, so the next batch's cells are built, while the
     hidden positions are empty.
     */
    method AnimateWithNotifications(k: nat, l: ListLayout, getView: (int, int) -> RowView)
      requires adapter != null && adapter.State() == Idle
      modifies this`hoverCells, this`animators, this`animating, this`oldIds
      modifies adapter`movingViews, adapter`updatePending, adapter`forwarded, adapter`hiddenPositions
      ensures adapter.forwarded == old(adapter.forwarded) + (if k > 0 then 1 else 0)
      ensures adapter.State() == Idle && !animating
      ensures Valid() && adapter.hiddenPositions == []
      ensures k == 0 ==> hoverCells == [] && oldIds == old(oldIds)
      ensures k > 0 ==>
        && oldIds == adapter.adapter.ids
        && var movement := MovementMap(old(oldIds), adapter.adapter.ids);
           exists order ::
             && Enumerates(order, movement.Keys)
             && hoverCells == BatchCells(movement, order, l, getView)
    {
      OnAnimationStart();
      assert adapter.State() == GateState(true, false);
      var n := 0;
      while n < k
        invariant 0 <= n <= k
        invariant adapter.State() == GateState(true, n > 0)
        invariant adapter.forwarded == old(adapter.forwarded)
        invariant oldIds == old(oldIds)
      {
        adapter.NotifyDataSetChanged();
        n := n + 1;
      }
      OnAnimationEnd(l, getView);
    }
  }

  /**
   The source's end callback loses a replayed batch's hidden positions: the
   ids [1, 2] are swapped while an animation runs, both rows are on screen,
   and after the end callback the replayed batch animates two hover cells
   while no position is hidden.
   */
  method ReplayUnhidesMovedRows() returns (cells: nat, hidden: nat)
    ensures cells == 2 && hidden == 0
  {
    var data := new Adapter([1, 2], true);
    var wrapper := new RearrangeAdapterWrapper(data);
    var view := new RearrangeListView();
    var outcome := view.SetAdapter(WrapperArg(wrapper));
    view.OnAnimationStart();
    data.ids := [2, 1];
    wrapper.NotifyDataSetChanged();
    var l := ListLayout(0, 2, 200, 10);
    var getView := (p: int, c: int) => RowView(480, 90, 100 * p, 0);
    view.OnAnimationEnd(l, getView);
    ghost var movement := MovementMap([1, 2], [2, 1]);
    assert FirstIndexOf([1, 2], 2) == 1 && FirstIndexOf([1, 2], 1) == 0;
    assert OldIndexOf([1, 2], [2, 1], 0) == 1 && OldIndexOf([1, 2], [2, 1], 1) == 0;
    assert MovementUpTo([1, 2], [2, 1], 0) == map[];
    assert MovementUpTo([1, 2], [2, 1], 1) == map[1 := 0];
    assert movement == map[0 := 1, 1 := 0];
    ghost var order :| Enumerates(order, movement.Keys) && view.hoverCells == BatchCells(movement, order, l, getView);
    BatchSize(movement, order, l, getView);
    assert (set k | k in order && Shown(movement, k, l)) == {0, 1};
    cells := |view.hoverCells|;
    hidden := |wrapper.hiddenPositions|;
  }

  /** A non-empty key set has a key to visit next. */
  lemma NonEmptyHasKey(keys: set<int>)
    requires keys != {}
    ensures exists k :: k in keys
  {
    if forall k :: k !in keys {
      assert false;
    }
  }

  /** The result of the inner search loop is the first index of the id. */
  lemma FirstIndexIsUnique(ids: seq<int>, id: int, found: int)
    requires found == NotFound ==> forall j | 0 <= j < |ids| :: ids[j] != id
    requires found != NotFound ==>
      0 <= found < |ids| && ids[found] == id && forall j | 0 <= j < found :: ids[j] != id
    ensures found == FirstIndexOf(ids, id)
  {
  }
}
