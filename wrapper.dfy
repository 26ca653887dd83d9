/**
 The adapter wrapper: it delegates the data queries to the wrapped adapter,
 hides the rows that are being animated, and gates data-set-changed
 notifications while rows are moving. `forwarded` counts the notifications
 that reached the wrapped adapter.
 */
module AdapterWrapper {
  import opened Gate

  /** A row view's visibility flag. */
  datatype Visibility = Visible | Invisible | Gone

  /** The wrapped data adapter: its rows' stable ids, in display order. */
  class Adapter {
    var ids: seq<int>
    var stableIds: bool

    constructor (ids: seq<int>, stableIds: bool)
      ensures this.ids == ids && this.stableIds == stableIds
    {
      this.ids := ids;
      this.stableIds := stableIds;
    }
  }

  class RearrangeAdapterWrapper {
    const adapter: Adapter
    var hiddenPositions: seq<int>
    var movingViews: bool
    var updatePending: bool
    ghost var forwarded: nat

    /**
     The gate's invariant: no pending update outside the moving phase. It is
     proved, not assumed: the constructor establishes it, every method keeps
     it, and leaving the moving phase restores it even from a state where it
     failed, so no method needs it as a precondition.
     */
    ghost predicate Valid()
      reads this
    {
      Invariant(State())
    }

    function State(): GateState
      reads this
    {
      GateState(movingViews, updatePending)
    }

    constructor (adapter: Adapter)
      ensures Valid()
      ensures this.adapter == adapter && hiddenPositions == []
      ensures State() == Idle && forwarded == 0
    {
      this.adapter := adapter;
      hiddenPositions := [];
      movingViews := false;
      updatePending := false;
      forwarded := 0;
    }

    /** getCount delegates; no wrapper state takes part. */
    function GetCount(): (n: nat)
      reads adapter
      ensures n == |adapter.ids|
    {
      |adapter.ids|
    }

    /** getItemId delegates; no wrapper state takes part. */
    function GetItemId(position: int): (id: int)
      reads adapter
      requires 0 <= position < |adapter.ids|
      ensures id == adapter.ids[position]
    {
      adapter.ids[position]
    }

    /** hasStableIds delegates; no wrapper state takes part. */
    function HasStableIds(): (b: bool)
      reads adapter
      ensures b == adapter.stableIds
    {
      adapter.stableIds
    }

    /**
     getView: the visibility of the row view returned, given the visibility
     of the view the wrapped adapter produced. A hidden position is made
     invisible; any other is left as produced.
     */
    function GetView(position: int, produced: Visibility): (r: Visibility)
      reads this
      ensures position in hiddenPositions ==> r == Invisible
      ensures position !in hiddenPositions ==> r == produced
    {
      if position in hiddenPositions then Invisible else produced
    }

    /** notifyDataSetChanged: absorbed into the pending flag while moving, forwarded otherwise. */
    method NotifyDataSetChanged()
      modifies this`updatePending, this`forwarded
      ensures old(movingViews) ==> updatePending && forwarded == old(forwarded)
      ensures !old(movingViews) ==> updatePending == old(updatePending) && forwarded == old(forwarded) + 1
      ensures State() == NotifyStep(old(State())).next
      ensures forwarded == old(forwarded) + NotifyStep(old(State())).forwarded
      ensures old(Valid()) ==> Valid()
    {
      if movingViews {
        updatePending := true;
      } else {
        forwarded := forwarded + 1;
      }
    }

    /**
     toggleUpdatingState: flips the moving phase; leaving it with an update
     pending clears the flag and re-enters notifyDataSetChanged, which now
     forwards.
     */
    method ToggleUpdatingState()
      modifies this`movingViews, this`updatePending, this`forwarded
      ensures movingViews == !old(movingViews)
      ensures old(movingViews) && old(updatePending) ==> !updatePending && forwarded == old(forwarded) + 1
      ensures !(old(movingViews) && old(updatePending)) ==>
        updatePending == old(updatePending) && forwarded == old(forwarded)
      ensures State() == ToggleStep(old(State())).next
      ensures forwarded == old(forwarded) + ToggleStep(old(State())).forwarded
      ensures !movingViews ==> Valid()
      ensures old(Valid()) ==> Valid()
    {
      movingViews := !movingViews;
      if !movingViews && updatePending {
        updatePending := false;
        NotifyDataSetChanged();
      }
    }

    /** addHiddenPosition appends; earlier entries stay as they were. */
    method AddHiddenPosition(position: int)
      modifies this`hiddenPositions
      ensures hiddenPositions == old(hiddenPositions) + [position]
    {
      hiddenPositions := hiddenPositions + [position];
    }

    /** clearHiddenPositions empties the list. */
    method ClearHiddenPositions()
      modifies this`hiddenPositions
      ensures hiddenPositions == []
    {
      hiddenPositions := [];
    }
  }
}
