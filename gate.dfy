/**
 The notification gate of the adapter wrapper, as values. While rows are
 moving, data-set-changed notifications are absorbed into one pending flag;
 the toggle that ends the moving phase replays that flag as one forwarded
 notification. A Step records the new gate and how many notifications
 reached the wrapped adapter.
 */
module Gate {

  datatype GateState = GateState(movingViews: bool, updatePending: bool)

  datatype Step = Step(next: GateState, forwarded: nat)

  datatype Event = Notify | Toggle

  /** A freshly constructed wrapper: not moving, nothing pending. */
  const Idle: GateState := GateState(false, false)

  /** A pending update is only ever recorded while views are moving. */
  predicate Invariant(g: GateState)
  {
    g.updatePending ==> g.movingViews
  }

  /** notifyDataSetChanged: absorb while moving, forward otherwise. */
  function NotifyStep(g: GateState): Step
  {
    if g.movingViews then Step(g.(updatePending := true), 0)
    else Step(g, 1)
  }

  /** toggleUpdatingState: flip the phase; on leaving it, replay a pending update. */
  function ToggleStep(g: GateState): Step
  {
    var flipped := g.(movingViews := !g.movingViews);
    if !flipped.movingViews && flipped.updatePending then
      NotifyStep(flipped.(updatePending := false))
    else Step(flipped, 0)
  }

  function EventStep(g: GateState, e: Event): Step
  {
    match e
    case Notify => NotifyStep(g)
    case Toggle => ToggleStep(g)
  }

  /** Runs a sequence of calls and adds up the forwarded notifications. */
  function Run(g: GateState, es: seq<Event>): Step
    decreases es
  {
    if es == [] then Step(g, 0)
    else
      var s := EventStep(g, es[0]);
      var r := Run(s.next, es[1..]);
      Step(r.next, s.forwarded + r.forwarded)
  }

  function Notifies(k: nat): (es: seq<Event>)
    ensures |es| == k && forall i | 0 <= i < k :: es[i] == Notify
  {
    if k == 0 then [] else [Notify] + Notifies(k - 1)
  }

  function CountNotifies(es: seq<Event>): nat
  {
    if es == [] then 0 else (if es[0] == Notify then 1 else 0) + CountNotifies(es[1..])
  }

  /** While moving, a notification forwards nothing and leaves an update pending. */
  lemma NotifyWhileMoving(g: GateState)
    requires g.movingViews
    ensures NotifyStep(g) == Step(GateState(true, true), 0)
  {
  }

  /** Toggling flips the phase; it forwards exactly when it ends a phase with an update pending. */
  lemma ToggleFlipsPhase(g: GateState)
    ensures ToggleStep(g).next.movingViews == !g.movingViews
    ensures ToggleStep(g).forwarded == if g.movingViews && g.updatePending then 1 else 0
    ensures !ToggleStep(g).next.movingViews ==> Invariant(ToggleStep(g).next)
  {
  }

  /** Each call preserves the invariant, so every reachable gate satisfies it. */
  lemma {:induction false} RunPreservesInvariant(g: GateState, es: seq<Event>)
    requires Invariant(g)
    ensures Invariant(Run(g, es).next)
    decreases es
  {
    if es != [] {
      RunPreservesInvariant(EventStep(g, es[0]).next, es[1..]);
    }
  }

  /** Running two sequences one after the other is running their concatenation. */
  lemma {:induction false} RunAppend(g: GateState, a: seq<Event>, b: seq<Event>)
    ensures var ra := Run(g, a); var rb := Run(ra.next, b);
      Run(g, a + b) == Step(rb.next, ra.forwarded + rb.forwarded)
    decreases a
  {
    if a == [] {
      assert a + b == b;
    } else {
      assert (a + b)[1..] == a[1..] + b;
      RunAppend(EventStep(g, a[0]).next, a[1..], b);
    }
  }

  /** Any number of notifications while moving forward nothing and leave the phase as it was. */
  lemma {:induction false} NotifiesWhileMoving(g: GateState, k: nat)
    requires g.movingViews
    ensures Run(g, Notifies(k)) == Step(GateState(true, g.updatePending || k > 0), 0)
    decreases k
  {
    if k > 0 {
      assert Notifies(k)[1..] == Notifies(k - 1);
      NotifiesWhileMoving(GateState(true, true), k - 1);
    }
  }

  /**
   Coalescing: k >= 1 notifications made while moving produce exactly one
   forwarded notification once the toggle ends the moving phase, and the
   gate is then idle.
   */
  lemma Coalesce(g: GateState, k: nat)
    requires g.movingViews && k >= 1
    ensures Run(g, Notifies(k) + [Toggle]) == Step(Idle, 1)
  {
    NotifiesWhileMoving(g, k);
    RunAppend(g, Notifies(k), [Toggle]);
  }

  /** A whole animation from an idle gate: start, k notifications, end. */
  lemma AnimationCycle(k: nat)
    ensures Run(Idle, [Toggle] + Notifies(k) + [Toggle]) == Step(Idle, if k > 0 then 1 else 0)
  {
    RunAppend(Idle, [Toggle], Notifies(k) + [Toggle]);
    assert ([Toggle] + Notifies(k) + [Toggle]) == [Toggle] + (Notifies(k) + [Toggle]);
    NotifiesWhileMoving(GateState(true, false), k);
    RunAppend(GateState(true, false), Notifies(k), [Toggle]);
  }

  /** A pending update is never dropped: it stays pending until a call forwards one. */
  lemma {:induction false} PendingIsKept(g: GateState, es: seq<Event>)
    requires g.updatePending
    ensures Run(g, es).forwarded > 0 || Run(g, es).next.updatePending
    decreases es
  {
    if es != [] {
      var s := EventStep(g, es[0]);
      if s.forwarded == 0 {
        PendingIsKept(s.next, es[1..]);
      }
    }
  }

  /**
   No notification is lost: once any notification was made, either one was
   forwarded or an update is still pending; so a run that ends outside the
   moving phase has forwarded at least one.
   */
  lemma {:induction false} NoNotificationLost(g: GateState, es: seq<Event>)
    requires Invariant(g) && CountNotifies(es) > 0
    ensures Run(g, es).forwarded > 0 || Run(g, es).next.updatePending
    ensures !Run(g, es).next.movingViews ==> Run(g, es).forwarded > 0
    decreases es
  {
    RunPreservesInvariant(g, es);
    var s := EventStep(g, es[0]);
    if es[0] == Toggle {
      NoNotificationLost(s.next, es[1..]);
    } else if s.forwarded == 0 {
      PendingIsKept(s.next, es[1..]);
    }
  }

  /** Never more forwards than notifications, plus one for an update already pending. */
  lemma {:induction false} ForwardedAtMostNotified(g: GateState, es: seq<Event>)
    ensures Run(g, es).forwarded <= CountNotifies(es) + (if g.updatePending then 1 else 0)
    decreases es
  {
    if es != [] {
      ForwardedAtMostNotified(EventStep(g, es[0]).next, es[1..]);
    }
  }
}
