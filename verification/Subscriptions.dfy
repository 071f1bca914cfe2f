/** The life of GraphQL subscriptions (internal/graph/resolver): the slots of a connection, the bridge
    goroutine between the profile channel and the GraphQL channel, and every interleaving of those
    with the hub of PubSub. */
module Subscriptions {
  import opened Basics
  import opened ProfileRow
  import opened ChannelName
  import opened PubSub

  type Conn = nat

  // ---------- the slots of one connection ----------

  datatype Acquired = NeedsWebSocket | TooMany | Granted

  /** The buffered channel WithSubscriptionBudget puts into a connection's context. */
  class SubscriptionBudget {
    const capacity: nat
    var taken: nat

    constructor (n: nat)
      ensures capacity == n && taken == 0
    {
      capacity := n;
      taken := 0;
    }

    /** release, the closure acquireSubscription returns: a receive, which would block on an empty
        channel. */
    method Release()
      requires taken > 0
      modifies this
      ensures taken == old(taken) - 1
    {
      taken := taken - 1;
    }
  }

  /** acquireSubscription; `slots` is null when the context carries no budget. */
  method AcquireSubscription(slots: SubscriptionBudget?) returns (r: Acquired)
    requires slots != null ==> slots.taken <= slots.capacity
    modifies slots
    ensures r == AcquireResult(if slots == null then None else Some(slots.capacity),
                               if slots == null then 0 else old(slots.taken))
    ensures r.NeedsWebSocket? <==> slots == null
    ensures r.Granted? <==> slots != null && old(slots.taken) < slots.capacity
    ensures slots != null ==> slots.taken == old(slots.taken) + (if r == Granted then 1 else 0) <= slots.capacity
  {
    if slots == null {
      return NeedsWebSocket;
    }
    if slots.taken < slots.capacity {
      slots.taken := slots.taken + 1;
      return Granted;
    }
    return TooMany;
  }

  function AcquireResult(capacity: Option<nat>, taken: nat): Acquired {
    if capacity.None? then NeedsWebSocket
    else if taken < capacity.value then Granted
    else TooMany
  }

  // ---------- the system ----------

  /** Where a subscription is: it holds a slot but is not registered yet; its bridge waits in the
      outer select, or holds an event in the inner one; it has left the loop and is about to run its
      two deferred calls; or it is done. */
  datatype Place = Opening | Waiting | Holding(p: Profile) | Closing | Releasing | Released

  datatype Bridge = Bridge(conn: Conn, userID: int, place: Place, out: Chan, cancelled: bool)

  /** `used` counts the occupied slots of each connection. `crashed` records a close of a closed
      channel or a send on one. A subscription and its profile channel share their handle. */
  datatype System = System(hub: Hub, bridges: map<Handle, Bridge>, used: map<Conn, nat>, crashed: bool)

  const INITIAL := System(NO_SUBSCRIBERS, map[], map[], false)

  datatype Step =
    | Acquire(id: Handle, conn: Conn, userID: int)
    | Register(id: Handle)
    | Cancel(id: Handle)
    | CleanUp(id: Handle)
    | Dispatch(channel: string, payload: Option<Profile>)
    | Take(id: Handle)
    | Put(id: Handle)
    | SeeClosed(id: Handle)
    | SeeDone(id: Handle)
    | Recover(id: Handle)
    | CloseOut(id: Handle)
    | Release(id: Handle)
    | Read(id: Handle)

  /** Slots per connection; a connection without one did not come from a WebSocket. */
  type Budgets = map<Conn, nat>

  function Used(s: System, conn: Conn): nat {
    if conn in s.used then s.used[conn] else 0
  }

  function BudgetOf(budgets: Budgets, conn: Conn): Option<nat> {
    if conn in budgets then Some(budgets[conn]) else None
  }

  predicate InLoop(p: Place) { p.Waiting? || p.Holding? }

  /** Whether a step can happen; a receive or a send that would block cannot. */
  predicate Enabled(budgets: Budgets, s: System, step: Step) {
    match step
    case Acquire(id, conn, _) =>
      id !in s.bridges && id !in s.hub.chans && AcquireResult(BudgetOf(budgets, conn), Used(s, conn)).Granted?
    case Register(id) => id in s.bridges && s.bridges[id].place == Opening && id !in s.hub.chans
    case Cancel(id) => id in s.bridges
    case CleanUp(id) => id in s.hub.cleanups && id in s.hub.chans && id in s.bridges && s.bridges[id].cancelled
    case Dispatch(_, _) => true
    case Take(id) =>
      && id in s.bridges && s.bridges[id].place == Waiting
      && id in s.hub.chans && s.hub.chans[id].buf != []
    case Put(id) => id in s.bridges && s.bridges[id].place.Holding? && !Full(s.bridges[id].out)
    case SeeClosed(id) =>
      && id in s.bridges && s.bridges[id].place == Waiting
      && id in s.hub.chans && s.hub.chans[id] == Chan([], true)
    case SeeDone(id) => id in s.bridges && InLoop(s.bridges[id].place) && s.bridges[id].cancelled
    case Recover(id) => id in s.bridges && s.bridges[id].place.Holding?
    case CloseOut(id) => id in s.bridges && s.bridges[id].place == Closing
    case Release(id) => id in s.bridges && s.bridges[id].place == Releasing && Used(s, s.bridges[id].conn) > 0
    case Read(id) => id in s.bridges && s.bridges[id].out.buf != []
  }

  function Settle(s: System, outcome: Outcome): System {
    match outcome
    case Fine(hub) => s.(hub := hub)
    case Panic => s.(crashed := true)
  }

  function MoveTo(s: System, id: Handle, place: Place): System
    requires id in s.bridges
  {
    s.(bridges := s.bridges[id := s.bridges[id].(place := place)])
  }

  /** One step of the system; a step that cannot happen changes nothing. */
  function Do(budgets: Budgets, s: System, step: Step): System {
    if !Enabled(budgets, s, step) then s
    else match step
    case Acquire(id, conn, userID) =>
      s.(used := s.used[conn := Used(s, conn) + 1],
         bridges := s.bridges[id := Bridge(conn, userID, Opening, EMPTY, false)])
    case Register(id) => MoveTo(s.(hub := Subscribed(s.hub, s.bridges[id].userID, id)), id, Waiting)
    case Cancel(id) => s.(bridges := s.bridges[id := s.bridges[id].(cancelled := true)])
    case CleanUp(id) => Settle(s, CleanedUp(s.hub, id))
    case Dispatch(channel, payload) => Settle(s, Dispatched(s.hub, channel, payload))
    case Take(id) => MoveTo(s.(hub := Drained(s.hub, id)), id, Holding(s.hub.chans[id].buf[0]))
    case Put(id) =>
      var b := s.bridges[id];
      if b.out.closed then s.(crashed := true)
      else s.(bridges := s.bridges[id := b.(place := Waiting, out := Offer(b.out, b.place.p))])
    case SeeClosed(id) => MoveTo(s, id, Closing)
    case SeeDone(id) => MoveTo(s, id, Closing)
    case Recover(id) => MoveTo(s, id, Closing)
    case CloseOut(id) =>
      var b := s.bridges[id];
      if b.out.closed then s.(crashed := true)
      else s.(bridges := s.bridges[id := b.(place := Releasing, out := b.out.(closed := true))])
    case Release(id) =>
      var b := s.bridges[id];
      s.(used := s.used[b.conn := Used(s, b.conn) - 1], bridges := s.bridges[id := b.(place := Released)])
    case Read(id) =>
      var b := s.bridges[id];
      s.(bridges := s.bridges[id := b.(out := b.out.(buf := b.out.buf[1..]))])
  }

  /** The state after a run; every sequence of steps is one interleaving. */
  function Run(budgets: Budgets, steps: seq<Step>): System {
    if steps == [] then INITIAL
    else Do(budgets, Run(budgets, steps[..|steps| - 1]), steps[|steps| - 1])
  }

  // ---------- what every interleaving keeps ----------

  function Live(bridges: map<Handle, Bridge>, conn: Conn): set<Handle> {
    set id | id in bridges && bridges[id].conn == conn && bridges[id].place != Released
  }

  /** How a subscription fits the hub: it has a profile channel once registered, under its own user,
      closed only after cancellation; its own channel is closed exactly when its first deferred call
      has run. */
  ghost predicate Fits(hub: Hub, id: Handle, b: Bridge) {
    && (id in hub.chans <==> b.place != Opening)
    && (id in hub.cleanups ==> hub.cleanups[id] == b.userID)
    && (id in hub.chans && hub.chans[id].closed ==> b.cancelled)
    && (b.out.closed <==> b.place == Releasing || b.place == Released)
    && |b.out.buf| <= 1
  }

  /** The occupied slots of a connection are its subscriptions that have not released theirs. */
  ghost predicate SlotsInUse(budgets: Budgets, s: System, conn: Conn) {
    && Used(s, conn) == |Live(s.bridges, conn)|
    && (Used(s, conn) > 0 ==> conn in budgets && Used(s, conn) <= budgets[conn])
  }

  ghost predicate Sound(s: System) {
    !s.crashed && Valid(s.hub)
  }

  ghost predicate AllFit(s: System) {
    && s.hub.chans.Keys <= s.bridges.Keys
    && forall id :: id in s.bridges ==> Fits(s.hub, id, s.bridges[id])
  }

  ghost predicate Inv(budgets: Budgets, s: System) {
    Sound(s) && AllFit(s) && forall conn :: SlotsInUse(budgets, s, conn)
  }

  /** A subscription that stays on its side of Released leaves every count of slots as it was. */
  lemma MoveKeepsSlots(budgets: Budgets, s: System, s': System, id: Handle, conn: Conn)
    requires SlotsInUse(budgets, s, conn) && id in s.bridges && s'.used == s.used
    requires id in s'.bridges && s'.bridges == s.bridges[id := s'.bridges[id]]
    requires s'.bridges[id].conn == s.bridges[id].conn
    requires s'.bridges[id].place == Released <==> s.bridges[id].place == Released
    ensures SlotsInUse(budgets, s', conn)
  {
    assert Live(s'.bridges, conn) == Live(s.bridges, conn);
  }

  lemma AcquireKeepsSlots(budgets: Budgets, s: System, id: Handle, at: Conn, userID: int, conn: Conn)
    requires SlotsInUse(budgets, s, conn) && Enabled(budgets, s, Acquire(id, at, userID))
    ensures SlotsInUse(budgets, Do(budgets, s, Acquire(id, at, userID)), conn)
  {
    var s' := Do(budgets, s, Acquire(id, at, userID));
    if conn == at {
      assert Live(s'.bridges, conn) == Live(s.bridges, conn) + {id};
    } else {
      assert Live(s'.bridges, conn) == Live(s.bridges, conn);
    }
  }

  lemma ReleaseKeepsSlots(budgets: Budgets, s: System, id: Handle, conn: Conn)
    requires SlotsInUse(budgets, s, conn) && Enabled(budgets, s, Release(id))
    ensures SlotsInUse(budgets, Do(budgets, s, Release(id)), conn)
  {
    var s' := Do(budgets, s, Release(id));
    if conn == s.bridges[id].conn {
      assert Live(s'.bridges, conn) == Live(s.bridges, conn) - {id};
    } else {
      assert Live(s'.bridges, conn) == Live(s.bridges, conn);
    }
  }

  lemma StepKeepsSlots(budgets: Budgets, s: System, step: Step, conn: Conn)
    requires SlotsInUse(budgets, s, conn)
    ensures SlotsInUse(budgets, Do(budgets, s, step), conn)
  {
    if Enabled(budgets, s, step) {
      var s' := Do(budgets, s, step);
      match step
      case Acquire(id, at, userID) => AcquireKeepsSlots(budgets, s, id, at, userID, conn);
      case Release(id) => ReleaseKeepsSlots(budgets, s, id, conn);
      case Dispatch(_, _) =>
      case CleanUp(_) =>
      case Put(id) => if !s.bridges[id].out.closed { MoveKeepsSlots(budgets, s, s', id, conn); }
      case CloseOut(id) => if !s.bridges[id].out.closed { MoveKeepsSlots(budgets, s, s', id, conn); }
      case Register(id) => MoveKeepsSlots(budgets, s, s', id, conn);
      case Cancel(id) => MoveKeepsSlots(budgets, s, s', id, conn);
      case Take(id) => MoveKeepsSlots(budgets, s, s', id, conn);
      case SeeClosed(id) => MoveKeepsSlots(budgets, s, s', id, conn);
      case SeeDone(id) => MoveKeepsSlots(budgets, s, s', id, conn);
      case Recover(id) => MoveKeepsSlots(budgets, s, s', id, conn);
      case Read(id) => MoveKeepsSlots(budgets, s, s', id, conn);
    }
  }

  lemma {:induction false} StepStaysSound(budgets: Budgets, s: System, step: Step)
    requires Sound(s) && AllFit(s)
    ensures Sound(Do(budgets, s, step))
  {
    if Enabled(budgets, s, step) {
      match step
      case Register(id) => SubscribeKeepsValid(s.hub, s.bridges[id].userID, id);
      case CleanUp(id) => CleanupKeepsValid(s.hub, id);
      case Dispatch(channel, payload) => DispatchKeepsValid(s.hub, channel, payload);
      case Take(id) => ReceiveKeepsValid(s.hub, id);
      case _ =>
    }
  }

  lemma CleanUpKeepsFit(budgets: Budgets, s: System, id: Handle)
    requires Sound(s) && AllFit(s) && Enabled(budgets, s, CleanUp(id))
    ensures AllFit(Do(budgets, s, CleanUp(id)))
  {
  }

  lemma DispatchKeepsFit(budgets: Budgets, s: System, channel: string, payload: Option<Profile>)
    requires Sound(s) && AllFit(s)
    ensures AllFit(Do(budgets, s, Dispatch(channel, payload)))
  {
  }

  lemma TakeKeepsFit(budgets: Budgets, s: System, id: Handle)
    requires Sound(s) && AllFit(s) && Enabled(budgets, s, Take(id))
    ensures AllFit(Do(budgets, s, Take(id)))
  {
  }

  lemma RegisterKeepsFit(budgets: Budgets, s: System, id: Handle)
    requires Sound(s) && AllFit(s) && Enabled(budgets, s, Register(id))
    ensures AllFit(Do(budgets, s, Register(id)))
  {
  }

  /** A step that moves one subscription and leaves the hub alone. */
  lemma MoveKeepsFit(s: System, s': System, id: Handle)
    requires AllFit(s) && s'.hub == s.hub && id in s'.bridges
    requires s'.bridges == s.bridges[id := s'.bridges[id]] && Fits(s.hub, id, s'.bridges[id])
    ensures AllFit(s')
  {
  }

  lemma BridgeStepKeepsFit(budgets: Budgets, s: System, step: Step)
    requires Sound(s) && AllFit(s) && Enabled(budgets, s, step)
    requires !step.CleanUp? && !step.Dispatch? && !step.Take? && !step.Register?
    ensures AllFit(Do(budgets, s, step))
  {
    assert step.id in s.bridges ==> Fits(s.hub, step.id, s.bridges[step.id]);
    var s' := Do(budgets, s, step);
    if s'.bridges != s.bridges {
      MoveKeepsFit(s, s', step.id);
    }
  }

  lemma {:induction false} StepKeepsFit(budgets: Budgets, s: System, step: Step)
    requires Sound(s) && AllFit(s)
    ensures AllFit(Do(budgets, s, step))
  {
    if Enabled(budgets, s, step) {
      match step
      case CleanUp(id) => CleanUpKeepsFit(budgets, s, id);
      case Dispatch(channel, payload) => DispatchKeepsFit(budgets, s, channel, payload);
      case Take(id) => TakeKeepsFit(budgets, s, id);
      case Register(id) => RegisterKeepsFit(budgets, s, id);
      case _ => BridgeStepKeepsFit(budgets, s, step);
    }
  }

  lemma StepKeepsInv(budgets: Budgets, s: System, step: Step)
    requires Inv(budgets, s)
    ensures Inv(budgets, Do(budgets, s, step))
  {
    StepStaysSound(budgets, s, step);
    StepKeepsFit(budgets, s, step);
    forall conn ensures SlotsInUse(budgets, Do(budgets, s, step), conn) {
      StepKeepsSlots(budgets, s, step, conn);
    }
  }

  /** In every interleaving: nothing is closed twice or sent to after a close, registrations and open
      channels agree (RegisteredIffOpen), and the slots a connection has in use are its subscriptions
      that have not released theirs, never more than its budget. */
  lemma {:induction false} RunsKeepInv(budgets: Budgets, steps: seq<Step>)
    ensures Inv(budgets, Run(budgets, steps))
  {
    if steps != [] {
      RunsKeepInv(budgets, steps[..|steps| - 1]);
      StepKeepsInv(budgets, Run(budgets, steps[..|steps| - 1]), steps[|steps| - 1]);
    } else {
      forall conn ensures SlotsInUse(budgets, INITIAL, conn) {
        assert Live(INITIAL.bridges, conn) == {};
      }
    }
  }

  /** In every reachable state a connection can acquire a slot exactly while it has fewer subscriptions
      that have not released theirs than its budget; without a budget it never can. */
  lemma AcquiresExactlyWhen(budgets: Budgets, steps: seq<Step>, id: Handle, conn: Conn, userID: int)
    requires var s := Run(budgets, steps); id !in s.bridges && id !in s.hub.chans
    ensures var s := Run(budgets, steps);
            && (Enabled(budgets, s, Acquire(id, conn, userID)) <==>
                  conn in budgets && |Live(s.bridges, conn)| < budgets[conn])
            && (AcquireResult(BudgetOf(budgets, conn), Used(s, conn)).NeedsWebSocket? <==> conn !in budgets)
  {
    RunsKeepInv(budgets, steps);
    assert SlotsInUse(budgets, Run(budgets, steps), conn);
  }

  // ---------- the exit path of a bridge ----------

  /** The exits of the loop: the context is done; a receive finds the profile channel closed and empty;
      or, with an event in hand, a panic is recovered. */
  ghost predicate LeavesBy(s: System, step: Step, id: Handle)
    requires id in s.bridges
  {
    || (step == SeeDone(id) && s.bridges[id].cancelled)
    || (step == Recover(id) && s.bridges[id].place.Holding?)
    || (step == SeeClosed(id) && s.bridges[id].place.Waiting? && Source(s, id) == []
        && id in s.hub.chans && s.hub.chans[id].closed)
  }

  lemma OwnStepLeaves(budgets: Budgets, s: System, step: Step, id: Handle)
    requires Inv(budgets, s) && id in s.bridges && InLoop(s.bridges[id].place)
    requires !step.Dispatch? && step.id == id
    ensures var s' := Do(budgets, s, step);
            && id in s'.bridges
            && if LeavesBy(s, step, id) then s'.bridges[id].place == Closing else InLoop(s'.bridges[id].place)
  {
    assert Fits(s.hub, id, s.bridges[id]);
  }

  /** In every interleaving a bridge in its loop leaves it by exactly these three exits, and whichever it
      takes, its deferred calls come next. */
  lemma {:induction false} LeavesExactlyWhen(budgets: Budgets, steps: seq<Step>, step: Step, id: Handle)
    requires var s := Run(budgets, steps); id in s.bridges && InLoop(s.bridges[id].place)
    ensures var s, s' := Run(budgets, steps), Run(budgets, steps + [step]);
            && id in s'.bridges
            && if LeavesBy(s, step, id) then s'.bridges[id].place == Closing else InLoop(s'.bridges[id].place)
  {
    RunsKeepInv(budgets, steps);
    RunOneMore(budgets, steps, step);
    var s := Run(budgets, steps);
    if !step.Dispatch? {
      if step.id == id {
        OwnStepLeaves(budgets, s, step, id);
      } else {
        OthersStepUnmoved(budgets, s, step, id);
      }
    }
  }

  lemma ReleasedStays(budgets: Budgets, s: System, id: Handle, step: Step)
    requires id in s.bridges && s.bridges[id].place == Released
    ensures var later := Do(budgets, s, step);
            id in later.bridges && later.bridges[id].place == Released
  {
  }

  /** A released subscription is released for good. */
  lemma {:induction false} ReleasedIsFinal(budgets: Budgets, steps: seq<Step>, more: seq<Step>, id: Handle)
    requires var s := Run(budgets, steps); id in s.bridges && s.bridges[id].place == Released
    ensures var later := Run(budgets, steps + more);
            id in later.bridges && later.bridges[id].place == Released
  {
    if more == [] {
      assert steps + more == steps;
    } else {
      var front, last := more[..|more| - 1], more[|more| - 1];
      ReleasedIsFinal(budgets, steps, front, id);
      RunOneMore(budgets, steps + front, last);
      assert steps + more == steps + front + [last];
      ReleasedStays(budgets, Run(budgets, steps + front), id, last);
    }
  }

  lemma RunOneMore(budgets: Budgets, steps: seq<Step>, step: Step)
    ensures Run(budgets, steps + [step]) == Do(budgets, Run(budgets, steps), step)
  {
    assert (steps + [step])[..|steps|] == steps;
  }

  lemma LeavingFrom(budgets: Budgets, s: System, id: Handle) returns (closed: System, released: System)
    requires Inv(budgets, s) && id in s.bridges && s.bridges[id].place == Closing
    ensures closed == Do(budgets, s, CloseOut(id)) && released == Do(budgets, closed, Release(id))
    ensures Enabled(budgets, s, CloseOut(id)) && Enabled(budgets, closed, Release(id)) && !closed.crashed
    ensures id in released.bridges && released.bridges[id].place == Released
    ensures Used(released, s.bridges[id].conn) == Used(s, s.bridges[id].conn) - 1
  {
    assert SlotsInUse(budgets, s, s.bridges[id].conn);
    assert id in Live(s.bridges, s.bridges[id].conn);
    closed := Do(budgets, s, CloseOut(id));
    released := Do(budgets, closed, Release(id));
  }

  /** Whatever made a bridge leave its loop, its two deferred calls can run without blocking, one slot
      of its connection comes back, and whatever happens later the subscription stays done. */
  lemma LeavingReleasesTheSlot(budgets: Budgets, steps: seq<Step>, more: seq<Step>, id: Handle)
    requires var s := Run(budgets, steps); id in s.bridges && s.bridges[id].place == Closing
    ensures var s := Run(budgets, steps);
            var closed := Run(budgets, steps + [CloseOut(id)]);
            var released := Run(budgets, steps + [CloseOut(id)] + [Release(id)]);
            var later := Run(budgets, steps + [CloseOut(id)] + [Release(id)] + more);
            && Enabled(budgets, s, CloseOut(id)) && Enabled(budgets, closed, Release(id)) && !closed.crashed
            && id in released.bridges && released.bridges[id].place == Released
            && Used(released, s.bridges[id].conn) == Used(s, s.bridges[id].conn) - 1
            && id in later.bridges && later.bridges[id].place == Released
  {
    RunsKeepInv(budgets, steps);
    RunOneMore(budgets, steps, CloseOut(id));
    RunOneMore(budgets, steps + [CloseOut(id)], Release(id));
    var _, _ := LeavingFrom(budgets, Run(budgets, steps), id);
    ReleasedIsFinal(budgets, steps + [CloseOut(id)] + [Release(id)], more, id);
  }

  /** How often the slot of `id` was taken, its channel closed, and its slot given back in a run. */
  datatype Tally = Tally(acquired: nat, closed: nat, released: nat)

  function TallyOf(budgets: Budgets, steps: seq<Step>, id: Handle): Tally {
    if steps == [] then Tally(0, 0, 0)
    else
      var front, last := steps[..|steps| - 1], steps[|steps| - 1];
      Tallied(budgets, Run(budgets, front), last, id, TallyOf(budgets, front, id))
  }

  function Tallied(budgets: Budgets, s: System, step: Step, id: Handle, t: Tally): Tally {
    if !Enabled(budgets, s, step) then t
    else if step.Acquire? && step.id == id then t.(acquired := t.acquired + 1)
    else if step == CloseOut(id) then t.(closed := t.closed + 1)
    else if step == Release(id) then t.(released := t.released + 1)
    else t
  }

  /** What the place of a subscription says about its past. */
  function TallyAt(s: System, id: Handle): Tally {
    if id !in s.bridges then Tally(0, 0, 0)
    else match s.bridges[id].place
      case Releasing => Tally(1, 1, 0)
      case Released => Tally(1, 1, 1)
      case _ => Tally(1, 0, 0)
  }

  /** Over every run, a subscription that acquired a slot did so once, gives it back at most once, and
      has given it back exactly when it is done; likewise its channel is closed once. */
  lemma {:induction false} ReleasedExactlyOnce(budgets: Budgets, steps: seq<Step>, id: Handle)
    ensures TallyOf(budgets, steps, id) == TallyAt(Run(budgets, steps), id)
  {
    if steps != [] {
      var front, last := steps[..|steps| - 1], steps[|steps| - 1];
      ReleasedExactlyOnce(budgets, front, id);
      RunsKeepInv(budgets, front);
      StepTallies(budgets, Run(budgets, front), last, id);
    }
  }

  lemma OwnStepTallies(budgets: Budgets, s: System, step: Step, id: Handle)
    requires AllFit(s) && !step.Dispatch? && step.id == id
    ensures TallyAt(Do(budgets, s, step), id) == Tallied(budgets, s, step, id, TallyAt(s, id))
  {
    assert id in s.bridges ==> Fits(s.hub, id, s.bridges[id]);
  }

  lemma {:induction false} StepTallies(budgets: Budgets, s: System, step: Step, id: Handle)
    requires AllFit(s)
    ensures TallyAt(Do(budgets, s, step), id) == Tallied(budgets, s, step, id, TallyAt(s, id))
  {
    if !step.Dispatch? {
      if step.id == id {
        OwnStepTallies(budgets, s, step, id);
      } else {
        OthersStepUnmoved(budgets, s, step, id);
      }
    }
  }

  /** Neither deferred call of a bridge can block or panic, whatever else happens in between and
      whatever made it leave its loop: a context that ended, a closed source, or a panic recovered. */
  lemma {:induction false} DeferredCallsNeverBlock(budgets: Budgets, steps: seq<Step>, id: Handle)
    requires id in Run(budgets, steps).bridges
    ensures var s := Run(budgets, steps);
            && (s.bridges[id].place == Closing ==> Enabled(budgets, s, CloseOut(id)) && !s.bridges[id].out.closed)
            && (s.bridges[id].place == Releasing ==> Enabled(budgets, s, Release(id)))
  {
    RunsKeepInv(budgets, steps);
    var s := Run(budgets, steps);
    assert Fits(s.hub, id, s.bridges[id]) && SlotsInUse(budgets, s, s.bridges[id].conn);
    if s.bridges[id].place == Releasing {
      assert id in Live(s.bridges, s.bridges[id].conn);
    }
  }

  /** The step that takes a cancelled subscription nearer to its end, and how far it still is. */
  function WayOut(id: Handle, p: Place): Step {
    match p
    case Opening => Register(id)
    case Closing => CloseOut(id)
    case Releasing => Release(id)
    case _ => SeeDone(id)
  }

  function StepsLeft(p: Place): nat {
    match p
    case Opening => 4
    case Waiting => 3
    case Holding(_) => 3
    case Closing => 2
    case Releasing => 1
    case Released => 0
  }

  lemma CancelledMovesOn(budgets: Budgets, s: System, id: Handle)
    requires Inv(budgets, s) && id in s.bridges && s.bridges[id].cancelled && s.bridges[id].place != Released
    ensures var step := WayOut(id, s.bridges[id].place);
            var s' := Do(budgets, s, step);
            && Enabled(budgets, s, step)
            && id in s'.bridges && StepsLeft(s'.bridges[id].place) < StepsLeft(s.bridges[id].place)
  {
    assert Fits(s.hub, id, s.bridges[id]);
    if s.bridges[id].place == Releasing {
      assert SlotsInUse(budgets, s, s.bridges[id].conn);
      assert id in Live(s.bridges, s.bridges[id].conn);
    }
  }

  /** No cancelled subscription is ever stuck: wherever it is, a step is possible that takes it nearer
      to having released its slot. And a profile channel closes only on a cancelled subscription, so no
      other one is left reading from a closed channel. */
  lemma {:induction false} CancelledAlwaysGetsOut(budgets: Budgets, steps: seq<Step>, id: Handle)
    requires id in Run(budgets, steps).bridges
    ensures var s := Run(budgets, steps);
            var step := WayOut(id, s.bridges[id].place);
            var s' := Do(budgets, s, step);
            && (s.bridges[id].cancelled && s.bridges[id].place != Released ==>
                  && Enabled(budgets, s, step)
                  && id in s'.bridges && StepsLeft(s'.bridges[id].place) < StepsLeft(s.bridges[id].place))
            && (id in s.hub.chans && s.hub.chans[id].closed ==> s.bridges[id].cancelled)
  {
    RunsKeepInv(budgets, steps);
    var s := Run(budgets, steps);
    assert Fits(s.hub, id, s.bridges[id]);
    if s.bridges[id].cancelled && s.bridges[id].place != Released {
      CancelledMovesOn(budgets, s, id);
    }
  }

  // ---------- what happens to the events of one subscription ----------

  /** Whether a step is an event dispatched to the user of `id` while `id` is registered. */
  predicate Hears(s: System, step: Step, id: Handle) {
    && step.Dispatch? && step.payload.Some? && RouteOf(step.channel).Some?
    && id in ListenersOf(s.hub.subs, RouteOf(step.channel).value)
    && id in s.hub.chans
  }

  function HeardBy(s: System, step: Step, id: Handle): seq<Profile> {
    if Hears(s, step, id) then [step.payload.value] else []
  }

  function KeptBy(s: System, step: Step, id: Handle): seq<Profile> {
    if Hears(s, step, id) && !Full(s.hub.chans[id]) then [step.payload.value] else []
  }

  function DroppedBy(s: System, step: Step, id: Handle): seq<Profile> {
    if Hears(s, step, id) && Full(s.hub.chans[id]) then [step.payload.value] else []
  }

  function ReadBy(s: System, step: Step, id: Handle): seq<Profile> {
    if step == Read(id) && id in s.bridges && s.bridges[id].out.buf != [] then [s.bridges[id].out.buf[0]] else []
  }

  /** All events dispatched to the user of `id` while `id` was registered, in order. */
  function Heard(budgets: Budgets, steps: seq<Step>, id: Handle): seq<Profile> {
    if steps == [] then []
    else
      var front, last := steps[..|steps| - 1], steps[|steps| - 1];
      Heard(budgets, front, id) + HeardBy(Run(budgets, front), last, id)
  }

  /** Those of them that found room. */
  function Kept(budgets: Budgets, steps: seq<Step>, id: Handle): seq<Profile> {
    if steps == [] then []
    else
      var front, last := steps[..|steps| - 1], steps[|steps| - 1];
      Kept(budgets, front, id) + KeptBy(Run(budgets, front), last, id)
  }

  /** Those of them that were dropped. */
  function Lost(budgets: Budgets, steps: seq<Step>, id: Handle): seq<Profile> {
    if steps == [] then []
    else
      var front, last := steps[..|steps| - 1], steps[|steps| - 1];
      Lost(budgets, front, id) + DroppedBy(Run(budgets, front), last, id)
  }

  /** What the GraphQL subscriber has read. */
  function Delivered(budgets: Budgets, steps: seq<Step>, id: Handle): seq<Profile> {
    if steps == [] then []
    else
      var front, last := steps[..|steps| - 1], steps[|steps| - 1];
      Delivered(budgets, front, id) + ReadBy(Run(budgets, front), last, id)
  }

  function Source(s: System, id: Handle): seq<Profile> {
    if id in s.hub.chans then s.hub.chans[id].buf else []
  }

  function Hand(s: System, id: Handle): seq<Profile> {
    if id in s.bridges && s.bridges[id].place.Holding? then [s.bridges[id].place.p] else []
  }

  function Output(s: System, id: Handle): seq<Profile> {
    if id in s.bridges then s.bridges[id].out.buf else []
  }

  /** Before a bridge leaves its loop, the kept events are the delivered ones followed by those in the
      output slot, the bridge's hand and the source slot; afterwards the delivered ones and the output
      slot are still a prefix of them. */
  ghost predicate InOrder(s: System, id: Handle, delivered: seq<Profile>, kept: seq<Profile>) {
    if id !in s.bridges || s.bridges[id].place == Opening then
      delivered == [] && kept == [] && Output(s, id) == []
    else if InLoop(s.bridges[id].place) then
      kept == delivered + Output(s, id) + Hand(s, id) + Source(s, id)
    else
      delivered + Output(s, id) <= kept
  }

  lemma TakeKeepsOrder(budgets: Budgets, s: System, id: Handle, delivered: seq<Profile>, kept: seq<Profile>)
    requires Inv(budgets, s) && InOrder(s, id, delivered, kept) && Enabled(budgets, s, Take(id))
    ensures InOrder(Do(budgets, s, Take(id)), id, delivered, kept)
  {
    var s' := Do(budgets, s, Take(id));
    assert Source(s, id) == Hand(s', id) + Source(s', id);
  }

  lemma PutKeepsOrder(budgets: Budgets, s: System, id: Handle, delivered: seq<Profile>, kept: seq<Profile>)
    requires Inv(budgets, s) && InOrder(s, id, delivered, kept) && Enabled(budgets, s, Put(id))
    ensures InOrder(Do(budgets, s, Put(id)), id, delivered, kept)
  {
    var s' := Do(budgets, s, Put(id));
    assert Fits(s.hub, id, s.bridges[id]);
    assert Output(s, id) + Hand(s, id) == Output(s', id) + Hand(s', id);
  }

  lemma ReadKeepsOrder(budgets: Budgets, s: System, id: Handle, delivered: seq<Profile>, kept: seq<Profile>)
    requires Inv(budgets, s) && InOrder(s, id, delivered, kept) && Enabled(budgets, s, Read(id))
    ensures InOrder(Do(budgets, s, Read(id)), id, delivered + ReadBy(s, Read(id), id), kept)
  {
    var s' := Do(budgets, s, Read(id));
    assert Output(s, id) == ReadBy(s, Read(id), id) + Output(s', id);
    assert delivered + Output(s, id) == delivered + ReadBy(s, Read(id), id) + Output(s', id);
  }

  lemma DispatchFillsSource(budgets: Budgets, s: System, step: Step, id: Handle)
    requires Sound(s) && step.Dispatch?
    ensures var s' := Do(budgets, s, step);
            s'.bridges == s.bridges && Source(s', id) == Source(s, id) + KeptBy(s, step, id)
  {
    DispatchKeepsValid(s.hub, step.channel, step.payload);
  }

  lemma DispatchKeepsOrder(budgets: Budgets, s: System, step: Step, id: Handle, delivered: seq<Profile>,
                           kept: seq<Profile>)
    requires Inv(budgets, s) && InOrder(s, id, delivered, kept) && step.Dispatch?
    ensures InOrder(Do(budgets, s, step), id, delivered, kept + KeptBy(s, step, id))
  {
    DispatchFillsSource(budgets, s, step, id);
    assert id in s.bridges ==> Fits(s.hub, id, s.bridges[id]);
    var before := delivered + Output(s, id) + Hand(s, id);
    assert (before + Source(s, id)) + KeptBy(s, step, id) == before + (Source(s, id) + KeptBy(s, step, id));
  }

  lemma UnmovedKeepsOrder(s: System, s': System, id: Handle, delivered: seq<Profile>, kept: seq<Profile>)
    requires InOrder(s, id, delivered, kept)
    requires id in s.bridges <==> id in s'.bridges
    requires id in s.bridges ==> s'.bridges[id].place == s.bridges[id].place
    requires Output(s', id) == Output(s, id) && Source(s', id) == Source(s, id)
    ensures InOrder(s', id, delivered, kept)
  {
  }

  lemma LeaveKeepsOrder(budgets: Budgets, s: System, step: Step, id: Handle, delivered: seq<Profile>,
                        kept: seq<Profile>)
    requires InOrder(s, id, delivered, kept) && Enabled(budgets, s, step)
    requires step == SeeClosed(id) || step == SeeDone(id) || step == Recover(id)
    ensures InOrder(Do(budgets, s, step), id, delivered, kept)
  {
  }

  lemma QuietStepKeepsOrder(budgets: Budgets, s: System, step: Step, id: Handle, delivered: seq<Profile>,
                            kept: seq<Profile>)
    requires Inv(budgets, s) && InOrder(s, id, delivered, kept) && Enabled(budgets, s, step)
    requires || step == Register(id) || step == Cancel(id) || step == CleanUp(id)
             || step == CloseOut(id) || step == Release(id)
    ensures InOrder(Do(budgets, s, step), id, delivered, kept)
  {
    var s' := Do(budgets, s, step);
    assert Fits(s.hub, id, s.bridges[id]);
    if step.CleanUp? {
      CleanupKeepsValid(s.hub, id);
      UnmovedKeepsOrder(s, s', id, delivered, kept);
    } else if step.Cancel? {
      UnmovedKeepsOrder(s, s', id, delivered, kept);
    }
  }

  lemma AcquireKeepsOrder(budgets: Budgets, s: System, id: Handle, conn: Conn, userID: int,
                          delivered: seq<Profile>, kept: seq<Profile>)
    requires InOrder(s, id, delivered, kept) && Enabled(budgets, s, Acquire(id, conn, userID))
    ensures InOrder(Do(budgets, s, Acquire(id, conn, userID)), id, delivered, kept)
  {
  }

  lemma {:induction false} OwnStepKeepsOrder(budgets: Budgets, s: System, step: Step, id: Handle,
                                             delivered: seq<Profile>, kept: seq<Profile>)
    requires Inv(budgets, s) && InOrder(s, id, delivered, kept)
    requires !step.Dispatch? && !step.Read? && step.id == id && Enabled(budgets, s, step)
    ensures InOrder(Do(budgets, s, step), id, delivered, kept)
  {
    match step
    case Take(_) => TakeKeepsOrder(budgets, s, id, delivered, kept);
    case Put(_) => PutKeepsOrder(budgets, s, id, delivered, kept);
    case SeeClosed(_) => LeaveKeepsOrder(budgets, s, step, id, delivered, kept);
    case SeeDone(_) => LeaveKeepsOrder(budgets, s, step, id, delivered, kept);
    case Recover(_) => LeaveKeepsOrder(budgets, s, step, id, delivered, kept);
    case Acquire(_, conn, userID) => AcquireKeepsOrder(budgets, s, id, conn, userID, delivered, kept);
    case _ => QuietStepKeepsOrder(budgets, s, step, id, delivered, kept);
  }

  lemma {:induction false} StepKeepsOrder(budgets: Budgets, s: System, step: Step, id: Handle,
                                          delivered: seq<Profile>, kept: seq<Profile>)
    requires Inv(budgets, s) && InOrder(s, id, delivered, kept)
    ensures InOrder(Do(budgets, s, step), id, delivered + ReadBy(s, step, id), kept + KeptBy(s, step, id))
  {
    assert delivered + [] == delivered && kept + [] == kept;
    if step.Dispatch? {
      DispatchKeepsOrder(budgets, s, step, id, delivered, kept);
    } else {
      assert KeptBy(s, step, id) == [];
      if !Enabled(budgets, s, step) {
        assert ReadBy(s, step, id) == [];
      } else if step == Read(id) {
        ReadKeepsOrder(budgets, s, id, delivered, kept);
      } else {
        assert ReadBy(s, step, id) == [];
        if step.id == id {
          OwnStepKeepsOrder(budgets, s, step, id, delivered, kept);
        } else {
          OthersStepKeepsOrder(budgets, s, step, id, delivered, kept);
        }
      }
    }
  }

  lemma OthersStepKeepsOrder(budgets: Budgets, s: System, step: Step, id: Handle, delivered: seq<Profile>,
                             kept: seq<Profile>)
    requires InOrder(s, id, delivered, kept) && !step.Dispatch? && step.id != id
    ensures InOrder(Do(budgets, s, step), id, delivered, kept)
  {
    OthersStepUnmoved(budgets, s, step, id);
    UnmovedKeepsOrder(s, Do(budgets, s, step), id, delivered, kept);
  }

  lemma OthersStepUnmoved(budgets: Budgets, s: System, step: Step, id: Handle)
    requires !step.Dispatch? && step.id != id
    ensures var s' := Do(budgets, s, step);
            && (id in s.bridges <==> id in s'.bridges)
            && (id in s.bridges ==> s'.bridges[id] == s.bridges[id])
            && Source(s', id) == Source(s, id)
  {
  }

  lemma {:induction false} RunsKeepOrder(budgets: Budgets, steps: seq<Step>, id: Handle)
    ensures InOrder(Run(budgets, steps), id, Delivered(budgets, steps, id), Kept(budgets, steps, id))
  {
    if steps != [] {
      var front := steps[..|steps| - 1];
      RunsKeepInv(budgets, front);
      RunsKeepOrder(budgets, front, id);
      StepKeepsOrder(budgets, Run(budgets, front), steps[|steps| - 1], id,
                     Delivered(budgets, front, id), Kept(budgets, front, id));
    }
  }

  /** While a bridge is in its loop: dispatched = delivered + dropped + in flight, and what is in
      flight is at most one event in each of the output slot, the hand and the source slot. */
  lemma {:induction false} EventsAreConserved(budgets: Budgets, steps: seq<Step>, id: Handle)
    requires var s := Run(budgets, steps); id in s.bridges && InLoop(s.bridges[id].place)
    ensures var s := Run(budgets, steps);
            && |Heard(budgets, steps, id)| == |Delivered(budgets, steps, id)| + |Lost(budgets, steps, id)|
                                             + |Output(s, id)| + |Hand(s, id)| + |Source(s, id)|
            && |Output(s, id)| <= 1 && |Hand(s, id)| <= 1 && |Source(s, id)| <= 1
  {
    RunsKeepInv(budgets, steps);
    RunsKeepOrder(budgets, steps, id);
    HeardIsKeptOrLost(budgets, steps, id);
    assert Fits(Run(budgets, steps).hub, id, Run(budgets, steps).bridges[id]);
  }

  lemma {:induction false} HeardIsKeptOrLost(budgets: Budgets, steps: seq<Step>, id: Handle)
    ensures |Heard(budgets, steps, id)| == |Kept(budgets, steps, id)| + |Lost(budgets, steps, id)|
  {
    if steps != [] {
      HeardIsKeptOrLost(budgets, steps[..|steps| - 1], id);
    }
  }

  /** Which events a subscription is offered: all those of its own user, from its registration until its
      profile channel is closed, and no others. */
  lemma HearsExactlyWhen(budgets: Budgets, steps: seq<Step>, id: Handle, channel: string, payload: Option<Profile>)
    requires id in Run(budgets, steps).bridges
    ensures var s := Run(budgets, steps);
            Hears(s, Dispatch(channel, payload), id) <==>
              && payload.Some? && RouteOf(channel) == Some(s.bridges[id].userID)
              && s.bridges[id].place != Opening && id in s.hub.chans && !s.hub.chans[id].closed
  {
    RunsKeepInv(budgets, steps);
    var s := Run(budgets, steps);
    assert Fits(s.hub, id, s.bridges[id]);
    RegisteredIffOpen(s.hub);
    if id in s.hub.chans && !s.hub.chans[id].closed {
      assert RegisteredUnder(s.hub, id, s.hub.cleanups[id]);
    }
  }

  // ---------- what is in flight gets through ----------

  lemma ReadOne(budgets: Budgets, steps: seq<Step>, id: Handle)
    requires var s := Run(budgets, steps); id in s.bridges && Output(s, id) != []
    ensures var s, s' := Run(budgets, steps), Run(budgets, steps + [Read(id)]);
            && id in s'.bridges && s'.bridges[id].place == s.bridges[id].place && s'.hub == s.hub
            && Output(s', id) == Output(s, id)[1..]
            && Kept(budgets, steps + [Read(id)], id) == Kept(budgets, steps, id)
  {
    RunOneMore(budgets, steps, Read(id));
    assert (steps + [Read(id)])[..|steps|] == steps;
  }

  lemma PutOne(budgets: Budgets, steps: seq<Step>, id: Handle)
    requires var s := Run(budgets, steps); id in s.bridges && s.bridges[id].place.Holding? && Output(s, id) == []
    ensures var s, s' := Run(budgets, steps), Run(budgets, steps + [Put(id)]);
            && id in s'.bridges && s'.bridges[id].place == Waiting && s'.hub == s.hub
            && Output(s', id) == Hand(s, id)
            && Kept(budgets, steps + [Put(id)], id) == Kept(budgets, steps, id)
  {
    RunsKeepInv(budgets, steps);
    assert Fits(Run(budgets, steps).hub, id, Run(budgets, steps).bridges[id]);
    RunOneMore(budgets, steps, Put(id));
    assert (steps + [Put(id)])[..|steps|] == steps;
  }

  lemma TakeOne(budgets: Budgets, steps: seq<Step>, id: Handle)
    requires var s := Run(budgets, steps); id in s.bridges && s.bridges[id].place.Waiting? && Source(s, id) != []
    ensures var s, s' := Run(budgets, steps), Run(budgets, steps + [Take(id)]);
            && id in s'.bridges && s'.bridges[id].place.Holding?
            && Output(s', id) == Output(s, id) && Source(s', id) == Source(s, id)[1..]
            && Kept(budgets, steps + [Take(id)], id) == Kept(budgets, steps, id)
  {
    RunOneMore(budgets, steps, Take(id));
    assert (steps + [Take(id)])[..|steps|] == steps;
  }

  ghost predicate OwnMove(step: Step, id: Handle) {
    step == Take(id) || step == Put(id) || step == Read(id)
  }

  function Undelivered(s: System, id: Handle): nat {
    |Output(s, id)| + 2 * |Hand(s, id)| + 3 * |Source(s, id)|
  }

  /** One of the subscription's own steps brings what is in flight nearer to the subscriber. */
  lemma {:induction false} MoveOne(budgets: Budgets, steps: seq<Step>, id: Handle) returns (step: Step)
    requires var s := Run(budgets, steps);
             id in s.bridges && InLoop(s.bridges[id].place) && Undelivered(s, id) > 0
    ensures OwnMove(step, id)
    ensures var s, s' := Run(budgets, steps), Run(budgets, steps + [step]);
            && id in s'.bridges && InLoop(s'.bridges[id].place) && Undelivered(s', id) < Undelivered(s, id)
            && Kept(budgets, steps + [step], id) == Kept(budgets, steps, id)
  {
    var s := Run(budgets, steps);
    if Output(s, id) != [] {
      step := Read(id);
      ReadOne(budgets, steps, id);
    } else if s.bridges[id].place.Holding? {
      step := Put(id);
      PutOne(budgets, steps, id);
    } else {
      step := Take(id);
      TakeOne(budgets, steps, id);
    }
  }

  ghost predicate Flying(s: System, id: Handle, n: nat) {
    id in s.bridges && InLoop(s.bridges[id].place) && Undelivered(s, id) <= n
  }

  lemma NothingInFlight(budgets: Budgets, steps: seq<Step>, id: Handle)
    requires var s := Run(budgets, steps); id in s.bridges && InLoop(s.bridges[id].place) && Undelivered(s, id) == 0
    ensures Delivered(budgets, steps, id) == Kept(budgets, steps, id)
  {
    RunsKeepOrder(budgets, steps, id);
  }

  lemma ConcatAssociates(a: seq<Step>, b: seq<Step>, c: seq<Step>)
    ensures (a + b) + c == a + (b + c)
  {
  }

  lemma {:induction false} DeliverUpTo(budgets: Budgets, steps: seq<Step>, id: Handle,
                                       n: nat) returns (more: seq<Step>)
    requires Flying(Run(budgets, steps), id, n)
    ensures forall i :: 0 <= i < |more| ==> OwnMove(more[i], id)
    ensures Delivered(budgets, steps + more, id) == Kept(budgets, steps, id)
    decreases n, 0
  {
    if Undelivered(Run(budgets, steps), id) == 0 {
      NothingInFlight(budgets, steps, id);
      more := [];
      assert steps + more == steps;
    } else {
      var step := MoveOne(budgets, steps, id);
      more := DeliverAfter(budgets, steps, [step], steps + [step], id, n - 1);
    }
  }

  lemma {:induction false} DeliverAfter(budgets: Budgets, steps: seq<Step>, first: seq<Step>, next: seq<Step>,
                                        id: Handle, n: nat) returns (more: seq<Step>)
    requires next == steps + first && |first| == 1 && OwnMove(first[0], id) && Flying(Run(budgets, next), id, n)
    ensures forall i :: 0 <= i < |more| ==> OwnMove(more[i], id)
    ensures Delivered(budgets, steps + more, id) == Kept(budgets, next, id)
    decreases n, 1
  {
    var rest := DeliverUpTo(budgets, next, id, n);
    ConcatAssociates(steps, first, rest);
    more := first + rest;
  }

  /** What found room is never stuck: while a bridge is in its loop, the subscription's own takes, puts and
      reads, with nobody else's help, deliver every event in flight. */
  lemma InFlightCanBeDelivered(budgets: Budgets, steps: seq<Step>, id: Handle) returns (more: seq<Step>)
    requires var s := Run(budgets, steps); id in s.bridges && InLoop(s.bridges[id].place)
    ensures forall i :: 0 <= i < |more| ==> OwnMove(more[i], id)
    ensures Delivered(budgets, steps + more, id) == Kept(budgets, steps, id)
  {
    more := DeliverUpTo(budgets, steps, id, Undelivered(Run(budgets, steps), id));
  }

  // ---------- the subscriber's view ----------

  ghost predicate Increasing(positions: seq<nat>) {
    forall i, j :: 0 <= i < j < |positions| ==> positions[i] < positions[j]
  }

  /** `xs` is `ys` with some elements left out. */
  ghost predicate SubsequenceAt<T>(xs: seq<T>, ys: seq<T>, positions: seq<nat>) {
    && |positions| == |xs|
    && Increasing(positions)
    && forall i :: 0 <= i < |xs| ==> positions[i] < |ys| && xs[i] == ys[positions[i]]
  }

  lemma {:induction false} KeptIsSubsequence(budgets: Budgets, steps: seq<Step>,
                                             id: Handle) returns (positions: seq<nat>)
    ensures SubsequenceAt(Kept(budgets, steps, id), Heard(budgets, steps, id), positions)
  {
    positions := [];
    if steps != [] {
      var front, last := steps[..|steps| - 1], steps[|steps| - 1];
      positions := KeptIsSubsequence(budgets, front, id);
      if KeptBy(Run(budgets, front), last, id) != [] {
        positions := positions + [|Heard(budgets, front, id)|];
      }
    }
  }

  /** What a subscriber reads is, at every moment and in every interleaving, an in-order subsequence of
      the events dispatched to its user while it was registered, each at most once. */
  lemma DeliveredIsSubsequence(budgets: Budgets, steps: seq<Step>, id: Handle)
    ensures exists positions ::
              SubsequenceAt(Delivered(budgets, steps, id), Heard(budgets, steps, id), positions)
  {
    RunsKeepOrder(budgets, steps, id);
    var positions := KeptIsSubsequence(budgets, steps, id);
    var n := |Delivered(budgets, steps, id)|;
    assert Delivered(budgets, steps, id) <= Kept(budgets, steps, id);
    assert SubsequenceAt(Delivered(budgets, steps, id), Heard(budgets, steps, id), positions[..n]);
  }

  /** The source slot of `id` is empty at every dispatch to its user. */
  ghost predicate DrainsBeforeEachDispatch(budgets: Budgets, steps: seq<Step>, id: Handle) {
    forall i :: 0 <= i < |steps| && Hears(Run(budgets, steps[..i]), steps[i], id)
             ==> !Full(Run(budgets, steps[..i]).hub.chans[id])
  }

  lemma {:induction false} NothingLostWhenDrained(budgets: Budgets, steps: seq<Step>, id: Handle)
    requires DrainsBeforeEachDispatch(budgets, steps, id)
    ensures Lost(budgets, steps, id) == [] && Kept(budgets, steps, id) == Heard(budgets, steps, id)
  {
    if steps != [] {
      var front := steps[..|steps| - 1];
      assert forall i :: 0 <= i < |front| ==> front[..i] == steps[..i];
      NothingLostWhenDrained(budgets, front, id);
    }
  }

  /** A subscription drained before each dispatch loses nothing: until its bridge leaves the loop, every
      event of its user is delivered or on its way, in order. */
  lemma {:induction false} DrainedSubscriberGetsEverything(budgets: Budgets, steps: seq<Step>, id: Handle)
    requires DrainsBeforeEachDispatch(budgets, steps, id)
    requires var s := Run(budgets, steps); id in s.bridges && InLoop(s.bridges[id].place)
    ensures var s := Run(budgets, steps);
            Heard(budgets, steps, id)
              == Delivered(budgets, steps, id) + Output(s, id) + Hand(s, id) + Source(s, id)
  {
    NothingLostWhenDrained(budgets, steps, id);
    RunsKeepOrder(budgets, steps, id);
  }

  /** An event that went through Publish travels on the channel of its own profile id. */
  predicate Published(step: Step) {
    (step.Dispatch? && step.payload.Some?) ==>
      IsInt32(step.payload.value.id) && step.channel == ChannelFor(step.payload.value.id)
  }

  ghost predicate OwnOnly(s: System, id: Handle, events: seq<Profile>) {
    forall p :: p in events ==> id in s.bridges && p.id == s.bridges[id].userID
  }

  lemma HeardIsOwn(budgets: Budgets, s: System, step: Step, id: Handle)
    requires Inv(budgets, s) && Published(step)
    ensures OwnOnly(s, id, HeardBy(s, step, id))
  {
    if Hears(s, step, id) {
      RouteUndoesName(step.payload.value.id);
      assert Fits(s.hub, id, s.bridges[id]);
    }
  }

  lemma OwnerIsFixed(budgets: Budgets, s: System, step: Step, id: Handle)
    requires id in s.bridges
    ensures id in Do(budgets, s, step).bridges
    ensures Do(budgets, s, step).bridges[id].userID == s.bridges[id].userID
  {
  }

  lemma {:induction false} HeardStaysOwn(budgets: Budgets, steps: seq<Step>, id: Handle)
    requires forall i :: 0 <= i < |steps| ==> Published(steps[i])
    ensures OwnOnly(Run(budgets, steps), id, Heard(budgets, steps, id))
  {
    if steps != [] {
      var front, last := steps[..|steps| - 1], steps[|steps| - 1];
      HeardStaysOwn(budgets, front, id);
      RunsKeepInv(budgets, front);
      HeardIsOwn(budgets, Run(budgets, front), last, id);
      if id in Run(budgets, front).bridges {
        OwnerIsFixed(budgets, Run(budgets, front), last, id);
      }
    }
  }

  /** Events sent through Publish are delivered only to subscriptions of their own profile id. */
  lemma {:induction false} PublishedEventsReachTheirOwner(budgets: Budgets, steps: seq<Step>, id: Handle, p: Profile)
    requires forall i :: 0 <= i < |steps| ==> Published(steps[i])
    requires p in Delivered(budgets, steps, id)
    ensures id in Run(budgets, steps).bridges && p.id == Run(budgets, steps).bridges[id].userID
  {
    HeardStaysOwn(budgets, steps, id);
    DeliveredIsSubsequence(budgets, steps, id);
  }
}
