/** Registration and fan-out of profile events inside one process (internal/profile/pubsub.go).
    A Go channel is a handle into `chans`, which holds its buffer and whether it is closed. */
module PubSub {
  import opened Basics
  import opened ProfileRow
  import opened ChannelName

  type Handle = nat

  /** A channel of capacity one. */
  datatype Chan = Chan(buf: seq<Profile>, closed: bool)

  const EMPTY := Chan([], false)

  predicate Full(c: Chan) { |c.buf| >= 1 }

  /** `select { case out <- p: default: }` on an open channel. */
  function Offer(c: Chan, p: Profile): Chan {
    if Full(c) then c else c.(buf := c.buf + [p])
  }

  /** The registrations, the channels, and the goroutines that SubscribeForUser has left waiting for
      their context to end, each with the user id it captured. */
  datatype Hub = Hub(subs: map<int, set<Handle>>, chans: map<Handle, Chan>, cleanups: map<Handle, int>)

  const NO_SUBSCRIBERS := Hub(map[], map[], map[])

  /** A step either leaves a new hub, or panics: a close of a closed channel, or a send on one. */
  datatype Outcome = Fine(hub: Hub) | Panic

  function ListenersOf(subs: map<int, set<Handle>>, userID: int): set<Handle> {
    if userID in subs then subs[userID] else {}
  }

  // ---------- the specification of one critical section ----------

  function Subscribed(hub: Hub, userID: int, out: Handle): Hub {
    Hub(hub.subs[userID := ListenersOf(hub.subs, userID) + {out}],
        hub.chans[out := EMPTY],
        hub.cleanups[out := userID])
  }

  function Unregister(subs: map<int, set<Handle>>, userID: int, out: Handle): map<int, set<Handle>> {
    var rest := ListenersOf(subs, userID) - {out};
    if rest == {} then subs - {userID} else subs[userID := rest]
  }

  function CleanedUp(hub: Hub, out: Handle): Outcome
    requires out in hub.cleanups && out in hub.chans
  {
    if hub.chans[out].closed then Panic
    else Fine(Hub(Unregister(hub.subs, hub.cleanups[out], out),
                  hub.chans[out := hub.chans[out].(closed := true)],
                  hub.cleanups - {out}))
  }

  function Sent(chans: map<Handle, Chan>, listeners: set<Handle>, p: Profile): map<Handle, Chan> {
    map h | h in chans :: if h in listeners then Offer(chans[h], p) else chans[h]
  }

  function FannedOut(hub: Hub, userID: int, p: Profile): Outcome {
    var listeners := ListenersOf(hub.subs, userID);
    if exists h :: h in listeners && h in hub.chans && hub.chans[h].closed then Panic
    else Fine(hub.(chans := Sent(hub.chans, listeners, p)))
  }

  /** dispatch; `payload` is None when it is not the JSON of a profile. */
  function Dispatched(hub: Hub, channel: string, payload: Option<Profile>): Outcome {
    var id := RouteOf(channel);
    if id.None? || payload.None? then Fine(hub) else FannedOut(hub, id.value, payload.value)
  }

  /** What a receive leaves in the buffer. */
  function Drained(hub: Hub, out: Handle): Hub
    requires out in hub.chans && hub.chans[out].buf != []
  {
    hub.(chans := hub.chans[out := hub.chans[out].(buf := hub.chans[out].buf[1..])])
  }

  // ---------- what every critical section keeps ----------

  /** A channel is registered under a user id exactly when the cleanup that captured that id is still
      to run, and it is open exactly when some cleanup is still to run for it. */
  ghost predicate Valid(hub: Hub) {
    && hub.cleanups.Keys <= hub.chans.Keys
    && (forall u, h :: u in hub.subs && h in hub.subs[u] ==> h in hub.cleanups && hub.cleanups[h] == u)
    && (forall h :: h in hub.cleanups ==> hub.cleanups[h] in hub.subs && h in hub.subs[hub.cleanups[h]])
    && (forall h :: h in hub.chans ==> (hub.chans[h].closed <==> h !in hub.cleanups))
    && (forall h :: h in hub.chans ==> |hub.chans[h].buf| <= 1)
    && (forall u :: u in hub.subs ==> hub.subs[u] != {})
  }

  lemma SubscribeKeepsValid(hub: Hub, userID: int, out: Handle)
    requires Valid(hub) && out !in hub.chans
    ensures Valid(Subscribed(hub, userID, out))
  {
  }

  lemma CleanupKeepsValid(hub: Hub, out: Handle)
    requires Valid(hub) && out in hub.cleanups
    ensures CleanedUp(hub, out).Fine? && Valid(CleanedUp(hub, out).hub)
  {
  }

  lemma DispatchKeepsValid(hub: Hub, channel: string, payload: Option<Profile>)
    requires Valid(hub)
    ensures Dispatched(hub, channel, payload).Fine? && Valid(Dispatched(hub, channel, payload).hub)
  {
  }

  /** A dispatch changes a channel only by putting the event into the empty buffer of a listener of the
      user it is for, and leaves a listener without the event only if that buffer was full. */
  lemma DispatchDropsOnlyWhenFull(hub: Hub, channel: string, payload: Option<Profile>, h: Handle)
    requires Valid(hub) && h in hub.chans
    ensures Dispatched(hub, channel, payload).Fine?
    ensures var before, after := hub.chans[h], Dispatched(hub, channel, payload).hub.chans;
            var listens := RouteOf(channel).Some? && payload.Some? && h in ListenersOf(hub.subs, RouteOf(channel).value);
            && h in after
            && (after[h] != before <==> listens && before == EMPTY)
            && (after[h] != before ==> after[h] == Chan([payload.value], false))
            && (listens && after[h] == before ==> |before.buf| == 1)
  {
  }

  lemma ReceiveKeepsValid(hub: Hub, out: Handle)
    requires Valid(hub) && out in hub.chans && hub.chans[out].buf != []
    ensures Valid(Drained(hub, out))
  {
  }

  ghost predicate RegisteredUnder(hub: Hub, h: Handle, userID: int) {
    userID in hub.subs && h in hub.subs[userID]
  }

  /** A channel is registered if and only if it is open, it is registered under one user id only, and
      no user id is left with an empty set of channels. */
  lemma RegisteredIffOpen(hub: Hub)
    requires Valid(hub)
    ensures forall h :: h in hub.chans ==> (!hub.chans[h].closed <==> exists u :: RegisteredUnder(hub, h, u))
    ensures forall h, u, v :: RegisteredUnder(hub, h, u) && RegisteredUnder(hub, h, v) ==> u == v
    ensures forall u :: u in hub.subs ==> exists h :: RegisteredUnder(hub, h, u)
  {
    forall h | h in hub.chans
      ensures !hub.chans[h].closed <==> exists u :: RegisteredUnder(hub, h, u)
    {
      if !hub.chans[h].closed {
        assert RegisteredUnder(hub, h, hub.cleanups[h]);
      }
    }
    forall h, u | RegisteredUnder(hub, h, u)
      ensures h in hub.cleanups && hub.cleanups[h] == u
    {
    }
    forall u | u in hub.subs ensures exists h :: RegisteredUnder(hub, h, u) {
      var h :| h in hub.subs[u];
      assert RegisteredUnder(hub, h, u);
    }
  }

  // ---------- the implementation ----------

  class PubSub {
    var subs: map<int, set<Handle>>
    var chans: map<Handle, Chan>
    var cleanups: map<Handle, int>
    var made: nat

    ghost function Abstract(): Hub
      reads this
    {
      Hub(subs, chans, cleanups)
    }

    ghost predicate Consistent()
      reads this
    {
      Valid(Abstract()) && forall h :: h in chans ==> h < made
    }

    constructor ()
      ensures Consistent() && Abstract() == NO_SUBSCRIBERS
    {
      subs, chans, cleanups, made := map[], map[], map[], 0;
    }

    /** close(out), which panics on a closed channel. */
    method Close(out: Handle)
      requires out in chans && !chans[out].closed
      modifies this`chans
      ensures chans == old(chans)[out := old(chans)[out].(closed := true)]
    {
      chans := chans[out := chans[out].(closed := true)];
    }

    /** The non-blocking send, which panics on a closed channel. */
    method TrySend(out: Handle, p: Profile)
      requires out in chans && !chans[out].closed
      modifies this`chans
      ensures chans == old(chans)[out := Offer(old(chans)[out], p)]
    {
      if |chans[out].buf| < 1 {
        chans := chans[out := chans[out].(buf := chans[out].buf + [p])];
      }
    }

    /** SubscribeForUser up to the `go` statement; the goroutine it starts is CleanUp. */
    method SubscribeForUser(userID: int) returns (out: Handle)
      requires Consistent()
      modifies this
      ensures Consistent() && out !in old(chans)
      ensures Abstract() == Subscribed(old(Abstract()), userID, out)
    {
      SubscribeKeepsValid(Abstract(), userID, made);
      out := made;
      made := made + 1;
      chans := chans[out := EMPTY];
      if userID !in subs {
        subs := subs[userID := {}];
      }
      subs := subs[userID := subs[userID] + {out}];
      cleanups := cleanups[out := userID];
      assert Abstract() == Subscribed(old(Abstract()), userID, out);
    }

    /** The goroutine SubscribeForUser starts, once its context is done. */
    method CleanUp(out: Handle)
      requires Consistent() && out in cleanups
      modifies this
      ensures Consistent()
      ensures Fine(Abstract()) == CleanedUp(old(Abstract()), out)
    {
      CleanupKeepsValid(Abstract(), out);
      var userID := cleanups[out];
      subs := subs[userID := subs[userID] - {out}];
      if |subs[userID]| == 0 {
        subs := subs - {userID};
      }
      Close(out);
      cleanups := cleanups - {out};
      assert Fine(Abstract()) == CleanedUp(old(Abstract()), out);
    }

    /** dispatch. The loop may visit the listeners in any order, and waits for none of them: what it
        leaves is the same in every order (see DispatchDropsOnlyWhenFull for what that is). */
    method Dispatch(channel: string, payload: Option<Profile>)
      requires Consistent()
      modifies this`chans
      ensures Consistent()
      ensures Fine(Abstract()) == Dispatched(old(Abstract()), channel, payload)
    {
      DispatchKeepsValid(Abstract(), channel, payload);
      var id := RouteOf(channel);
      if id.None? || payload.None? {
        return;
      }
      var p := payload.value;
      ghost var listeners := ListenersOf(subs, id.value);
      var left := ListenersOf(subs, id.value);
      while left != {}
        invariant left <= listeners
        invariant chans == Sent(old(chans), listeners - left, p)
        decreases left
      {
        var out :| out in left;
        TrySend(out, p);
        left := left - {out};
        assert chans == Sent(old(chans), listeners - left, p);
      }
      assert listeners - {} == listeners;
    }

    /** A receive from a channel that has something in its buffer. */
    method Receive(out: Handle) returns (p: Profile)
      requires Consistent() && out in chans && chans[out].buf != []
      modifies this`chans
      ensures Consistent()
      ensures p == old(chans)[out].buf[0]
      ensures Abstract() == Drained(old(Abstract()), out)
    {
      ReceiveKeepsValid(Abstract(), out);
      p := chans[out].buf[0];
      chans := chans[out := chans[out].(buf := chans[out].buf[1..])];
    }

    /** listeners: how many local subscribers a profile has. */
    method Listeners(userID: int) returns (n: nat)
      ensures n == |ListenersOf(subs, userID)|
    {
      n := if userID in subs then |subs[userID]| else 0;
    }
  }
}
