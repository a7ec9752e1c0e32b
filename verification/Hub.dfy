/** The in-process event hub: bounded, lossy fan-out to subscribers.
    This module is the code under the hub's lock; HubSteps interleaves it. */
module Hub {
  datatype Event = Event(kind: string, time: int, data: map<string, string>)

  const SUB_BUFFER: nat := 64

  /** A Go channel with capacity SUB_BUFFER. */
  datatype Chan = Chan(buf: seq<Event>, closed: bool)

  const EMPTY_CHAN := Chan([], false)

  /** The select with a default: send when there is room, otherwise drop. */
  function Offer(c: Chan, e: Event): Chan {
    if |c.buf| < SUB_BUFFER then c.(buf := c.buf + [e]) else c
  }

  function Stamp(e: Event, now: int): Event {
    if e.time == 0 then e.(time := now) else e
  }

  class Channel {
    var buf: seq<Event>
    var closed: bool

    constructor ()
      ensures View() == EMPTY_CHAN
    {
      buf, closed := [], false;
    }

    function View(): Chan
      reads this
    {
      Chan(buf, closed)
    }

    /** A send on a closed channel panics, so the caller must know it is open. */
    method TrySend(e: Event) returns (sent: bool)
      requires !closed
      modifies this
      ensures View() == Offer(old(View()), e)
      ensures sent <==> |old(buf)| < 64
      ensures !closed && buf == if sent then old(buf) + [e] else old(buf)
    {
      sent := |buf| < SUB_BUFFER;
      if sent {
        buf := buf + [e];
      }
    }

    /** `e, ok := <-ch` when it does not block: a value if one is buffered, otherwise not ok once closed. */
    method Receive() returns (e: Event, ok: bool)
      requires buf != [] || closed
      modifies this
      ensures ok <==> old(buf) != []
      ensures ok ==> e == old(buf)[0] && buf == old(buf)[1..]
      ensures !ok ==> buf == old(buf)
      ensures closed == old(closed)
    {
      ok := buf != [];
      if ok {
        e := buf[0];
        buf := buf[1..];
      } else {
        e := Event("", 0, map[]);
      }
    }

    /** Closing twice panics. */
    method Close()
      requires !closed
      modifies this
      ensures View() == old(View()).(closed := true)
    {
      closed := true;
    }
  }

  /** The event x is the event e as subscribers see it: with its own time, or with the clock's if it had none. */
  predicate Arrives(x: Event, e: Event, now: int) {
    x.kind == e.kind && x.data == e.data && x.time == if e.time != 0 then e.time else now
  }

  /** What a publish does to one buffer: nothing when 64 events are waiting, else the event comes last. */
  predicate Gains(before: seq<Event>, after: seq<Event>, e: Event, now: int) {
    if |before| >= 64 then after == before
    else |after| == |before| + 1 && before <= after && Arrives(after[|before|], e, now)
  }

  class Hub {
    var subs: map<nat, Channel>
    var next: nat

    constructor ()
      ensures Valid() && subs == map[] && next == 0
    {
      subs, next := map[], 0;
    }

    /** Registered channels are open and pairwise distinct, and ids are handed out in order. */
    ghost predicate Valid()
      reads this, subs.Values
    {
      && (forall id :: id in subs ==> id < next && !subs[id].closed)
      && (forall i, j :: i in subs && j in subs && i != j ==> subs[i] != subs[j])
    }

    method Subscribe() returns (ch: Channel, cancel: Cancel)
      requires Valid()
      modifies this
      ensures Valid() && fresh(ch) && ch.View() == EMPTY_CHAN
      ensures next == old(next) + 1
      ensures subs == old(subs)[old(next) := ch] && old(next) !in old(subs)
      ensures fresh(cancel) && cancel.hub == this && cancel.id == old(next) && !cancel.done
    {
      ch := new Channel();
      var id := next;
      next := next + 1;
      subs := subs[id := ch];
      cancel := new Cancel(this, id);
    }

    /** Every subscriber is offered the stamped event once, in whatever order the map is walked. */
    method Publish(e: Event, now: int)
      requires Valid()
      modifies subs.Values
      ensures Valid()
      ensures forall id :: id in subs ==> subs[id].View() == Offer(old(subs[id].View()), Stamp(e, now))
      ensures forall id :: id in subs ==> Gains(old(subs[id].buf), subs[id].buf, e, now)
    {
      var stamped := Stamp(e, now);
      var todo := subs.Keys;
      while todo != {}
        invariant todo <= subs.Keys
        invariant forall id :: id in subs ==>
          subs[id].View() == if id in todo then old(subs[id].View()) else Offer(old(subs[id].View()), stamped)
        decreases |todo|
      {
        var id :| id in todo;
        var sent := subs[id].TrySend(stamped);
        todo := todo - {id};
      }
    }

    method Subscribers() returns (n: nat)
      ensures n == |subs|
    {
      n := |subs|;
    }
  }

  /** The closure that Subscribe returns, with its sync.Once. */
  class Cancel {
    const hub: Hub
    const id: nat
    var done: bool

    constructor (hub: Hub, id: nat)
      ensures this.hub == hub && this.id == id && !done
    {
      this.hub, this.id, done := hub, id, false;
    }

    /** Unsubscribes and closes the channel the first time; later calls change nothing. */
    method Run()
      requires hub.Valid()
      modifies this, hub, hub.subs.Values
      ensures hub.Valid() && done && hub.next == old(hub.next)
      ensures old(done) || id !in old(hub.subs) ==> hub.subs == old(hub.subs)
      ensures !old(done) ==> hub.subs == old(hub.subs) - {id}
      ensures !old(done) && id in old(hub.subs) ==>
                old(hub.subs)[id].View() == old(hub.subs[id].View()).(closed := true)
      ensures forall other :: other in old(hub.subs) && (other != id || old(done)) ==>
                old(hub.subs)[other].View() == old(hub.subs[other].View())
    {
      if !done {
        done := true;
        if id in hub.subs {
          var c := hub.subs[id];
          hub.subs := hub.subs - {id};
          c.Close();
        }
      }
    }
  }
}
