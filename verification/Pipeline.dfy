/** The whole way of an event: event-socket bytes, listener, hub, and from there to the notifier or
    through the event stream to the page. */
module Pipeline {
  import opened Hub
  import opened HubSteps
  import opened Subseq
  import Listener
  import Notifier
  import Text
  import Sse
  import Wallboard
  import opened Wrappers

  /** What was accepted is what was offered with some events left out. */
  lemma {:induction false} AcceptedIsSub(log: seq<Entry>)
    ensures Sub(Accepted(log), Events(log))
  {
    if log != [] {
      var before, last := log[..|log| - 1], log[|log| - 1];
      AcceptedIsSub(before);
      assert Events(log) == Events(before) + [last.event];
      var kept := if |Accepted(before)| - last.taken < SUB_BUFFER then [last.event] else [];
      assert Sub(kept, [last.event]) by {
        if kept != [] {
          SubSelf(kept);
        }
      }
      SubAppend(Accepted(before), Events(before), kept, [last.event]);
      assert Accepted(log) == Accepted(before) + kept;
    }
  }

  /** The events that Publish was called with, and the same with their times set. */
  ghost function Raw(steps: seq<Step>): seq<Event> {
    if steps == [] then [] else (if steps[0].Begin? then [steps[0].e] else []) + Raw(steps[1..])
  }

  ghost function Stamped(steps: seq<Step>): seq<Event> {
    if steps == [] then []
    else (if steps[0].Begin? then [Stamp(steps[0].e, steps[0].now)] else []) + Stamped(steps[1..])
  }

  ghost function InHand(s: State, p: Tid): seq<Event> {
    if s.Pc(p).Waiting? then [s.Pc(p).e] else []
  }

  lemma {:induction false} PublishedInOrder(s: State, p: Tid, steps: seq<Step>)
    requires Accounts(s, p) && Runs(s, steps) && OnePublisher(p, steps)
    ensures After(s, steps).published + InHand(After(s, steps), p) == s.published + InHand(s, p) + Stamped(steps)
    decreases |steps|
  {
    hide Do, Accounts, InHand, Enabled;
    if steps == [] {
      assert s.published + InHand(s, p) + [] == s.published + InHand(s, p);
    } else {
      var u := Do(s, steps[0]);
      AccountsStep(s, p, steps[0]);
      PublishedInOrder(u, p, steps[1..]);
      PublishedStep(s, p, steps[0]);
      assert s.published + InHand(s, p) + Stamped(steps) ==
             s.published + InHand(s, p) + (if steps[0].Begin? then [Stamp(steps[0].e, steps[0].now)] else []) +
                 Stamped(steps[1..]);
    }
  }

  lemma PublishedStep(s: State, p: Tid, step: Step)
    requires Accounts(s, p) && Enabled(s, step) && (step.Begin? ==> step.t == p)
    ensures Do(s, step).published + InHand(Do(s, step), p) ==
              s.published + InHand(s, p) + if step.Begin? then [Stamp(step.e, step.now)] else []
  {
    hide Inv, Offers, Blank, LineInv;
  }

  /** What a subscriber has received is a subsequence of what was published while it was subscribed. */
  lemma ReceivedIsSub(p: Tid, steps: seq<Step>, id: nat)
    requires Runs(INIT, steps) && OnePublisher(p, steps)
    requires id < After(INIT, steps).next
    ensures var s := After(INIT, steps);
            && |s.issued| == s.next && s.issued[id] < |s.lines|
            && var l, end := s.lines[s.issued[id]], OfferedUpTo(s, p, id);
            && l.from <= end <= |s.published|
            && Sub(l.received, s.published[l.from..end])
            && Sub(l.received, Stamped(steps))
  {
    hide Runs, After, Accepted, Events, Sub, Stamped, Do, Enabled, Accounts;
    Delivery(p, steps, id);
    var s := After(INIT, steps);
    var l := s.lines[s.issued[id]];
    AcceptedIsSub(l.log);
    SubPrefix(l.received, Accepted(l.log));
    SubTrans(l.received, Accepted(l.log), Events(l.log));
    InitAccounts(p);
    PublishedInOrder(INIT, p, steps);
    assert [] + InHand(INIT, p) + Stamped(steps) == Stamped(steps);
    SubSlice(s.published, l.from, OfferedUpTo(s, p, id));
    SubTrans(l.received, Events(l.log), s.published);
    SubPrefix(s.published, Stamped(steps));
    SubTrans(l.received, s.published, Stamped(steps));
  }

  /** Drops in the hub suppress notifications but never create one. */
  lemma NotifierBehindHub(p: Tid, steps: seq<Step>, id: nat, acct: string)
    requires Runs(INIT, steps) && OnePublisher(p, steps)
    requires id < After(INIT, steps).next
    ensures var s := After(INIT, steps);
            && |s.issued| == s.next && s.issued[id] < |s.lines|
            && var l, end := s.lines[s.issued[id]], OfferedUpTo(s, p, id);
            && l.from <= end <= |s.published|
            && |Notifier.Rises(0, Notifier.Counts(l.received, acct))|
               <= |Notifier.Rises(0, Notifier.Counts(s.published[l.from..end], acct))|
  {
    ReceivedIsSub(p, steps, id);
    var s := After(INIT, steps);
    var l := s.lines[s.issued[id]];
    Notifier.LossNeverNotifies(l.received, s.published[l.from..OfferedUpTo(s, p, id)], acct);
  }

  /** The clock at each call of Publish. */
  ghost function Clock(steps: seq<Step>): seq<int> {
    if steps == [] then [] else (if steps[0].Begin? then [steps[0].now] else []) + Clock(steps[1..])
  }

  /** What is published is what was given: event i has the kind and the data of call i, and its time, or
      that of the clock if it had none. */
  lemma {:induction false} StampedIsRaw(steps: seq<Step>)
    ensures |Stamped(steps)| == |Raw(steps)| == |Clock(steps)|
    ensures forall i :: 0 <= i < |Raw(steps)| ==>
              var x, e := Stamped(steps)[i], Raw(steps)[i];
              x.kind == e.kind && x.data == e.data && x.time == if e.time != 0 then e.time else Clock(steps)[i]
  {
    if steps != [] {
      StampedIsRaw(steps[1..]);
    }
  }

  /** Events without their times. */
  function Bare(es: seq<Event>): (r: seq<(string, map<string, string>)>)
    ensures |r| == |es|
    ensures forall i :: 0 <= i < |es| ==> r[i] == (es[i].kind, es[i].data)
  {
    seq(|es|, i requires 0 <= i < |es| => (es[i].kind, es[i].data))
  }

  lemma BareStamped(steps: seq<Step>)
    ensures Bare(Stamped(steps)) == Bare(Raw(steps))
  {
    hide Raw, Stamped, Clock;
    StampedIsRaw(steps);
  }

  lemma {:induction false} SubBare(xs: seq<Event>, ys: seq<Event>)
    requires Sub(xs, ys)
    ensures Sub(Bare(xs), Bare(ys))
    decreases |ys|
  {
    if xs != [] {
      assert Bare(ys)[1..] == Bare(ys[1..]);
      if xs[0] == ys[0] && Sub(xs[1..], ys[1..]) {
        SubBare(xs[1..], ys[1..]);
        assert Bare(xs)[1..] == Bare(xs[1..]);
      } else {
        SubBare(xs, ys[1..]);
      }
    }
  }

  lemma KindsOfStamped(steps: seq<Step>)
    requires forall i :: 0 <= i < |Raw(steps)| ==> '\n' !in Raw(steps)[i].kind
    ensures forall i :: 0 <= i < |Stamped(steps)| ==> '\n' !in Stamped(steps)[i].kind
  {
    hide Raw, Stamped, Clock;
    StampedIsRaw(steps);
  }

  lemma {:induction false} KindsOfLoop(s: string)
    ensures forall i :: 0 <= i < |Listener.ReadLoop(s).events| ==> '\n' !in Listener.ReadLoop(s).events[i].kind
    decreases |s|
  {
    hide Listener.HeadersFrom, Listener.Normalize, Listener.ParseEventBlock;
    match Listener.HeadersFrom(s, map[])
    case None =>
    case Some((h, rest)) =>
      var n := Text.Atoi(Text.Get(h, "Content-Length"));
      if n == 0 {
        KindsOfLoop(rest);
      } else if 0 < n <= |rest| {
        KindsOfLoop(rest[n..]);
      }
  }

  lemma {:induction false} SubKinds(xs: seq<Event>, ys: seq<Event>)
    requires Sub(xs, ys) && forall i :: 0 <= i < |ys| ==> '\n' !in ys[i].kind
    ensures forall i :: 0 <= i < |xs| ==> '\n' !in xs[i].kind
    decreases |ys|
  {
    if xs != [] {
      if xs[0] == ys[0] && Sub(xs[1..], ys[1..]) {
        SubKinds(xs[1..], ys[1..]);
        assert forall i :: 0 < i < |xs| ==> xs[i] == xs[1..][i - 1];
      } else {
        SubKinds(xs, ys[1..]);
      }
    }
  }

  /** End to end. The listener reads a byte stream and publishes what it finds; one subscriber's
      received events go out as a stream with any heartbeats in between and arrive in any chunks.
      The page gets exactly what was received, and that is a subsequence, in kind and data, of the
      events read from the bytes. */
  lemma EndToEnd(bytes: string, p: Tid, steps: seq<Step>, id: nat, c: Sse.Codec, signals: seq<Sse.Signal>,
                 chunks: seq<string>)
    requires Runs(INIT, steps) && OnePublisher(p, steps) && Raw(steps) == Listener.ReadLoop(bytes).events
    requires id < After(INIT, steps).next
    requires var s := After(INIT, steps);
             |s.issued| == s.next && s.issued[id] < |s.lines| && Sse.Sent(signals) == s.lines[s.issued[id]].received
    requires forall i :: 0 <= i < |Sse.Sent(signals)| ==> Sse.Faithful(c, Sse.Sent(signals)[i])
    requires Wallboard.Concat(chunks) == Sse.HELLO + Sse.Output(c, signals)
    ensures Sse.Delivered(c, Wallboard.Concat(chunks)) == Sse.Sent(signals)
    ensures Sub(Sse.Delivered(c, Wallboard.Concat(chunks)), Stamped(steps))
    ensures Sub(Bare(Sse.Delivered(c, Wallboard.Concat(chunks))), Bare(Listener.ReadLoop(bytes).events))
  {
    hide Runs, After, Sub, Sse.Delivered, Sse.Output, Sse.Faithful, Sse.Sent, Listener.ReadLoop, Raw, Stamped;
    ReceivedIsSub(p, steps, id);
    KindsOfLoop(bytes);
    KindsOfStamped(steps);
    SubKinds(Sse.Sent(signals), Stamped(steps));
    SubBare(Sse.Sent(signals), Stamped(steps));
    BareStamped(steps);
    Sse.ReadUndoesWrite(c, signals);
  }
}
