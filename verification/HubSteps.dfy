/** Every interleaving of calls on one hub. A step is what one goroutine does between two points
    where another can run: taking or leaving the lock, the code under the write lock, one send of a
    Publish, or one receive. Channels are named by the order in which they were made. */
module HubSteps {
  import opened Wrappers
  import opened Hub

  type Tid = nat

  datatype Pc =
    | Idle
    | Made(ref: nat)              // Subscribe has made its channel and wants the lock
    | Inserting(ref: nat)         // Subscribe holds the lock
    | Inserted                    // Subscribe is about to unlock
    | Cancelling(id: nat)         // inside once.Do, wants the lock
    | Removing(id: nat)           // cancel holds the lock
    | Removed(id: nat)            // cancel is about to unlock
    | Waiting(e: Event)           // Publish wants the read lock
    | Sending(e: Event, todo: set<nat>)

  datatype Once = Unused | Busy | Done

  /** An event offered to a channel, with the number of events received from it before that. */
  datatype Entry = Entry(event: Event, taken: nat)

  /** A channel and its history: what was received, what was offered, and which part of the
      published events falls in the subscription. */
  datatype Line = Line(chan: Chan, received: seq<Event>, log: seq<Entry>, from: nat, upto: nat)

  datatype State = State(
    subs: map<nat, nat>,
    next: nat,
    lines: seq<Line>,
    issued: seq<nat>,        // the channel of every id handed out so far
    once: seq<Once>,         // one per id
    removed: set<nat>,       // ids whose cancel has run
    writer: Option<Tid>,
    readers: set<Tid>,
    pcs: map<Tid, Pc>,
    published: seq<Event>,
    panicked: bool) {

    function Pc(t: Tid): Pc {
      if t in pcs then pcs[t] else Idle
    }
  }

  const INIT := State(map[], 0, [], [], [], {}, None, {}, map[], [], false)

  datatype Step =
    | Make(t: Tid)
    | Lock(t: Tid)
    | Insert(t: Tid)
    | EnterCancel(t: Tid, id: nat)
    | Remove(t: Tid)
    | Unlock(t: Tid)
    | Begin(t: Tid, e: Event, now: int)
    | RLock(t: Tid)
    | Send(t: Tid, id: nat)
    | RUnlock(t: Tid)
    | Receive(ref: nat)

  ghost predicate Enabled(s: State, step: Step) {
    match step
    case Make(t) => s.Pc(t).Idle?
    case Lock(t) => (s.Pc(t).Made? || s.Pc(t).Cancelling?) && s.writer == None && s.readers == {}
    case Insert(t) => s.Pc(t).Inserting? && s.Pc(t).ref < |s.lines|
    case EnterCancel(t, id) => s.Pc(t).Idle? && id < |s.once| && s.once[id] == Unused
    case Remove(t) => s.Pc(t).Removing? && (s.Pc(t).id in s.subs ==> s.subs[s.Pc(t).id] < |s.lines|)
    case Unlock(t) => s.Pc(t).Inserted? || (s.Pc(t).Removed? && s.Pc(t).id < |s.once|)
    case Begin(t, _, _) => s.Pc(t).Idle?
    case RLock(t) => s.Pc(t).Waiting? && s.writer == None
    case Send(t, id) => s.Pc(t).Sending? && id in s.Pc(t).todo && id in s.subs && s.subs[id] < |s.lines|
    case RUnlock(t) => s.Pc(t).Sending? && s.Pc(t).todo == {}
    case Receive(ref) => ref < |s.lines| && s.lines[ref].chan.buf != []
  }

  /** One offer: a panic on a closed channel, otherwise the code under the read lock. */
  ghost function Offered(l: Line, e: Event): Line {
    l.(chan := Offer(l.chan, e), log := l.log + [Entry(e, |l.received|)])
  }

  ghost function Taken(l: Line): Line
    requires l.chan.buf != []
  {
    l.(chan := l.chan.(buf := l.chan.buf[1..]), received := l.received + [l.chan.buf[0]])
  }

  ghost function Do(s: State, step: Step): State
    requires Enabled(s, step)
  {
    match step
    case Make(t) =>
      s.(lines := s.lines + [Line(EMPTY_CHAN, [], [], 0, 0)], pcs := s.pcs[t := Made(|s.lines|)])
    case Lock(t) =>
      s.(writer := Some(t),
         pcs := s.pcs[t := if s.Pc(t).Made? then Inserting(s.Pc(t).ref) else Removing(s.Pc(t).id)])
    case Insert(t) =>
      var ref := s.Pc(t).ref;
      s.(next := s.next + 1,
         subs := s.subs[s.next := ref],
         issued := s.issued + [ref],
         once := s.once + [Unused],
         lines := s.lines[ref := s.lines[ref].(from := |s.published|)],
         pcs := s.pcs[t := Inserted])
    case EnterCancel(t, id) =>
      s.(once := s.once[id := Busy], pcs := s.pcs[t := Cancelling(id)])
    case Remove(t) =>
      var id := s.Pc(t).id;
      var u := s.(removed := s.removed + {id}, pcs := s.pcs[t := Removed(id)]);
      if id !in s.subs then u else
      var ref := s.subs[id];
      u.(subs := s.subs - {id},
         lines := s.lines[ref := s.lines[ref].(chan := s.lines[ref].chan.(closed := true), upto := |s.published|)],
         panicked := s.panicked || s.lines[ref].chan.closed)
    case Unlock(t) =>
      var u := s.(writer := None, pcs := s.pcs[t := Idle]);
      if s.Pc(t).Removed? then u.(once := s.once[s.Pc(t).id := Done]) else u
    case Begin(t, e, now) =>
      s.(pcs := s.pcs[t := Waiting(Stamp(e, now))])
    case RLock(t) =>
      s.(readers := s.readers + {t},
         published := s.published + [s.Pc(t).e],
         pcs := s.pcs[t := Sending(s.Pc(t).e, s.subs.Keys)])
    case Send(t, id) =>
      var ref := s.subs[id];
      s.(lines := s.lines[ref := Offered(s.lines[ref], s.Pc(t).e)],
         pcs := s.pcs[t := Sending(s.Pc(t).e, s.Pc(t).todo - {id})],
         panicked := s.panicked || s.lines[ref].chan.closed)
    case RUnlock(t) =>
      s.(readers := s.readers - {t}, pcs := s.pcs[t := Idle])
    case Receive(ref) =>
      s.(lines := s.lines[ref := Taken(s.lines[ref])])
  }

  ghost predicate Runs(s: State, steps: seq<Step>)
    decreases |steps|
  {
    steps == [] || (Enabled(s, steps[0]) && Runs(Do(s, steps[0]), steps[1..]))
  }

  ghost function After(s: State, steps: seq<Step>): State
    requires Runs(s, steps)
    decreases |steps|
  {
    if steps == [] then s else After(Do(s, steps[0]), steps[1..])
  }

  // ---------- channel safety, any number of publishers ----------

  ghost predicate HoldsWrite(p: Pc) {
    p.Inserting? || p.Inserted? || p.Removing? || p.Removed?
  }

  ghost predicate LockInv(s: State) {
    && (s.writer.Some? ==> s.readers == {})
    && (forall t: Tid :: HoldsWrite(s.Pc(t)) <==> s.writer == Some(t))
    && (forall t: Tid :: s.Pc(t).Sending? <==> t in s.readers)
    && (forall t: Tid :: s.Pc(t).Sending? ==> s.Pc(t).todo <= s.subs.Keys)
  }

  ghost predicate Unissued(s: State, t: Tid) {
    (s.Pc(t).Made? || s.Pc(t).Inserting?) ==>
      s.Pc(t).ref < |s.lines| && !s.lines[s.Pc(t).ref].chan.closed && s.Pc(t).ref !in s.issued
  }

  ghost predicate Apart(s: State, t: Tid, u: Tid) {
    (s.Pc(t).Made? || s.Pc(t).Inserting?) && (s.Pc(u).Made? || s.Pc(u).Inserting?) ==> s.Pc(t).ref != s.Pc(u).ref
  }

  ghost predicate IdOf(s: State, t: Tid, id: nat) {
    (s.Pc(t).Cancelling? || s.Pc(t).Removing? || s.Pc(t).Removed?) && s.Pc(t).id == id
  }

  /** The map holds exactly the ids handed out and not cancelled; exactly the cancelled channels are
      closed; no two ids share a channel. */
  ghost predicate MapInv(s: State) {
    && s.next == |s.issued| == |s.once|
    && (forall id: nat :: id in s.subs <==> id < s.next && id !in s.removed)
    && (forall id: nat :: id in s.subs ==> s.subs[id] == s.issued[id])
    && (forall id: nat :: id in s.removed ==> id < s.next)
    && (forall id: nat :: id < s.next ==> s.issued[id] < |s.lines|)
    && (forall i: nat, j: nat :: i < j < s.next ==> s.issued[i] != s.issued[j])
    && (forall id: nat :: id < s.next ==> (s.lines[s.issued[id]].chan.closed <==> id in s.removed))
  }

  /** Channels on their way into the map are open, unnamed and not shared; cancels name ids that exist. */
  ghost predicate ThreadInv(s: State) {
    && (forall t: Tid :: Unissued(s, t))
    && (forall t: Tid, u: Tid :: t != u ==> Apart(s, t, u))
    && (forall t: Tid, id: nat :: IdOf(s, t, id) ==> id < s.next)
  }

  ghost predicate Inv(s: State) {
    LockInv(s) && MapInv(s) && ThreadInv(s) && !s.panicked
  }

  lemma LockStep(s: State, step: Step)
    requires Inv(s) && Enabled(s, step)
    ensures LockInv(Do(s, step))
  {
    var u := Do(s, step);
    if !step.Receive? {
      assert forall t: Tid :: t != step.t ==> u.Pc(t) == s.Pc(t);
    }
  }

  lemma MapInsert(s: State, t: Tid)
    requires Inv(s) && Enabled(s, Insert(t))
    ensures MapInv(Do(s, Insert(t)))
  {
    assert Unissued(s, t);
  }

  lemma MapRemove(s: State, t: Tid)
    requires Inv(s) && Enabled(s, Remove(t))
    ensures MapInv(Do(s, Remove(t))) && !Do(s, Remove(t)).panicked
  {
    hide LockInv, Unissued, Apart;
    assert IdOf(s, t, s.Pc(t).id);
  }

  lemma MapOther(s: State, step: Step)
    requires Inv(s) && Enabled(s, step) && !step.Insert? && !step.Remove?
    ensures MapInv(Do(s, step)) && !Do(s, step).panicked
  {
  }

  lemma MapStep(s: State, step: Step)
    requires Inv(s) && Enabled(s, step)
    ensures MapInv(Do(s, step)) && !Do(s, step).panicked
  {
    match step
    case Insert(t) => MapInsert(s, t);
    case Remove(t) => MapRemove(s, t);
    case _ => MapOther(s, step);
  }

  lemma UnissuedStep(s: State, step: Step, t: Tid)
    requires Inv(s) && Enabled(s, step)
    ensures Unissued(Do(s, step), t)
  {
    assert Unissued(s, t);
    if !step.Receive? && t != step.t {
      assert Unissued(s, step.t) && Apart(s, t, step.t);
    }
  }

  lemma ApartStep(s: State, step: Step, t: Tid, v: Tid)
    requires Inv(s) && Enabled(s, step) && t != v
    ensures Apart(Do(s, step), t, v)
  {
    assert Apart(s, t, v) && Unissued(s, t) && Unissued(s, v);
  }

  lemma IdStep(s: State, step: Step, t: Tid, id: nat)
    requires Inv(s) && Enabled(s, step) && IdOf(Do(s, step), t, id)
    ensures id < Do(s, step).next
  {
    assert IdOf(s, t, id) || step.EnterCancel?;
  }

  lemma ThreadStep(s: State, step: Step)
    requires Inv(s) && Enabled(s, step)
    ensures ThreadInv(Do(s, step))
  {
    hide Do, Enabled, Unissued, Apart, IdOf, Inv;
    var u := Do(s, step);
    forall t: Tid
      ensures Unissued(u, t)
    {
      UnissuedStep(s, step, t);
    }
    forall t: Tid, v: Tid | t != v
      ensures Apart(u, t, v)
    {
      ApartStep(s, step, t, v);
    }
    forall t: Tid, id: nat | IdOf(u, t, id)
      ensures id < u.next
    {
      IdStep(s, step, t, id);
    }
  }

  lemma InvStep(s: State, step: Step)
    requires Inv(s) && Enabled(s, step)
    ensures Inv(Do(s, step))
  {
    LockStep(s, step);
    MapStep(s, step);
    ThreadStep(s, step);
  }

  lemma {:induction false} InvRun(s: State, steps: seq<Step>)
    requires Inv(s) && Runs(s, steps)
    ensures Inv(After(s, steps))
    decreases |steps|
  {
    if steps != [] {
      InvStep(s, steps[0]);
      InvRun(Do(s, steps[0]), steps[1..]);
    }
  }

  lemma InitInv()
    ensures Inv(INIT)
  {
    assert forall t: Tid :: Unissued(INIT, t);
    assert forall t: Tid, id: nat :: !IdOf(INIT, t, id);
    assert forall t: Tid, u: Tid :: Apart(INIT, t, u);
  }

  /** No interleaving sends on a closed channel or closes one twice, no id is ever used again, and
      the map holds exactly the subscribers not yet cancelled, each with its own open channel. */
  lemma Safety(steps: seq<Step>)
    requires Runs(INIT, steps)
    ensures var s := After(INIT, steps);
            && !s.panicked
            && s.next == |s.issued|
            && (forall id: nat :: id in s.subs <==> id < s.next && id !in s.removed)
            && (forall id: nat :: id in s.subs ==>
                  s.subs[id] == s.issued[id] && s.subs[id] < |s.lines| && !s.lines[s.subs[id]].chan.closed)
            && (forall i: nat, j: nat :: i < j < |s.issued| ==> s.issued[i] != s.issued[j])
  {
    InitInv();
    InvRun(INIT, steps);
  }

  lemma {:induction false} CountBelow(s: set<nat>, n: nat)
    requires forall i: nat :: i in s <==> i < n
    ensures |s| == n
  {
    if n == 0 {
      assert s == {};
    } else {
      CountBelow(s - {n - 1}, n - 1);
    }
  }

  /** After every run the number of subscribers is the number of ids handed out less the cancelled ones. */
  lemma SubscriberCount(steps: seq<Step>)
    requires Runs(INIT, steps)
    ensures var s := After(INIT, steps); |s.subs| == s.next - |s.removed|
  {
    InitInv();
    InvRun(INIT, steps);
    var s := After(INIT, steps);
    CountBelow(s.subs.Keys + s.removed, s.next);
    assert s.subs.Keys !! s.removed;
  }

  // ---------- accounting, one publisher ----------

  /** The events of a log that found room: those met by a backlog of less than SUB_BUFFER. */
  ghost function Accepted(log: seq<Entry>): (r: seq<Event>)
    ensures |r| <= |log|
  {
    if log == [] then [] else
    var before, last := Accepted(log[..|log| - 1]), log[|log| - 1];
    if |before| - last.taken < SUB_BUFFER then before + [last.event] else before
  }

  ghost function Events(log: seq<Entry>): (r: seq<Event>)
    ensures |r| == |log|
  {
    seq(|log|, i requires 0 <= i < |log| => log[i].event)
  }

  /** Entry i met a backlog between nothing and a full buffer. */
  ghost predicate Met(log: seq<Entry>, i: nat)
    requires i < |log|
  {
    log[i].taken <= |Accepted(log[..i])| <= log[i].taken + SUB_BUFFER
  }

  /** What was received and what is buffered is what was accepted; the buffer never exceeds its size. */
  ghost predicate LineInv(l: Line) {
    && l.received + l.chan.buf == Accepted(l.log)
    && |l.chan.buf| <= SUB_BUFFER
    && (forall i: nat :: i < |l.log| ==> Met(l.log, i))
  }

  lemma OfferedLog(l: Line, e: Event)
    ensures Events(Offered(l, e).log) == Events(l.log) + [e]
  {
  }

  lemma OfferedKeeps(l: Line, e: Event)
    requires LineInv(l)
    ensures LineInv(Offered(l, e))
  {
    var u := Offered(l, e);
    assert u.log[..|l.log|] == l.log;
    assert l.received + (l.chan.buf + [e]) == (l.received + l.chan.buf) + [e];
    forall i: nat | i < |u.log|
      ensures Met(u.log, i)
    {
      assert u.log[..i] == l.log[..i];
      assert i < |l.log| ==> Met(l.log, i);
      assert l.log[..|l.log|] == l.log;
    }
  }

  /** The number of offers that met a full buffer. */
  ghost function Dropped(log: seq<Entry>): nat {
    if log == [] then 0 else
    var before, last := log[..|log| - 1], log[|log| - 1];
    Dropped(before) + if |Accepted(before)| - last.taken == SUB_BUFFER then 1 else 0
  }

  /** Conservation: every offer was either accepted or met a full buffer. */
  lemma {:induction false} Conservation(log: seq<Entry>)
    requires forall i: nat :: i < |log| ==> Met(log, i)
    ensures |Accepted(log)| + Dropped(log) == |log|
  {
    if log != [] {
      var before := log[..|log| - 1];
      forall i: nat | i < |before|
        ensures Met(before, i)
      {
        assert Met(log, i) && before[..i] == log[..i];
      }
      assert Met(log, |log| - 1);
      Conservation(before);
    }
  }

  lemma TakenKeeps(l: Line)
    requires LineInv(l) && l.chan.buf != []
    ensures LineInv(Taken(l))
  {
    assert l.chan.buf == [l.chan.buf[0]] + l.chan.buf[1..];
    assert Taken(l).received + Taken(l).chan.buf == l.received + l.chan.buf;
  }

  /** Only p publishes. */
  ghost predicate OnePublisher(p: Tid, steps: seq<Step>) {
    forall st <- steps :: st.Begin? ==> st.t == p
  }

  /** The end of subscription id in the published events. */
  ghost function End(s: State, id: nat): nat
    requires id < |s.issued| && s.issued[id] < |s.lines|
  {
    if id in s.removed then s.lines[s.issued[id]].upto else |s.published|
  }

  /** The event p is delivering has not been offered to id yet. */
  ghost predicate Pending(s: State, p: Tid, id: nat) {
    s.Pc(p).Sending? && id in s.Pc(p).todo
  }

  /** The end of what id has been offered: the event that p is delivering may still be to come. */
  ghost function OfferedUpTo(s: State, p: Tid, id: nat): int
    requires id < |s.issued| && s.issued[id] < |s.lines|
  {
    End(s, id) - if Pending(s, p, id) then 1 else 0
  }

  ghost predicate Offers(s: State, p: Tid, id: nat)
    requires id < |s.issued| && s.issued[id] < |s.lines|
  {
    var l := s.lines[s.issued[id]];
    l.from <= OfferedUpTo(s, p, id) <= |s.published|
    && Events(l.log) == s.published[l.from..OfferedUpTo(s, p, id)]
  }

  ghost predicate FreshLine(l: Line) {
    l.log == [] && l.received == [] && l.chan.buf == []
  }

  /** Channels that no id names yet. */
  ghost predicate Blank(s: State, t: Tid) {
    (s.Pc(t).Made? || s.Pc(t).Inserting?) ==> s.Pc(t).ref < |s.lines| && FreshLine(s.lines[s.Pc(t).ref])
  }

  /** Only p is inside Publish, and what it delivers is the last published event. */
  ghost predicate Publisher(s: State, p: Tid) {
    && (forall t: Tid :: s.Pc(t).Waiting? || s.Pc(t).Sending? ==> t == p)
    && (s.Pc(p).Sending? ==> s.published != [] && s.published[|s.published| - 1] == s.Pc(p).e)
  }

  ghost predicate Accounts(s: State, p: Tid) {
    && Inv(s)
    && Publisher(s, p)
    && (forall r: nat :: r < |s.lines| ==> LineInv(s.lines[r]))
    && (forall t: Tid :: Blank(s, t))
    && (forall id: nat :: id < s.next ==> Offers(s, p, id))
  }

  lemma LinesStep(s: State, p: Tid, step: Step)
    requires Accounts(s, p) && Enabled(s, step)
    ensures forall r: nat :: r < |Do(s, step).lines| ==> LineInv(Do(s, step).lines[r])
  {
    match step
    case Send(t, id) => OfferedKeeps(s.lines[s.subs[id]], s.Pc(t).e);
    case Receive(ref) => TakenKeeps(s.lines[ref]);
    case _ =>
  }

  lemma BlankStep(s: State, p: Tid, step: Step)
    requires Accounts(s, p) && Enabled(s, step)
    ensures forall t: Tid :: Blank(Do(s, step), t)
  {
    var u := Do(s, step);
    forall t: Tid
      ensures Blank(u, t)
    {
      assert Blank(s, t) && Unissued(s, t);
    }
  }

  lemma OffersInsert(s: State, p: Tid, t: Tid, id: nat)
    requires Accounts(s, p) && Enabled(s, Insert(t)) && id <= s.next
    ensures Inv(Do(s, Insert(t))) ==> Offers(Do(s, Insert(t)), p, id)
  {
    hide LineInv, Apart, IdOf;
    assert Blank(s, t) && Unissued(s, t);
    if id < s.next {
      assert Offers(s, p, id);
    }
  }

  lemma OffersRemove(s: State, p: Tid, t: Tid, id: nat)
    requires Accounts(s, p) && Enabled(s, Remove(t)) && id < s.next
    ensures Inv(Do(s, Remove(t))) ==> Offers(Do(s, Remove(t)), p, id)
  {
    hide LineInv, Blank, Unissued, Apart;
    assert Offers(s, p, id) && IdOf(s, t, s.Pc(t).id);
  }

  lemma OffersRLock(s: State, p: Tid, t: Tid, id: nat)
    requires Accounts(s, p) && Enabled(s, RLock(t)) && id < s.next
    ensures Inv(Do(s, RLock(t))) ==> Offers(Do(s, RLock(t)), p, id)
  {
    hide LineInv, Blank, Unissued, Apart, IdOf;
    assert Offers(s, p, id);
  }

  lemma OffersSend(s: State, p: Tid, t: Tid, i: nat, id: nat)
    requires Accounts(s, p) && Enabled(s, Send(t, i)) && id < s.next
    ensures Inv(Do(s, Send(t, i))) ==> Offers(Do(s, Send(t, i)), p, id)
  {
    hide LineInv, Blank, Unissued, Apart, IdOf;
    assert Offers(s, p, id);
    OfferedLog(s.lines[s.subs[i]], s.Pc(t).e);
    if id == i {
      var l, end := s.lines[s.issued[id]], |s.published|;
      assert s.published[l.from..end] == s.published[l.from..end - 1] + [s.published[end - 1]];
    }
  }

  lemma OffersOther(s: State, p: Tid, step: Step, id: nat)
    requires Accounts(s, p) && Enabled(s, step) && (step.Begin? ==> step.t == p) && id < s.next
    requires !step.Insert? && !step.Remove? && !step.RLock? && !step.Send?
    ensures Offers(Do(s, step), p, id)
  {
    hide Unissued, Apart, IdOf, LineInv, Blank;
    assert Offers(s, p, id);
  }

  lemma OffersStep(s: State, p: Tid, step: Step, id: nat)
    requires Accounts(s, p) && Enabled(s, step) && (step.Begin? ==> step.t == p)
    requires Inv(Do(s, step)) && id < Do(s, step).next
    ensures Offers(Do(s, step), p, id)
  {
    hide Offers, Blank, LineInv;
    match step
    case Insert(t) => OffersInsert(s, p, t, id);
    case Remove(t) => OffersRemove(s, p, t, id);
    case RLock(t) => OffersRLock(s, p, t, id);
    case Send(t, i) => OffersSend(s, p, t, i, id);
    case _ => OffersOther(s, p, step, id);
  }

  lemma PublisherStep(s: State, p: Tid, step: Step)
    requires Accounts(s, p) && Enabled(s, step) && (step.Begin? ==> step.t == p)
    ensures Publisher(Do(s, step), p)
  {
    hide Offers, Blank, LineInv, Inv;
    var u := Do(s, step);
    forall t: Tid | u.Pc(t).Waiting? || u.Pc(t).Sending?
      ensures t == p
    {
      assert s.Pc(t).Waiting? || s.Pc(t).Sending? || step.Begin?;
    }
  }

  lemma AccountsStep(s: State, p: Tid, step: Step)
    requires Accounts(s, p) && Enabled(s, step) && (step.Begin? ==> step.t == p)
    ensures Accounts(Do(s, step), p)
  {
    hide Do, Enabled, Offers, Blank, LineInv, Publisher;
    InvStep(s, step);
    LinesStep(s, p, step);
    BlankStep(s, p, step);
    PublisherStep(s, p, step);
    forall id: nat | id < Do(s, step).next
      ensures Offers(Do(s, step), p, id)
    {
      OffersStep(s, p, step, id);
    }
  }

  lemma InitAccounts(p: Tid)
    ensures Accounts(INIT, p)
  {
    InitInv();
    assert forall t: Tid :: Blank(INIT, t);
  }

  lemma {:induction false} AccountsRun(s: State, p: Tid, steps: seq<Step>)
    requires Accounts(s, p) && Runs(s, steps) && OnePublisher(p, steps)
    ensures Accounts(After(s, steps), p)
    decreases |steps|
  {
    if steps != [] {
      AccountsStep(s, p, steps[0]);
      AccountsRun(Do(s, steps[0]), p, steps[1..]);
    }
  }

  /** Delivery is exact, at every moment of every run. What subscriber id has received followed by what
      it has buffered is the part of the events offered to it so far that met a buffer with room, in
      publish order; the rest, and only the rest, was dropped. It has been offered every event published
      during its subscription, but for the one that a Publish in progress has yet to bring it. */
  lemma Delivery(p: Tid, steps: seq<Step>, id: nat)
    requires Runs(INIT, steps) && OnePublisher(p, steps) && id < After(INIT, steps).next
    ensures var s := After(INIT, steps);
            && |s.issued| == s.next && s.issued[id] < |s.lines|
            && var l, end := s.lines[s.issued[id]], OfferedUpTo(s, p, id);
            && l.from <= end <= |s.published|
            && Events(l.log) == s.published[l.from..end]
            && l.received + l.chan.buf == Accepted(l.log)
            && |l.chan.buf| <= SUB_BUFFER
            && |l.received| + |l.chan.buf| + Dropped(l.log) == end - l.from
  {
    InitAccounts(p);
    AccountsRun(INIT, p, steps);
    assert Offers(After(INIT, steps), p, id);
    Conservation(After(INIT, steps).lines[After(INIT, steps).issued[id]].log);
  }

  lemma ReceiveTakes(s: State, ref: nat)
    requires ref < |s.lines| && s.lines[ref].chan.buf != []
    ensures Enabled(s, Receive(ref)) && Do(s, Receive(ref)).lines == s.lines[ref := Taken(s.lines[ref])]
  {
  }

  /** Whatever is buffered stays readable, closed or not: n receives return the first n of it. */
  lemma {:induction false} Drain(s: State, ref: nat, n: nat)
    requires ref < |s.lines| && n <= |s.lines[ref].chan.buf|
    ensures var steps := seq(n, i => Receive(ref));
            Runs(s, steps)
            && |After(s, steps).lines| == |s.lines|
            && After(s, steps).lines[ref].received == s.lines[ref].received + s.lines[ref].chan.buf[..n]
    decreases n
  {
    var steps := seq(n, i => Receive(ref));
    if n > 0 {
      ReceiveTakes(s, ref);
      hide Do, Enabled;
      var u := Do(s, Receive(ref));
      Drain(u, ref, n - 1);
      assert steps[1..] == seq(n - 1, i => Receive(ref));
      assert s.lines[ref].chan.buf[..n] == [s.lines[ref].chan.buf[0]] + u.lines[ref].chan.buf[..n - 1];
    } else {
      assert s.lines[ref].received + s.lines[ref].chan.buf[..0] == s.lines[ref].received;
    }
  }
}
