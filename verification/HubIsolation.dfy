/** Non-interference: one subscriber cannot tell whether there are others. A run is replayed on a
    new hub with only the publishers and that subscriber's own calls, and the subscriber ends with
    the same channel and the same history. */
module HubIsolation {
  import opened Hub
  import opened HubSteps
  import opened Wrappers

  /** One subscriber: its channel and its id. */
  datatype Who = Who(ref: nat, id: nat)

  /** The call that t is in belongs to the subscriber. A goroutine may serve anybody, one call after
      another; right after its insert it is known by the id it has just handed out. */
  ghost predicate Own(w: Who, s: State, t: Tid) {
    match s.Pc(t)
    case Made(ref) => ref == w.ref
    case Inserting(ref) => ref == w.ref
    case Inserted => s.next == w.id + 1
    case Cancelling(id) => id == w.id
    case Removing(id) => id == w.id
    case Removed(id) => id == w.id
    case _ => false
  }

  ghost predicate Publishing(p: Pc) {
    p.Waiting? || p.Sending?
  }

  /** The channel is inserted under this id, and no other is. */
  ghost predicate Role(w: Who, s: State, step: Step) {
    step.Insert? ==> (s.Pc(step.t) == Inserting(w.ref) <==> s.next == w.id)
  }

  ghost predicate Roles(w: Who, s: State, steps: seq<Step>)
    requires Runs(s, steps)
    decreases |steps|
  {
    steps == [] || (Role(w, s, steps[0]) && Roles(w, Do(s, steps[0]), steps[1..]))
  }

  /** The step without the others: kept under the only names left, or dropped. */
  ghost function Kept(w: Who, s: State, step: Step): Option<Step> {
    match step
    case Make(_) => if |s.lines| == w.ref then Some(step) else None
    case Lock(t) => if Own(w, s, t) then Some(step) else None
    case Insert(t) => if Own(w, s, t) then Some(step) else None
    case EnterCancel(t, id) => if id == w.id then Some(EnterCancel(t, 0)) else None
    case Remove(t) => if Own(w, s, t) then Some(step) else None
    case Unlock(t) => if Own(w, s, t) then Some(step) else None
    case Begin(_, _, _) => Some(step)
    case RLock(_) => Some(step)
    case Send(t, id) => if id == w.id then Some(Send(t, 0)) else None
    case RUnlock(_) => Some(step)
    case Receive(ref) => if ref == w.ref then Some(Receive(0)) else None
  }

  ghost function Alone(w: Who, s: State, steps: seq<Step>): seq<Step>
    requires Runs(s, steps)
    decreases |steps|
  {
    if steps == [] then [] else
    (match Kept(w, s, steps[0]) case None => [] case Some(k) => [k]) + Alone(w, Do(s, steps[0]), steps[1..])
  }

  ghost function RenamePc(w: Who, p: Pc): Pc {
    match p
    case Made(_) => Made(0)
    case Inserting(_) => Inserting(0)
    case Cancelling(_) => Cancelling(0)
    case Removing(_) => Removing(0)
    case Removed(_) => Removed(0)
    case Sending(e, todo) => Sending(e, if w.id in todo then {0} else {})
    case _ => p
  }

  ghost predicate RoleInv(w: Who, s: State) {
    forall id: nat :: id < |s.issued| ==> (s.issued[id] == w.ref <==> id == w.id)
  }

  ghost predicate SamePc(w: Who, s: State, r: State, t: Tid) {
    r.Pc(t) == if Own(w, s, t) || Publishing(s.Pc(t)) then RenamePc(w, s.Pc(t)) else Idle
  }

  ghost predicate SameData(w: Who, s: State, r: State) {
    && r.lines == (if w.ref < |s.lines| then [s.lines[w.ref]] else [])
    && r.published == s.published
    && r.readers == s.readers
    && r.writer == (if s.writer.Some? && Own(w, s, s.writer.value) then s.writer else None)
    && r.next == (if w.id < s.next then 1 else 0)
    && r.once == (if w.id < |s.once| then [s.once[w.id]] else [])
    && r.subs == (if w.id in s.subs then map[0 := 0] else map[])
  }

  ghost predicate Same(w: Who, s: State, r: State) {
    SameData(w, s, r) && forall t: Tid :: SamePc(w, s, r, t)
  }

  lemma RoleStep(w: Who, s: State, step: Step)
    requires Inv(s) && RoleInv(w, s) && Enabled(s, step) && Role(w, s, step)
    ensures RoleInv(w, Do(s, step))
  {
  }

  lemma KeptEnabled(w: Who, s: State, r: State, step: Step)
    requires Inv(s) && RoleInv(w, s) && Same(w, s, r) && Enabled(s, step) && Role(w, s, step)
    ensures Kept(w, s, step).Some? ==> Enabled(r, Kept(w, s, step).value)
  {
    hide Apart;
    if !step.Receive? {
      assert SamePc(w, s, r, step.t) && Unissued(s, step.t);
    }
  }

  ghost function Follow(w: Who, s: State, r: State, step: Step): State
    requires Kept(w, s, step).Some? ==> Enabled(r, Kept(w, s, step).value)
  {
    match Kept(w, s, step) case None => r case Some(k) => Do(r, k)
  }

  lemma DataInsert(w: Who, s: State, r: State, step: Step)
    requires Inv(s) && RoleInv(w, s) && Same(w, s, r) && Enabled(s, step) && Role(w, s, step)
    requires Kept(w, s, step).Some? ==> Enabled(r, Kept(w, s, step).value)
    requires step.Insert?
    ensures SameData(w, Do(s, step), Follow(w, s, r, step))
  {
    hide Apart;
    assert SamePc(w, s, r, step.t) && Unissued(s, step.t);
  }

  lemma DataRemove(w: Who, s: State, r: State, step: Step)
    requires Inv(s) && RoleInv(w, s) && Same(w, s, r) && Enabled(s, step) && Role(w, s, step)
    requires Kept(w, s, step).Some? ==> Enabled(r, Kept(w, s, step).value)
    requires step.Remove?
    ensures SameData(w, Do(s, step), Follow(w, s, r, step))
  {
    hide Apart;
    assert SamePc(w, s, r, step.t) && Unissued(s, step.t);
  }

  lemma DataMake(w: Who, s: State, r: State, step: Step)
    requires Inv(s) && RoleInv(w, s) && Same(w, s, r) && Enabled(s, step) && Role(w, s, step)
    requires Kept(w, s, step).Some? ==> Enabled(r, Kept(w, s, step).value)
    requires step.Make?
    ensures SameData(w, Do(s, step), Follow(w, s, r, step))
  {
    hide Apart, Unissued, IdOf;
  }

  lemma DataSend(w: Who, s: State, r: State, step: Step)
    requires Inv(s) && RoleInv(w, s) && Same(w, s, r) && Enabled(s, step) && Role(w, s, step)
    requires Kept(w, s, step).Some? ==> Enabled(r, Kept(w, s, step).value)
    requires step.Send?
    ensures SameData(w, Do(s, step), Follow(w, s, r, step))
  {
    hide Apart, Unissued, IdOf;
    assert SamePc(w, s, r, step.t);
  }

  lemma DataReceive(w: Who, s: State, r: State, step: Step)
    requires Inv(s) && RoleInv(w, s) && Same(w, s, r) && Enabled(s, step) && Role(w, s, step)
    requires Kept(w, s, step).Some? ==> Enabled(r, Kept(w, s, step).value)
    requires step.Receive?
    ensures SameData(w, Do(s, step), Follow(w, s, r, step))
  {
    hide Apart, Unissued, IdOf;
  }

  lemma DataLock(w: Who, s: State, r: State, step: Step)
    requires Inv(s) && RoleInv(w, s) && Same(w, s, r) && Enabled(s, step) && Role(w, s, step)
    requires Kept(w, s, step).Some? ==> Enabled(r, Kept(w, s, step).value)
    requires step.Lock?
    ensures SameData(w, Do(s, step), Follow(w, s, r, step))
  {
    hide Apart, Unissued, IdOf;
    assert SamePc(w, s, r, step.t);
  }

  lemma DataEnterCancel(w: Who, s: State, r: State, step: Step)
    requires Inv(s) && RoleInv(w, s) && Same(w, s, r) && Enabled(s, step) && Role(w, s, step)
    requires Kept(w, s, step).Some? ==> Enabled(r, Kept(w, s, step).value)
    requires step.EnterCancel?
    ensures SameData(w, Do(s, step), Follow(w, s, r, step))
  {
    hide Apart, Unissued, IdOf;
    assert SamePc(w, s, r, step.t);
  }

  lemma DataUnlock(w: Who, s: State, r: State, step: Step)
    requires Inv(s) && RoleInv(w, s) && Same(w, s, r) && Enabled(s, step) && Role(w, s, step)
    requires Kept(w, s, step).Some? ==> Enabled(r, Kept(w, s, step).value)
    requires step.Unlock?
    ensures SameData(w, Do(s, step), Follow(w, s, r, step))
  {
    hide Apart, Unissued, IdOf;
    assert SamePc(w, s, r, step.t);
  }

  lemma DataReader(w: Who, s: State, r: State, step: Step)
    requires Inv(s) && RoleInv(w, s) && Same(w, s, r) && Enabled(s, step) && Role(w, s, step)
    requires Kept(w, s, step).Some? ==> Enabled(r, Kept(w, s, step).value)
    requires step.Begin? || step.RLock? || step.RUnlock?
    ensures SameData(w, Do(s, step), Follow(w, s, r, step))
  {
    hide Apart, Unissued, IdOf;
    assert SamePc(w, s, r, step.t);
  }

  lemma DataStep(w: Who, s: State, r: State, step: Step)
    requires Inv(s) && RoleInv(w, s) && Same(w, s, r) && Enabled(s, step) && Role(w, s, step)
    requires Kept(w, s, step).Some? ==> Enabled(r, Kept(w, s, step).value)
    ensures SameData(w, Do(s, step), Follow(w, s, r, step))
  {
    hide Inv, RoleInv, SameData, SamePc, Do, Enabled, Role;
    match step
    case Insert(_) => DataInsert(w, s, r, step);
    case Remove(_) => DataRemove(w, s, r, step);
    case Make(_) => DataMake(w, s, r, step);
    case Send(_, _) => DataSend(w, s, r, step);
    case Receive(_) => DataReceive(w, s, r, step);
    case Lock(_) => DataLock(w, s, r, step);
    case EnterCancel(_, _) => DataEnterCancel(w, s, r, step);
    case Unlock(_) => DataUnlock(w, s, r, step);
    case _ => DataReader(w, s, r, step);
  }

  lemma PcOfOthers(s: State, step: Step, t: Tid)
    requires Enabled(s, step) && (step.Receive? || step.t != t)
    ensures Do(s, step).Pc(t) == s.Pc(t)
  {
  }

  /** Only the holder of the write lock hands out an id, so a call keeps its owner while others move. */
  lemma OwnOthers(w: Who, s: State, step: Step, t: Tid)
    requires Inv(s) && Enabled(s, step) && (step.Receive? || step.t != t)
    ensures Own(w, Do(s, step), t) == Own(w, s, t)
  {
    hide MapInv, ThreadInv;
    PcOfOthers(s, step, t);
  }

  lemma PcOfSender(w: Who, s: State, r: State, step: Step)
    requires Inv(s) && RoleInv(w, s) && Same(w, s, r) && Enabled(s, step) && Role(w, s, step)
    requires Kept(w, s, step).Some? ==> Enabled(r, Kept(w, s, step).value)
    requires step.Send? || step.RLock?
    ensures SamePc(w, Do(s, step), Follow(w, s, r, step), step.t)
  {
    hide Apart, Unissued, IdOf, LockInv;
    var t := step.t;
    assert SamePc(w, s, r, t);
    match step
    case Send(_, id) =>
      assert (if w.id in s.Pc(t).todo - {id} then {0} else {}) ==
             if id == w.id then (if w.id in s.Pc(t).todo then {0} else {}) - {0}
             else if w.id in s.Pc(t).todo then {0} else {};
    case RLock(_) =>
      assert r.subs.Keys == if w.id in s.subs then {0} else {};
  }

  lemma PcOfSubscriber(w: Who, s: State, r: State, step: Step)
    requires Inv(s) && RoleInv(w, s) && Same(w, s, r) && Enabled(s, step) && Role(w, s, step)
    requires Kept(w, s, step).Some? ==> Enabled(r, Kept(w, s, step).value)
    requires step.Make? || step.Insert? || step.Unlock?
    ensures SamePc(w, Do(s, step), Follow(w, s, r, step), step.t)
  {
    hide Inv;
    assert SamePc(w, s, r, step.t);
  }

  lemma PcOfCanceller(w: Who, s: State, r: State, step: Step)
    requires Inv(s) && RoleInv(w, s) && Same(w, s, r) && Enabled(s, step) && Role(w, s, step)
    requires Kept(w, s, step).Some? ==> Enabled(r, Kept(w, s, step).value)
    requires step.Lock? || step.EnterCancel? || step.Remove?
    ensures SamePc(w, Do(s, step), Follow(w, s, r, step), step.t)
  {
    hide Inv;
    assert SamePc(w, s, r, step.t);
  }

  lemma PcOfPublisher(w: Who, s: State, r: State, step: Step)
    requires Inv(s) && RoleInv(w, s) && Same(w, s, r) && Enabled(s, step) && Role(w, s, step)
    requires Kept(w, s, step).Some? ==> Enabled(r, Kept(w, s, step).value)
    requires step.Begin? || step.RUnlock?
    ensures SamePc(w, Do(s, step), Follow(w, s, r, step), step.t)
  {
    hide Inv;
    assert SamePc(w, s, r, step.t);
  }

  lemma PcStep(w: Who, s: State, r: State, step: Step, t: Tid)
    requires Inv(s) && RoleInv(w, s) && Same(w, s, r) && Enabled(s, step) && Role(w, s, step)
    requires Kept(w, s, step).Some? ==> Enabled(r, Kept(w, s, step).value)
    ensures SamePc(w, Do(s, step), Follow(w, s, r, step), t)
  {
    hide Inv, RoleInv, SameData, Do, Enabled, Role;
    if step.Receive? || step.t != t {
      PcOfOthers(s, step, t);
      OwnOthers(w, s, step, t);
      if Kept(w, s, step).Some? {
        PcOfOthers(r, Kept(w, s, step).value, t);
      }
      assert SamePc(w, s, r, t);
    } else {
      match step
      case Send(_, _) | RLock(_) => PcOfSender(w, s, r, step);
      case Make(_) | Insert(_) | Unlock(_) => PcOfSubscriber(w, s, r, step);
      case Lock(_) | EnterCancel(_, _) | Remove(_) => PcOfCanceller(w, s, r, step);
      case _ => PcOfPublisher(w, s, r, step);
    }
  }

  lemma {:induction false} AloneRuns(w: Who, s: State, r: State, steps: seq<Step>)
    requires Inv(s) && RoleInv(w, s) && Same(w, s, r)
    requires Runs(s, steps) && Roles(w, s, steps)
    ensures Runs(r, Alone(w, s, steps))
    ensures Same(w, After(s, steps), After(r, Alone(w, s, steps)))
    decreases |steps|
  {
    hide Inv, RoleInv, SameData, SamePc, Do, Enabled, Role;
    if steps != [] {
      var step := steps[0];
      InvStep(s, step);
      RoleStep(w, s, step);
      KeptEnabled(w, s, r, step);
      DataStep(w, s, r, step);
      forall t: Tid
        ensures SamePc(w, Do(s, step), Follow(w, s, r, step), t)
      {
        PcStep(w, s, r, step, t);
      }
      var rest := Alone(w, Do(s, step), steps[1..]);
      AloneRuns(w, Do(s, step), Follow(w, s, r, step), steps[1..]);
      if Kept(w, s, step).Some? {
        assert Alone(w, s, steps)[1..] == rest;
      } else {
        assert Alone(w, s, steps) == rest;
      }
    }
  }

  lemma {:induction false} IssuedGrows(s: State, steps: seq<Step>)
    requires Runs(s, steps)
    ensures s.issued <= After(s, steps).issued
    decreases |steps|
  {
    if steps != [] {
      IssuedGrows(Do(s, steps[0]), steps[1..]);
    }
  }

  /** In every run the channel that ends up under an id was inserted under it. */
  lemma {:induction false} RolesHold(w: Who, s: State, steps: seq<Step>)
    requires Inv(s) && Runs(s, steps) && Inv(After(s, steps))
    requires w.id < |After(s, steps).issued| && After(s, steps).issued[w.id] == w.ref
    ensures Roles(w, s, steps)
    decreases |steps|
  {
    if steps != [] {
      var step := steps[0];
      InvStep(s, step);
      RolesHold(w, Do(s, step), steps[1..]);
      IssuedGrows(Do(s, step), steps[1..]);
      if step.Insert? {
        assert After(s, steps).issued[s.next] == s.Pc(step.t).ref;
      }
    }
  }

  /** Removing every subscribe, receive and cancel of all the others leaves a run of the hub, and leaves
      the subscriber's channel, received stream, drops and buffer unchanged: for every run and every
      subscriber that it has, whoever makes the calls. */
  lemma NonInterference(steps: seq<Step>, id: nat)
    requires Runs(INIT, steps) && id < After(INIT, steps).next
    ensures var s := After(INIT, steps);
            && |s.issued| == s.next && s.issued[id] < |s.lines|
            && var w := Who(s.issued[id], id);
            && Runs(INIT, Alone(w, INIT, steps))
            && After(INIT, Alone(w, INIT, steps)).lines == [s.lines[w.ref]]
            && After(INIT, Alone(w, INIT, steps)).published == s.published
  {
    InitInv();
    InvRun(INIT, steps);
    var w := Who(After(INIT, steps).issued[id], id);
    RolesHold(w, INIT, steps);
    assert forall t: Tid :: SamePc(w, INIT, INIT, t);
    AloneRuns(w, INIT, INIT, steps);
  }
}
