/** Dialplan extensions: nested values flattened into three tables and rebuilt by order_index. The
    tables refine a map from ids to extensions, through every create, update, delete, get and list. */
module DialplanStore {
  import opened Schema
  import opened Query
  import opened Wrappers
  import opened Store

  datatype Action = Action(application: string, data: string)
  datatype Condition = Condition(field: string, expression: string, time: Attrs, actions: seq<Action>)
  datatype Extension = Extension(id: Id, domain: string, name: string, context: string, priority: int, enabled: bool,
                                 conditions: seq<Condition>)

  datatype Result<T> = Ok(value: T) | Err(error: Error)

  // ---------- rows numbered by order_index ----------

  /** The rows carry the numbers 0 to n - 1, each once. */
  ghost predicate Numbered(order: map<Id, int>, n: nat) {
    && (forall id :: id in order ==> 0 <= order[id] < n)
    && (forall a, b :: a in order && b in order && order[a] == order[b] ==> a == b)
    && (forall j :: 0 <= j < n ==> At(order, j))
  }

  ghost predicate At(order: map<Id, int>, j: int) {
    exists id :: id in order && order[id] == j
  }

  function ByOrder(order: map<Id, int>): (Id, Id) -> bool {
    (a: Id, b: Id) => a in order && b in order ==> order[a] <= order[b]
  }

  lemma Increasing(order: map<Id, int>, n: nat, rows: seq<Id>)
    requires Numbered(order, n) && Answer(order.Keys, ByOrder(order), rows)
    ensures forall i :: 0 <= i < |rows| ==> rows[i] in order && 0 <= order[rows[i]] < n
    ensures forall i, j :: 0 <= i < j < |rows| ==> order[rows[i]] < order[rows[j]]
    ensures |rows| <= n
  {
    assert forall i :: 0 <= i < |rows| ==> rows[i] in rows;
    forall i, j | 0 <= i < j < |rows|
      ensures order[rows[i]] < order[rows[j]]
    {
      assert ByOrder(order)(rows[i], rows[j]);
    }
    for i := 0 to |rows|
      invariant forall k :: 0 <= k < i ==> k <= order[rows[k]]
    {
      assert i > 0 ==> order[rows[i - 1]] < order[rows[i]];
    }
    assert rows != [] ==> |rows| - 1 <= order[rows[|rows| - 1]];
  }

  /** Numbered rows have only one answer: row i is the one that carries the number i. */
  lemma {:induction false} NumberedAnswer(order: map<Id, int>, n: nat, rows: seq<Id>, upTo: nat)
    requires Numbered(order, n) && Answer(order.Keys, ByOrder(order), rows) && upTo <= n
    ensures upTo <= |rows| && (forall i :: 0 <= i < upTo ==> rows[i] in order && order[rows[i]] == i)
    ensures upTo == n ==> |rows| == n
  {
    Increasing(order, n, rows);
    if upTo > 0 {
      var i := upTo - 1;
      NumberedAnswer(order, n, rows, i);
      assert At(order, i);
      var id :| id in order && order[id] == i;
      assert id in rows;
      var k :| 0 <= k < |rows| && rows[k] == id;
      assert i > 0 ==> order[rows[i - 1]] == i - 1;
      assert k >= i;
    }
  }

  lemma NumberNext(order: map<Id, int>, n: nat, id: Id)
    requires Numbered(order, n) && id !in order
    ensures Numbered(order[id := n], n + 1)
  {
    var next := order[id := n];
    forall j | 0 <= j < n + 1
      ensures At(next, j)
    {
      if j < n {
        assert At(order, j);
        var a :| a in order && order[a] == j;
        assert next[a] == j;
      } else {
        assert next[id] == j;
      }
    }
  }

  // ---------- an extension in the tables ----------

  function CondOrder(t: Tables, ext: Id): map<Id, int> {
    map id | id in t.conds && t.conds[id].extId == ext :: t.conds[id].order
  }

  function ActOrder(t: Tables, cond: Id): map<Id, int> {
    map id | id in t.acts && t.acts[id].condId == cond :: t.acts[id].order
  }

  ghost predicate ActsStored(t: Tables, cond: Id, actions: seq<Action>) {
    && Numbered(ActOrder(t, cond), |actions|)
    && forall id :: id in ActOrder(t, cond) ==>
        Action(t.acts[id].application, t.acts[id].data) == actions[t.acts[id].order]
  }

  ghost predicate CondStored(t: Tables, id: Id, c: Condition)
    requires id in t.conds
  {
    && t.conds[id].field == c.field && t.conds[id].expression == c.expression && t.conds[id].time == c.time
    && ActsStored(t, id, c.actions)
  }

  /** The rows below `ext` are exactly those of the conditions and their actions, numbered in order. */
  ghost predicate Stored(t: Tables, ext: Id, conditions: seq<Condition>) {
    && Numbered(CondOrder(t, ext), |conditions|)
    && forall id :: id in CondOrder(t, ext) ==> CondStored(t, id, conditions[t.conds[id].order])
  }

  ghost predicate RowOf(t: Tables, e: Extension) {
    && e.id in t.exts
    && var row := t.exts[e.id];
       && row == Ext(row.domainId, e.name, e.context, e.priority, e.enabled)
       && row.domainId in t.domains && t.domains[row.domainId].name == e.domain
  }

  ghost predicate Holds(t: Tables, e: Extension) {
    RowOf(t, e) && Stored(t, e.id, e.conditions)
  }

  ghost function CondsElse(t: Tables, ext: Id): map<Id, Cond> {
    map id | id in t.conds && t.conds[id].extId != ext :: t.conds[id]
  }

  ghost function ActsElse(t: Tables, ext: Id): map<Id, Act> {
    map id | id in t.acts && t.acts[id].condId in CondsElse(t, ext) :: t.acts[id]
  }

  /** Nothing differs but the extension and the rows below it. */
  ghost predicate OnlyChanges(t: Tables, u: Tables, ext: Id) {
    && u == t.(exts := u.exts, conds := u.conds, acts := u.acts)
    && u.exts - {ext} == t.exts - {ext}
    && CondsElse(u, ext) == CondsElse(t, ext) && ActsElse(u, ext) == ActsElse(t, ext)
  }

  lemma ElseStored(t: Tables, u: Tables, ext: Id, other: Id, conditions: seq<Condition>)
    requires OnlyChanges(t, u, ext) && other != ext && Stored(t, other, conditions)
    ensures Stored(u, other, conditions)
  {
    hide At, ActsStored;
    forall id
      ensures id in CondOrder(u, other) <==> id in CondOrder(t, other)
      ensures id in CondOrder(u, other) ==> u.conds[id] == t.conds[id]
    {
      assert id in CondOrder(u, other) ==> id in CondsElse(u, ext) && CondsElse(u, ext)[id] == u.conds[id];
      assert id in CondOrder(t, other) ==> id in CondsElse(t, ext) && CondsElse(t, ext)[id] == t.conds[id];
    }
    assert CondOrder(u, other) == CondOrder(t, other);
    forall id | id in CondOrder(u, other)
      ensures CondStored(u, id, conditions[u.conds[id].order])
    {
      assert CondStored(t, id, conditions[t.conds[id].order]);
      ElseActs(t, u, ext, id, conditions[t.conds[id].order].actions);
    }
  }

  lemma ElseActs(t: Tables, u: Tables, ext: Id, cond: Id, actions: seq<Action>)
    requires ActsElse(u, ext) == ActsElse(t, ext) && CondsElse(u, ext) == CondsElse(t, ext)
    requires cond in CondsElse(t, ext) && ActsStored(t, cond, actions)
    ensures ActsStored(u, cond, actions)
  {
    hide Numbered, CondsElse;
    forall id
      ensures id in ActOrder(u, cond) <==> id in ActOrder(t, cond)
      ensures id in ActOrder(u, cond) ==> u.acts[id] == t.acts[id]
    {
      assert id in ActOrder(u, cond) ==> id in ActsElse(u, ext) && ActsElse(u, ext)[id] == u.acts[id];
      assert id in ActOrder(t, cond) ==> id in ActsElse(t, ext) && ActsElse(t, ext)[id] == t.acts[id];
    }
    assert ActOrder(u, cond) == ActOrder(t, cond);
  }

  /** Every other extension still reads as before. */
  lemma OthersHold(t: Tables, u: Tables, ext: Id, other: Extension)
    requires OnlyChanges(t, u, ext) && other.id != ext && Holds(t, other)
    ensures Holds(u, other)
  {
    hide Stored;
    ElseStored(t, u, ext, other.id, other.conditions);
    assert other.id in t.exts - {ext} && (t.exts - {ext})[other.id] == t.exts[other.id];
    assert other.id in u.exts - {ext};
  }

  // ---------- the statements of a transaction ----------

  lemma CondStep(t: Tables, id: Id, ext: Id, conditions: seq<Condition>, c: Condition)
    requires Stored(t, ext, conditions) && id !in t.conds && ActsRef(t.acts, t.conds.Keys) && c.actions == []
    ensures var u := t.(conds := t.conds[id := Cond(ext, c.field, c.expression, c.time, |conditions|)]);
            Stored(u, ext, conditions + [c]) && OnlyChanges(t, u, ext)
  {
    hide Numbered, At, ActsStored;
    var u := t.(conds := t.conds[id := Cond(ext, c.field, c.expression, c.time, |conditions|)]);
    CondElse(t, id, ext, u);
    NumberNext(CondOrder(t, ext), |conditions|, id);
    assert CondOrder(u, ext) == CondOrder(t, ext)[id := |conditions|];
    Range(CondOrder(t, ext), |conditions|);
    NothingStored(u, id);
    forall o | o in CondOrder(u, ext)
      ensures 0 <= u.conds[o].order < |conditions + [c]| && CondStored(u, o, (conditions + [c])[u.conds[o].order])
    {
      if o != id {
        assert CondOrder(t, ext)[o] == t.conds[o].order;
        assert CondStored(t, o, conditions[t.conds[o].order]);
        SameActs(t, u, o, conditions[t.conds[o].order].actions);
      }
    }
  }

  lemma CondElse(t: Tables, id: Id, ext: Id, u: Tables)
    requires id !in t.conds && id in u.conds && u.conds[id].extId == ext && ActsRef(t.acts, t.conds.Keys)
    requires u == t.(conds := t.conds[id := u.conds[id]])
    ensures OnlyChanges(t, u, ext)
  {
    assert CondsElse(u, ext) == CondsElse(t, ext);
    assert ActsElse(u, ext) == ActsElse(t, ext);
  }

  lemma SameActs(t: Tables, u: Tables, cond: Id, actions: seq<Action>)
    requires u.acts == t.acts && ActsStored(t, cond, actions)
    ensures ActsStored(u, cond, actions)
  {
    assert ActOrder(u, cond) == ActOrder(t, cond);
  }

  lemma Range(order: map<Id, int>, n: nat)
    requires Numbered(order, n)
    ensures forall id :: id in order ==> 0 <= order[id] < n
  {
  }

  lemma NothingStored(t: Tables, cond: Id)
    requires forall a :: a in t.acts ==> t.acts[a].condId != cond
    ensures ActsStored(t, cond, [])
  {
    assert ActOrder(t, cond) == map[];
  }

  lemma ActStored(t: Tables, cond: Id, id: Id, actions: seq<Action>, a: Action)
    requires ActsStored(t, cond, actions) && id !in t.acts
    ensures ActsStored(t.(acts := t.acts[id := Act(cond, a.application, a.data, |actions|)]), cond, actions + [a])
  {
    hide Numbered;
    var u := t.(acts := t.acts[id := Act(cond, a.application, a.data, |actions|)]);
    NumberNext(ActOrder(t, cond), |actions|, id);
    assert ActOrder(u, cond) == ActOrder(t, cond)[id := |actions|];
    Range(ActOrder(t, cond), |actions|);
    forall o | o in ActOrder(u, cond)
      ensures 0 <= u.acts[o].order < |actions + [a]|
      ensures Action(u.acts[o].application, u.acts[o].data) == (actions + [a])[u.acts[o].order]
    {
      if o != id {
        assert ActOrder(t, cond)[o] == t.acts[o].order;
      }
    }
  }

  lemma ActStep(t: Tables, cond: Id, id: Id, ext: Id, conditions: seq<Condition>, c: Condition, a: Action)
    requires Stored(t, ext, conditions + [c]) && id !in t.acts
    requires cond in t.conds && t.conds[cond].extId == ext && t.conds[cond].order == |conditions|
    ensures var u := t.(acts := t.acts[id := Act(cond, a.application, a.data, |c.actions|)]);
            Stored(u, ext, conditions + [c.(actions := c.actions + [a])]) && OnlyChanges(t, u, ext)
  {
    hide At, ActsStored;
    var u := t.(acts := t.acts[id := Act(cond, a.application, a.data, |c.actions|)]);
    var next := conditions + [c.(actions := c.actions + [a])];
    assert CondOrder(u, ext) == CondOrder(t, ext);
    assert CondsElse(u, ext) == CondsElse(t, ext);
    assert ActsElse(u, ext) == ActsElse(t, ext);
    assert cond in CondOrder(t, ext);
    assert CondStored(t, cond, (conditions + [c])[|conditions|]);
    ActStored(t, cond, id, c.actions, a);
    forall o | o in CondOrder(u, ext)
      ensures CondStored(u, o, next[u.conds[o].order])
    {
      if o != cond {
        assert CondOrder(t, ext)[o] != CondOrder(t, ext)[cond];
        assert CondStored(t, o, (conditions + [c])[t.conds[o].order]);
        OtherActs(t, u, o, id, next[u.conds[o].order].actions);
      }
    }
  }

  lemma OtherActs(t: Tables, u: Tables, cond: Id, id: Id, actions: seq<Action>)
    requires ActsStored(t, cond, actions) && id !in t.acts && id in u.acts
    requires u.acts[id].condId != cond && u.acts == t.acts[id := u.acts[id]]
    ensures ActsStored(u, cond, actions)
  {
    assert ActOrder(u, cond) == ActOrder(t, cond);
  }

  /** With no rows below it, an extension has no conditions. */
  lemma NoRows(t: Tables, ext: Id)
    requires forall id :: id in t.conds ==> t.conds[id].extId != ext
    ensures Stored(t, ext, [])
  {
    assert CondOrder(t, ext) == map[];
  }

  function Row(domain: Id, e: Extension): Ext {
    Ext(domain, e.name, e.context, e.priority, e.enabled)
  }

  /** Another row has the unique key of this one. */
  ghost predicate RowTaken(t: Tables, id: Id, row: Ext) {
    exists o :: o in t.exts && o != id && SameExt(t.exts[o], row)
  }

  /** A transaction's working copy: nobody else sees it before it is committed. */
  class Tx {
    var t: Tables

    constructor (db: Tables)
      requires Integrity(db)
      ensures t == db
    {
      t := db;
    }

    method InsertExt(id: Id, domain: Id, e: Extension) returns (err: Option<Error>)
      requires Integrity(t) && domain in t.domains
      modifies this
      ensures Integrity(t)
      ensures err == None ==> id !in old(t).exts && !RowTaken(old(t), id, Row(domain, e))
      ensures err == None ==> t == old(t).(exts := old(t).exts[id := Row(domain, e)])
      ensures err == Some(AlreadyExists) ==> id in old(t).exts || RowTaken(old(t), id, Row(domain, e))
      ensures err in {None, Some(AlreadyExists), Some(NoReply)}
    {
      hide Integrity, SameExt;
      var r;
      t, r := Statement(t, Op.InsertExt(id, Row(domain, e)));
      if r == Fault(UniqueViolation) {
        return Some(AlreadyExists);
      }
      err := Unmapped(r);
    }

    /** Here a taken key is passed on as the database reports it. */
    method UpdateExt(id: Id, e: Extension) returns (err: Option<Error>)
      requires Integrity(t)
      modifies this
      ensures Integrity(t)
      ensures err == None ==> id in old(t).exts && !RowTaken(old(t), id, Row(old(t).exts[id].domainId, e))
      ensures err == None ==> t == old(t).(exts := old(t).exts[id := Row(old(t).exts[id].domainId, e)])
      ensures err == Some(NotFound) ==> id !in old(t).exts
      ensures err == Some(Raw(UniqueViolation)) ==>
                id in old(t).exts && RowTaken(old(t), id, Row(old(t).exts[id].domainId, e))
      ensures err in {None, Some(NotFound), Some(Raw(UniqueViolation)), Some(NoReply)}
    {
      hide Integrity, SameExt;
      var r;
      t, r := Statement(t, Op.UpdateExt(id, Row("", e)));
      if r == Rows(false) {
        return Some(NotFound);
      }
      err := Unmapped(r);
    }

    method DeleteConds(ext: Id) returns (err: Option<Error>)
      requires Integrity(t)
      modifies this
      ensures Integrity(t)
      ensures err == None ==> Stored(t, ext, []) && OnlyChanges(old(t), t, ext) && t.exts == old(t).exts
      ensures err in {None, Some(NoReply)}
    {
      hide Integrity, Exec, Stored, OnlyChanges;
      DeletedConds(t, ext);
      var r;
      t, r := Statement(t, Op.DeleteConds(ext));
      err := Unmapped(r);
    }

    method InsertCond(id: Id, cond: Cond) returns (err: Option<Error>)
      requires Integrity(t)
      modifies this
      ensures Integrity(t)
      ensures err == None ==> id !in old(t).conds && t == old(t).(conds := old(t).conds[id := cond])
      ensures err.Some? ==> err.value.Raw? || err.value.NoReply?
    {
      hide Integrity;
      var r;
      t, r := Statement(t, Op.InsertCond(id, cond));
      err := Unmapped(r);
    }

    method InsertAct(id: Id, act: Act) returns (err: Option<Error>)
      requires Integrity(t)
      modifies this
      ensures Integrity(t)
      ensures err == None ==> id !in old(t).acts && t == old(t).(acts := old(t).acts[id := act])
      ensures err.Some? ==> err.value.Raw? || err.value.NoReply?
    {
      hide Integrity;
      var r;
      t, r := Statement(t, Op.InsertAct(id, act));
      err := Unmapped(r);
    }
  }

  /** A query, or the start of a transaction, may not get through. */
  method Fails() returns (err: Option<Error>)
    ensures err in {None, Some(NoReply)}
  {
    var ok: bool := *;
    err := if ok then None else Some(NoReply);
  }

  lemma DeletedConds(t: Tables, ext: Id)
    ensures Exec(t, Op.DeleteConds(ext)).Done?
    ensures var u := Exec(t, Op.DeleteConds(ext)).t;
            Stored(u, ext, []) && OnlyChanges(t, u, ext) && u.exts == t.exts
  {
    hide Exec, Stored, OnlyChanges;
    var conds := map o | o in t.conds && t.conds[o].extId != ext :: t.conds[o];
    var acts := map o | o in t.acts && t.acts[o].condId in conds :: t.acts[o];
    var u := t.(conds := conds, acts := acts);
    DeletedRun(t, ext, u);
    NoRows(u, ext);
    DeletedOnly(t, ext, u);
  }

  lemma DeletedRun(t: Tables, ext: Id, u: Tables)
    requires u == t.(conds := map o | o in t.conds && t.conds[o].extId != ext :: t.conds[o],
                     acts := map o | o in t.acts && t.acts[o].condId in u.conds :: t.acts[o])
    ensures Exec(t, Op.DeleteConds(ext)).Done? && Exec(t, Op.DeleteConds(ext)).t == u
  {
    var keep := set id | id in t.conds && t.conds[id].extId != ext;
    KeptElse(t, ext, keep, u.conds);
    hide Exec;
    assert KeepConds(t, keep) == u;
    hide KeepConds;
    DeleteCondsIs(t, ext);
  }

  lemma KeptElse(t: Tables, ext: Id, keep: set<Id>, conds: map<Id, Cond>)
    requires keep == set id | id in t.conds && t.conds[id].extId != ext
    requires conds == map o | o in t.conds && t.conds[o].extId != ext :: t.conds[o]
    ensures conds == map id | id in t.conds && id in keep :: t.conds[id]
  {
  }

  lemma DeleteCondsIs(t: Tables, ext: Id)
    ensures Exec(t, Op.DeleteConds(ext)).Done?
    ensures Exec(t, Op.DeleteConds(ext)).t == KeepConds(t, set id | id in t.conds && t.conds[id].extId != ext)
  {
    hide KeepConds;
  }

  lemma DeletedOnly(t: Tables, ext: Id, u: Tables)
    requires u == t.(conds := map o | o in t.conds && t.conds[o].extId != ext :: t.conds[o],
                     acts := map o | o in t.acts && t.acts[o].condId in u.conds :: t.acts[o])
    ensures OnlyChanges(t, u, ext)
  {
    assert CondsElse(t, ext) == u.conds && CondsElse(u, ext) == u.conds;
    assert ActsElse(u, ext) == ActsElse(t, ext);
  }

  /** Writes the conditions in order below an extension that has no rows yet. */
  method InsertConditions(tx: Tx, ext: Id, conditions: seq<Condition>) returns (err: Option<Error>)
    requires Integrity(tx.t) && Stored(tx.t, ext, [])
    modifies tx
    ensures Integrity(tx.t)
    ensures err == None ==> Stored(tx.t, ext, conditions) && OnlyChanges(old(tx.t), tx.t, ext)
    ensures err == None ==> tx.t.exts == old(tx.t).exts
    ensures err.Some? ==> err.value.Raw? || err.value.NoReply?
  {
    hide Integrity, Stored, OnlyChanges;
    OnlyItself(tx.t, ext);
    for ci := 0 to |conditions|
      invariant Integrity(tx.t) && Stored(tx.t, ext, conditions[..ci])
      invariant OnlyChanges(old(tx.t), tx.t, ext) && tx.t.exts == old(tx.t).exts
    {
      var c := conditions[ci];
      var condId := NewUuid();
      ghost var t0 := tx.t;
      err := tx.InsertCond(condId, Cond(ext, c.field, c.expression, c.time, ci));
      if err != None {
        return;
      }
      ActsLive(t0);
      CondStep(t0, condId, ext, conditions[..ci], c.(actions := []));
      OnlyChain(old(tx.t), t0, tx.t, ext);
      for ai := 0 to |c.actions|
        invariant Integrity(tx.t) && Stored(tx.t, ext, conditions[..ci] + [c.(actions := c.actions[..ai])])
        invariant OnlyChanges(old(tx.t), tx.t, ext) && tx.t.exts == old(tx.t).exts
        invariant condId in tx.t.conds && tx.t.conds[condId].extId == ext && tx.t.conds[condId].order == ci
      {
        var a := c.actions[ai];
        var id := NewUuid();
        ghost var t1 := tx.t;
        err := tx.InsertAct(id, Act(condId, a.application, a.data, ai));
        if err != None {
          return;
        }
        ActStep(t1, condId, id, ext, conditions[..ci], c.(actions := c.actions[..ai]), a);
        OnlyChain(old(tx.t), t1, tx.t, ext);
        assert c.actions[..ai + 1] == c.actions[..ai] + [a];
      }
      assert c.actions[..|c.actions|] == c.actions;
      assert conditions[..ci + 1] == conditions[..ci] + [c];
    }
    assert conditions[..|conditions|] == conditions;
    err := None;
  }

  lemma OnlyItself(t: Tables, ext: Id)
    ensures OnlyChanges(t, t, ext)
  {
  }

  lemma OnlyChain(t: Tables, u: Tables, v: Tables, ext: Id)
    requires OnlyChanges(t, u, ext) && OnlyChanges(u, v, ext)
    ensures OnlyChanges(t, v, ext)
  {
  }

  lemma ActsLive(t: Tables)
    requires Integrity(t)
    ensures ActsRef(t.acts, t.conds.Keys)
  {
  }

  // ---------- the tables refine a map of extensions ----------

  /** The tables hold the extensions of `saved` and no other. */
  ghost predicate Refines(t: Tables, saved: map<Id, Extension>) {
    && saved.Keys == t.exts.Keys
    && forall id :: id in saved ==> saved[id].id == id && Holds(t, saved[id])
  }

  lemma Replaced(t: Tables, saved: map<Id, Extension>, u: Tables, e: Extension)
    requires Refines(t, saved) && OnlyChanges(t, u, e.id) && Holds(u, e)
    ensures Refines(u, saved[e.id := e])
  {
    hide Holds, OnlyChanges;
    KeysElse(t, u, e.id);
    assert e.id in u.exts by { HoldsId(u, e); }
    forall id | id in saved && id != e.id
      ensures Holds(u, saved[id])
    {
      OthersHold(t, u, e.id, saved[id]);
    }
  }

  lemma Removed(t: Tables, saved: map<Id, Extension>, u: Tables, id: Id)
    requires Refines(t, saved) && OnlyChanges(t, u, id) && id !in u.exts
    ensures Refines(u, saved - {id})
  {
    hide Holds, OnlyChanges;
    KeysElse(t, u, id);
    forall o | o in saved && o != id
      ensures Holds(u, saved[o])
    {
      OthersHold(t, u, id, saved[o]);
    }
  }

  lemma HoldsId(t: Tables, e: Extension)
    requires Holds(t, e)
    ensures e.id in t.exts
  {
  }

  lemma KeysElse(t: Tables, u: Tables, id: Id)
    requires OnlyChanges(t, u, id)
    ensures forall o :: o != id ==> (o in t.exts <==> o in u.exts)
  {
    forall o: Id | o != id
      ensures o in t.exts <==> o in u.exts
    {
      assert o in t.exts <==> o in t.exts - {id};
      assert o in u.exts <==> o in u.exts - {id};
    }
  }

  lemma EmptyRefines()
    ensures Refines(EMPTY, map[]) && Integrity(EMPTY)
  {
  }

  function Priority(p: int): int {
    if p == 0 then 100 else p
  }

  predicate Matches(e: Extension, domain: string, context: string) {
    (domain == "" || e.domain == domain) && (context == "" || e.context == context)
  }

  /** ORDER BY context, priority, name */
  predicate AtMost(le: (string, string) -> bool, e: Extension, f: Extension) {
    if e.context != f.context then le(e.context, f.context)
    else if e.priority != f.priority then e.priority < f.priority
    else le(e.name, f.name)
  }

  /** A listing: every match once, whole, in order; ties in any order. */
  ghost predicate Listing(saved: map<Id, Extension>, domain: string, context: string, le: (string, string) -> bool,
                          out: seq<Extension>) {
    && (forall i :: 0 <= i < |out| ==>
          out[i].id in saved && out[i] == saved[out[i].id]
          && (domain == "" || out[i].domain == domain) && (context == "" || out[i].context == context))
    && (forall id :: id in saved ==>
          (domain == "" || saved[id].domain == domain) && (context == "" || saved[id].context == context) ==>
            saved[id] in out)
    && (forall i, j :: 0 <= i < j < |out| ==>
          out[i].id != out[j].id
          && if out[i].context != out[j].context then le(out[i].context, out[j].context)
             else if out[i].priority != out[j].priority then out[i].priority < out[j].priority
             else le(out[i].name, out[j].name))
  }

  // ---------- conference rooms ----------

  predicate RoomIn(r: Room, context: string) {
    context == "" || r.context == context
  }

  /** ORDER BY priority, name */
  predicate RoomAtMost(le: (string, string) -> bool, q: Room, r: Room) {
    if q.priority != r.priority then q.priority < r.priority else le(q.name, r.name)
  }

  /** Every room of the context once, in order. */
  ghost predicate RoomListing(rooms: map<Id, Room>, context: string, le: (string, string) -> bool,
                              out: seq<(Id, Room)>) {
    && (forall i :: 0 <= i < |out| ==> out[i].0 in rooms && out[i].1 == rooms[out[i].0]
                                       && (context == "" || out[i].1.context == context))
    && (forall id :: id in rooms && (context == "" || rooms[id].context == context) ==> (id, rooms[id]) in out)
    && (forall i, j :: 0 <= i < j < |out| ==>
          var q, r := out[i].1, out[j].1;
          out[i].0 != out[j].0 && if q.priority != r.priority then q.priority < r.priority else le(q.name, r.name))
  }

  function ByRoom(rooms: map<Id, Room>, le: (string, string) -> bool): (Id, Id) -> bool {
    (a: Id, b: Id) => a in rooms && b in rooms ==> RoomAtMost(le, rooms[a], rooms[b])
  }

  lemma RoomsSorted(rooms: map<Id, Room>, ids: set<Id>, le: (string, string) -> bool)
    requires Collation(le) && ids <= rooms.Keys
    ensures Preorder(ids, ByRoom(rooms, le))
  {
    forall a, b, c | a in ids && b in ids && c in ids
      ensures ByRoom(rooms, le)(a, b) || ByRoom(rooms, le)(b, a)
      ensures ByRoom(rooms, le)(a, b) && ByRoom(rooms, le)(b, c) ==> ByRoom(rooms, le)(a, c)
    {
    }
  }

  lemma RoomsListed(rooms: map<Id, Room>, context: string, le: (string, string) -> bool, ids: seq<Id>,
                    out: seq<(Id, Room)>)
    requires Answer((set id | id in rooms && RoomIn(rooms[id], context)), ByRoom(rooms, le), ids)
    requires |out| == |ids| && forall k :: 0 <= k < |ids| ==> ids[k] in rooms && out[k] == (ids[k], rooms[ids[k]])
    ensures RoomListing(rooms, context, le, out)
  {
    forall i | 0 <= i < |out|
      ensures RoomIn(out[i].1, context)
    {
      assert ids[i] in ids;
    }
    forall id | id in rooms && RoomIn(rooms[id], context)
      ensures (id, rooms[id]) in out
    {
      assert id in ids;
      var k :| 0 <= k < |ids| && ids[k] == id;
      assert out[k] == (id, rooms[id]);
    }
    forall i, j | 0 <= i < j < |out|
      ensures RoomAtMost(le, out[i].1, out[j].1)
    {
      assert ByRoom(rooms, le)(ids[i], ids[j]);
    }
  }

  lemma ByOrderSorts(order: map<Id, int>)
    ensures Preorder(order.Keys, ByOrder(order))
  {
  }

  predicate SameKey(e: Extension, f: Extension) {
    e.domain == f.domain && e.context == f.context && e.name == f.name
  }

  ghost predicate KeyTaken(saved: map<Id, Extension>, e: Extension) {
    exists o :: o in saved && SameKey(saved[o], e)
  }

  lemma KeyOfRow(t: Tables, saved: map<Id, Extension>, e: Extension, domain: Id, row: Ext)
    requires Integrity(t) && Refines(t, saved) && DomainId(t, e.domain) == Some(domain)
    requires SameExt(row, Row(domain, e))
    ensures KeyTaken(saved, e) <==> exists o :: o in t.exts && SameExt(t.exts[o], row)
  {
    hide Stored;
    assert UniqueNames(t.domains);
    forall o | o in saved
      ensures SameKey(saved[o], e) <==> SameExt(t.exts[o], row)
    {
      assert Holds(t, saved[o]);
    }
  }

  lemma Inserted(t: Tables, u: Tables, e: Extension, domain: Id)
    requires Integrity(t) && DomainId(t, e.domain) == Some(domain) && e.id !in t.exts
    requires u == t.(exts := t.exts[e.id := Row(domain, e)])
    ensures OnlyChanges(t, u, e.id) && Stored(u, e.id, []) && RowOf(u, e)
  {
    assert CondsRef(t.conds, t.exts.Keys);
    NoRows(u, e.id);
    assert u.exts - {e.id} == t.exts - {e.id};
  }

  lemma Renamed(t: Tables, saved: map<Id, Extension>, u: Tables, e: Extension)
    requires Refines(t, saved) && e.id in saved && e.domain == saved[e.id].domain
    requires u == t.(exts := t.exts[e.id := Row(t.exts[e.id].domainId, e)])
    ensures OnlyChanges(t, u, e.id) && RowOf(u, e)
  {
    hide Stored;
    assert Holds(t, saved[e.id]);
    assert u.exts - {e.id} == t.exts - {e.id};
  }

  lemma RowStays(t: Tables, u: Tables, e: Extension)
    requires RowOf(t, e) && OnlyChanges(t, u, e.id) && u.exts == t.exts && Stored(u, e.id, e.conditions)
    ensures Holds(u, e)
  {
  }

  lemma NamesUnique(t: Tables)
    requires Integrity(t)
    ensures UniqueNames(t.domains)
  {
  }

  /** Under a new id, a row's key is taken exactly when any row has it. */
  lemma RowFree(t: Tables, id: Id, row: Ext)
    ensures id !in t.exts ==> (RowTaken(t, id, row) <==> exists o :: o in t.exts && SameExt(t.exts[o], row))
  {
  }

  lemma SavedKeys(t: Tables, saved: map<Id, Extension>)
    requires Refines(t, saved)
    ensures saved.Keys == t.exts.Keys
    ensures forall id :: id in saved ==> saved[id].id == id
  {
  }

  lemma Deleted(t: Tables, id: Id)
    requires Integrity(t)
    ensures Exec(t, Op.DeleteExt(id)).Done? && (Exec(t, Op.DeleteExt(id)).hit <==> id in t.exts)
    ensures var u := Exec(t, Op.DeleteExt(id)).t; OnlyChanges(t, u, id) && id !in u.exts
  {
    hide Exec, OnlyChanges;
    var exts := t.exts - {id};
    var conds := map o | o in t.conds && t.conds[o].extId in exts :: t.conds[o];
    var u := t.(exts := exts, conds := conds, acts := map o | o in t.acts && t.acts[o].condId in conds :: t.acts[o]);
    DeletedRows(t, id, u);
    Else(t, id, u);
  }

  lemma DeletedRows(t: Tables, id: Id, u: Tables)
    requires u == t.(exts := t.exts - {id}, conds := map o | o in t.conds && t.conds[o].extId in u.exts :: t.conds[o],
                     acts := map o | o in t.acts && t.acts[o].condId in u.conds :: t.acts[o])
    ensures Exec(t, Op.DeleteExt(id)) == Done(u, id in t.exts)
  {
    var v := KeepExts(t, t.exts.Keys - {id});
    assert v.exts == u.exts;
    assert v.conds == u.conds;
    assert v.acts == u.acts;
  }

  lemma Else(t: Tables, id: Id, u: Tables)
    requires Integrity(t)
    requires u == t.(exts := t.exts - {id}, conds := map o | o in t.conds && t.conds[o].extId in u.exts :: t.conds[o],
                     acts := map o | o in t.acts && t.acts[o].condId in u.conds :: t.acts[o])
    ensures OnlyChanges(t, u, id)
  {
    hide ActsElse;
    assert u.exts - {id} == t.exts - {id};
    ElseConds(t, id, u);
    hide CondsElse, Integrity;
    ElseActsLeft(t, id, u);
  }

  lemma ElseConds(t: Tables, id: Id, u: Tables)
    requires CondsRef(t.conds, t.exts.Keys) && u.exts == t.exts - {id}
    requires u.conds == map o | o in t.conds && t.conds[o].extId in u.exts :: t.conds[o]
    ensures CondsElse(t, id) == u.conds && CondsElse(u, id) == u.conds
  {
  }

  lemma ElseActsLeft(t: Tables, id: Id, u: Tables)
    requires CondsElse(t, id) == u.conds && CondsElse(u, id) == u.conds
    requires u.acts == map o | o in t.acts && t.acts[o].condId in u.conds :: t.acts[o]
    ensures ActsElse(u, id) == ActsElse(t, id)
  {
    hide CondsElse;
    assert ActsElse(t, id) == u.acts && ActsElse(u, id) == u.acts;
  }

  function ByKey(heads: map<Id, Extension>, le: (string, string) -> bool): (Id, Id) -> bool {
    (a: Id, b: Id) => a in heads && b in heads ==> AtMost(le, heads[a], heads[b])
  }

  lemma HeadsSorted(heads: map<Id, Extension>, ids: set<Id>, le: (string, string) -> bool)
    requires Collation(le) && ids <= heads.Keys
    ensures Preorder(ids, ByKey(heads, le))
  {
    forall a, b, c | a in ids && b in ids && c in ids
      ensures ByKey(heads, le)(a, b) || ByKey(heads, le)(b, a)
      ensures ByKey(heads, le)(a, b) && ByKey(heads, le)(b, c) ==> ByKey(heads, le)(a, c)
    {
    }
  }

  /** The row of an extension: everything but its conditions. */
  ghost predicate Heads(saved: map<Id, Extension>, heads: map<Id, Extension>) {
    && heads.Keys == saved.Keys
    && forall id :: id in saved ==> saved[id].id == id && heads[id] == saved[id].(conditions := [])
  }

  lemma HeadsOf(t: Tables, saved: map<Id, Extension>, heads: map<Id, Extension>)
    requires Refines(t, saved)
    requires heads == map id | id in t.exts && t.exts[id].domainId in t.domains ::
                        Extension(id, t.domains[t.exts[id].domainId].name, t.exts[id].name, t.exts[id].context,
                                  t.exts[id].priority, t.exts[id].enabled, [])
    ensures Heads(saved, heads)
  {
    hide Stored;
    forall id | id in saved
      ensures id in heads && heads[id] == saved[id].(conditions := [])
    {
      assert Holds(t, saved[id]);
    }
  }

  lemma ListingOf(saved: map<Id, Extension>, heads: map<Id, Extension>, domain: string, context: string,
                  le: (string, string) -> bool, rows: seq<Id>, out: seq<Extension>)
    requires Heads(saved, heads)
    requires Answer((set id | id in heads && Matches(heads[id], domain, context)), ByKey(heads, le), rows)
    requires |out| == |rows| && forall k :: 0 <= k < |rows| ==> rows[k] in saved && out[k] == saved[rows[k]]
    ensures Listing(saved, domain, context, le, out)
  {
    forall i | 0 <= i < |out|
      ensures Matches(out[i], domain, context)
    {
      assert rows[i] in rows;
    }
    forall id | id in saved && Matches(saved[id], domain, context)
      ensures saved[id] in out
    {
      assert id in rows;
      var k :| 0 <= k < |rows| && rows[k] == id;
      assert out[k] == saved[id];
    }
    forall i, j | 0 <= i < j < |out|
      ensures out[i].id != out[j].id && AtMost(le, out[i], out[j])
    {
      assert ByKey(heads, le)(rows[i], rows[j]);
      assert rows[i] in heads.Keys && rows[j] in heads.Keys;
    }
  }

  // ---------- how a create or an update is refused ----------

  /** A create is refused for an unknown domain, or for a key or an id that is taken. */
  ghost function CreateOutcome(t: Tables, saved: map<Id, Extension>, e: Extension, id: Id): Option<Error> {
    if !HasName(t.domains, e.domain) then Some(NotFound)
    else if id in saved || KeyTaken(saved, e) then Some(AlreadyExists)
    else None
  }

  /** What an update makes of the extension: its domain stays. */
  ghost function Updated(saved: map<Id, Extension>, id: Id, e: Extension): Extension {
    e.(id := id, priority := if e.priority == 0 then 100 else e.priority,
       domain := if id in saved then saved[id].domain else e.domain)
  }

  ghost predicate OtherHasKey(saved: map<Id, Extension>, e: Extension) {
    exists o :: o in saved && o != e.id && SameKey(saved[o], e)
  }

  /** An update is refused for an unknown id; for a key that another extension has, with the database's
      own violation, where a create answers that the extension already exists. */
  ghost function UpdateOutcome(saved: map<Id, Extension>, e: Extension): Option<Error> {
    if e.id !in saved then Some(NotFound) else if OtherHasKey(saved, e) then Some(Raw(UniqueViolation)) else None
  }

  lemma KeyOfOther(t: Tables, saved: map<Id, Extension>, e: Extension)
    requires Integrity(t) && Refines(t, saved) && e.id in saved && e.domain == saved[e.id].domain
    ensures OtherHasKey(saved, e) <==> RowTaken(t, e.id, Row(t.exts[e.id].domainId, e))
  {
    hide Stored;
    assert UniqueNames(t.domains);
    assert Holds(t, saved[e.id]);
    forall o | o in saved
      ensures SameKey(saved[o], e) <==> SameExt(t.exts[o], Row(t.exts[e.id].domainId, e))
    {
      assert Holds(t, saved[o]);
    }
  }

  class Dialplan {
    var db: Tables
    /** The order of text in the database. */
    const collate: (string, string) -> bool
    ghost var saved: map<Id, Extension>

    ghost predicate Valid()
      reads this
    {
      Integrity(db) && Refines(db, saved) && Collation(collate)
    }

    constructor (collate: (string, string) -> bool)
      requires Collation(collate)
      ensures Valid() && saved == map[] && this.collate == collate
    {
      EmptyRefines();
      db := EMPTY;
      this.collate := collate;
      saved := map[];
    }

    /** The commit takes effect or not; its reply may be lost either way. */
    method Commit(tx: Tx) returns (err: Option<Error>, ghost applied: bool)
      modifies `db
      ensures db == if applied then tx.t else old(db)
      ensures err == None ==> applied
      ensures err in {None, Some(NoReply)}
    {
      var works: bool := *;
      applied := works;
      if works {
        db := tx.t;
        err := Fails();
      } else {
        err := Some(NoReply);
      }
    }

    /** All or nothing: unless the commit was sent, nothing has changed; if it was, the extension is
        there as given, under a new id, or nothing has changed. `inserted` says that the extension's own
        row was accepted; if it was not, the caller is told why. */
    method Create(e: Extension) returns (err: Option<Error>, out: Extension, ghost inserted: bool, ghost sent: bool)
      requires Valid()
      modifies this
      ensures Valid()
      ensures err == None ==> sent && saved == old(saved)[out.id := out]
      ensures sent ==> inserted && out == e.(id := out.id, priority := if e.priority == 0 then 100 else e.priority)
      ensures sent ==> out.id !in old(saved)
      ensures !sent ==> err.Some? && db == old(db) && saved == old(saved)
      ensures sent ==> (db == old(db) && saved == old(saved)) || saved == old(saved)[out.id := out]
      ensures inserted ==> CreateOutcome(old(db), old(saved), e, out.id) == None
      ensures !inserted ==> err == Some(NoReply) || err == CreateOutcome(old(db), old(saved), e, out.id)
    {
      hide Integrity, Refines, Holds, RowOf, Stored, OnlyChanges, KeyTaken;
      inserted, sent := false, false;
      out := e;
      err := Fails();
      if err != None {
        return;
      }
      NamesUnique(db);
      var domain := FindDomain(db, e.domain);
      if domain == None {
        err := Some(NotFound);
        return;
      }
      var id := NewUuid();
      out := e.(id := id, priority := Priority(e.priority));
      SavedKeys(db, saved);
      KeyOfRow(db, saved, e, domain.value, Row(domain.value, out));
      RowFree(db, id, Row(domain.value, out));
      err := Fails();
      if err != None {
        return;
      }
      var tx := new Tx(db);
      err := tx.InsertExt(id, domain.value, out);
      if err != None {
        return;
      }
      inserted := true;
      Inserted(db, tx.t, out, domain.value);
      ghost var t1 := tx.t;
      err := InsertConditions(tx, id, e.conditions);
      if err != None {
        return;
      }
      OnlyChain(db, t1, tx.t, id);
      RowStays(t1, tx.t, out);
      Replaced(db, saved, tx.t, out);
      sent := true;
      ghost var applied;
      err, applied := Commit(tx);
      if applied {
        saved := saved[id := out];
      }
    }

    /** The extension takes the new columns and conditions and keeps its domain; the rest as for Create. */
    method Update(id: Id, e: Extension) returns (err: Option<Error>, ghost renamed: bool, ghost sent: bool)
      requires Valid()
      modifies this
      ensures Valid()
      ensures err == None ==> sent && saved == old(saved)[id := Updated(old(saved), id, e)]
      ensures sent ==> renamed
      ensures sent ==> (db == old(db) && saved == old(saved)) || saved == old(saved)[id := Updated(old(saved), id, e)]
      ensures !sent ==> err.Some? && db == old(db) && saved == old(saved)
      ensures renamed ==> UpdateOutcome(old(saved), Updated(old(saved), id, e)) == None
      ensures !renamed ==> err == Some(NoReply) || err == UpdateOutcome(old(saved), Updated(old(saved), id, e))
    {
      hide Integrity, Refines, Holds, RowOf, Stored, OnlyChanges, OtherHasKey, RowTaken;
      renamed, sent := false, false;
      SavedKeys(db, saved);
      err := Fails();
      if err != None {
        return;
      }
      ghost var out := Updated(saved, id, e);
      if id in db.exts {
        KeyOfOther(db, saved, out);
      }
      var tx := new Tx(db);
      err := tx.UpdateExt(id, e.(priority := Priority(e.priority)));
      if err != None {
        return;
      }
      renamed := true;
      Renamed(db, saved, tx.t, out);
      ghost var t1 := tx.t;
      err := tx.DeleteConds(id);
      if err != None {
        return;
      }
      OnlyChain(db, t1, tx.t, id);
      ghost var t2 := tx.t;
      err := InsertConditions(tx, id, e.conditions);
      if err != None {
        return;
      }
      OnlyChain(t1, t2, tx.t, id);
      OnlyChain(db, t1, tx.t, id);
      RowStays(t1, tx.t, out);
      Replaced(db, saved, tx.t, out);
      sent := true;
      ghost var applied;
      err, applied := Commit(tx);
      if applied {
        saved := saved[id := out];
      }
    }

    /** One statement; it cascades to the rows below. Its reply may be lost after it took effect. */
    method Delete(id: Id) returns (err: Option<Error>)
      requires Valid()
      modifies this
      ensures Valid()
      ensures err in {None, Some(NotFound), Some(NoReply)}
      ensures err == None ==> id in old(saved) && saved == old(saved) - {id}
      ensures err == Some(NotFound) ==> id !in old(saved) && saved == old(saved)
      ensures err == Some(NoReply) ==> saved == old(saved) || saved == old(saved) - {id}
    {
      hide Integrity, Exec, Refines, Holds, RowOf, Stored, OnlyChanges;
      SavedKeys(db, saved);
      ghost var before := db;
      Deleted(db, id);
      Removed(db, saved, Exec(db, Op.DeleteExt(id)).t, id);
      var r;
      db, r := Statement(db, Op.DeleteExt(id));
      if db != before || r == Rows(true) {
        saved := saved - {id};
      }
      if r == Rows(false) {
        assert saved - {id} == saved;
        return Some(NotFound);
      }
      err := Unmapped(r);
    }

    /** ListConferenceRooms */
    method ListRooms(context: string) returns (r: Result<seq<(Id, Room)>>)
      requires Valid()
      ensures r == Err(NoReply) || (r.Ok? && RoomListing(db.rooms, context, collate, r.value))
    {
      var err := Fails();
      if err != None {
        return Err(NoReply);
      }
      var ids := set id | id in db.rooms && RoomIn(db.rooms[id], context);
      RoomsSorted(db.rooms, ids, collate);
      var rows := Select(ids, ByRoom(db.rooms, collate));
      var out := [];
      for i := 0 to |rows|
        invariant |out| == i
        invariant forall k :: 0 <= k < i ==> rows[k] in db.rooms && out[k] == (rows[k], db.rooms[rows[k]])
      {
        assert rows[i] in rows;
        out := out + [(rows[i], db.rooms[rows[i]])];
      }
      RoomsListed(db.rooms, context, collate, rows, out);
      r := Ok(out);
    }

    /** loadConditions */
    method Load(ext: Id) returns (r: Result<seq<Condition>>)
      requires Valid() && ext in saved
      ensures r == Err(NoReply) || r == Ok(saved[ext].conditions)
    {
      hide Integrity, RowOf, Numbered;
      ghost var all := saved[ext].conditions;
      assert Stored(db, ext, all) by { assert Holds(db, saved[ext]); }
      var err := Fails();
      if err != None {
        return Err(NoReply);
      }
      var order := CondOrder(db, ext);
      ByOrderSorts(order);
      var rows := Select(order.Keys, ByOrder(order));
      NumberedAnswer(order, |all|, rows, |all|);
      var out := [];
      for i := 0 to |rows|
        invariant out == all[..i]
      {
        var id := rows[i];
        assert CondStored(db, id, all[i]);
        err := Fails();
        if err != None {
          return Err(NoReply);
        }
        var actions := LoadActions(id, all[i].actions);
        out := out + [Condition(db.conds[id].field, db.conds[id].expression, db.conds[id].time, actions)];
      }
      assert all[..|rows|] == all;
      r := Ok(out);
    }

    method LoadActions(cond: Id, ghost all: seq<Action>) returns (actions: seq<Action>)
      requires ActsStored(db, cond, all)
      ensures actions == all
    {
      hide Numbered;
      var order := ActOrder(db, cond);
      ByOrderSorts(order);
      var rows := Select(order.Keys, ByOrder(order));
      NumberedAnswer(order, |all|, rows, |all|);
      actions := [];
      for i := 0 to |rows|
        invariant actions == all[..i]
      {
        assert rows[i] in order && order[rows[i]] == i;
        actions := actions + [Action(db.acts[rows[i]].application, db.acts[rows[i]].data)];
      }
    }

    /** What was saved comes back as it was saved. */
    method Get(id: Id) returns (r: Result<Extension>)
      requires Valid()
      ensures r == Err(NoReply) || r == if id in saved then Ok(saved[id]) else Err(NotFound)
    {
      hide Integrity, Stored;
      var err := Fails();
      if err != None {
        return Err(NoReply);
      }
      if id !in db.exts {
        return Err(NotFound);
      }
      var row := db.exts[id];
      assert Holds(db, saved[id]);
      var conditions := Load(id);
      if conditions.Err? {
        return Err(conditions.error);
      }
      r := Ok(Extension(id, db.domains[row.domainId].name, row.name, row.context, row.priority, row.enabled,
                        conditions.value));
    }

    method List(domain: string, context: string) returns (r: Result<seq<Extension>>)
      requires Valid()
      ensures r == Err(NoReply) || (r.Ok? && Listing(saved, domain, context, collate, r.value))
    {
      hide Integrity, Stored, Listing, AtMost, Matches;
      var err := Fails();
      if err != None {
        return Err(NoReply);
      }
      var heads := map id | id in db.exts && db.exts[id].domainId in db.domains ::
        Extension(id, db.domains[db.exts[id].domainId].name, db.exts[id].name, db.exts[id].context,
                  db.exts[id].priority, db.exts[id].enabled, []);
      var ids := set id | id in heads && Matches(heads[id], domain, context);
      HeadsSorted(heads, ids, collate);
      var rows := Select(ids, ByKey(heads, collate));
      HeadsOf(db, saved, heads);
      var out := [];
      for i := 0 to |rows|
        invariant |out| == i
        invariant forall k :: 0 <= k < i ==> rows[k] in saved && out[k] == saved[rows[k]]
      {
        assert rows[i] in rows;
        var conditions := Load(rows[i]);
        if conditions.Err? {
          return Err(conditions.error);
        }
        out := out + [heads[rows[i]].(conditions := conditions.value)];
      }
      ListingOf(saved, heads, domain, context, collate, rows, out);
      r := Ok(out);
    }
  }

  /** A domain's extensions leave with it; all others read as before. */
  lemma DomainDeleted(t: Tables, saved: map<Id, Extension>, name: string)
    requires Integrity(t) && Refines(t, saved)
    ensures Exec(t, Op.DeleteDomain(name)).Done?
    ensures Refines(Exec(t, Op.DeleteDomain(name)).t, map id | id in saved && saved[id].domain != name :: saved[id])
  {
    hide Integrity, Exec, Holds, HasName;
    DeleteDomainIsExact(t, name);
    var u := Exec(t, Op.DeleteDomain(name)).t;
    forall id | id in saved
      ensures id in u.exts <==> saved[id].domain != name
      ensures id in u.exts ==> Holds(u, saved[id])
    {
      DomainKept(t, u, name, saved[id]);
    }
  }

  lemma DomainKept(t: Tables, u: Tables, name: string, e: Extension)
    requires Holds(t, e)
    requires u.domains == t.domains - (set id | id in t.domains && InDomain(t, id, name))
    requires u.exts == t.exts - ExtsOf(t, name)
    requires var conds := CondsBelow(t, ExtsOf(t, name));
             u.conds == t.conds - conds && u.acts == t.acts - ActsBelow(t, conds)
    ensures e.id in u.exts <==> e.domain != name
    ensures e.id in u.exts ==> Holds(u, e)
  {
    hide Stored;
    if e.domain != name {
      RowsKept(t, u, name, e);
    }
  }

  lemma RowsKept(t: Tables, u: Tables, name: string, e: Extension)
    requires Stored(t, e.id, e.conditions) && e.id !in ExtsOf(t, name)
    requires var conds := CondsBelow(t, ExtsOf(t, name));
             u.conds == t.conds - conds && u.acts == t.acts - ActsBelow(t, conds)
    ensures Stored(u, e.id, e.conditions)
  {
    hide At, ActsStored, ExtsOf;
    assert CondOrder(u, e.id) == CondOrder(t, e.id);
    forall id | id in CondOrder(u, e.id)
      ensures CondStored(u, id, e.conditions[u.conds[id].order])
    {
      assert CondStored(t, id, e.conditions[t.conds[id].order]);
      SameBelow(t, u, name, id, e.conditions[t.conds[id].order].actions);
    }
  }

  lemma SameBelow(t: Tables, u: Tables, name: string, cond: Id, actions: seq<Action>)
    requires ActsStored(t, cond, actions) && cond !in CondsBelow(t, ExtsOf(t, name))
    requires u.acts == t.acts - ActsBelow(t, CondsBelow(t, ExtsOf(t, name)))
    ensures ActsStored(u, cond, actions)
  {
    hide At, CondsBelow;
    assert ActOrder(u, cond) == ActOrder(t, cond);
  }
}
