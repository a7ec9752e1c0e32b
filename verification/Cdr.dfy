/** Call detail records: stored once per call however often they are posted, listed newest first, and
    rolled up per UTC day. */
module Cdr {
  import opened Pagination
  import opened Query
  import opened Text
  import opened Wrappers

  type Id = string

  datatype Record = Record(id: Id, direction: string, caller: string, callerName: string, destination: string,
                           context: string, cause: string, start: int, answer: int, end: int, duration: int,
                           billsec: int, recording: string,
                           raw: string)

  // ---------- the payload ----------

  datatype Profile = Profile(name: string, number: string, destination: string, context: string)

  /** What decodes from a mod_json_cdr body; no variables when the body is not such a payload. */
  datatype Payload = Payload(variables: Option<map<string, string>>, callflow: seq<Profile>, raw: string)

  function Parsed(p: Payload): Option<Record> {
    match p.variables
    case None => None
    case Some(v) =>
      var id := FirstNonEmpty(Get(v, "uuid"), Get(v, "call_uuid"));
      var cp := if p.callflow != [] then p.callflow[0] else Profile("", "", "", "");
      if id == "" then None
      else Some(Record(id, Get(v, "direction"), FirstNonEmpty(cp.number, Get(v, "caller_id_number")),
                       FirstNonEmpty(cp.name, Get(v, "caller_id_name")),
                       FirstNonEmpty(cp.destination, Get(v, "destination_number")),
                       FirstNonEmpty(cp.context, Get(v, "context")), Get(v, "hangup_cause"),
                       Atoi(Get(v, "start_epoch")), Atoi(Get(v, "answer_epoch")), Atoi(Get(v, "end_epoch")),
                       Atoi(Get(v, "duration")), Atoi(Get(v, "billsec")),
                       FirstNonEmpty(Get(v, "record_path"), Get(v, "cc_record_filename")), p.raw))
  }

  predicate Given(v: map<string, string>, key: string) {
    key in v && v[key] != ""
  }

  /** A number as written in decimal, 0 when there is none. */
  ghost predicate Reads(v: map<string, string>, key: string, n: int) {
    && (key !in v ==> n == 0)
    && forall k :: MIN_INT <= k <= MAX_INT && key in v && v[key] == Itoa(k) ==> n == k
  }

  /** What the first caller profile says, or the variable when it says nothing. */
  predicate Prefers(x: string, profile: string, v: map<string, string>, key: string) {
    if profile != "" then x == profile else if key in v then x == v[key] else x == ""
  }

  /** The record of a payload: every column from its own variable, the parties from the caller profile first. */
  ghost predicate Reports(r: Record, p: Payload, v: map<string, string>) {
    && Prefers(r.id, Get(v, "uuid"), v, "call_uuid")
    && r.direction == Get(v, "direction") && r.cause == Get(v, "hangup_cause")
    && Prefers(r.caller, if p.callflow != [] then p.callflow[0].number else "", v, "caller_id_number")
    && Prefers(r.callerName, if p.callflow != [] then p.callflow[0].name else "", v, "caller_id_name")
    && Prefers(r.destination, if p.callflow != [] then p.callflow[0].destination else "", v, "destination_number")
    && Prefers(r.context, if p.callflow != [] then p.callflow[0].context else "", v, "context")
    && Reads(v, "start_epoch", r.start) && Reads(v, "answer_epoch", r.answer) && Reads(v, "end_epoch", r.end)
    && Reads(v, "duration", r.duration) && Reads(v, "billsec", r.billsec)
    && Prefers(r.recording, Get(v, "record_path"), v, "cc_record_filename") && r.raw == p.raw
  }

  lemma ReadsAtoi(v: map<string, string>, key: string)
    ensures Reads(v, key, Atoi(Get(v, key)))
  {
    assert Atoi("") == 0;
    hide Atoi, Itoa;
    forall k | MIN_INT <= k <= MAX_INT && key in v && v[key] == Itoa(k)
      ensures Atoi(Get(v, key)) == k
    {
      AtoiItoa(k);
    }
  }

  /** A payload is a record exactly when it names its call. */
  lemma ParsedIs(p: Payload)
    ensures Parsed(p).Some? <==>
              p.variables.Some? && (Given(p.variables.value, "uuid") || Given(p.variables.value, "call_uuid"))
    ensures Parsed(p).Some? ==> Reports(Parsed(p).value, p, p.variables.value)
  {
    hide Atoi, Reads;
    if p.variables.Some? {
      var v := p.variables.value;
      ReadsAtoi(v, "start_epoch");
      ReadsAtoi(v, "answer_epoch");
      ReadsAtoi(v, "end_epoch");
      ReadsAtoi(v, "duration");
      ReadsAtoi(v, "billsec");
    }
  }

  // ---------- storing ----------

  /** INSERT ... ON CONFLICT (id) DO NOTHING */
  function Insert(table: map<Id, Record>, r: Record): map<Id, Record> {
    if r.id in table then table else table[r.id := r]
  }

  function Stored(records: seq<Record>): map<Id, Record> {
    if records == [] then map[] else Insert(Stored(records[..|records| - 1]), records[|records| - 1])
  }

  /** The position of the first record of a call. */
  ghost predicate FirstOf(records: seq<Record>, id: Id, i: int) {
    0 <= i < |records| && records[i].id == id && forall j :: 0 <= j < i ==> records[j].id != id
  }

  /** However records arrive, the table holds one row per call, and it is the first one that arrived. */
  lemma {:induction false} FirstStored(records: seq<Record>, id: Id)
    ensures id in Stored(records) <==> exists i :: FirstOf(records, id, i)
    ensures forall i :: FirstOf(records, id, i) ==> Stored(records)[id] == records[i]
  {
    if records != [] {
      var n := |records| - 1;
      var before := records[..n];
      FirstStored(before, id);
      forall i
        ensures i != n ==> (FirstOf(records, id, i) <==> FirstOf(before, id, i))
      {
      }
      if id !in Stored(before) && records[n].id == id {
        NoneBefore(before, id);
        assert FirstOf(records, id, n);
      }
      if i :| FirstOf(before, id, i) {
        assert FirstOf(records, id, i);
      }
    }
  }

  lemma {:induction false} NoneBefore(records: seq<Record>, id: Id)
    requires !exists i :: FirstOf(records, id, i)
    ensures forall j :: 0 <= j < |records| ==> records[j].id != id
  {
    for j := 0 to |records|
      invariant forall k :: 0 <= k < j ==> records[k].id != id
    {
      assert !FirstOf(records, id, j);
    }
  }

  ghost predicate SameRecords(p: seq<Record>, q: seq<Record>) {
    forall r :: r in p <==> r in q
  }

  /** A call is always reported alike: a retried post repeats its record. */
  ghost predicate Consistent(p: seq<Record>) {
    forall i, j :: 0 <= i < |p| && 0 <= j < |p| && p[i].id == p[j].id ==> p[i] == p[j]
  }

  lemma Reported(p: seq<Record>, q: seq<Record>, id: Id)
    requires SameRecords(p, q) && id in Stored(p)
    ensures id in Stored(q)
  {
    FirstStored(p, id);
    FirstStored(q, id);
    var i :| FirstOf(p, id, i);
    assert p[i] in q;
    if !exists j :: FirstOf(q, id, j) {
      NoneBefore(q, id);
    }
  }

  lemma SameRow(p: seq<Record>, q: seq<Record>, id: Id)
    requires Consistent(p) && SameRecords(p, q) && id in Stored(p) && id in Stored(q)
    ensures Stored(p)[id] == Stored(q)[id]
  {
    FirstStored(p, id);
    FirstStored(q, id);
    var i :| FirstOf(p, id, i);
    var j :| FirstOf(q, id, j);
    hide Stored;
    assert q[j] in q;
    var k :| 0 <= k < |p| && p[k] == q[j];
    assert p[i].id == p[k].id;
  }

  /** Redelivery and reordering cannot be seen: the same records in any order and any number of times
      leave the same table. */
  lemma RedeliveryInvisible(p: seq<Record>, q: seq<Record>)
    requires Consistent(p) && SameRecords(p, q)
    ensures Stored(p) == Stored(q)
  {
    hide Stored, Consistent;
    assert SameRecords(q, p);
    forall id
      ensures id in Stored(p) <==> id in Stored(q)
      ensures id in Stored(p) ==> id in Stored(q) && Stored(p)[id] == Stored(q)[id]
    {
      if id in Stored(p) {
        Reported(p, q, id);
        SameRow(p, q, id);
      } else if id in Stored(q) {
        Reported(q, p, id);
      }
    }
  }

  // ---------- sums over rows ----------

  /** What a row adds to a count or a sum. */
  type Weight = Record -> int

  ghost function Sum(table: map<Id, Record>, ids: set<Id>, w: Weight): int
    requires ids <= table.Keys
  {
    if ids == {} then 0
    else
      var id :| id in ids;
      w(table[id]) + Sum(table, ids - {id}, w)
  }

  lemma {:induction false} SumTake(table: map<Id, Record>, ids: set<Id>, w: Weight, id: Id)
    requires ids <= table.Keys && id in ids
    ensures Sum(table, ids, w) == w(table[id]) + Sum(table, ids - {id}, w)
    decreases ids
  {
    var first :| first in ids && Sum(table, ids, w) == w(table[first]) + Sum(table, ids - {first}, w);
    if first != id {
      SumTake(table, ids - {first}, w, id);
      SumTake(table, ids - {id}, w, first);
      assert ids - {first} - {id} == ids - {id} - {first};
    }
  }

  lemma {:induction false} SumUnion(table: map<Id, Record>, a: set<Id>, b: set<Id>, w: Weight)
    requires a <= table.Keys && b <= table.Keys && a !! b
    ensures Sum(table, a + b, w) == Sum(table, a, w) + Sum(table, b, w)
    decreases a
  {
    if a == {} {
      assert a + b == b;
    } else {
      var id :| id in a;
      SumTake(table, a, w, id);
      SumTake(table, a + b, w, id);
      assert a + b - {id} == (a - {id}) + b;
      SumUnion(table, a - {id}, b, w);
    }
  }

  const ONE: Weight := (r: Record) => 1
  const ANSWERED: Weight := (r: Record) => if r.billsec > 0 then 1 else 0
  const ABANDONED: Weight := (r: Record) => if r.billsec == 0 then 1 else 0
  const TALK: Weight := (r: Record) => r.billsec
  const ANSWERED_TALK: Weight := (r: Record) => if r.billsec > 0 then r.billsec else 0

  lemma {:induction false} CountIsSize(table: map<Id, Record>, ids: set<Id>)
    requires ids <= table.Keys
    ensures Sum(table, ids, ONE) == |ids|
    decreases ids
  {
    if ids != {} {
      var id :| id in ids;
      SumTake(table, ids, ONE, id);
      CountIsSize(table, ids - {id});
    }
  }

  lemma {:induction false} NoneNegative(table: map<Id, Record>, ids: set<Id>)
    requires ids <= table.Keys
    ensures Sum(table, ids, ANSWERED) + Sum(table, ids, ABANDONED) <= Sum(table, ids, ONE)
    ensures Sum(table, ids, ANSWERED) + Sum(table, ids, ABANDONED) == Sum(table, ids, ONE) <==>
              forall id :: id in ids ==> table[id].billsec >= 0
    decreases ids
  {
    if ids != {} {
      var id :| id in ids;
      SumTake(table, ids, ONE, id);
      SumTake(table, ids, ANSWERED, id);
      SumTake(table, ids, ABANDONED, id);
      NoneNegative(table, ids - {id});
    }
  }

  // ---------- queries ----------

  datatype Filter = Filter(number: string, cause: string, from: int, to: int, answeredOnly: bool, page: Page)

  predicate InWindow(r: Record, from: int, to: int) {
    (from == 0 || r.start >= from) && (to == 0 || r.start <= to)
  }

  predicate Passes(r: Record, f: Filter) {
    && (f.number == "" || r.caller == f.number || r.destination == f.number)
    && (f.cause == "" || r.cause == f.cause)
    && InWindow(r, f.from, f.to)
    && (!f.answeredOnly || r.billsec > 0)
  }

  function Passing(table: map<Id, Record>, f: Filter): set<Id> {
    set id | id in table && Passes(table[id], f)
  }

  function InWindowIds(table: map<Id, Record>, from: int, to: int): set<Id> {
    set id | id in table && InWindow(table[id], from, to)
  }

  /** ORDER BY start_epoch DESC, id */
  function Newest(table: map<Id, Record>, le: (string, string) -> bool): (Id, Id) -> bool {
    (a: Id, b: Id) => a in table && b in table ==>
      table[a].start > table[b].start || (table[a].start == table[b].start && le(a, b))
  }

  lemma NewestOrders(table: map<Id, Record>, ids: set<Id>, le: (string, string) -> bool)
    requires Collation(le) && ids <= table.Keys
    ensures Preorder(ids, Newest(table, le))
    ensures forall a, b :: a in ids && b in ids && Newest(table, le)(a, b) && Newest(table, le)(b, a) ==> a == b
  {
    forall a, b, c | a in ids && b in ids && c in ids
      ensures Newest(table, le)(a, b) || Newest(table, le)(b, a)
      ensures Newest(table, le)(a, b) && Newest(table, le)(b, a) ==> a == b
      ensures Newest(table, le)(a, b) && Newest(table, le)(b, c) ==> Newest(table, le)(a, c)
    {
    }
  }

  /** The five conditions of a list, each of which may be absent. */
  predicate Meets(r: Record, f: Filter) {
    && (f.number == "" || r.caller == f.number || r.destination == f.number)
    && (f.cause == "" || r.cause == f.cause)
    && (f.from == 0 || r.start >= f.from) && (f.to == 0 || r.start <= f.to)
    && (f.answeredOnly ==> r.billsec > 0)
  }

  lemma PassingMeets(table: map<Id, Record>, f: Filter)
    ensures forall id :: id in Passing(table, f) <==> id in table && Meets(table[id], f)
  {
  }

  /** Later starts first, equal ones by id, and no record twice. */
  ghost predicate NewestFirst(table: map<Id, Record>, le: (string, string) -> bool, ids: seq<Id>)
    requires forall i :: 0 <= i < |ids| ==> ids[i] in table
  {
    forall i, j :: 0 <= i < j < |ids| ==>
      var a, b := table[ids[i]], table[ids[j]];
      a.start > b.start || (a.start == b.start && ids[i] != ids[j] && le(ids[i], ids[j]))
  }

  lemma NewestIs(table: map<Id, Record>, le: (string, string) -> bool, passing: set<Id>, ids: seq<Id>)
    requires Answer(passing, Newest(table, le), ids) && forall i :: 0 <= i < |ids| ==> ids[i] in table
    ensures NewestFirst(table, le, ids)
  {
    forall i, j | 0 <= i < j < |ids|
      ensures var a, b := table[ids[i]], table[ids[j]];
              a.start > b.start || (a.start == b.start && ids[i] != ids[j] && le(ids[i], ids[j]))
    {
      assert Newest(table, le)(ids[i], ids[j]);
    }
  }

  /** The rows behind the offset, as many as the limit; all rows without a limit. */
  ghost predicate PageOf(table: map<Id, Record>, ids: seq<Id>, page: Page, out: seq<Record>)
    requires forall i :: 0 <= i < |ids| ==> ids[i] in table
  {
    var from := if page.limit == 0 then 0 else page.offset;
    var left := if from <= |ids| then |ids| - from else 0;
    && |out| == (if page.limit == 0 || left < page.limit then left else page.limit)
    && forall i :: 0 <= i < |out| ==> out[i] == table[ids[from + i]]
  }

  lemma PageIs(table: map<Id, Record>, ids: seq<Id>, page: Page)
    requires forall i :: 0 <= i < |ids| ==> ids[i] in table
    ensures PageOf(table, ids, page, SqlPage(RowsOf(table, ids), page))
  {
    hide SqlPage;
    SqlPageIs(RowsOf(table, ids), page);
  }

  /** The list of the records that meet the filter, one page of it, and its whole length. */
  ghost predicate ListedAs(table: map<Id, Record>, le: (string, string) -> bool, f: Filter, out: seq<Record>,
                           total: int, ids: seq<Id>) {
    && total == |ids| && (forall i :: 0 <= i < |ids| ==> ids[i] in table)
    && (forall id :: id in ids <==> id in table && Meets(table[id], f))
    && NewestFirst(table, le, ids) && PageOf(table, ids, f.page, out)
  }

  ghost predicate Listed(table: map<Id, Record>, le: (string, string) -> bool, f: Filter, out: seq<Record>,
                         total: int) {
    exists ids :: ListedAs(table, le, f, out, total, ids)
  }

  /** There is one such list: the same table and filter give the same page and total. */
  lemma ListedUnique(table: map<Id, Record>, le: (string, string) -> bool, f: Filter, o: seq<Record>, p: seq<Record>,
                     m: int, n: int)
    requires Collation(le) && Listed(table, le, f, o, m) && Listed(table, le, f, p, n)
    ensures o == p && m == n
  {
    hide Collation, Meets;
    var r :| ListedAs(table, le, f, o, m, r);
    var s :| ListedAs(table, le, f, p, n, s);
    var passing := Passing(table, f);
    PassingMeets(table, f);
    NewestOrders(table, passing, le);
    NewestAnswers(table, le, passing, r);
    NewestAnswers(table, le, passing, s);
    AnswerUnique(passing, Newest(table, le), r, s);
  }

  lemma NewestAnswers(table: map<Id, Record>, le: (string, string) -> bool, passing: set<Id>, ids: seq<Id>)
    requires (forall i :: 0 <= i < |ids| ==> ids[i] in table) && NewestFirst(table, le, ids)
    requires forall id :: id in ids <==> id in passing
    ensures Answer(passing, Newest(table, le), ids)
  {
    forall i, j | 0 <= i < j < |ids|
      ensures ids[i] != ids[j] && Newest(table, le)(ids[i], ids[j])
    {
      assert table[ids[i]].start >= table[ids[j]].start;
    }
  }

  // ---------- per-day rollups ----------

  /** Days since 1970-01-01, UTC; earlier days are negative. */
  function Day(r: Record): int {
    r.start / 86400
  }

  datatype Stat = Stat(day: int, total: int, answered: int, abandoned: int, talk: int, average: int)

  function OnDay(table: map<Id, Record>, ids: set<Id>, day: int): set<Id> {
    set id | id in ids && id in table && Day(table[id]) == day
  }

  function Days(table: map<Id, Record>, ids: set<Id>): set<int> {
    set id | id in ids && id in table :: Day(table[id])
  }

  function LaterDay(): (int, int) -> bool {
    (a: int, b: int) => a >= b
  }

  /** The nearest whole number, halves up; 0 when nothing was answered. */
  function Average(sum: int, count: int): int {
    if count <= 0 then 0 else (2 * sum + count) / (2 * count)
  }

  ghost predicate IsStat(table: map<Id, Record>, ids: set<Id>, s: Stat)
    requires ids <= table.Keys
  {
    var on := OnDay(table, ids, s.day);
    && s.total == Sum(table, on, ONE)
    && s.answered == Sum(table, on, ANSWERED) && s.abandoned == Sum(table, on, ABANDONED)
    && s.talk == Sum(table, on, TALK)
    && s.average == Average(Sum(table, on, ANSWERED_TALK), s.answered)
  }

  function DaysOf(stats: seq<Stat>): seq<int> {
    seq(|stats|, i requires 0 <= i < |stats| => stats[i].day)
  }

  /** One row for every day that has a record in the window, newest first. */
  ghost predicate Rollup(table: map<Id, Record>, ids: set<Id>, stats: seq<Stat>)
    requires ids <= table.Keys
  {
    && Answer(Days(table, ids), LaterDay(), DaysOf(stats))
    && forall i :: 0 <= i < |stats| ==> IsStat(table, ids, stats[i])
  }

  ghost function Totals(stats: seq<Stat>): (int, int, int, int) {
    if stats == [] then (0, 0, 0, 0)
    else
      var t := Totals(stats[1..]);
      (t.0 + stats[0].total, t.1 + stats[0].answered, t.2 + stats[0].abandoned, t.3 + stats[0].talk)
  }

  ghost function DaySum(table: map<Id, Record>, ids: set<Id>, days: seq<int>, w: Weight): int
    requires ids <= table.Keys
  {
    if days == [] then 0 else Sum(table, OnDay(table, ids, days[0]), w) + DaySum(table, ids, days[1..], w)
  }

  ghost function Covered(table: map<Id, Record>, ids: set<Id>, days: seq<int>): set<Id> {
    set id | id in ids && id in table && Day(table[id]) in days
  }

  lemma {:induction false} DaysAddUp(table: map<Id, Record>, ids: set<Id>, days: seq<int>, w: Weight)
    requires ids <= table.Keys && forall i, j :: 0 <= i < j < |days| ==> days[i] != days[j]
    ensures DaySum(table, ids, days, w) == Sum(table, Covered(table, ids, days), w)
  {
    if days == [] {
      assert Covered(table, ids, days) == {};
    } else {
      var first, rest := OnDay(table, ids, days[0]), Covered(table, ids, days[1..]);
      DaysAddUp(table, ids, days[1..], w);
      assert days[0] !in days[1..];
      SumUnion(table, first, rest, w);
      assert days == [days[0]] + days[1..];
      assert Covered(table, ids, days) == first + rest;
    }
  }

  lemma {:induction false} TotalsAre(table: map<Id, Record>, ids: set<Id>, stats: seq<Stat>)
    requires ids <= table.Keys && forall i :: 0 <= i < |stats| ==> IsStat(table, ids, stats[i])
    ensures Totals(stats) == (DaySum(table, ids, DaysOf(stats), ONE), DaySum(table, ids, DaysOf(stats), ANSWERED),
                              DaySum(table, ids, DaysOf(stats), ABANDONED), DaySum(table, ids, DaysOf(stats), TALK))
  {
    if stats != [] {
      TotalsAre(table, ids, stats[1..]);
      assert DaysOf(stats)[1..] == DaysOf(stats[1..]);
      assert IsStat(table, ids, stats[0]);
    }
  }

  /** The rollups conserve: the daily totals add up to the number of records in the window, which is the
      total of the unfiltered list, talk time adds up to all their billsec, and answered and abandoned
      calls make up the total exactly when no record carries a negative billsec. */
  lemma RollupConserves(table: map<Id, Record>, from: int, to: int, page: Page, stats: seq<Stat>)
    requires Rollup(table, InWindowIds(table, from, to), stats)
    ensures var ids := InWindowIds(table, from, to);
            var t := Totals(stats);
            && t.0 == |ids| == |Passing(table, Filter("", "", from, to, false, page))|
            && t.3 == Sum(table, ids, TALK)
            && (t.1 + t.2 == t.0 <==> forall id :: id in ids ==> table[id].billsec >= 0)
  {
    hide Sum, DaySum;
    var ids := InWindowIds(table, from, to);
    var days := DaysOf(stats);
    TotalsAre(table, ids, stats);
    DaysAddUp(table, ids, days, ONE);
    DaysAddUp(table, ids, days, ANSWERED);
    DaysAddUp(table, ids, days, ABANDONED);
    DaysAddUp(table, ids, days, TALK);
    assert Covered(table, ids, days) == ids by {
      forall id | id in ids
        ensures Day(table[id]) in days
      {
        assert Day(table[id]) in Days(table, ids);
      }
    }
    CountIsSize(table, ids);
    NoneNegative(table, ids);
    assert ids == Passing(table, Filter("", "", from, to, false, page));
  }

  /** A day of the rollup: how many of the window's records started on it, between its midnights in UTC;
      how many of them have a billsec above 0, and how many have 0; their whole billsec; and the mean of the
      answered ones to the nearest whole number. */
  lemma StatIs(table: map<Id, Record>, ids: set<Id>, s: Stat, billsec: Weight, answered: Weight)
    requires ids <= table.Keys && IsStat(table, ids, s)
    requires forall r :: billsec(r) == r.billsec && answered(r) == if r.billsec > 0 then r.billsec else 0
    ensures var on := set id | id in ids && 86400 * s.day <= table[id].start < 86400 * (s.day + 1);
            && s.total == |on|
            && s.answered == |set id | id in on && table[id].billsec > 0|
            && s.abandoned == |set id | id in on && table[id].billsec == 0|
            && s.talk == Sum(table, on, billsec)
            && (s.answered == 0 ==> s.average == 0)
            && var rest := 2 * (Sum(table, on, answered) - s.average * s.answered);
               -s.answered <= rest && (rest < s.answered || s.answered == 0)
  {
    hide Sum, Average;
    var on := set id | id in ids && 86400 * s.day <= table[id].start < 86400 * (s.day + 1);
    assert on == OnDay(table, ids, s.day);
    CountIsSize(table, on);
    CountIs(table, on, ANSWERED, set id | id in on && table[id].billsec > 0);
    CountIs(table, on, ABANDONED, set id | id in on && table[id].billsec == 0);
    SumSame(table, on, TALK, billsec);
    SumSame(table, on, ANSWERED_TALK, answered);
    TalkCounts(table, on);
    AverageOf(Sum(table, on, ANSWERED_TALK), s.answered);
  }

  /** A weight of 1 on some of the rows and 0 on the others counts them. */
  lemma {:induction false} CountIs(table: map<Id, Record>, ids: set<Id>, w: Weight, some: set<Id>)
    requires ids <= table.Keys && some <= ids
    requires forall id :: id in ids ==> w(table[id]) == if id in some then 1 else 0
    ensures Sum(table, ids, w) == |some|
    decreases ids
  {
    if ids != {} {
      var id :| id in ids;
      SumTake(table, ids, w, id);
      CountIs(table, ids - {id}, w, some - {id});
    }
  }

  lemma {:induction false} SumSame(table: map<Id, Record>, ids: set<Id>, w: Weight, x: Weight)
    requires ids <= table.Keys && forall id :: id in ids ==> w(table[id]) == x(table[id])
    ensures Sum(table, ids, w) == Sum(table, ids, x)
    decreases ids
  {
    if ids != {} {
      var id :| id in ids;
      SumTake(table, ids, w, id);
      SumTake(table, ids, x, id);
      SumSame(table, ids - {id}, w, x);
    }
  }

  lemma {:induction false} TalkCounts(table: map<Id, Record>, ids: set<Id>)
    requires ids <= table.Keys
    ensures Sum(table, ids, ANSWERED_TALK) >= Sum(table, ids, ANSWERED) >= 0
    ensures Sum(table, ids, ANSWERED) == 0 ==> Sum(table, ids, ANSWERED_TALK) == 0
    decreases ids
  {
    if ids != {} {
      var id :| id in ids;
      SumTake(table, ids, ANSWERED, id);
      SumTake(table, ids, ANSWERED_TALK, id);
      TalkCounts(table, ids - {id});
    }
  }

  lemma AverageOf(sum: nat, count: nat)
    requires count == 0 ==> sum == 0
    ensures count == 0 ==> Average(sum, count) == 0
    ensures var rest := 2 * (sum - Average(sum, count) * count); 0 - count <= rest && (rest < count || count == 0)
  {
    if count > 0 {
      AverageNearest(sum, count);
    }
  }

  /** The window determines the rollup. */
  lemma RollupUnique(table: map<Id, Record>, ids: set<Id>, r: seq<Stat>, s: seq<Stat>)
    requires ids <= table.Keys && Rollup(table, ids, r) && Rollup(table, ids, s)
    ensures r == s
  {
    hide Sum;
    AnswerUnique(Days(table, ids), LaterDay(), DaysOf(r), DaysOf(s));
    assert |r| == |DaysOf(r)| == |DaysOf(s)| == |s|;
    forall i | 0 <= i < |r|
      ensures r[i] == s[i]
    {
      assert DaysOf(r)[i] == DaysOf(s)[i];
    }
  }

  /** The average is the whole number nearest to the quotient. */
  lemma AverageNearest(sum: nat, count: nat)
    requires count > 0
    ensures var a := Average(sum, count); 0 - count <= 2 * (sum - a * count) < count
  {
  }

  // ---------- the store ----------

  method Fails() returns (fails: bool) {
    fails := *;
  }

  class Cdrs {
    var rows: map<Id, Record>
    /** The order of text in the database. */
    const collate: (string, string) -> bool
    /** The records that reached the table, in the order they reached it. */
    ghost var arrived: seq<Record>

    ghost predicate Valid()
      reads this
    {
      rows == Stored(arrived) && Collation(collate)
    }

    constructor (collate: (string, string) -> bool)
      requires Collation(collate)
      ensures Valid() && arrived == [] && this.collate == collate
    {
      rows, arrived := map[], [];
      this.collate := collate;
    }

    /** A failed insert may still have reached the table: its reply may be lost. */
    method InsertCdr(r: Record) returns (ok: bool)
      requires Valid()
      modifies this
      ensures Valid()
      ensures arrived == old(arrived) + [r] || (!ok && arrived == old(arrived))
    {
      ghost var before := arrived;
      var lost := Fails();
      ok := false;
      if lost {
        return;
      }
      if r.id !in rows {
        rows := rows[r.id := r];
      }
      arrived := arrived + [r];
      assert arrived[..|arrived| - 1] == before;
      var noReply := Fails();
      ok := !noReply;
    }

    /** handlePostCDR, by its status: 400 for what is no record, 500 asks for a retry. */
    method PostCdr(p: Payload) returns (status: int)
      requires Valid()
      modifies this
      ensures Valid()
      ensures status == 400 <==> Parsed(p) == None
      ensures status == 400 <==>
                p.variables == None || !(Given(p.variables.value, "uuid") || Given(p.variables.value, "call_uuid"))
      ensures status == 200 ==> arrived != [] && Reports(arrived[|arrived| - 1], p, p.variables.value)
      ensures status == 400 ==> rows == old(rows) && arrived == old(arrived)
      ensures status == 200 ==> arrived == old(arrived) + [Parsed(p).value]
      ensures status == 500 ==> arrived == old(arrived) || arrived == old(arrived) + [Parsed(p).value]
      ensures status in {200, 400, 500}
    {
      hide Parsed, Given, Reports, Stored;
      ParsedIs(p);
      var r := Parsed(p);
      if r == None {
        return 400;
      }
      var ok := InsertCdr(r.value);
      status := if ok then 200 else 500;
    }

    /** Newest first, with the total before paging; there is only one such list. */
    method ListCdr(f: Filter) returns (out: seq<Record>, total: int)
      requires Valid()
      ensures Listed(rows, collate, f, out, total)
    {
      hide Window, Stored, Meets, NewestFirst, PageOf, Newest;
      var passing := Passing(rows, f);
      total := |passing|;
      PassingMeets(rows, f);
      NewestOrders(rows, passing, collate);
      var found := Select(passing, Newest(rows, collate));
      AnswerSize(passing, Newest(rows, collate), found);
      assert forall i :: 0 <= i < |found| ==> found[i] in found;
      NewestIs(rows, collate, passing, found);
      var all := RowsOf(rows, found);
      PageIs(rows, found, f.page);
      if f.page.limit > 0 {
        out := Window(all, f.page.limit, f.page.offset);
      } else {
        out := all;
      }
      assert ListedAs(rows, collate, f, out, total, found);
    }

    method CdrStats(from: int, to: int) returns (stats: seq<Stat>)
      requires Valid()
      ensures Rollup(rows, InWindowIds(rows, from, to), stats)
      ensures forall i, j :: 0 <= i < j < |stats| ==> stats[i].day > stats[j].day
    {
      hide Stored, Sum, Average;
      var ids := InWindowIds(rows, from, to);
      var days := Select(Days(rows, ids), LaterDay());
      stats := [];
      for i := 0 to |days|
        invariant |stats| == i
        invariant forall k :: 0 <= k < i ==> stats[k].day == days[k] && IsStat(rows, ids, stats[k])
      {
        var on := OnDay(rows, ids, days[i]);
        var total := Summed(rows, on, ONE);
        var answered := Summed(rows, on, ANSWERED);
        var abandoned := Summed(rows, on, ABANDONED);
        var talk := Summed(rows, on, TALK);
        var answeredTalk := Summed(rows, on, ANSWERED_TALK);
        stats := stats + [Stat(days[i], total, answered, abandoned, talk, Average(answeredTalk, answered))];
      }
      assert DaysOf(stats) == days;
      forall i, j | 0 <= i < j < |stats|
        ensures stats[i].day > stats[j].day
      {
        assert LaterDay()(days[i], days[j]) && days[i] != days[j];
      }
    }
  }

  function RowsOf(table: map<Id, Record>, ids: seq<Id>): (r: seq<Record>)
    requires forall i :: 0 <= i < |ids| ==> ids[i] in table
    ensures |r| == |ids| && forall i :: 0 <= i < |ids| ==> r[i] == table[ids[i]]
  {
    seq(|ids|, i requires 0 <= i < |ids| => table[ids[i]])
  }

  lemma {:induction false} AnswerSize<T(!new)>(ids: set<T>, le: (T, T) -> bool, rows: seq<T>)
    requires Answer(ids, le, rows)
    ensures |rows| == |ids|
    decreases |rows|
  {
    EmptyAnswer(ids, le, rows);
    if rows != [] {
      TailAnswer(ids, le, rows);
      assert rows[0] in rows;
      AnswerSize(ids - {rows[0]}, le, rows[1..]);
    }
  }

  /** A SQL aggregate: the rows in any order. */
  method Summed(table: map<Id, Record>, ids: set<Id>, w: Weight) returns (sum: int)
    requires ids <= table.Keys
    ensures sum == Sum(table, ids, w)
  {
    sum := 0;
    var left := ids;
    while left != {}
      invariant left <= ids && sum + Sum(table, left, w) == Sum(table, ids, w)
      decreases left
    {
      var id :| id in left;
      SumTake(table, left, w, id);
      sum := sum + w(table[id]);
      left := left - {id};
    }
  }
}
