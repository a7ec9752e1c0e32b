/** The dialplan document: stored extensions and conference rooms merged, sorted, filtered and grouped
    by context. The document stops before it is written as XML. */
module DialplanRender {
  import Order
  import opened Subseq
  import opened Schema
  import opened DialplanStore
  import StableSort
  import opened Text
  import opened Wrappers

  datatype DpCond = DpCond(field: string, expression: string, wday: string, mday: string, mon: string, mweek: string,
                           week: string,
                           hour: string, minute: string, timeOfDay: string, dateTime: string, actions: seq<Action>)
  datatype DpExt = DpExt(name: string, conditions: seq<DpCond>)
  datatype DpContext = DpContext(name: string, extensions: seq<DpExt>)

  // ---------- conditions ----------

  function Lookup(attrs: Attrs, key: string): string {
    if key in attrs then attrs[key] else ""
  }

  /** A condition with its time attributes: each supported key lands in its own attribute. */
  function Rendered(c: Condition): DpCond {
    DpCond(c.field, c.expression, Lookup(c.time, "wday"), Lookup(c.time, "mday"), Lookup(c.time, "mon"),
           Lookup(c.time, "mweek"),
           Lookup(c.time, "week"), Lookup(c.time, "hour"), Lookup(c.time, "minute"), Lookup(c.time, "time-of-day"),
           Lookup(c.time, "date-time"), c.actions)
  }

  /** The switch: a supported key sets its attribute, any other key sets none. */
  function SetTime(c: DpCond, key: string, value: string): DpCond {
    c.(wday := if key == "wday" then value else c.wday,
       mday := if key == "mday" then value else c.mday,
       mon := if key == "mon" then value else c.mon,
       mweek := if key == "mweek" then value else c.mweek,
       week := if key == "week" then value else c.week,
       hour := if key == "hour" then value else c.hour,
       minute := if key == "minute" then value else c.minute,
       timeOfDay := if key == "time-of-day" then value else c.timeOfDay,
       dateTime := if key == "date-time" then value else c.dateTime)
  }

  const SUPPORTED := {"wday", "mday", "mon", "mweek", "week", "hour", "minute", "time-of-day", "date-time"}

  lemma TimeStep(c: Condition, done: Attrs, key: string, value: string)
    ensures SetTime(Rendered(c.(time := done)), key, value) == Rendered(c.(time := done[key := value]))
  {
  }

  /** applyTimeAttrs: whatever order the map is walked in, the same attributes are set. */
  method ApplyTimeAttrs(start: DpCond, c: Condition) returns (out: DpCond)
    requires start == Rendered(c.(time := map[]))
    ensures out == Rendered(c)
  {
    hide Rendered, SetTime;
    out := start;
    var done: Attrs := map[];
    while done.Keys != c.time.Keys
      invariant done.Keys <= c.time.Keys && forall k :: k in done ==> done[k] == c.time[k]
      invariant out == Rendered(c.(time := done))
      decreases c.time.Keys - done.Keys
    {
      var key :| key in c.time && key !in done;
      assert key in c.time.Keys - done.Keys;
      out := SetTime(out, key, c.time[key]);
      TimeStep(c, done, key, c.time[key]);
      done := done[key := c.time[key]];
    }
    assert done == c.time;
  }

  // ---------- what validation promises ----------

  predicate HasAttribute(c: DpCond) {
    c.(actions := []) != DpCond("", "", "", "", "", "", "", "", "", "", "", [])
  }

  /** validateExtension, on one condition; `compiles` stands for the regular-expression compiler. */
  predicate ValidCondition(c: Condition, compiles: string -> bool) {
    && ((c.field != "" && c.expression != "") || c.time != map[])
    && (c.field == "" <==> c.expression == "")
    && (c.expression != "" ==> compiles(c.expression))
    && c.actions != []
    && forall i :: 0 <= i < |c.actions| ==> c.actions[i].application != ""
  }

  predicate ValidExtension(e: Extension, compiles: string -> bool) {
    && e.name != "" && e.context != "" && e.conditions != []
    && forall i :: 0 <= i < |e.conditions| ==> ValidCondition(e.conditions[i], compiles)
  }

  /** validateExtension */
  method ValidateExtension(e: Extension, compiles: string -> bool) returns (msg: string, ok: bool)
    ensures ok <==> ValidExtension(e, compiles)
    ensures ok <==> msg == ""
  {
    if e.name == "" {
      return "name is required", false;
    }
    if e.context == "" {
      return "context is required", false;
    }
    if e.conditions == [] {
      return "at least one condition is required", false;
    }
    for i := 0 to |e.conditions|
      invariant forall k :: 0 <= k < i ==> ValidCondition(e.conditions[k], compiles)
    {
      var c := e.conditions[i];
      var hasRegex := c.field != "" && c.expression != "";
      if !hasRegex && c.time == map[] {
        return "condition needs field+expression and/or time attributes", false;
      }
      if (c.field != "" && c.expression == "") || (c.field == "" && c.expression != "") {
        return "condition field and expression must be set together", false;
      }
      if c.expression != "" && !compiles(c.expression) {
        return "condition expression is not a valid regex: " + c.expression, false;
      }
      if c.actions == [] {
        return "each condition requires at least one action", false;
      }
      for j := 0 to |c.actions|
        invariant forall k :: 0 <= k < j ==> c.actions[k].application != ""
      {
        if c.actions[j].application == "" {
          return "action application is required", false;
        }
      }
    }
    return "", true;
  }

  /** A validated condition keeps an attribute exactly when it has a regex or a supported time key with
      a value; otherwise it renders bare, and so matches every call. */
  lemma ValidRendersSome(c: Condition, compiles: string -> bool)
    requires ValidCondition(c, compiles)
    ensures HasAttribute(Rendered(c)) <==>
              c.field != "" || exists key :: key in SUPPORTED && key in c.time && c.time[key] != ""
  {
  }

  /** The gap: a misspelt time key passes validation and is dropped from the document. */
  lemma ValidMayRenderBare(compiles: string -> bool)
    ensures var c := Condition("", "", map["weekday" := "2-6"], [Action("hangup", "")]);
            ValidCondition(c, compiles) && !HasAttribute(Rendered(c))
  {
    assert "weekday" in map["weekday" := "2-6"];
  }

  // ---------- extensions ----------

  function RenderedAll(conditions: seq<Condition>): seq<DpCond> {
    seq(|conditions|, i requires 0 <= i < |conditions| => Rendered(conditions[i]))
  }

  function Item(e: Extension): DpExt {
    DpExt(e.name, RenderedAll(e.conditions))
  }

  function Items(s: seq<Extension>): seq<DpExt> {
    seq(|s|, i requires 0 <= i < |s| => Item(s[i]))
  }

  /** What the document shows of a context when it was asked for `filter` ("" asks for everything). */
  function Shown(filter: string, context: string): Extension -> bool {
    (e: Extension) => e.enabled && (filter == "" || e.context == filter) && e.context == context
  }

  method RenderExtension(e: Extension) returns (ext: DpExt)
    ensures ext == Item(e)
  {
    hide Rendered;
    var conditions := [];
    for i := 0 to |e.conditions|
      invariant conditions == RenderedAll(e.conditions[..i])
    {
      var c := e.conditions[i];
      var cond := DpCond(c.field, c.expression, "", "", "", "", "", "", "", "", "", c.actions);
      Untimed(c);
      cond := ApplyTimeAttrs(cond, c);
      conditions := conditions + [cond];
      assert e.conditions[..i + 1] == e.conditions[..i] + [c];
    }
    assert e.conditions[..|e.conditions|] == e.conditions;
    ext := DpExt(e.name, conditions);
  }

  lemma Untimed(c: Condition)
    ensures Rendered(c.(time := map[])) == DpCond(c.field, c.expression, "", "", "", "", "", "", "", "", "", c.actions)
  {
  }

  // ---------- the document ----------

  ghost predicate Grouped(exts: seq<Extension>, filter: string, groups: map<string, seq<DpExt>>) {
    forall c: string ::
      var shown := Order.Filter(exts, Shown(filter, c));
      (c in groups <==> shown != []) && (c in groups ==> groups[c] == Items(shown))
  }

  function Names(doc: seq<DpContext>): seq<string> {
    seq(|doc|, i requires 0 <= i < |doc| => doc[i].name)
  }

  /** The contexts that show something, in strictly ascending order, each with what it shows in order. */
  ghost predicate IsDocument(exts: seq<Extension>, filter: string, doc: seq<DpContext>) {
    && Order.StrictlyAscending(Names(doc))
    && (forall c :: c in Names(doc) <==> Order.Filter(exts, Shown(filter, c)) != [])
    && (forall i :: 0 <= i < |doc| ==> doc[i].extensions == Items(Order.Filter(exts, Shown(filter, doc[i].name))))
  }

  lemma ItemsNext(s: seq<Extension>, e: Extension)
    ensures Items(s + [e]) == Items(s) + [Item(e)]
  {
    hide Item;
  }

  function WithItem(groups: map<string, seq<DpExt>>, context: string, item: DpExt): map<string, seq<DpExt>> {
    groups[context := (if context in groups then groups[context] else []) + [item]]
  }

  predicate Kept(e: Extension, filter: string) {
    e.enabled && (filter == "" || e.context == filter)
  }

  lemma GroupedNext(exts: seq<Extension>, filter: string, groups: map<string, seq<DpExt>>, e: Extension)
    requires Grouped(exts, filter, groups)
    ensures Grouped(exts + [e], filter, if Kept(e, filter) then WithItem(groups, e.context, Item(e)) else groups)
  {
    hide Item, Items, Order.Filter;
    var next := if Kept(e, filter) then WithItem(groups, e.context, Item(e)) else groups;
    forall c: string
      ensures var all := Order.Filter(exts + [e], Shown(filter, c));
              (c in next <==> all != []) && (c in next ==> next[c] == Items(all))
    {
      var before := Order.Filter(exts, Shown(filter, c));
      FilterNext(exts, e, Shown(filter, c));
      if Shown(filter, c)(e) {
        ItemsNext(before, e);
        if c !in groups {
          assert before == [];
          assert Items([]) == [] by { NoItems(); }
        }
      }
    }
  }

  lemma NoItems()
    ensures Items([]) == []
  {
  }

  lemma FilterNext(exts: seq<Extension>, e: Extension, p: Extension -> bool)
    ensures Order.Filter(exts + [e], p) == if p(e) then Order.Filter(exts, p) + [e] else Order.Filter(exts, p)
  {
    Order.FilterAppend(exts, [e], p);
    assert Order.Filter([e], p) == if p(e) then [e] else [];
  }

  method GroupByContext(exts: seq<Extension>, filter: string) returns (byContext: map<string, seq<DpExt>>)
    ensures Grouped(exts, filter, byContext)
  {
    hide Grouped, Item, Shown;
    byContext := map[];
    NoneGrouped(filter);
    for i := 0 to |exts|
      invariant Grouped(exts[..i], filter, byContext)
    {
      var e := exts[i];
      GroupedNext(exts[..i], filter, byContext, e);
      assert exts[..i + 1] == exts[..i] + [e];
      if !e.enabled {
        continue;
      }
      if filter != "" && e.context != filter {
        continue;
      }
      var ext := RenderExtension(e);
      byContext := byContext[e.context := (if e.context in byContext then byContext[e.context] else []) + [ext]];
    }
    assert exts[..|exts|] == exts;
  }

  /** RenderDialplan */
  method RenderDialplan(exts: seq<Extension>, filter: string) returns (doc: seq<DpContext>)
    ensures IsDocument(exts, filter, doc)
  {
    hide Grouped, IsDocument, Order.StrictlyAscending, Distinct, Order.Sort, Order.Lt, Item, Shown;
    var byContext := GroupByContext(exts, filter);
    var names := Order.KeysOf(byContext);
    Order.SortDistinct(names);
    names := Order.Sort(names);
    doc := [];
    for i := 0 to |names|
      invariant |doc| == i
      invariant forall k :: 0 <= k < i ==> doc[k] == DpContext(names[k], byContext[names[k]])
    {
      assert names[i] in names;
      doc := doc + [DpContext(names[i], byContext[names[i]])];
    }
    assert forall k :: 0 <= k < |names| ==> names[k] in names;
    Contexts(exts, filter, byContext, names, doc);
  }

  lemma NoneGrouped(filter: string)
    ensures Grouped([], filter, map[])
  {
  }

  lemma Contexts(exts: seq<Extension>, filter: string, groups: map<string, seq<DpExt>>, names: seq<string>,
                 doc: seq<DpContext>)
    requires Grouped(exts, filter, groups) && Order.StrictlyAscending(names) && forall c :: c in names <==> c in groups
    requires |doc| == |names| && forall k :: 0 <= k < |doc| ==> names[k] in groups
    requires forall k :: 0 <= k < |doc| ==> doc[k] == DpContext(names[k], groups[names[k]])
    ensures IsDocument(exts, filter, doc)
  {
    hide Order.Lt;
    assert Names(doc) == names;
  }

  /** There is one such document. */
  lemma DocumentUnique(exts: seq<Extension>, filter: string, d: seq<DpContext>, e: seq<DpContext>)
    requires IsDocument(exts, filter, d) && IsDocument(exts, filter, e)
    ensures d == e
  {
    hide Order.Lt, Items, Shown;
    Order.StrictlyAscendingUnique(Names(d), Names(e));
    assert |d| == |Names(d)| == |Names(e)| == |e|;
    forall i | 0 <= i < |d|
      ensures d[i] == e[i]
    {
      assert Names(d)[i] == Names(e)[i];
    }
  }

  // ---------- conference rooms ----------

  /** ConferenceRoomExtension */
  function RoomExtension(id: Id, r: Room): Extension {
    var data := r.name + "@" + r.profile + if r.pin != "" then "+" + r.pin else "";
    var limit := if r.maxMembers > 0 then [Action("set", "conference_max_members=" + Itoa(r.maxMembers))] else [];
    Extension(id, r.domain, "conference-" + r.name, r.context, r.priority, r.enabled,
              [Condition("destination_number", "^(" + r.number + ")$", map[],
                         [Action("answer", "")] + limit + [Action("conference", data)])])
  }

  function RoomExtensions(rooms: seq<(Id, Room)>): seq<Extension> {
    seq(|rooms|, i requires 0 <= i < |rooms| => RoomExtension(rooms[i].0, rooms[i].1))
  }

  /** A room never renders bare, and validates like a hand-written extension when its number makes a regex. */
  lemma RoomsRoute(id: Id, r: Room, compiles: string -> bool)
    ensures var e := RoomExtension(id, r); |e.conditions| == 1 && HasAttribute(Rendered(e.conditions[0]))
    ensures r.context != "" && compiles("^(" + r.number + ")$") ==> ValidExtension(RoomExtension(id, r), compiles)
    ensures var e := RoomExtension(id, r);
            && e.context == r.context && e.domain == r.domain && e.priority == r.priority && e.enabled == r.enabled
            && |e.name| == 11 + |r.name| && e.name[..11] == "conference-" && e.name[11..] == r.name
            && e.conditions[0].field == "destination_number" && e.conditions[0].time == map[]
            && e.conditions[0].expression == "^(" + r.number + ")$"
  {
    hide Itoa;
    assert RoomExtension(id, r).conditions[0].field != "";
  }

  /** In the store no two rooms tie, and no two of a context answer the same number. */
  lemma RoomsNeverTie(t: Tables, a: Id, b: Id)
    requires Integrity(t) && a in t.rooms && b in t.rooms && a != b
    ensures !StableSort.Ties(RoomExtension(a, t.rooms[a]), RoomExtension(b, t.rooms[b]))
    ensures t.rooms[a].context == t.rooms[b].context ==>
              RoomExtension(a, t.rooms[a]).conditions[0].expression
              != RoomExtension(b, t.rooms[b]).conditions[0].expression
  {
    var q, r := t.rooms[a], t.rooms[b];
    assert UniqueRooms(t.rooms) && !SameRoom(q, r);
    hide Itoa, Integrity;
    var e, f := RoomExtension(a, q), RoomExtension(b, r);
    Order.LtTotal(e.name, f.name);
    Order.LtTotal(q.context, r.context);
    assert e.name[11..] == q.name && f.name[11..] == r.name;
    var x, y := e.conditions[0].expression, f.conditions[0].expression;
    assert x[2..|x| - 2] == q.number && y[2..|y| - 2] == r.number;
  }

  /** What a room does with its caller: answer, set the member limit if there is one, and enter the
      conference of its name and profile, with the pin if there is one; the limit reads back as set. */
  lemma RoomActions(id: Id, r: Room)
    requires r.maxMembers <= MAX_INT
    ensures var actions := RoomExtension(id, r).conditions[0].actions;
            var last := actions[|actions| - 1];
            && |actions| == (if r.maxMembers > 0 then 3 else 2)
            && actions[0] == Action("answer", "") && last.application == "conference"
            && last.data[..|r.name|] == r.name && last.data[|r.name|..|r.name| + 1 + |r.profile|] == "@" + r.profile
            && (last.data == r.name + "@" + r.profile <==> r.pin == "")
            && (r.pin != "" ==> last.data[|last.data| - |r.pin| - 1..] == "+" + r.pin)
            && (r.maxMembers > 0 ==> actions[1].application == "set" && |actions[1].data| >= 23
                                     && actions[1].data[..23] == "conference_max_members="
                                     && Atoi(actions[1].data[23..]) == r.maxMembers)
  {
    hide Itoa, Atoi;
    var head := r.name + "@" + r.profile;
    var tail := if r.pin != "" then "+" + r.pin else "";
    assert (head + tail)[..|r.name|] == r.name;
    assert (head + tail)[|r.name|..|head|] == "@" + r.profile;
    assert (head + tail)[|head|..] == tail;
    if r.maxMembers > 0 {
      AtoiItoa(r.maxMembers);
      var limit := "conference_max_members=" + Itoa(r.maxMembers);
      assert limit[..23] == "conference_max_members=" && limit[23..] == Itoa(r.maxMembers);
    }
  }

  // ---------- the request ----------

  datatype Reply = Failed | NotFoundDocument | Document(contexts: seq<DpContext>)

  /** The reply to a request whose listings were `exts` and `rooms`. */
  ghost predicate Answered(exts: seq<Extension>, rooms: seq<(Id, Room)>, context: string, reply: Reply) {
    var all := exts + RoomExtensions(rooms);
    if context != "" && all == [] then reply == NotFoundDocument
    else reply.Document? && IsDocument(StableSort.Sort(all), context, reply.contexts)
  }

  /** The request for a context is answered from some listing of what is saved and of the rooms. */
  ghost predicate Replies(saved: map<Id, Extension>, rooms: map<Id, Room>, le: (string, string) -> bool,
                          context: string,
                          reply: Reply) {
    exists exts, listed ::
      Listing(saved, "", context, le, exts) && RoomListing(rooms, context, le, listed)
      && Answered(exts, listed, context, reply)
  }

  /** handleXMLDialplan */
  method HandleXmlDialplan(store: Dialplan, huntContext: string, formContext: string) returns (reply: Reply)
    requires store.Valid()
    ensures var context := if huntContext == "" then formContext else huntContext;
            reply == Failed || Replies(store.saved, store.db.rooms, store.collate, context, reply)
  {
    hide IsDocument, StableSort.Sort, Listing, RoomListing, RoomExtension, RoomExtensions, Integrity, Refines;
    var context := huntContext;
    if context == "" {
      context := formContext;
    }
    var listed := store.List("", context);
    if listed.Err? {
      return Failed;
    }
    var rooms := store.ListRooms(context);
    if rooms.Err? {
      return Failed;
    }
    var all := listed.value;
    NoRooms();
    for i := 0 to |rooms.value|
      invariant all == listed.value + RoomExtensions(rooms.value[..i])
    {
      all := all + [RoomExtension(rooms.value[i].0, rooms.value[i].1)];
      NextRoom(rooms.value[..i], rooms.value[i]);
      assert rooms.value[..i + 1] == rooms.value[..i] + [rooms.value[i]];
    }
    assert rooms.value[..|rooms.value|] == rooms.value;
    SortedEmpty(all);
    all := StableSort.Sort(all);
    if context != "" && all == [] {
      reply := NotFoundDocument;
    } else {
      var doc := RenderDialplan(all, context);
      reply := Document(doc);
    }
    assert Answered(listed.value, rooms.value, context, reply);
  }

  lemma NoRooms()
    ensures RoomExtensions([]) == []
  {
  }

  lemma NextRoom(rooms: seq<(Id, Room)>, r: (Id, Room))
    ensures RoomExtensions(rooms + [r]) == RoomExtensions(rooms) + [RoomExtension(r.0, r.1)]
  {
    hide RoomExtension;
  }

  lemma SortedEmpty(s: seq<Extension>)
    ensures StableSort.Sort(s) == [] <==> s == []
  {
    StableSort.SortMultiset(s);
    assert |StableSort.Sort(s)| == |multiset(StableSort.Sort(s))| == |multiset(s)| == |s|;
  }

  // ---------- routing ----------

  /** The extensions of a context in the document, in the order FreeSWITCH walks them. */
  function ContextOf(doc: seq<DpContext>, c: string): seq<DpExt> {
    if doc == [] then [] else if doc[0].name == c then doc[0].extensions else ContextOf(doc[1..], c)
  }

  /** The first extension that matches, whatever matching means for the call at hand. */
  function FirstMatch(items: seq<DpExt>, matches: DpExt -> bool): Option<DpExt> {
    if items == [] then None else if matches(items[0]) then Some(items[0]) else FirstMatch(items[1..], matches)
  }

  lemma {:induction false} ContextFound(doc: seq<DpContext>, c: string, i: nat)
    requires i < |doc| && doc[i].name == c && forall k :: 0 <= k < i ==> doc[k].name != c
    ensures ContextOf(doc, c) == doc[i].extensions
  {
    if i > 0 {
      ContextFound(doc[1..], c, i - 1);
    }
  }

  lemma {:induction false} ContextAbsent(doc: seq<DpContext>, c: string)
    requires c !in Names(doc)
    ensures ContextOf(doc, c) == []
  {
    if doc != [] {
      assert Names(doc)[0] == doc[0].name;
      forall k | 0 <= k < |doc[1..]|
        ensures Names(doc[1..])[k] != c
      {
        assert Names(doc[1..])[k] == Names(doc)[k + 1];
      }
      ContextAbsent(doc[1..], c);
    }
  }

  /** A context of the document is what the filter shows of it, in order. */
  lemma ContextIs(exts: seq<Extension>, filter: string, doc: seq<DpContext>, c: string)
    requires IsDocument(exts, filter, doc)
    ensures ContextOf(doc, c) == Items(Order.Filter(exts, Shown(filter, c)))
  {
    hide Shown, Order.Filter, Item, Order.Lt;
    if c in Names(doc) {
      var i :| 0 <= i < |Names(doc)| && Names(doc)[i] == c;
      forall k | 0 <= k < i
        ensures doc[k].name != c
      {
        assert Order.Lt(Names(doc)[k], Names(doc)[i]);
        Order.LtTotal(Names(doc)[k], Names(doc)[i]);
      }
      ContextFound(doc, c, i);
    } else {
      ContextAbsent(doc, c);
      NoItems();
    }
  }

  function Matching(filter: string, c: string, matches: DpExt -> bool): Extension -> bool {
    (e: Extension) => Shown(filter, c)(e) && matches(Item(e))
  }

  lemma ItemsTail(e: Extension, rest: seq<Extension>)
    ensures Items([e] + rest) != [] && Items([e] + rest)[0] == Item(e) && Items([e] + rest)[1..] == Items(rest)
  {
    hide Item;
  }

  lemma {:induction false} FilterTwice(s: seq<Extension>, filter: string, c: string, matches: DpExt -> bool)
    ensures FirstMatch(Items(Order.Filter(s, Shown(filter, c))), matches) ==
              var f := Order.Filter(s, Matching(filter, c, matches));
              if f == [] then None else Some(Item(f[0]))
  {
    hide Item, Items, Shown;
    if s == [] {
      NoItems();
    } else {
      FilterTwice(s[1..], filter, c, matches);
      var rest := Order.Filter(s[1..], Shown(filter, c));
      if Shown(filter, c)(s[0]) {
        ItemsTail(s[0], rest);
      } else {
        assert [] + rest == rest;
      }
    }
  }

  /** The enabled extensions and rooms of a context that pass a test. */
  function Candidate(c: string, matches: DpExt -> bool): Extension -> bool {
    (e: Extension) => e.enabled && e.context == c && matches(Item(e))
  }

  /** Candidate k wins: it has the smallest priority, then the smallest name, then the first place. */
  predicate Wins(candidates: seq<Extension>, k: int) {
    && 0 <= k < |candidates|
    && forall j :: 0 <= j < |candidates| ==>
         || candidates[k].priority < candidates[j].priority
         || (candidates[k].priority == candidates[j].priority && Order.Lt(candidates[k].name, candidates[j].name))
         || (candidates[k].priority == candidates[j].priority && candidates[k].name == candidates[j].name && k <= j)
  }

  lemma {:induction false} SameFilter(s: seq<Extension>, p: Extension -> bool, q: Extension -> bool)
    requires forall e :: p(e) == q(e)
    ensures Order.Filter(s, p) == Order.Filter(s, q)
  {
    if s != [] {
      SameFilter(s[1..], p, q);
    }
  }

  /** Routing is kept: for every test that a call may put to an extension, the first extension of the
      context that passes it in the document is the one with the lowest priority, then the lowest name,
      then the first place in the listing, among all the enabled stored extensions and rooms of that
      context that pass it. If none passes there is none in the document either. */
  lemma RoutingKept(exts: seq<Extension>, rooms: seq<(Id, Room)>, context: string, reply: Reply, c: string,
                    matches: DpExt -> bool)
    requires Answered(exts, rooms, context, reply) && reply.Document? && (context == "" || context == c)
    ensures var candidates := Order.Filter(exts + RoomExtensions(rooms), Candidate(c, matches));
            var first := FirstMatch(ContextOf(reply.contexts, c), matches);
            && (first == None <==> candidates == [])
            && (first.Some? ==> exists k :: Wins(candidates, k) && first.value == Item(candidates[k]))
  {
    hide IsDocument, Order.Filter, Item, StableSort.FirstAt, StableSort.Sort, RoomExtensions, ContextOf, FirstMatch,
         Wins;
    var all := exts + RoomExtensions(rooms);
    ContextIs(StableSort.Sort(all), context, reply.contexts, c);
    FilterTwice(StableSort.Sort(all), context, c, matches);
    StableSort.FilterSort(all, Matching(context, c, matches));
    SameFilter(all, Matching(context, c, matches), Candidate(c, matches));
    var candidates := Order.Filter(all, Candidate(c, matches));
    SortedEmpty(candidates);
    if candidates != [] {
      StableSort.SortHead(candidates);
      var k :| 0 <= k < |candidates| && StableSort.FirstAt(candidates, k)
               && StableSort.Sort(candidates)[0] == candidates[k];
      FirstWins(candidates, c, k);
    }
  }

  lemma FirstWins(candidates: seq<Extension>, c: string, k: int)
    requires StableSort.FirstAt(candidates, k) && forall e :: e in candidates ==> e.context == c
    ensures Wins(candidates, k)
  {
    hide Order.Lt;
    assert forall j :: 0 <= j < |candidates| ==> candidates[j] in candidates;
    StableSort.FirstIs(candidates, k);
  }

  /** Extensions of one context in order: by priority, smaller numbers first, then by name. */
  predicate InOrder(r: seq<Extension>) {
    forall i, j :: 0 <= i < j < |r| ==>
      r[i].priority < r[j].priority || (r[i].priority == r[j].priority && Order.Le(r[i].name, r[j].name))
  }

  /** Every context holds each of its enabled extensions and rooms as often as they are listed, smaller
      priorities first and equal ones by name, and nothing else. */
  lemma EachOnce(exts: seq<Extension>, rooms: seq<(Id, Room)>, context: string, reply: Reply, c: string)
    requires Answered(exts, rooms, context, reply) && reply.Document?
    ensures exists r :: ContextOf(reply.contexts, c) == Items(r) && InOrder(r)
                     && forall e: Extension :: multiset(r)[e] ==
                          if e.enabled && e.context == c && (context == "" || context == c)
                          then multiset(exts + RoomExtensions(rooms))[e] else 0
  {
    hide IsDocument, Item, StableSort.Sort, RoomExtensions, ContextOf, InOrder;
    var all := exts + RoomExtensions(rooms);
    ContextIs(StableSort.Sort(all), context, reply.contexts, c);
    StableSort.FilterSort(all, Shown(context, c));
    var r := StableSort.Sort(Order.Filter(all, Shown(context, c)));
    StableSort.SortSorted(Order.Filter(all, Shown(context, c)));
    StableSort.SortMultiset(Order.Filter(all, Shown(context, c)));
    forall e: Extension
      ensures multiset(r)[e] == if e.enabled && e.context == c && (context == "" || context == c)
                                then multiset(all)[e] else 0
    {
      Order.FilterCount(all, Shown(context, c), e);
    }
    forall e | e in r
      ensures e.context == c
    {
      assert multiset(r)[e] > 0;
    }
    OneContextInOrder(r, c);
    assert ContextOf(reply.contexts, c) == Items(r);
  }

  lemma OneContextInOrder(r: seq<Extension>, c: string)
    requires StableSort.Sorted(r) && forall e :: e in r ==> e.context == c
    ensures InOrder(r)
  {
    hide Order.Lt;
    Order.LtTotal(c, c);
    assert forall i :: 0 <= i < |r| ==> r[i] in r;
    StableSort.SortedIs(r);
  }

  function InContext(c: string): Extension -> bool {
    (e: Extension) => e.context == c
  }

  lemma {:induction false} ShownOfOne(s: seq<Extension>, c: string, name: string)
    ensures Order.Filter(Order.Filter(s, InContext(c)), Shown(c, name)) ==
              if name == c then Order.Filter(s, Shown("", c)) else []
  {
    if s != [] {
      var rest := Order.Filter(s[1..], InContext(c));
      ShownOfOne(s[1..], c, name);
      StableSort.FilterCons(s[0], rest, Shown(c, name));
      assert [] + rest == rest;
    }
  }

  lemma OneDocument(sorted: seq<Extension>, some: seq<Extension>, c: string, whole: seq<DpContext>)
    requires IsDocument(sorted, "", whole) && ContextOf(whole, c) == Items(Order.Filter(sorted, Shown("", c)))
    requires forall name :: Order.Filter(some, Shown(c, name))
                               == if name == c then Order.Filter(sorted, Shown("", c)) else []
    ensures IsDocument(some, c, if c in Names(whole) then [DpContext(c, ContextOf(whole, c))] else [])
  {
    hide Item, Shown, Order.Lt, Order.Filter, Items, ContextOf;
    var want := if c in Names(whole) then [DpContext(c, ContextOf(whole, c))] else [];
    assert Names(want) == if c in Names(whole) then [c] else [];
    assert c in Names(whole) <==> Order.Filter(sorted, Shown("", c)) != [];
  }

  /** Asking for one context gives that context of the whole document, and nothing when it shows none. */
  lemma OneContext(all: seq<Extension>, c: string, whole: seq<DpContext>, one: seq<DpContext>)
    requires c != "" && IsDocument(StableSort.Sort(all), "", whole)
    requires IsDocument(StableSort.Sort(Order.Filter(all, InContext(c))), c, one)
    ensures one == if c in Names(whole) then [DpContext(c, ContextOf(whole, c))] else []
  {
    hide Item, Shown, Order.Lt, IsDocument, StableSort.Sort, Items, ContextOf;
    var sorted := StableSort.Sort(all);
    var some := Order.Filter(sorted, InContext(c));
    StableSort.FilterSort(all, InContext(c));
    ContextIs(sorted, "", whole, c);
    forall name
      ensures Order.Filter(some, Shown(c, name)) == if name == c then Order.Filter(sorted, Shown("", c)) else []
    {
      ShownOfOne(sorted, c, name);
    }
    hide Order.Filter;
    OneDocument(sorted, some, c, whole);
    DocumentUnique(some, c, one, if c in Names(whole) then [DpContext(c, ContextOf(whole, c))] else []);
  }

  lemma {:induction false} NoneShown(s: seq<Extension>, filter: string, c: string)
    requires forall i :: 0 <= i < |s| ==> !s[i].enabled
    ensures Order.Filter(s, Shown(filter, c)) == []
  {
    if s != [] {
      NoneShown(s[1..], filter, c);
    }
  }

  /** Not found is the answer exactly for a named context that has no extension and no room at all; a
      context whose every extension is disabled gets an empty document instead. */
  lemma NotFoundIff(exts: seq<Extension>, rooms: seq<(Id, Room)>, context: string, reply: Reply)
    requires Answered(exts, rooms, context, reply)
    ensures reply == NotFoundDocument <==> context != "" && exts == [] && rooms == []
    ensures (forall e :: e in exts + RoomExtensions(rooms) ==> !e.enabled) && exts + RoomExtensions(rooms) != [] ==>
              reply == Document([])
  {
    hide Order.Lt, StableSort.Sort, RoomExtension;
    var all := exts + RoomExtensions(rooms);
    assert |all| == |exts| + |rooms|;
    if (forall e :: e in all ==> !e.enabled) && all != [] {
      var sorted := StableSort.Sort(all);
      StableSort.SortMultiset(all);
      assert forall e :: e in sorted ==> e in multiset(sorted);
      assert forall i :: 0 <= i < |sorted| ==> sorted[i] in sorted;
      forall c
        ensures Order.Filter(sorted, Shown(context, c)) == []
      {
        NoneShown(sorted, context, c);
      }
      assert IsDocument(sorted, context, []);
      DocumentUnique(sorted, context, reply.contexts, []);
    }
  }

  lemma ListedIsShown(exts: seq<Extension>, rooms: seq<(Id, Room)>, context: string, reply: Reply, e: Extension)
    requires Answered(exts, rooms, context, reply) && e in exts + RoomExtensions(rooms)
    requires e.enabled && (context == "" || e.context == context)
    ensures reply.Document? && Item(e) in ContextOf(reply.contexts, e.context)
  {
    hide IsDocument, Item, StableSort.Sort, RoomExtensions, ContextOf;
    var all := exts + RoomExtensions(rooms);
    var sorted := StableSort.Sort(all);
    StableSort.SortMultiset(all);
    assert e in multiset(all);
    assert e in sorted;
    ContextIs(sorted, context, reply.contexts, e.context);
    var f := Order.Filter(sorted, Shown(context, e.context));
    assert e in f;
    var k :| 0 <= k < |f| && f[k] == e;
    assert Items(f)[k] == Item(e);
  }

  /** What was saved is what callers get: every enabled saved extension and every enabled room is in the
      document of its context. */
  lemma SavedIsShown(saved: map<Id, Extension>, table: map<Id, Room>, le: (string, string) -> bool, context: string,
                     reply: Reply, id: Id)
    requires Replies(saved, table, le, context, reply)
    ensures id in saved && saved[id].enabled && (context == "" || saved[id].context == context) ==>
              reply.Document? && Item(saved[id]) in ContextOf(reply.contexts, saved[id].context)
    ensures id in table && table[id].enabled && (context == "" || table[id].context == context) ==>
              reply.Document? && Item(RoomExtension(id, table[id])) in ContextOf(reply.contexts, table[id].context)
  {
    hide Item, ContextOf, Answered;
    var exts, rooms :| Listing(saved, "", context, le, exts) && RoomListing(table, context, le, rooms)
                       && Answered(exts, rooms, context, reply);
    if id in saved && saved[id].enabled && (context == "" || saved[id].context == context) {
      assert saved[id] in exts;
      ListedIsShown(exts, rooms, context, reply, saved[id]);
    }
    if id in table && table[id].enabled && (context == "" || table[id].context == context) {
      assert (id, table[id]) in rooms;
      var k :| 0 <= k < |rooms| && rooms[k] == (id, table[id]);
      assert RoomExtensions(rooms)[k] == RoomExtension(id, table[id]);
      ListedIsShown(exts, rooms, context, reply, RoomExtension(id, table[id]));
    }
  }
}
