/** What rendering does to routing: a time key that the document drops is a test that calls no longer
    have to pass. When that can be seen, and when not. */
module DialplanRouting {
  import Order
  import opened DialplanStore
  import opened DialplanRender
  import StableSort

  /** One thing that a condition asks of a call: a regular expression on a field, or a time attribute. */
  datatype Test = Regex(field: string, expression: string) | Clock(key: string, value: string)

  /** A call, by the tests that it passes. */
  type Call = Test -> bool

  function Regexes(field: string, expression: string): set<Test> {
    if field == "" && expression == "" then {} else {Regex(field, expression)}
  }

  /** What a stored condition asks: its regular expression, and every one of its time keys. */
  function Asked(c: Condition): set<Test> {
    Regexes(c.field, c.expression) + set k | k in c.time :: Clock(k, c.time[k])
  }

  function AskedOf(e: Extension): set<Test> {
    set i, t | 0 <= i < |e.conditions| && t in Asked(e.conditions[i]) :: t
  }

  /** An empty attribute is not written, so it asks nothing. */
  function Attribute(key: string, value: string): set<Test> {
    if value == "" then {} else {Clock(key, value)}
  }

  /** What a rendered condition asks. */
  function Shows(c: DpCond): set<Test> {
    Regexes(c.field, c.expression)
    + Attribute("wday", c.wday) + Attribute("mday", c.mday) + Attribute("mon", c.mon) + Attribute("mweek", c.mweek)
    + Attribute("week", c.week) + Attribute("hour", c.hour) + Attribute("minute", c.minute)
    + Attribute("time-of-day", c.timeOfDay) + Attribute("date-time", c.dateTime)
  }

  function ShowsOf(x: DpExt): set<Test> {
    set i, t | 0 <= i < |x.conditions| && t in Shows(x.conditions[i]) :: t
  }

  /** The tests that can be written: a regular expression, or a supported time key with a value. */
  predicate Writable(t: Test) {
    t.Regex? || (t.key in SUPPORTED && t.value != "")
  }

  function Written(tests: set<Test>): set<Test> {
    set t | t in tests && Writable(t)
  }

  lemma AttributeIs(c: Condition, key: string, t: Test)
    ensures t in Attribute(key, Lookup(c.time, key)) <==>
              t.Clock? && t.key == key && t.value != "" && key in c.time && c.time[key] == t.value
  {
  }

  /** Rendering a condition keeps exactly the tests that can be written. */
  lemma ShowsWritten(c: Condition)
    ensures Shows(Rendered(c)) == Written(Asked(c))
  {
    forall t
      ensures t in Shows(Rendered(c)) <==> t in Written(Asked(c))
    {
      AttributeIs(c, "wday", t);
      AttributeIs(c, "mday", t);
      AttributeIs(c, "mon", t);
      AttributeIs(c, "mweek", t);
      AttributeIs(c, "week", t);
      AttributeIs(c, "hour", t);
      AttributeIs(c, "minute", t);
      AttributeIs(c, "time-of-day", t);
      AttributeIs(c, "date-time", t);
      hide Attribute, Lookup;
    }
  }

  lemma ItemWritten(e: Extension)
    ensures ShowsOf(Item(e)) == Written(AskedOf(e))
  {
    hide Rendered, Shows, Asked, Writable;
    forall t
      ensures t in ShowsOf(Item(e)) <==> t in Written(AskedOf(e))
    {
      if t in ShowsOf(Item(e)) {
        var i :| 0 <= i < |Item(e).conditions| && t in Shows(Item(e).conditions[i]);
        ShowsWritten(e.conditions[i]);
        assert t in Asked(e.conditions[i]);
      }
      if t in Written(AskedOf(e)) {
        var i :| 0 <= i < |e.conditions| && t in Asked(e.conditions[i]);
        ShowsWritten(e.conditions[i]);
        assert t in Shows(Item(e).conditions[i]);
      }
    }
  }

  // ---------- first matches ----------

  /** All conditions of an extension have to hold. */
  ghost predicate Passes(call: Call, tests: set<Test>) {
    forall t :: t in tests ==> call(t)
  }

  /** The position of the first extension that takes the call; the length when none does. */
  ghost function First(asks: seq<set<Test>>, call: Call): (i: nat)
    ensures i <= |asks|
    ensures forall j :: 0 <= j < i ==> !Passes(call, asks[j])
    ensures i < |asks| ==> Passes(call, asks[i])
  {
    if asks == [] || Passes(call, asks[0]) then 0
    else
      var i := First(asks[1..], call);
      assert forall j :: 0 < j <= i ==> asks[j] == asks[1..][j - 1];
      1 + i
  }

  function AllWritten(asks: seq<set<Test>>): seq<set<Test>> {
    seq(|asks|, i requires 0 <= i < |asks| => Written(asks[i]))
  }

  /** An extension that loses a test is shadowed by an earlier one that asks no more of a call. */
  ghost predicate Shadowed(asks: seq<set<Test>>, i: nat)
    requires i < |asks|
  {
    exists j :: 0 <= j < i && Written(asks[j]) <= Written(asks[i])
  }

  ghost predicate Loses(tests: set<Test>) {
    exists t :: t in tests && !Writable(t)
  }

  lemma AgreeOn(asks: seq<set<Test>>, call: Call)
    requires forall i: nat :: i < |asks| && Loses(asks[i]) ==> Shadowed(asks, i)
    ensures First(asks, call) == First(AllWritten(asks), call)
  {
    hide Writable;
    var i := First(AllWritten(asks), call);
    forall j | 0 <= j < i
      ensures !Passes(call, asks[j])
    {
      assert !Passes(call, AllWritten(asks)[j]);
    }
    assert forall j :: 0 <= j < i ==> AllWritten(asks)[j] == Written(asks[j]);
    if i < |asks| {
      assert Passes(call, Written(asks[i])) by { assert Passes(call, AllWritten(asks)[i]); }
      if !Loses(asks[i]) {
        assert asks[i] == Written(asks[i]);
      }
    }
  }

  /** The call that shows the difference: it passes what is written of the extension, and nothing else. */
  lemma Differ(asks: seq<set<Test>>, i: nat)
    requires i < |asks| && Loses(asks[i]) && !Shadowed(asks, i)
    ensures var call := (t: Test) => t in Written(asks[i]);
            First(AllWritten(asks), call) == i && First(asks, call) != i
  {
    hide Writable;
    var call := (t: Test) => t in Written(asks[i]);
    var kept := AllWritten(asks);
    assert Passes(call, kept[i]);
    forall j | 0 <= j < i
      ensures !Passes(call, kept[j])
    {
      var t :| t in Written(asks[j]) && t !in Written(asks[i]);
      assert t in kept[j] && !call(t);
    }
    var lost :| lost in asks[i] && !Writable(lost);
    assert !call(lost);
  }

  /** The first match is the same for every call exactly when every extension that loses a test is
      shadowed by an earlier one. */
  lemma AgreeIff(asks: seq<set<Test>>)
    ensures (forall call: Call :: First(asks, call) == First(AllWritten(asks), call)) <==>
              forall i: nat :: i < |asks| && Loses(asks[i]) ==> Shadowed(asks, i)
  {
    if forall i: nat :: i < |asks| && Loses(asks[i]) ==> Shadowed(asks, i) {
      forall call: Call
        ensures First(asks, call) == First(AllWritten(asks), call)
      {
        AgreeOn(asks, call);
      }
    } else {
      var i: nat :| i < |asks| && Loses(asks[i]) && !Shadowed(asks, i);
      Differ(asks, i);
      var call := (t: Test) => t in Written(asks[i]);
      assert First(asks, call) != First(AllWritten(asks), call);
    }
  }

  // ---------- in the document ----------

  function Asks(s: seq<Extension>): seq<set<Test>> {
    seq(|s|, i requires 0 <= i < |s| => AskedOf(s[i]))
  }

  function ItemAsks(items: seq<DpExt>): seq<set<Test>> {
    seq(|items|, i requires 0 <= i < |items| => ShowsOf(items[i]))
  }

  lemma ItemsAsk(s: seq<Extension>)
    ensures ItemAsks(Items(s)) == AllWritten(Asks(s))
  {
    hide Item, AskedOf, ShowsOf, Written;
    forall i | 0 <= i < |s|
      ensures ItemAsks(Items(s))[i] == AllWritten(Asks(s))[i]
    {
      ItemWritten(s[i]);
    }
  }

  /** The enabled extensions and rooms of a context, as stored, in the order in which they are tried. */
  ghost function Tried(all: seq<Extension>, filter: string, c: string): seq<Extension> {
    Order.Filter(StableSort.Sort(all), Shown(filter, c))
  }

  /** The position where a call ends up among the stored extensions of a context and among those of the
      document is the same for every call if and only if every one of them that loses a time key in
      rendering comes after one that asks no more of a call, so that it can never be reached. */
  lemma RoutingSameIff(all: seq<Extension>, filter: string, doc: seq<DpContext>, c: string)
    requires IsDocument(StableSort.Sort(all), filter, doc)
    ensures var tried := Asks(Tried(all, filter, c));
            (forall call: Call :: First(tried, call) == First(ItemAsks(ContextOf(doc, c)), call)) <==>
              forall i: nat :: i < |tried| && Loses(tried[i]) ==> Shadowed(tried, i)
  {
    hide IsDocument, Shown, Item, First, Loses, Shadowed, AskedOf, ShowsOf;
    ContextIs(StableSort.Sort(all), filter, doc, c);
    ItemsAsk(Tried(all, filter, c));
    AgreeIff(Asks(Tried(all, filter, c)));
  }

  /** The key is one that rendering drops, or has no value. */
  predicate KeyLost(c: Condition, key: string) {
    key in c.time && (key !in SUPPORTED || c.time[key] == "")
  }

  ghost predicate LosesKey(e: Extension) {
    exists i, key :: 0 <= i < |e.conditions| && KeyLost(e.conditions[i], key)
  }

  /** An extension loses a test exactly when one of its time keys is unsupported or empty. */
  lemma LosesIff(e: Extension)
    ensures Loses(AskedOf(e)) <==> LosesKey(e)
  {
    if Loses(AskedOf(e)) {
      var t :| t in AskedOf(e) && !Writable(t);
      var i :| 0 <= i < |e.conditions| && t in Asked(e.conditions[i]);
      assert KeyLost(e.conditions[i], t.key);
    }
    if LosesKey(e) {
      var i, key :| 0 <= i < |e.conditions| && KeyLost(e.conditions[i], key);
      var t := Clock(key, e.conditions[i].time[key]);
      assert t in Asked(e.conditions[i]);
      assert t in AskedOf(e) && !Writable(t);
    }
  }

  /** With supported time keys that all have values, rendering cannot be noticed by any call. */
  lemma SupportedKeysRoute(all: seq<Extension>, filter: string, doc: seq<DpContext>, c: string, call: Call)
    requires IsDocument(StableSort.Sort(all), filter, doc)
    requires forall i :: 0 <= i < |all| && all[i].enabled && all[i].context == c ==> !LosesKey(all[i])
    ensures First(Asks(Tried(all, filter, c)), call) == First(ItemAsks(ContextOf(doc, c)), call)
  {
    hide IsDocument, Item, First, LosesKey, AskedOf, ShowsOf, StableSort.Sort;
    RoutingSameIff(all, filter, doc, c);
    var tried := Tried(all, filter, c);
    StableSort.SortMultiset(all);
    forall i: nat | i < |tried|
      ensures !Loses(Asks(tried)[i])
    {
      assert tried[i] in tried;
      assert tried[i] in multiset(StableSort.Sort(all));
      assert tried[i] in all;
      LosesIff(tried[i]);
    }
  }
}
