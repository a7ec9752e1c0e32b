/** sort.SliceStable by (context, priority, name): what it leaves, and how it meets filters. */
module StableSort {
  import Order
  import opened DialplanStore

  /** The order of the rendered dialplan, text by bytes: context, then priority, then name. */
  predicate Before(e: Extension, f: Extension) {
    if e.context != f.context then Order.Lt(e.context, f.context)
    else if e.priority != f.priority then e.priority < f.priority
    else Order.Lt(e.name, f.name)
  }

  lemma BeforeOrders(e: Extension, f: Extension, g: Extension)
    ensures !Before(e, e) && !(Before(e, f) && Before(f, e))
    ensures !Before(f, e) && !Before(g, f) ==> !Before(g, e)
  {
    hide Order.Lt;
    Order.LtTotal(e.context, f.context);
    Order.LtTotal(f.context, g.context);
    Order.LtTotal(e.context, g.context);
    Order.LtTotal(e.name, f.name);
    Order.LtTotal(f.name, g.name);
    Order.LtTotal(e.name, g.name);
    if Order.Lt(e.context, f.context) && Order.Lt(f.context, g.context) {
      Order.LtTrans(e.context, f.context, g.context);
    }
    if Order.Lt(e.name, f.name) && Order.Lt(f.name, g.name) {
      Order.LtTrans(e.name, f.name, g.name);
    }
  }

  function Insert(x: Extension, s: seq<Extension>): seq<Extension> {
    if s == [] || !Before(s[0], x) then [x] + s else [s[0]] + Insert(x, s[1..])
  }

  /** The stable sort: elements that compare equal stay in the order they came in. */
  function Sort(s: seq<Extension>): seq<Extension> {
    if s == [] then [] else Insert(s[0], Sort(s[1..]))
  }

  lemma {:induction false} InsertMultiset(x: Extension, s: seq<Extension>)
    ensures multiset(Insert(x, s)) == multiset(s) + multiset{x}
  {
    hide Before;
    if s != [] {
      InsertMultiset(x, s[1..]);
      assert s == [s[0]] + s[1..];
    }
  }

  /** Nothing is lost, added or repeated. */
  lemma {:induction false} SortMultiset(s: seq<Extension>)
    ensures multiset(Sort(s)) == multiset(s)
  {
    if s != [] {
      SortMultiset(s[1..]);
      InsertMultiset(s[0], Sort(s[1..]));
      assert s == [s[0]] + s[1..];
    }
  }

  ghost predicate Sorted(s: seq<Extension>) {
    forall i, j :: 0 <= i < j < |s| ==> !Before(s[j], s[i])
  }

  lemma {:induction false} InsertSorted(x: Extension, s: seq<Extension>)
    requires Sorted(s)
    ensures Sorted(Insert(x, s))
  {
    hide Before;
    if s != [] {
      if Before(s[0], x) {
        InsertSorted(x, s[1..]);
        var r := Insert(x, s[1..]);
        forall j | 0 <= j < |r|
          ensures !Before(r[j], s[0])
        {
          InsertMultiset(x, s[1..]);
          assert r[j] in multiset(r);
          BeforeOrders(s[0], x, x);
          assert r[j] == x || r[j] in s[1..];
        }
      } else {
        forall j | 0 <= j < |s|
          ensures !Before(s[j], x)
        {
          BeforeOrders(x, s[0], s[j]);
        }
      }
    }
  }

  /** Sorted means: by context, then the smaller priority first, then by name. */
  lemma SortedIs(s: seq<Extension>)
    requires Sorted(s)
    ensures forall i, j :: 0 <= i < j < |s| ==>
              var e, f := s[i], s[j];
              || Order.Lt(e.context, f.context)
              || (e.context == f.context
                  && (e.priority < f.priority || (e.priority == f.priority && Order.Le(e.name, f.name))))
  {
    hide Order.Lt;
    forall i, j | 0 <= i < j < |s|
      ensures var e, f := s[i], s[j];
              || Order.Lt(e.context, f.context)
              || (e.context == f.context
                  && (e.priority < f.priority || (e.priority == f.priority && Order.Le(e.name, f.name))))
    {
      Order.LtTotal(s[i].context, s[j].context);
      Order.LtTotal(s[i].name, s[j].name);
    }
  }

  lemma {:induction false} SortIsSorted(s: seq<Extension>)
    ensures Sorted(Sort(s))
  {
    if s != [] {
      SortIsSorted(s[1..]);
      InsertSorted(s[0], Sort(s[1..]));
    }
  }

  /** What is sorted is in order: by context, then the smaller priority first, then by name. */
  lemma SortSorted(s: seq<Extension>)
    ensures Sorted(Sort(s))
    ensures forall i, j :: 0 <= i < j < |Sort(s)| ==>
              var e, f := Sort(s)[i], Sort(s)[j];
              || Order.Lt(e.context, f.context)
              || (e.context == f.context
                  && (e.priority < f.priority || (e.priority == f.priority && Order.Le(e.name, f.name))))
  {
    hide Order.Lt, Before, Sort;
    SortIsSorted(s);
    SortedIs(Sort(s));
  }

  predicate Ties(e: Extension, f: Extension) {
    !Before(e, f) && !Before(f, e)
  }

  function TiesWith(e: Extension): Extension -> bool {
    (f: Extension) => Ties(e, f)
  }

  lemma FilterCons(x: Extension, s: seq<Extension>, p: Extension -> bool)
    ensures Order.Filter([x] + s, p) == (if p(x) then [x] else []) + Order.Filter(s, p)
  {
    assert ([x] + s)[1..] == s;
  }

  lemma InsertCons(x: Extension, y: Extension, s: seq<Extension>)
    ensures Insert(x, [y] + s) == if Before(y, x) then [y] + Insert(x, s) else [x, y] + s
  {
    assert ([y] + s)[1..] == s;
    assert [x] + ([y] + s) == [x, y] + s;
  }

  lemma FrontStays(x: Extension, s: seq<Extension>, p: Extension -> bool)
    requires Sorted(s) && (s == [] || !Before(s[0], x))
    ensures Insert(x, Order.Filter(s, p)) == [x] + Order.Filter(s, p)
  {
    hide Before;
    var f := Order.Filter(s, p);
    if f != [] {
      assert f[0] in f;
      var i :| 0 <= i < |s| && s[i] == f[0];
      BeforeOrders(x, s[0], s[i]);
    }
  }

  lemma {:induction false} FilterInsert(x: Extension, s: seq<Extension>, p: Extension -> bool)
    requires Sorted(s)
    ensures Order.Filter(Insert(x, s), p) == if p(x) then Insert(x, Order.Filter(s, p)) else Order.Filter(s, p)
  {
    hide Before, Order.Filter;
    if s == [] || !Before(s[0], x) {
      FilterCons(x, s, p);
      FrontStays(x, s, p);
      assert [] + Order.Filter(s, p) == Order.Filter(s, p);
    } else {
      var rest := Order.Filter(s[1..], p);
      FilterInsert(x, s[1..], p);
      assert s == [s[0]] + s[1..];
      FilterCons(s[0], s[1..], p);
      FilterCons(s[0], Insert(x, s[1..]), p);
      InsertCons(x, s[0], rest);
      assert [] + rest == rest;
    }
  }

  lemma FilterSortNext(x: Extension, s: seq<Extension>, p: Extension -> bool)
    requires Order.Filter(Sort(s), p) == Sort(Order.Filter(s, p))
    ensures Order.Filter(Sort([x] + s), p) == Sort(Order.Filter([x] + s, p))
  {
    hide Order.Filter, Insert, Sort, Before, Sorted;
    var rest := Order.Filter(s, p);
    SortSorted(s);
    FilterInsert(x, Sort(s), p);
    FilterCons(x, s, p);
    SortCons(x, s);
    SortCons(x, rest);
    assert [] + rest == rest;
  }

  /** Sorting what passes a filter is filtering what was sorted. */
  lemma {:induction false} FilterSort(s: seq<Extension>, p: Extension -> bool)
    ensures Order.Filter(Sort(s), p) == Sort(Order.Filter(s, p))
  {
    if s != [] {
      FilterSort(s[1..], p);
      FilterSortNext(s[0], s[1..], p);
      assert s == [s[0]] + s[1..];
    }
  }

  lemma SortCons(x: Extension, s: seq<Extension>)
    ensures Sort([x] + s) == Insert(x, Sort(s))
  {
    assert ([x] + s)[1..] == s;
  }

  lemma {:induction false} TiesStay(s: seq<Extension>, e: Extension)
    requires forall i :: 0 <= i < |s| ==> Ties(e, s[i])
    ensures Sort(s) == s
  {
    hide Before;
    if s != [] {
      TiesStay(s[1..], e);
      assert s == [s[0]] + s[1..];
      if |s| > 1 {
        BeforeOrders(s[0], e, s[1]);
      }
    }
  }

  /** Stability: the elements that tie with any one element are in the order they came in. */
  lemma SortStable(s: seq<Extension>, e: Extension)
    ensures Order.Filter(Sort(s), TiesWith(e)) == Order.Filter(s, TiesWith(e))
  {
    FilterSort(s, TiesWith(e));
    var f := Order.Filter(s, TiesWith(e));
    assert forall i :: 0 <= i < |f| ==> f[i] in f;
    TiesStay(f, e);
  }

  /** A sorted and stable arrangement is what Sort gives: there is no other. */
  lemma {:induction false} SortUnique(s: seq<Extension>, r: seq<Extension>)
    requires Sorted(r) && forall e :: Order.Filter(r, TiesWith(e)) == Order.Filter(s, TiesWith(e))
    ensures r == Sort(s)
  {
    SortSorted(s);
    forall e
      ensures Order.Filter(r, TiesWith(e)) == Order.Filter(Sort(s), TiesWith(e))
    {
      SortStable(s, e);
    }
    SameTies(r, Sort(s));
  }

  ghost predicate SameClasses(r: seq<Extension>, t: seq<Extension>) {
    forall e :: Order.Filter(r, TiesWith(e)) == Order.Filter(t, TiesWith(e))
  }

  lemma {:induction false} SameTies(r: seq<Extension>, t: seq<Extension>)
    requires Sorted(r) && Sorted(t) && SameClasses(r, t)
    ensures r == t
  {
    hide Before, SameClasses;
    SameMembers(r, t);
    NoneAlike(r, t);
    if r != [] {
      SameHead(r, t);
      SameTails(r, t);
      SameTies(r[1..], t[1..]);
      assert r == [r[0]] + r[1..] && t == [t[0]] + t[1..];
    }
  }

  lemma SameHead(r: seq<Extension>, t: seq<Extension>)
    requires Sorted(r) && Sorted(t) && SameClasses(r, t) && r != [] && t != []
    ensures r[0] == t[0]
  {
    hide Before;
    SameMembers(r, t);
    assert r[0] in t && t[0] in r;
    var i :| 0 <= i < |t| && t[i] == r[0];
    var j :| 0 <= j < |r| && r[j] == t[0];
    BeforeOrders(r[0], t[0], t[0]);
    BeforeOrders(t[0], t[0], t[0]);
    assert Ties(r[0], t[0]);
    assert Order.Filter(r, TiesWith(t[0]))[0] == r[0];
    assert Order.Filter(t, TiesWith(t[0]))[0] == t[0];
  }

  lemma SameTails(r: seq<Extension>, t: seq<Extension>)
    requires SameClasses(r, t) && r != [] && t != [] && r[0] == t[0]
    ensures SameClasses(r[1..], t[1..])
  {
    hide Before, Ties;
    forall e
      ensures Order.Filter(r[1..], TiesWith(e)) == Order.Filter(t[1..], TiesWith(e))
    {
      var first := if TiesWith(e)(r[0]) then [r[0]] else [];
      assert Order.Filter(r, TiesWith(e)) == first + Order.Filter(r[1..], TiesWith(e));
      assert Order.Filter(t, TiesWith(e)) == first + Order.Filter(t[1..], TiesWith(e));
      TailSame(first, Order.Filter(r[1..], TiesWith(e)), Order.Filter(t[1..], TiesWith(e)));
    }
  }

  lemma NoneAlike(r: seq<Extension>, t: seq<Extension>)
    requires forall e :: e in r <==> e in t
    ensures r == [] <==> t == []
  {
    if r != [] {
      assert r[0] in t;
    }
    if t != [] {
      assert t[0] in r;
    }
  }

  lemma TailSame<T>(h: seq<T>, a: seq<T>, b: seq<T>)
    requires h + a == h + b
    ensures a == b
  {
    assert a == (h + a)[|h|..] && b == (h + b)[|h|..];
  }

  lemma SameMembers(r: seq<Extension>, t: seq<Extension>)
    requires SameClasses(r, t)
    ensures forall e :: e in r <==> e in t
  {
    hide Before;
    forall e
      ensures e in r <==> e in t
    {
      BeforeOrders(e, e, e);
      assert TiesWith(e)(e);
      assert e in r <==> e in Order.Filter(r, TiesWith(e));
      assert e in t <==> e in Order.Filter(t, TiesWith(e));
    }
  }

  /** The position in `s` of the element that comes first in sorted order: nothing is before it, and
      whatever ties with it comes later. */
  ghost predicate FirstAt(s: seq<Extension>, k: int) {
    && 0 <= k < |s|
    && (forall j :: 0 <= j < |s| ==> !Before(s[j], s[k]))
    && (forall j :: 0 <= j < k ==> Before(s[k], s[j]))
  }

  /** Of the extensions of one context: the smallest priority, then the smallest name, then the first. */
  lemma FirstIs(s: seq<Extension>, k: int)
    requires FirstAt(s, k) && forall j :: 0 <= j < |s| ==> s[j].context == s[k].context
    ensures forall j :: 0 <= j < |s| ==>
              || s[k].priority < s[j].priority
              || (s[k].priority == s[j].priority && Order.Lt(s[k].name, s[j].name))
              || (s[k].priority == s[j].priority && s[k].name == s[j].name && k <= j)
  {
    hide Order.Lt;
    forall j | 0 <= j < |s|
      ensures || s[k].priority < s[j].priority
              || (s[k].priority == s[j].priority && Order.Lt(s[k].name, s[j].name))
              || (s[k].priority == s[j].priority && s[k].name == s[j].name && k <= j)
    {
      Order.LtTotal(s[k].name, s[j].name);
    }
  }

  lemma {:induction false} SortHead(s: seq<Extension>)
    requires s != []
    ensures exists k :: 0 <= k < |s| && FirstAt(s, k) && Sort(s)[0] == s[k]
  {
    hide Before;
    BeforeOrders(s[0], s[0], s[0]);
    if |s| == 1 {
      assert Sort(s[1..]) == [];
      assert FirstAt(s, 0);
    } else {
      SortHead(s[1..]);
      var t := Sort(s[1..]);
      assert Sort(s) == Insert(s[0], t);
      hide Sort;
      var k :| FirstAt(s[1..], k) && t[0] == s[1..][k];
      if Before(t[0], s[0]) {
        FirstLater(s, k);
        assert Sort(s)[0] == s[k + 1];
      } else {
        FirstHere(s, k);
        assert Sort(s)[0] == s[0];
      }
    }
  }

  lemma FirstLater(s: seq<Extension>, k: int)
    requires s != [] && FirstAt(s[1..], k) && Before(s[k + 1], s[0])
    ensures FirstAt(s, k + 1)
  {
    hide Before;
    BeforeOrders(s[0], s[k + 1], s[0]);
    forall j | 0 <= j < |s|
      ensures !Before(s[j], s[k + 1]) && (j < k + 1 ==> Before(s[k + 1], s[j]))
    {
      assert j > 0 ==> s[j] == s[1..][j - 1];
    }
  }

  lemma FirstHere(s: seq<Extension>, k: int)
    requires s != [] && FirstAt(s[1..], k) && !Before(s[k + 1], s[0])
    ensures FirstAt(s, 0)
  {
    hide Before;
    BeforeOrders(s[0], s[0], s[0]);
    forall j | 0 < j < |s|
      ensures !Before(s[j], s[0])
    {
      assert s[j] == s[1..][j - 1];
      BeforeOrders(s[0], s[k + 1], s[j]);
    }
  }
}
