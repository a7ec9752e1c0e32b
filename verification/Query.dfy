/** What a query may answer: its rows, in any order that its ORDER BY allows. */
module Query {
  /** `rows` is one of the orders in which a query with this ORDER BY may answer. */
  ghost predicate Answer<T(!new)>(ids: set<T>, le: (T, T) -> bool, rows: seq<T>) {
    && (forall id :: id in rows <==> id in ids)
    && (forall i, j :: 0 <= i < j < |rows| ==> rows[i] != rows[j] && le(rows[i], rows[j]))
  }

  ghost predicate Preorder<T(!new)>(ids: set<T>, le: (T, T) -> bool) {
    && (forall a, b :: a in ids && b in ids ==> le(a, b) || le(b, a))
    && (forall a, b, c :: a in ids && b in ids && c in ids && le(a, b) && le(b, c) ==> le(a, c))
  }

  ghost predicate Least<T(!new)>(ids: set<T>, le: (T, T) -> bool, m: T) {
    m in ids && forall x :: x in ids ==> le(m, x)
  }

  lemma {:induction false} LeastExists<T(!new)>(ids: set<T>, le: (T, T) -> bool)
    requires ids != {} && Preorder(ids, le)
    ensures exists m :: Least(ids, le, m)
    decreases ids
  {
    var some :| some in ids;
    var rest := ids - {some};
    if rest != {} {
      LeastExists(rest, le);
      var m :| Least(rest, le, m);
      assert forall x :: x in ids ==> x == some || x in rest;
      if le(some, m) {
        assert Least(ids, le, some);
      } else {
        assert Least(ids, le, m);
      }
    } else {
      assert forall x :: x in ids ==> x == some || x in rest;
      assert Least(ids, le, some);
    }
  }

  /** The rows taken so far and the ids still left. */
  ghost predicate Partial<T(!new)>(ids: set<T>, le: (T, T) -> bool, left: set<T>, rows: seq<T>) {
    && left <= ids && Answer(ids - left, le, rows)
    && forall i, x :: 0 <= i < |rows| && x in left ==> le(rows[i], x)
  }

  lemma TakeNext<T(!new)>(ids: set<T>, le: (T, T) -> bool, left: set<T>, rows: seq<T>, m: T)
    requires Partial(ids, le, left, rows) && Least(left, le, m)
    ensures Partial(ids, le, left - {m}, rows + [m])
  {
    var next := rows + [m];
    assert forall i :: 0 <= i < |rows| ==> next[i] == rows[i] && rows[i] in rows;
    forall id
      ensures id in next <==> id in ids - (left - {m})
    {
      assert id in next <==> id in rows || id == m;
    }
  }

  /** The database answers in any order that the ORDER BY allows. */
  method Select<T(==,!new)>(ids: set<T>, le: (T, T) -> bool) returns (rows: seq<T>)
    requires Preorder(ids, le)
    ensures Answer(ids, le, rows)
  {
    rows := [];
    var left := ids;
    while left != {}
      invariant Partial(ids, le, left, rows)
      decreases left
    {
      assert Preorder(left, le);
      LeastExists(left, le);
      hide Partial, Preorder;
      var m :| m in left && forall x :: x in left ==> le(m, x);
      TakeNext(ids, le, left, rows, m);
      rows := rows + [m];
      left := left - {m};
    }
    assert ids - left == ids;
  }

  lemma EmptyAnswer<T(!new)>(ids: set<T>, le: (T, T) -> bool, rows: seq<T>)
    requires Answer(ids, le, rows)
    ensures rows == [] <==> ids == {}
  {
    if rows != [] {
      assert rows[0] in rows;
    }
    if ids != {} {
      var x :| x in ids;
      assert x in rows;
    }
  }

  lemma TailAnswer<T(!new)>(ids: set<T>, le: (T, T) -> bool, rows: seq<T>)
    requires Answer(ids, le, rows) && rows != []
    ensures Answer(ids - {rows[0]}, le, rows[1..])
    ensures forall x :: x in ids && x != rows[0] ==> le(rows[0], x)
  {
    assert rows == [rows[0]] + rows[1..];
    assert rows[0] !in rows[1..];
    forall x
      ensures x in rows[1..] <==> x in ids - {rows[0]}
      ensures x in ids && x != rows[0] ==> le(rows[0], x)
    {
      assert x in rows <==> x == rows[0] || x in rows[1..];
    }
  }

  /** A query whose ORDER BY leaves no ties has one answer. */
  lemma {:induction false} AnswerUnique<T(!new)>(ids: set<T>, le: (T, T) -> bool, r: seq<T>, s: seq<T>)
    requires Answer(ids, le, r) && Answer(ids, le, s)
    requires forall a, b :: a in ids && b in ids && le(a, b) && le(b, a) ==> a == b
    ensures r == s
    decreases |r|
  {
    EmptyAnswer(ids, le, r);
    EmptyAnswer(ids, le, s);
    if r != [] {
      TailAnswer(ids, le, r);
      TailAnswer(ids, le, s);
      assert r[0] in r && s[0] in s;
      assert r[0] == s[0];
      AnswerUnique(ids - {r[0]}, le, r[1..], s[1..]);
      assert r == [r[0]] + r[1..] && s == [s[0]] + s[1..];
    }
  }

  // ---------- text order ----------

  /** How the database orders text: some total order, which need not be that of the bytes. */
  ghost predicate Collation(le: (string, string) -> bool) {
    && (forall a, b :: le(a, b) || le(b, a))
    && (forall a, b :: le(a, b) && le(b, a) ==> a == b)
    && (forall a, b, c :: le(a, b) && le(b, c) ==> le(a, c))
  }
}
