/** Pages of a list: ?limit= and ?offset=, the cap, and the same window taken in SQL. */
module Pagination {
  import opened Text
  import opened Wrappers

  const MAX_PAGE_LIMIT := 1000

  /** A limit of 0 means no limit. */
  datatype Page = Page(limit: nat, offset: nat)

  /** The number a client wrote, 0 when it wrote none, nothing when it is malformed. */
  function NonNegative(text: string): Option<nat> {
    if text == "" then Some(0)
    else match AtoiStrict(text) case Some(n) => if n >= 0 then Some(n) else None case None => None
  }

  function Min(a: int, b: int): int {
    if a < b then a else b
  }

  /** parsePage; ok is false where it writes a 400. */
  method ParsePage(limit: string, offset: string) returns (p: Page, ok: bool)
    ensures ok <==> NonNegative(limit).Some? && NonNegative(offset).Some?
    ensures ok ==> p == Page(Min(NonNegative(limit).value, 1000), NonNegative(offset).value)
  {
    p := Page(0, 0);
    if limit != "" {
      var n := AtoiStrict(limit);
      if n == None || n.value < 0 {
        return p, false;
      }
      var capped := n.value;
      if capped > MAX_PAGE_LIMIT {
        capped := MAX_PAGE_LIMIT;
      }
      p := p.(limit := capped);
    }
    if offset != "" {
      var n := AtoiStrict(offset);
      if n == None || n.value < 0 {
        return p, false;
      }
      p := p.(offset := n.value);
    }
    ok := true;
  }

  function Apply<T>(items: seq<T>, p: Page): (seq<T>, nat) {
    if p.offset >= |items| then ([], |items|)
    else
      var rest := items[p.offset..];
      (if 0 < p.limit < |rest| then rest[..p.limit] else rest, |items|)
  }

  /** A page holds the elements from its offset on, as many as its limit; all of them when it has no limit. */
  lemma ApplyIs<T>(items: seq<T>, p: Page)
    ensures var (page, total) := Apply(items, p);
            && total == |items|
            && |page| == (var left := if p.offset <= |items| then |items| - p.offset else 0;
                          if p.limit == 0 || left < p.limit then left else p.limit)
            && forall i :: 0 <= i < |page| ==> page[i] == items[p.offset + i]
  {
  }

  // ---------- tiling ----------

  /** The first k pages of the given size, one after another. */
  function Pages<T>(items: seq<T>, limit: nat, k: nat): seq<T> {
    if k == 0 then [] else Pages(items, limit, k - 1) + Apply(items, Page(limit, (k - 1) * limit)).0
  }

  lemma {:induction false} FirstPages<T>(items: seq<T>, limit: nat, k: nat)
    requires limit > 0
    ensures Pages(items, limit, k) == items[..Min(k * limit, |items|)]
  {
    if k > 0 {
      FirstPages(items, limit, k - 1);
      var from := (k - 1) * limit;
      assert k * limit == from + limit;
      if from < |items| {
        assert items[from..][..Min(limit, |items| - from)] == items[from..Min(k * limit, |items|)];
        assert items[..from] + items[from..Min(k * limit, |items|)] == items[..Min(k * limit, |items|)];
      }
    }
  }

  /** Pages tile: enough pages of any size rebuild the list, each element once and in its place, and each
      page comes with the same total. */
  lemma PagesTile<T>(items: seq<T>, limit: nat, k: nat)
    requires limit > 0 && k * limit >= |items|
    ensures Pages(items, limit, k) == items
    ensures forall i: nat :: Apply(items, Page(limit, i * limit)).1 == |items|
  {
    FirstPages(items, limit, k);
  }

  /** No number at all is 0; one with anything but digits behind a sign, or a sign alone, is refused. */
  lemma Malformed(text: string)
    ensures NonNegative("") == Some(0)
    ensures (exists i :: 0 < i < |text| && !('0' <= text[i] <= '9')) ==> NonNegative(text) == None
    ensures NonNegative("-") == None && NonNegative("+") == None
  {
    if exists i :: 0 < i < |text| && !('0' <= text[i] <= '9') {
      NotDecimal(text);
    }
  }

  /** A page that a client asks for in decimal is the page it gets, a larger limit acting as 1000; a
      negative number is refused. */
  lemma AsWritten(limit: int, offset: int)
    requires MIN_INT <= limit <= MAX_INT && MIN_INT <= offset <= MAX_INT
    ensures NonNegative(Itoa(limit)) == (if limit < 0 then None else Some(limit))
    ensures NonNegative(Itoa(offset)) == (if offset < 0 then None else Some(offset))
  {
    AtoiItoa(limit);
    AtoiItoa(offset);
  }

  // ---------- the window in SQL ----------

  /** LIMIT n OFFSET m: skip m rows, then take n. */
  function Window<T>(rows: seq<T>, limit: nat, offset: nat): seq<T> {
    var skipped := if offset <= |rows| then rows[offset..] else [];
    if limit <= |skipped| then skipped[..limit] else skipped
  }

  /** ListCDR adds the window only for a positive limit. */
  function SqlPage<T>(rows: seq<T>, p: Page): seq<T> {
    if p.limit > 0 then Window(rows, p.limit, p.offset) else rows
  }

  /** The page taken in SQL: the rows behind the offset, as many as the limit; without a limit, all rows. */
  lemma SqlPageIs<T>(rows: seq<T>, p: Page)
    ensures var from := if p.limit == 0 then 0 else p.offset;
            var left := if from <= |rows| then |rows| - from else 0;
            && |SqlPage(rows, p)| == (if p.limit == 0 || left < p.limit then left else p.limit)
            && forall i :: 0 <= i < |SqlPage(rows, p)| ==> SqlPage(rows, p)[i] == rows[from + i]
  {
  }

  /** The page taken in SQL is the page taken in Go, except that without a limit SQL ignores the offset:
      they agree exactly when there is a limit, or no offset, or no row. */
  lemma SqlPageIff<T>(rows: seq<T>, p: Page)
    ensures SqlPage(rows, p) == Apply(rows, p).0 <==> p.limit > 0 || p.offset == 0 || rows == []
  {
  }
}
