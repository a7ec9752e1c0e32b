/** The recordings list: a walk down a year/month/day tree that reads only the directories it needs. */
module Recordings {
  import opened Text
  import opened Order
  import opened Subseq
  import opened Wrappers

  datatype Entry = Entry(name: string, kind: string, mtime: string, size: int)

  /** What the file server answers for a directory; one it does not have is simply not in the tree. */
  datatype Listing = Entries(es: seq<Entry>) | Fail

  type Tree = map<string, Listing>

  datatype Result<+T> = Ok(value: T) | Err

  function List(fs: Tree, path: string): Result<seq<Entry>> {
    if path !in fs then Ok([])
    else match fs[path] case Entries(es) => Ok(es) case Fail => Err
  }

  // ---------- dates ----------

  datatype Date = Date(y: nat, m: nat, d: nat)

  predicate Leap(y: nat) {
    y % 4 == 0 && (y % 100 != 0 || y % 400 == 0)
  }

  function DaysIn(y: nat, m: nat): nat {
    if m == 2 then (if Leap(y) then 29 else 28)
    else if m == 4 || m == 6 || m == 9 || m == 11 then 30
    else 31
  }

  predicate Valid(t: Date) {
    1 <= t.m <= 12 && 1 <= t.d <= DaysIn(t.y, t.m)
  }

  predicate Before(a: Date, b: Date) {
    a.y < b.y || (a.y == b.y && (a.m < b.m || (a.m == b.m && a.d < b.d)))
  }

  datatype Query = Query(start: Date, end: Date, number: string)

  predicate InRange(q: Query, t: Date) {
    !Before(t, q.start) && !Before(q.end, t)
  }

  /** The regular expression of exactly n decimal digits. */
  predicate Digits(s: string, n: nat) {
    |s| == n && AllDigits(s)
  }

  /** The calendar day that three path names spell, if they spell one. */
  function DayOf(y: string, m: string, d: string): Option<Date> {
    if Digits(y, 4) && Digits(m, 2) && Digits(d, 2) then
      var t := Date(DigitsValue(y), DigitsValue(m), DigitsValue(d));
      if Valid(t) then Some(t) else None
    else None
  }

  lemma {:induction false} LastDigit(a: string, b: string, x: char, z: char)
    requires |a| == |b|
    ensures Lt(a + [x], b + [z]) <==> Lt(a, b) || (a == b && x < z)
  {
    if a == "" {
      assert a + [x] == [x] && b + [z] == [z];
      assert [x][1..] == "" && [z][1..] == "";
    } else {
      assert (a + [x])[1..] == a[1..] + [x] && (b + [z])[1..] == b[1..] + [z];
      LastDigit(a[1..], b[1..], x, z);
      assert a == b <==> a[0] == b[0] && a[1..] == b[1..] by {
        assert a == [a[0]] + a[1..] && b == [b[0]] + b[1..];
      }
    }
  }

  /** On names of the same width, the order of the strings is the order of the numbers. */
  lemma {:induction false} LexicalIsNumeric(a: string, b: string)
    requires |a| == |b| && AllDigits(a) && AllDigits(b)
    ensures Lt(a, b) <==> DigitsValue(a) < DigitsValue(b)
    ensures a == b <==> DigitsValue(a) == DigitsValue(b)
  {
    if a != "" {
      var n := |a| - 1;
      LexicalIsNumeric(a[..n], b[..n]);
      assert a == a[..n] + [a[n]] && b == b[..n] + [b[n]];
      LastDigit(a[..n], b[..n], a[n], b[n]);
    }
  }

  // ---------- dates as text ----------

  /** The text YYYY-MM-DD of a date. */
  predicate Spells(s: string, t: Date) {
    && |s| == 10 && s[4] == '-' && s[7] == '-' && AllDigits(s[..4]) && AllDigits(s[5..7]) && AllDigits(s[8..])
    && DigitsValue(s[..4]) == t.y && DigitsValue(s[5..7]) == t.m && DigitsValue(s[8..]) == t.d
  }

  lemma LtConcat(a: string, b: string, s: string, t: string)
    requires |a| == |b|
    ensures Lt(a + s, b + t) <==> Lt(a, b) || (a == b && Lt(s, t))
  {
    hide Lt;
    LtTotal(a, b);
    LtTotal(a + s, b + t);
    if a == b {
      LtPrefix(a, s, t);
    } else if Lt(a, b) {
      LtExtend(a, b, s, t);
    } else {
      LtExtend(b, a, t, s);
    }
  }

  /** The order of the texts is the order of the dates. */
  lemma TextOrder(s: string, a: Date, t: string, b: Date)
    requires Spells(s, a) && Spells(t, b)
    ensures Lt(s, t) <==> Before(a, b)
    ensures Le(s, t) <==> !Before(b, a)
  {
    hide Lt, DigitsValue;
    assert s == s[..4] + ("-" + (s[5..7] + ("-" + s[8..]))) && t == t[..4] + ("-" + (t[5..7] + ("-" + t[8..])));
    LexicalIsNumeric(s[..4], t[..4]);
    LexicalIsNumeric(s[5..7], t[5..7]);
    LexicalIsNumeric(s[8..], t[8..]);
    LtConcat(s[..4], t[..4], "-" + (s[5..7] + ("-" + s[8..])), "-" + (t[5..7] + ("-" + t[8..])));
    LtPrefix("-", s[5..7] + ("-" + s[8..]), t[5..7] + ("-" + t[8..]));
    LtConcat(s[5..7], t[5..7], "-" + s[8..], "-" + t[8..]);
    LtPrefix("-", s[8..], t[8..]);
    LtTotal(s, t);
  }

  lemma DaySpells(y: string, m: string, d: string)
    requires DayOf(y, m, d).Some?
    ensures Spells(y + "-" + m + "-" + d, DayOf(y, m, d).value)
  {
    var s := y + "-" + m + "-" + d;
    assert s[..4] == y && s[5..7] == m && s[8..] == d && s[4] == '-' && s[7] == '-';
  }

  // ---------- the calendar ----------

  /** The days before March of the year y. */
  function Marches(y: int): int {
    365 * y + y / 4 - y / 100 + y / 400
  }

  /** The days from the start of March to the start of the month. */
  function FromMarch(m: nat): nat {
    (153 * ((m + 9) % 12) + 2) / 5
  }

  /** The number of a day in one unbroken count, with years that begin in March. */
  function Civil(t: Date): int {
    Marches(if t.m <= 2 then t.y - 1 else t.y) + FromMarch(t.m) + t.d
  }

  function Next(t: Date): Date {
    if Valid(Date(t.y, t.m, t.d + 1)) then Date(t.y, t.m, t.d + 1)
    else if t.m < 12 then Date(t.y, t.m + 1, 1)
    else Date(t.y + 1, 1, 1)
  }

  lemma YearsOf(y: int)
    ensures y / 4 - (y - 1) / 4 == if y % 4 == 0 then 1 else 0
    ensures y / 100 - (y - 1) / 100 == if y % 100 == 0 then 1 else 0
    ensures y / 400 - (y - 1) / 400 == if y % 400 == 0 then 1 else 0
    ensures (y % 400 == 0 ==> y % 100 == 0) && (y % 100 == 0 ==> y % 4 == 0)
  {
    assert y == 100 * (y / 100) + y % 100;
    assert y % 100 == 0 ==> y == 4 * (25 * (y / 100));
    assert y % 400 == 0 ==> y == 100 * (4 * (y / 400));
  }

  lemma OneYear(y: nat)
    ensures Marches(y) - Marches(y - 1) == if y % 4 == 0 && (y % 100 != 0 || y % 400 == 0) then 366 else 365
    ensures Marches(y + 399) - Marches(y - 1) == 146097
  {
    YearsOf(y);
    assert (y + 399) / 4 == (y - 1) / 4 + 100 && (y + 399) / 100 == (y - 1) / 100 + 4;
    assert (y + 399) / 400 == (y - 1) / 400 + 1;
  }

  lemma Months()
    ensures FromMarch(3) == 0 && FromMarch(4) == 31 && FromMarch(5) == 61 && FromMarch(6) == 92
    ensures FromMarch(7) == 122 && FromMarch(8) == 153 && FromMarch(9) == 184 && FromMarch(10) == 214
    ensures FromMarch(11) == 245 && FromMarch(12) == 275 && FromMarch(1) == 306 && FromMarch(2) == 337
  {
  }

  /** The valid dates are the days of the Gregorian calendar: from each to the next the count goes up by one. */
  lemma Calendar(t: Date)
    requires Valid(t)
    ensures Valid(Next(t)) && Civil(Next(t)) == Civil(t) + 1
  {
    OneYear(t.y);
    Months();
    hide Marches, FromMarch;
    assert t.m in {1, 2, 3, 4, 5, 6, 7, 8, 9, 10, 11, 12};
  }

  /** A year has 365 valid dates, or 366 exactly when it is a multiple of 4 and not of 100, or of 400; and
      400 years have 146097. */
  lemma YearLength(y: nat)
    ensures DaysIn(y, 1) + DaysIn(y, 2) + DaysIn(y, 3) + DaysIn(y, 4) + DaysIn(y, 5) + DaysIn(y, 6) + DaysIn(y, 7)
            + DaysIn(y, 8) + DaysIn(y, 9) + DaysIn(y, 10) + DaysIn(y, 11) + DaysIn(y, 12)
            == Civil(Date(y + 1, 1, 1)) - Civil(Date(y, 1, 1))
            == if y % 4 == 0 && (y % 100 != 0 || y % 400 == 0) then 366 else 365
    ensures Civil(Date(y + 400, 1, 1)) - Civil(Date(y, 1, 1)) == 146097
  {
    hide Marches, FromMarch;
    OneYear(y);
  }

  lemma {:induction false} YearsGrow(y: nat, z: nat)
    requires y <= z
    ensures Civil(Date(y, 1, 1)) <= Civil(Date(z, 1, 1))
    decreases z
  {
    hide Civil, DaysIn;
    if y < z {
      YearLength(z - 1);
      YearsGrow(y, z - 1);
    }
  }

  lemma InYear(t: Date)
    requires Valid(t)
    ensures Civil(Date(t.y, 1, 1)) <= Civil(t) < Civil(Date(t.y + 1, 1, 1))
  {
    OneYear(t.y);
    Months();
    hide Marches, FromMarch;
    assert t.m in {1, 2, 3, 4, 5, 6, 7, 8, 9, 10, 11, 12};
  }

  lemma SameYear(a: Date, b: Date)
    requires Valid(a) && Valid(b) && a.y == b.y && a.m < b.m
    ensures Civil(a) < Civil(b)
  {
    OneYear(a.y);
    Months();
    hide Marches, FromMarch;
    assert a.m in {1, 2, 3, 4, 5, 6, 7, 8, 9, 10, 11, 12} && b.m in {1, 2, 3, 4, 5, 6, 7, 8, 9, 10, 11, 12};
  }

  lemma Earlier(a: Date, b: Date)
    requires Valid(a) && Valid(b) && Before(a, b)
    ensures Civil(a) < Civil(b)
  {
    hide Civil, Valid;
    InYear(a);
    InYear(b);
    if a.y < b.y {
      YearsGrow(a.y + 1, b.y);
    } else if a.m < b.m {
      SameYear(a, b);
    } else {
      SameMonth(a, b);
    }
  }

  lemma SameMonth(a: Date, b: Date)
    requires a.y == b.y && a.m == b.m && a.d < b.d
    ensures Civil(a) < Civil(b)
  {
    hide Marches, FromMarch;
  }

  /** The order of dates is the order of the count. */
  lemma Chronological(a: Date, b: Date)
    requires Valid(a) && Valid(b)
    ensures Before(a, b) <==> Civil(a) < Civil(b)
  {
    hide Civil, Valid;
    if Before(a, b) {
      Earlier(a, b);
    } else if Before(b, a) {
      Earlier(b, a);
    } else {
      assert a == b;
    }
  }

  // ---------- files ----------

  datatype Item = Item(file: string, date: string, caller: string, dest: string, size: int, mtime: string, url: string)

  function TrimSuffix(s: string, t: string): string {
    if |t| <= |s| && s[|s| - |t|..] == t then s[..|s| - |t|] else s
  }

  /** Caller and destination of "<caller>_<dest>_<rest>"; both empty for other names. */
  function RecParties(file: string): (string, string) {
    var base := TrimSuffix(TrimSuffix(file, ".wav"), ".mp4");
    var i := IndexOf(base, '_');
    if i == |base| then ("", "") else
    var j := IndexOf(base[i + 1..], '_');
    if j == |base| - i - 1 then ("", "") else (base[..i], base[i + 1..][..j])
  }

  lemma {:induction false} SuffixFree(s: string, t: string, u: string)
    requires '_' !in u && u != ""
    ensures TrimSuffix(s + "_" + t, u) == s + "_" + TrimSuffix(t, u)
  {
    var file := s + "_" + t;
    if |u| <= |t| {
      assert file[|file| - |u|..] == t[|t| - |u|..];
      assert file[..|file| - |u|] == s + "_" + t[..|t| - |u|];
    } else if |u| <= |file| {
      assert file[|file| - |u|..][|s| - (|file| - |u|)] == '_';
    }
  }

  /** The parties are what stands before the first two underscores, whatever follows them. */
  lemma PartiesRead(caller: string, dest: string, rest: string)
    requires '_' !in caller && '_' !in dest
    ensures RecParties(caller + "_" + dest + "_" + rest) == (caller, dest)
  {
    var head := caller + "_" + dest;
    SuffixFree(head, rest, ".wav");
    SuffixFree(head, TrimSuffix(rest, ".wav"), ".mp4");
    var tail := TrimSuffix(TrimSuffix(rest, ".wav"), ".mp4");
    var base := head + "_" + tail;
    hide TrimSuffix;
    assert base == caller + "_" + (dest + "_" + tail);
    IndexOfIs(base, '_', |caller|);
    assert base[..|caller|] == caller && base[|caller| + 1..] == dest + "_" + tail;
    IndexOfIs(dest + "_" + tail, '_', |dest|);
    assert (dest + "_" + tail)[..|dest|] == dest;
  }

  /** A name with fewer than two underscores has no parties. */
  lemma NoParties(file: string)
    requires forall i, j :: 0 <= i < j < |file| ==> !(file[i] == '_' && file[j] == '_')
    ensures RecParties(file) == ("", "")
  {
    var base := TrimSuffix(TrimSuffix(file, ".wav"), ".mp4");
    assert base <= file;
    hide TrimSuffix;
    var i := IndexOf(base, '_');
    if i < |base| {
      assert file[i] == '_';
      IndexOfIs(base[i + 1..], '_', |base| - i - 1);
    }
  }

  predicate Matches(number: string, name: string) {
    number == "" || RecParties(name).0 == number || RecParties(name).1 == number
  }

  function ItemOf(e: Entry, date: string): Item {
    Item(e.name, date, RecParties(e.name).0, RecParties(e.name).1, e.size, e.mtime,
         "/api/v1/recordings/" + date + "/" + e.name)
  }

  function FileItems(es: seq<Entry>, number: string, date: string): (r: seq<Item>)
    ensures forall i :: 0 <= i < |r| ==> r[i].date == date
  {
    if es == [] then []
    else (if es[0].kind == "file" && Matches(number, es[0].name) then [ItemOf(es[0], date)] else [])
         + FileItems(es[1..], number, date)
  }

  // ---------- the walk, as values ----------

  function DirNames(es: seq<Entry>): seq<string> {
    if es == [] then [] else (if es[0].kind == "directory" then [es[0].name] else []) + DirNames(es[1..])
  }

  predicate Wanted(name: string, width: nat, lo: int, hi: int) {
    Digits(name, width) && lo <= DigitsValue(name) <= hi
  }

  function Dirs(es: seq<Entry>, width: nat, lo: int, hi: int): seq<string> {
    SortDown(Filter(DirNames(es), n => Wanted(n, width, lo, hi)))
  }

  function DayItems(fs: Tree, q: Query, y: string, m: string, d: string): Result<seq<Item>> {
    match DayOf(y, m, d)
    case None => Ok([])
    case Some(t) =>
      if !InRange(q, t) then Ok([]) else
      match List(fs, "/" + y + "/" + m + "/" + d + "/")
      case Err => Err
      case Ok(es) => Ok(FileItems(es, q.number, y + "-" + m + "-" + d))
  }

  /** One result after the other; the first failure ends it. */
  function Gather(names: seq<string>, f: string -> Result<seq<Item>>): Result<seq<Item>> {
    if names == [] then Ok([]) else
    match f(names[0])
    case Err => Err
    case Ok(items) => match Gather(names[1..], f) case Err => Err case Ok(more) => Ok(items + more)
  }

  function MonthItems(fs: Tree, q: Query, y: string, m: string): Result<seq<Item>> {
    match List(fs, "/" + y + "/" + m + "/")
    case Err => Err
    case Ok(es) => Gather(Dirs(es, 2, 1, 31), d => DayItems(fs, q, y, m, d))
  }

  function YearItems(fs: Tree, q: Query, y: string): Result<seq<Item>> {
    match List(fs, "/" + y + "/")
    case Err => Err
    case Ok(es) => Gather(Dirs(es, 2, 1, 12), m => MonthItems(fs, q, y, m))
  }

  function Walk(fs: Tree, q: Query): Result<seq<Item>> {
    match List(fs, "/")
    case Err => Err
    case Ok(es) => Gather(Dirs(es, 4, q.start.y, q.end.y), y => YearItems(fs, q, y))
  }

  // ---------- the full scan ----------

  function FlatMap(names: seq<string>, f: string -> seq<Item>): seq<Item> {
    if names == [] then [] else f(names[0]) + FlatMap(names[1..], f)
  }

  /** Every directory under a path, whatever it is called; none where the listing fails. */
  function AllDirs(fs: Tree, path: string): seq<string> {
    match List(fs, path) case Err => [] case Ok(es) => SortDown(DirNames(es))
  }

  function Files(fs: Tree, path: string): seq<Entry> {
    match List(fs, path) case Err => [] case Ok(es) => es
  }

  /** The recordings in one day directory when its path spells a day in the range. */
  function ScanDay(fs: Tree, q: Query, y: string, m: string, d: string): seq<Item> {
    match DayOf(y, m, d)
    case None => []
    case Some(t) =>
      if InRange(q, t) then FileItems(Files(fs, "/" + y + "/" + m + "/" + d + "/"), q.number, y + "-" + m + "-" + d)
      else []
  }

  function ScanMonth(fs: Tree, q: Query, y: string, m: string): seq<Item> {
    FlatMap(AllDirs(fs, "/" + y + "/" + m + "/"), d => ScanDay(fs, q, y, m, d))
  }

  function ScanYear(fs: Tree, q: Query, y: string): seq<Item> {
    FlatMap(AllDirs(fs, "/" + y + "/"), m => ScanMonth(fs, q, y, m))
  }

  /** Reads the whole tree three levels deep and only then looks at the dates. */
  function FullScan(fs: Tree, q: Query): seq<Item> {
    FlatMap(AllDirs(fs, "/"), y => ScanYear(fs, q, y))
  }

  lemma {:induction false} FlatMapFilter(names: seq<string>, p: string -> bool, f: string -> seq<Item>)
    requires forall n :: n in names && !p(n) ==> f(n) == []
    ensures FlatMap(Filter(names, p), f) == FlatMap(names, f)
  {
    if names != [] {
      FlatMapFilter(names[1..], p, f);
      if p(names[0]) {
        assert ([names[0]] + Filter(names[1..], p))[1..] == Filter(names[1..], p);
      } else {
        assert Filter(names, p) == Filter(names[1..], p);
        assert f(names[0]) + FlatMap(names[1..], f) == FlatMap(names[1..], f);
      }
    }
  }

  /** Leaving directories out is harmless when they hold nothing that is wanted. */
  lemma FlatMapPruned(names: seq<string>, p: string -> bool, f: string -> seq<Item>)
    requires forall n :: n in names && !p(n) ==> f(n) == []
    ensures FlatMap(SortDown(Filter(names, p)), f) == FlatMap(SortDown(names), f)
  {
    SortDownFilter(names, p);
    SortDownDescending(names);
    forall n | n in SortDown(names)
      ensures n in names
    {
      assert n in multiset(SortDown(names));
    }
    FlatMapFilter(SortDown(names), p, f);
  }

  lemma {:induction false} GatherOk(names: seq<string>, f: string -> Result<seq<Item>>, g: string -> seq<Item>)
    requires forall n :: n in names && f(n).Ok? ==> f(n).value == g(n)
    ensures Gather(names, f).Ok? ==> Gather(names, f).value == FlatMap(names, g)
  {
    if names != [] {
      GatherOk(names[1..], f, g);
    }
  }

  lemma {:induction false} FlatMapNothing(names: seq<string>, f: string -> seq<Item>)
    requires forall n :: n in names ==> f(n) == []
    ensures FlatMap(names, f) == []
  {
    if names != [] {
      FlatMapNothing(names[1..], f);
    }
  }

  lemma DayIsScan(fs: Tree, q: Query, y: string, m: string, d: string)
    ensures DayItems(fs, q, y, m, d).Ok? ==> DayItems(fs, q, y, m, d).value == ScanDay(fs, q, y, m, d)
    ensures !Wanted(d, 2, 1, 31) ==> ScanDay(fs, q, y, m, d) == []
  {
  }

  lemma MonthIsScan(fs: Tree, q: Query, y: string, m: string)
    requires MonthItems(fs, q, y, m).Ok?
    ensures MonthItems(fs, q, y, m).value == ScanMonth(fs, q, y, m)
  {
    hide DayItems, ScanDay, Wanted;
    var es := List(fs, "/" + y + "/" + m + "/").value;
    var p, f, g := (n: string) => Wanted(n, 2, 1, 31), (d: string) => DayItems(fs, q, y, m, d),
        (d: string) => ScanDay(fs, q, y, m, d);
    forall d
      ensures f(d).Ok? ==> f(d).value == g(d)
      ensures !p(d) ==> g(d) == []
    {
      DayIsScan(fs, q, y, m, d);
    }
    GatherOk(SortDown(Filter(DirNames(es), p)), f, g);
    FlatMapPruned(DirNames(es), p, g);
  }

  lemma ScanMonthNeedsDay(fs: Tree, q: Query, y: string, m: string)
    requires forall d :: DayOf(y, m, d).None? || !InRange(q, DayOf(y, m, d).value)
    ensures ScanMonth(fs, q, y, m) == []
  {
    FlatMapNothing(AllDirs(fs, "/" + y + "/" + m + "/"), d => ScanDay(fs, q, y, m, d));
  }

  lemma YearIsScan(fs: Tree, q: Query, y: string)
    requires YearItems(fs, q, y).Ok?
    ensures YearItems(fs, q, y).value == ScanYear(fs, q, y)
  {
    var es := List(fs, "/" + y + "/").value;
    var p, f, g := (n: string) => Wanted(n, 2, 1, 12), (m: string) => MonthItems(fs, q, y, m),
        (m: string) => ScanMonth(fs, q, y, m);
    forall m | m in DirNames(es)
      ensures f(m).Ok? ==> f(m).value == g(m)
      ensures !p(m) ==> g(m) == []
    {
      if f(m).Ok? {
        MonthIsScan(fs, q, y, m);
      }
      if !p(m) {
        ScanMonthNeedsDay(fs, q, y, m);
      }
    }
    forall m | m in SortDown(Filter(DirNames(es), p))
      ensures m in DirNames(es)
    {
      SortDownDescending(Filter(DirNames(es), p));
      assert m in multiset(SortDown(Filter(DirNames(es), p)));
    }
    GatherOk(SortDown(Filter(DirNames(es), p)), f, g);
    FlatMapPruned(DirNames(es), p, g);
  }

  lemma ScanYearNeedsDay(fs: Tree, q: Query, y: string)
    requires forall m, d :: DayOf(y, m, d).None? || !InRange(q, DayOf(y, m, d).value)
    ensures ScanYear(fs, q, y) == []
  {
    forall m
      ensures ScanMonth(fs, q, y, m) == []
    {
      ScanMonthNeedsDay(fs, q, y, m);
    }
    FlatMapNothing(AllDirs(fs, "/" + y + "/"), m => ScanMonth(fs, q, y, m));
  }

  /** The pruned walk is the full scan: when it succeeds, it lists exactly the recordings that reading
      every directory and looking at the dates afterwards would list, in the same order. */
  lemma WalkIsFullScan(fs: Tree, q: Query)
    requires Walk(fs, q).Ok?
    ensures Walk(fs, q).value == FullScan(fs, q)
  {
    var es := List(fs, "/").value;
    var p, f, g := (n: string) => Wanted(n, 4, q.start.y, q.end.y), (y: string) => YearItems(fs, q, y),
        (y: string) => ScanYear(fs, q, y);
    forall y | f(y).Ok?
      ensures f(y).value == g(y)
    {
      YearIsScan(fs, q, y);
    }
    forall y | !p(y)
      ensures g(y) == []
    {
      ScanYearNeedsDay(fs, q, y);
    }
    GatherOk(SortDown(Filter(DirNames(es), p)), f, g);
    FlatMapPruned(DirNames(es), p, g);
  }

  ghost predicate Found(fs: Tree, q: Query, y: string, m: string, d: string, e: Entry) {
    && y in AllDirs(fs, "/") && m in AllDirs(fs, "/" + y + "/") && d in AllDirs(fs, "/" + y + "/" + m + "/")
    && e in Files(fs, "/" + y + "/" + m + "/" + d + "/")
    && e.kind == "file" && Matches(q.number, e.name)
    && DayOf(y, m, d).Some? && InRange(q, DayOf(y, m, d).value)
  }

  lemma {:induction false} FileItemsMember(es: seq<Entry>, number: string, date: string, x: Item)
    ensures x in FileItems(es, number, date) <==>
              exists e :: e in es && e.kind == "file" && Matches(number, e.name) && x == ItemOf(e, date)
  {
    if es != [] {
      FileItemsMember(es[1..], number, date, x);
      if e :| e in es && e.kind == "file" && Matches(number, e.name) && x == ItemOf(e, date) {
        assert e == es[0] || e in es[1..];
      }
      assert es[0] in es;
    }
  }

  lemma ScanFinds(fs: Tree, q: Query, y: string, m: string, d: string, e: Entry)
    requires Found(fs, q, y, m, d, e)
    ensures ItemOf(e, y + "-" + m + "-" + d) in FullScan(fs, q)
  {
    var x := ItemOf(e, y + "-" + m + "-" + d);
    FileItemsMember(Files(fs, "/" + y + "/" + m + "/" + d + "/"), q.number, y + "-" + m + "-" + d, x);
    var f, g, h := (d: string) => ScanDay(fs, q, y, m, d), (m: string) => ScanMonth(fs, q, y, m),
        (y: string) => ScanYear(fs, q, y);
    assert x in f(d);
    FlatMapMember(AllDirs(fs, "/" + y + "/" + m + "/"), f, x);
    assert x in g(m);
    FlatMapMember(AllDirs(fs, "/" + y + "/"), g, x);
    assert x in h(y);
    FlatMapMember(AllDirs(fs, "/"), h, x);
  }

  lemma ScanOnlyFinds(fs: Tree, q: Query, x: Item) returns (y: string, m: string, d: string, e: Entry)
    requires x in FullScan(fs, q)
    ensures Found(fs, q, y, m, d, e) && x == ItemOf(e, y + "-" + m + "-" + d)
  {
    var h := (y: string) => ScanYear(fs, q, y);
    FlatMapMember(AllDirs(fs, "/"), h, x);
    y :| y in AllDirs(fs, "/") && x in h(y);
    var y0 := y;
    var g := (m: string) => ScanMonth(fs, q, y0, m);
    FlatMapMember(AllDirs(fs, "/" + y + "/"), g, x);
    m :| m in AllDirs(fs, "/" + y + "/") && x in g(m);
    var m0 := m;
    var f := (d: string) => ScanDay(fs, q, y0, m0, d);
    FlatMapMember(AllDirs(fs, "/" + y + "/" + m + "/"), f, x);
    d :| d in AllDirs(fs, "/" + y + "/" + m + "/") && x in f(d);
    var es := Files(fs, "/" + y + "/" + m + "/" + d + "/");
    FileItemsMember(es, q.number, y + "-" + m + "-" + d, x);
    e :| e in es && e.kind == "file" && Matches(q.number, e.name) && x == ItemOf(e, y + "-" + m + "-" + d);
  }

  // ---------- what is listed ----------

  /** The directory at the path has a subdirectory of this name. */
  ghost predicate HasDir(fs: Tree, path: string, name: string) {
    path in fs && fs[path].Entries? && exists x :: x in fs[path].es && x.name == name && x.kind == "directory"
  }

  ghost predicate HasFile(fs: Tree, path: string, e: Entry) {
    path in fs && fs[path].Entries? && e in fs[path].es && e.kind == "file"
  }

  /** The file e lies in the directory of a calendar day. */
  ghost predicate Recorded(fs: Tree, y: string, m: string, d: string, e: Entry) {
    && HasDir(fs, "/", y) && HasDir(fs, "/" + y + "/", m) && HasDir(fs, "/" + y + "/" + m + "/", d)
    && HasFile(fs, "/" + y + "/" + m + "/" + d + "/", e)
    && |y| == 4 && |m| == 2 && |d| == 2 && AllDigits(y) && AllDigits(m) && AllDigits(d)
    && Valid(Date(DigitsValue(y), DigitsValue(m), DigitsValue(d)))
  }

  /** The item shows the file e of a day, with the parties that its name gives. */
  predicate Shows(x: Item, date: string, e: Entry) {
    && x.file == e.name && x.date == date && x.size == e.size && x.mtime == e.mtime
    && x.url == "/api/v1/recordings/" + date + "/" + e.name
    && (x.caller, x.dest) == RecParties(e.name)
  }

  predicate Asked(q: Query, x: Item) {
    q.number == "" || x.caller == q.number || x.dest == q.number
  }

  lemma {:induction false} DirNamesAre(es: seq<Entry>, name: string)
    ensures name in DirNames(es) <==> exists x :: x in es && x.name == name && x.kind == "directory"
  {
    if es != [] {
      DirNamesAre(es[1..], name);
      assert es[0] in es;
      if x :| x in es && x.name == name && x.kind == "directory" {
        assert x == es[0] || x in es[1..];
      }
    }
  }

  lemma AllDirsAre(fs: Tree, path: string, name: string)
    ensures name in AllDirs(fs, path) <==> HasDir(fs, path, name)
  {
    if path in fs && fs[path].Entries? {
      var es := fs[path].es;
      DirNamesAre(es, name);
      SortDownDescending(DirNames(es));
      assert name in DirNames(es) <==> name in multiset(DirNames(es));
      assert name in AllDirs(fs, path) <==> name in multiset(AllDirs(fs, path));
    }
  }

  lemma InSpan(q: Query, from: string, to: string, date: string, t: Date)
    requires Spells(from, q.start) && Spells(to, q.end) && Spells(date, t)
    ensures InRange(q, t) <==> Le(from, date) && Le(date, to)
  {
    hide Lt;
    TextOrder(from, q.start, date, t);
    TextOrder(date, t, to, q.end);
  }

  /** Every file that lies in the directory of a day whose text is between those of the two dates, both
      included, and that has the number if one is asked for, is listed. */
  lemma ListsFound(fs: Tree, q: Query, from: string, to: string, y: string, m: string, d: string, e: Entry, x: Item)
    requires Walk(fs, q).Ok? && Spells(from, q.start) && Spells(to, q.end)
    requires Recorded(fs, y, m, d, e) && Shows(x, y + "-" + m + "-" + d, e) && Asked(q, x)
    requires Le(from, y + "-" + m + "-" + d) && Le(y + "-" + m + "-" + d, to)
    ensures x in Walk(fs, q).value
  {
    hide Walk, FullScan, Lt, RecParties, Spells, AllDirs, HasDir;
    WalkIsFullScan(fs, q);
    AllDirsAre(fs, "/", y);
    AllDirsAre(fs, "/" + y + "/", m);
    AllDirsAre(fs, "/" + y + "/" + m + "/", d);
    DaySpells(y, m, d);
    InSpan(q, from, to, y + "-" + m + "-" + d, DayOf(y, m, d).value);
    ScanFinds(fs, q, y, m, d, e);
  }

  /** Nothing else is. */
  lemma ListsOnlyFound(fs: Tree, q: Query, from: string, to: string, x: Item)
    returns (y: string, m: string, d: string, e: Entry)
    requires Walk(fs, q).Ok? && Spells(from, q.start) && Spells(to, q.end) && x in Walk(fs, q).value
    ensures Recorded(fs, y, m, d, e) && Shows(x, y + "-" + m + "-" + d, e) && Asked(q, x)
    ensures Le(from, x.date) && Le(x.date, to)
  {
    hide Walk, FullScan, Lt, RecParties, Spells, AllDirs, HasDir;
    WalkIsFullScan(fs, q);
    y, m, d, e := ScanOnlyFinds(fs, q, x);
    AllDirsAre(fs, "/", y);
    AllDirsAre(fs, "/" + y + "/", m);
    AllDirsAre(fs, "/" + y + "/" + m + "/", d);
    DaySpells(y, m, d);
    InSpan(q, from, to, y + "-" + m + "-" + d, DayOf(y, m, d).value);
  }

  /** All that is listed is dated between the two dates of the query. */
  ghost predicate Between(items: seq<Item>, from: string, to: string) {
    forall x :: x in items ==> Le(from, x.date) && Le(x.date, to)
  }

  lemma WalkBetween(fs: Tree, q: Query)
    ensures forall from, to :: Walk(fs, q).Ok? && Spells(from, q.start) && Spells(to, q.end) ==>
              Between(Walk(fs, q).value, from, to)
  {
    hide Walk, Lt, Spells;
    forall from, to | Walk(fs, q).Ok? && Spells(from, q.start) && Spells(to, q.end)
      ensures Between(Walk(fs, q).value, from, to)
    {
      forall x | x in Walk(fs, q).value
        ensures Le(from, x.date) && Le(x.date, to)
      {
        var y, m, d, e := ListsOnlyFound(fs, q, from, to, x);
      }
    }
  }

  lemma {:induction false} GatherIff(names: seq<string>, f: string -> Result<seq<Item>>)
    ensures Gather(names, f).Ok? <==> forall n :: n in names ==> f(n).Ok?
  {
    if names != [] {
      GatherIff(names[1..], f);
      assert names[0] in names;
    }
  }

  /** A directory that can be listed, or that is not there, which reads as empty. */
  ghost predicate Readable(fs: Tree, path: string) {
    path in fs ==> fs[path].Entries?
  }

  predicate Number(name: string, width: nat, lo: int, hi: int) {
    |name| == width && AllDigits(name) && lo <= DigitsValue(name) <= hi
  }

  lemma DirsAre(fs: Tree, path: string, width: nat, lo: int, hi: int, name: string)
    requires List(fs, path).Ok?
    ensures name in Dirs(List(fs, path).value, width, lo, hi) <==> HasDir(fs, path, name) && Number(name, width, lo, hi)
  {
    var es := List(fs, path).value;
    var f := Filter(DirNames(es), n => Wanted(n, width, lo, hi));
    DirNamesAre(es, name);
    SortDownDescending(f);
    hide SortDown, Filter;
    assert name in SortDown(f) <==> name in multiset(SortDown(f));
    assert name in f <==> name in multiset(f);
  }

  ghost predicate DayReads(fs: Tree, q: Query, y: string, m: string, d: string) {
    DayOf(y, m, d).Some? && InRange(q, DayOf(y, m, d).value) ==> Readable(fs, "/" + y + "/" + m + "/" + d + "/")
  }

  ghost predicate MonthReads(fs: Tree, q: Query, y: string, m: string) {
    var path := "/" + y + "/" + m + "/";
    Readable(fs, path) && forall d :: HasDir(fs, path, d) && Number(d, 2, 1, 31) ==> DayReads(fs, q, y, m, d)
  }

  ghost predicate YearReads(fs: Tree, q: Query, y: string) {
    var path := "/" + y + "/";
    Readable(fs, path) && forall m :: HasDir(fs, path, m) && Number(m, 2, 1, 12) ==> MonthReads(fs, q, y, m)
  }

  lemma MonthReadsIff(fs: Tree, q: Query, y: string, m: string)
    ensures MonthItems(fs, q, y, m).Ok? <==> MonthReads(fs, q, y, m)
  {
    hide HasDir, Number, Dirs;
    var path, f := "/" + y + "/" + m + "/", (d: string) => DayItems(fs, q, y, m, d);
    if List(fs, path).Ok? {
      forall d
        ensures d in Dirs(List(fs, path).value, 2, 1, 31) <==> HasDir(fs, path, d) && Number(d, 2, 1, 31)
        ensures f(d).Ok? <==> DayReads(fs, q, y, m, d)
      {
        DirsAre(fs, path, 2, 1, 31, d);
      }
      GatherIff(Dirs(List(fs, path).value, 2, 1, 31), f);
    }
  }

  lemma YearReadsIff(fs: Tree, q: Query, y: string)
    ensures YearItems(fs, q, y).Ok? <==> YearReads(fs, q, y)
  {
    hide HasDir, Number, Dirs, MonthReads, MonthItems;
    var path, f := "/" + y + "/", (m: string) => MonthItems(fs, q, y, m);
    if List(fs, path).Ok? {
      forall m
        ensures m in Dirs(List(fs, path).value, 2, 1, 12) <==> HasDir(fs, path, m) && Number(m, 2, 1, 12)
        ensures f(m).Ok? <==> MonthReads(fs, q, y, m)
      {
        DirsAre(fs, path, 2, 1, 12, m);
        MonthReadsIff(fs, q, y, m);
      }
      GatherIff(Dirs(List(fs, path).value, 2, 1, 12), f);
    }
  }

  /** The walk succeeds exactly when it can list every directory that it needs: the root, the years between
      the two dates, their months, and those of their days that are in the range. No other directory can
      make it fail. */
  lemma WalkSucceedsIff(fs: Tree, q: Query)
    ensures Walk(fs, q).Ok? <==>
              Readable(fs, "/")
              && forall y :: HasDir(fs, "/", y) && Number(y, 4, q.start.y, q.end.y) ==> YearReads(fs, q, y)
  {
    hide HasDir, Number, Dirs, YearReads, YearItems;
    var f := (y: string) => YearItems(fs, q, y);
    if List(fs, "/").Ok? {
      forall y
        ensures y in Dirs(List(fs, "/").value, 4, q.start.y, q.end.y) <==>
                  HasDir(fs, "/", y) && Number(y, 4, q.start.y, q.end.y)
        ensures f(y).Ok? <==> YearReads(fs, q, y)
      {
        DirsAre(fs, "/", 4, q.start.y, q.end.y, y);
        YearReadsIff(fs, q, y);
      }
      GatherIff(Dirs(List(fs, "/").value, 4, q.start.y, q.end.y), f);
    }
  }

  // ---------- newest first, each once ----------

  /** x comes before z: a later day, or another file of the same day. */
  ghost predicate Ahead(x: Item, z: Item) {
    Lt(z.date, x.date) || (x.date == z.date && x.file != z.file)
  }

  ghost predicate NewestFirst(items: seq<Item>) {
    forall i, j :: 0 <= i < j < |items| ==> Ahead(items[i], items[j])
  }

  function Names(es: seq<Entry>): (r: seq<string>)
    ensures |r| == |es|
  {
    seq(|es|, i requires 0 <= i < |es| => es[i].name)
  }

  /** A directory never lists one name twice. */
  ghost predicate UniqueNames(fs: Tree) {
    forall path :: path in fs && fs[path].Entries? ==> Distinct(Names(fs[path].es))
  }

  ghost predicate StrictlyDown(names: seq<string>) {
    forall i, j :: 0 <= i < j < |names| ==> Lt(names[j], names[i])
  }

  lemma {:induction false} DirNamesDistinct(es: seq<Entry>)
    requires Distinct(Names(es))
    ensures Distinct(DirNames(es))
    ensures forall n :: n in DirNames(es) ==> n in Names(es)
  {
    if es != [] {
      assert Names(es)[1..] == Names(es[1..]);
      DirNamesDistinct(es[1..]);
      forall n | n in DirNames(es)
        ensures n in Names(es)
      {
        assert Names(es)[0] == es[0].name;
        assert n == es[0].name || n in Names(es)[1..];
      }
      assert forall k :: 0 <= k < |es| - 1 ==>
          Names(es)[1..][k] == Names(es)[k + 1] && Names(es)[0] != Names(es)[k + 1];
      assert es[0].name !in Names(es)[1..];
    }
  }

  lemma SortDownStrict(s: seq<string>)
    requires Distinct(s)
    ensures StrictlyDown(SortDown(s))
  {
    var r := SortDown(s);
    SortDownDescending(s);
    hide Lt, SortDown;
    forall i, j | 0 <= i < j < |r|
      ensures Lt(r[j], r[i])
    {
      OnceEach(s, r[i]);
      assert r == r[..j] + [r[j]] + r[j + 1..];
      assert multiset(r) == multiset(r[..j]) + multiset{r[j]} + multiset(r[j + 1..]);
      assert r[i] in r[..j];
    }
  }

  lemma AllDirsStrict(fs: Tree, path: string)
    requires UniqueNames(fs)
    ensures StrictlyDown(AllDirs(fs, path))
  {
    match List(fs, path)
    case Err =>
    case Ok(es) =>
      DirNamesDistinct(es);
      SortDownStrict(DirNames(es));
  }

  ghost predicate AllLater(xs: seq<Item>, zs: seq<Item>) {
    forall x, z :: x in xs && z in zs ==> Lt(z.date, x.date)
  }

  lemma {:induction false} FlatMapMember(names: seq<string>, f: string -> seq<Item>, x: Item)
    ensures x in FlatMap(names, f) <==> exists n :: n in names && x in f(n)
  {
    if names != [] {
      FlatMapMember(names[1..], f, x);
      assert names[0] in names;
      if n :| n in names && x in f(n) {
        assert n == names[0] || n in names[1..];
      }
    }
  }

  lemma {:induction false} FlatMapNewest(names: seq<string>, f: string -> seq<Item>)
    requires StrictlyDown(names)
    requires forall n :: n in names ==> NewestFirst(f(n))
    requires forall a, b :: a in names && b in names && Lt(a, b) ==> AllLater(f(b), f(a))
    ensures NewestFirst(FlatMap(names, f))
  {
    if names != [] {
      var head, tail := f(names[0]), FlatMap(names[1..], f);
      FlatMapNewest(names[1..], f);
      forall x, z | x in head && z in tail
        ensures Ahead(x, z)
      {
        FlatMapMember(names[1..], f, z);
        var n :| n in names[1..] && z in f(n);
        assert Lt(n, names[0]) && AllLater(f(names[0]), f(n));
      }
      var all := head + tail;
      forall i, j | 0 <= i < j < |all|
        ensures Ahead(all[i], all[j])
      {
        if i < |head| <= j {
          assert all[i] in head && all[j] in tail;
        }
      }
    }
  }

  lemma {:induction false} FilesNewest(es: seq<Entry>, number: string, date: string)
    requires Distinct(Names(es))
    ensures NewestFirst(FileItems(es, number, date))
    ensures forall x :: x in FileItems(es, number, date) ==> x.file in Names(es)
  {
    if es != [] {
      assert Names(es)[1..] == Names(es[1..]) && Names(es)[0] == es[0].name;
      FilesNewest(es[1..], number, date);
      assert es[0].name !in Names(es)[1..];
      var tail := FileItems(es[1..], number, date);
      assert forall j :: 0 <= j < |tail| ==> tail[j] in tail;
    }
  }

  /** The dates in the scan of a day, a month and a year. */
  lemma ScanDayDates(fs: Tree, q: Query, y: string, m: string, d: string)
    ensures forall x :: x in ScanDay(fs, q, y, m, d) ==>
              x.date == y + "-" + m + "-" + d && Digits(y, 4) && Digits(m, 2) && Digits(d, 2)
  {
  }

  ghost predicate DatedIn(x: Item, prefix: string, width: nat) {
    |x.date| == width && prefix <= x.date
  }

  lemma ScanMonthDates(fs: Tree, q: Query, y: string, m: string, x: Item)
    requires x in ScanMonth(fs, q, y, m)
    ensures Digits(y, 4) && Digits(m, 2) && DatedIn(x, y + "-" + m + "-", 10)
  {
    var f := (d: string) => ScanDay(fs, q, y, m, d);
    FlatMapMember(AllDirs(fs, "/" + y + "/" + m + "/"), f, x);
    var d :| x in f(d);
    ScanDayDates(fs, q, y, m, d);
  }

  lemma ScanYearDates(fs: Tree, q: Query, y: string, x: Item)
    requires x in ScanYear(fs, q, y)
    ensures Digits(y, 4) && DatedIn(x, y + "-", 10)
  {
    var f := (m: string) => ScanMonth(fs, q, y, m);
    FlatMapMember(AllDirs(fs, "/" + y + "/"), f, x);
    var m :| x in f(m);
    ScanMonthDates(fs, q, y, m, x);
    assert y + "-" <= y + "-" + m + "-" <= x.date;
  }

  lemma LaterDates(p: string, a: string, b: string, x: Item, z: Item)
    requires |a| == |b| && Lt(a, b) && p + a <= z.date && p + b <= x.date
    ensures Lt(z.date, x.date)
  {
    var s, t := z.date[|p + a|..], x.date[|p + b|..];
    assert z.date == p + (a + s) && x.date == p + (b + t);
    LtExtend(a, b, s, t);
    LtPrefix(p, a + s, b + t);
  }

  lemma ScanMonthNewest(fs: Tree, q: Query, y: string, m: string)
    requires UniqueNames(fs)
    ensures NewestFirst(ScanMonth(fs, q, y, m))
  {
    var f := (d: string) => ScanDay(fs, q, y, m, d);
    var names := AllDirs(fs, "/" + y + "/" + m + "/");
    AllDirsStrict(fs, "/" + y + "/" + m + "/");
    forall d
      ensures NewestFirst(f(d))
    {
      FilesNewest(Files(fs, "/" + y + "/" + m + "/" + d + "/"), q.number, y + "-" + m + "-" + d);
    }
    forall a, b | Lt(a, b)
      ensures AllLater(f(b), f(a))
    {
      forall x, z | x in f(b) && z in f(a)
        ensures Lt(z.date, x.date)
      {
        ScanDayDates(fs, q, y, m, a);
        ScanDayDates(fs, q, y, m, b);
        LaterDates(y + "-" + m + "-", a, b, x, z);
      }
    }
    FlatMapNewest(names, f);
  }

  lemma ScanYearNewest(fs: Tree, q: Query, y: string)
    requires UniqueNames(fs)
    ensures NewestFirst(ScanYear(fs, q, y))
  {
    var f := (m: string) => ScanMonth(fs, q, y, m);
    AllDirsStrict(fs, "/" + y + "/");
    forall m
      ensures NewestFirst(f(m))
    {
      ScanMonthNewest(fs, q, y, m);
    }
    forall a, b | Lt(a, b)
      ensures AllLater(f(b), f(a))
    {
      forall x, z | x in f(b) && z in f(a)
        ensures Lt(z.date, x.date)
      {
        ScanMonthDates(fs, q, y, a, z);
        ScanMonthDates(fs, q, y, b, x);
        assert y + "-" + a <= y + "-" + a + "-" <= z.date && y + "-" + b <= y + "-" + b + "-" <= x.date;
        LaterDates(y + "-", a, b, x, z);
      }
    }
    FlatMapNewest(AllDirs(fs, "/" + y + "/"), f);
  }

  /** The list is newest day first, and no recording is in it twice. */
  lemma WalkNewestFirst(fs: Tree, q: Query)
    requires UniqueNames(fs) && Walk(fs, q).Ok?
    ensures NewestFirst(Walk(fs, q).value)
  {
    hide Walk, ScanYear, NewestFirst, Lt;
    WalkIsFullScan(fs, q);
    var f := (y: string) => ScanYear(fs, q, y);
    AllDirsStrict(fs, "/");
    forall y
      ensures NewestFirst(f(y))
    {
      ScanYearNewest(fs, q, y);
    }
    forall a, b | Lt(a, b)
      ensures AllLater(f(b), f(a))
    {
      forall x, z | x in f(b) && z in f(a)
        ensures Lt(z.date, x.date)
      {
        ScanYearDates(fs, q, a, z);
        ScanYearDates(fs, q, b, x);
        assert "" + a <= z.date && "" + b <= x.date;
        LaterDates("", a, b, x, z);
      }
    }
    FlatMapNewest(AllDirs(fs, "/"), f);
  }

  // ---------- the code ----------

  /** Rows before i are settled, and row i is the greatest of rows i to j - 1. */
  ghost predicate Best(s: seq<string>, i: nat, j: nat)
    requires i < |s| && j <= |s|
  {
    && (forall k, l :: 0 <= k < i && k < l < |s| ==> Le(s[l], s[k]))
    && (forall l :: i < l < j ==> Le(s[l], s[i]))
  }

  function Swapped(s: seq<string>, i: nat, j: nat): seq<string>
    requires i < j < |s|
  {
    s[i := s[j]][j := s[i]]
  }

  lemma SwapPermutes(s: seq<string>, i: nat, j: nat)
    requires i < j < |s|
    ensures multiset(Swapped(s, i, j)) == multiset(s)
  {
  }

  lemma FirstRow(s: seq<string>)
    requires s != []
    ensures Best(s, 0, 1)
  {
  }

  lemma SwapKeeps(s: seq<string>, i: nat, j: nat)
    requires i < j < |s| && Best(s, i, j) && Lt(s[i], s[j])
    ensures Best(Swapped(s, i, j), i, j + 1)
  {
    hide Lt;
    var r := Swapped(s, i, j);
    assert forall l :: 0 <= l < |s| ==> r[l] == if l == i then s[j] else if l == j then s[i] else s[l];
    forall l | i < l < j
      ensures Le(s[l], s[j])
    {
      LeTrans(s[l], s[i], s[j]);
    }
  }

  lemma StayKeeps(s: seq<string>, i: nat, j: nat)
    requires i < j < |s| && Best(s, i, j) && !Lt(s[i], s[j])
    ensures Best(s, i, j + 1)
  {
    hide Lt;
    LtTotal(s[i], s[j]);
  }

  /** The exchange sort, in place. */
  method ExchangeSort(names: array<string>)
    modifies names
    ensures Descending(names[..]) && multiset(names[..]) == old(multiset(names[..]))
  {
    hide Lt, Best, Swapped;
    var n := names.Length;
    if n > 0 {
      FirstRow(names[..]);
    }
    for i := 0 to n
      invariant i < n ==> Best(names[..], i, i + 1)
      invariant i == n ==> Descending(names[..])
      invariant multiset(names[..]) == old(multiset(names[..]))
    {
      for j := i + 1 to n
        invariant Best(names[..], i, j)
        invariant multiset(names[..]) == old(multiset(names[..]))
      {
        ghost var s := names[..];
        if Lt(names[i], names[j]) {
          SwapKeeps(s, i, j);
          SwapPermutes(s, i, j);
          names[i], names[j] := names[j], names[i];
          IsSwapped(s, names[..], i, j);
        } else {
          StayKeeps(s, i, j);
        }
      }
      NextRow(names[..], i);
    }
  }

  lemma IsSwapped(s: seq<string>, r: seq<string>, i: nat, j: nat)
    requires i < j < |s| && |r| == |s| && r[i] == s[j] && r[j] == s[i]
    requires forall l :: 0 <= l < |s| && l != i && l != j ==> r[l] == s[l]
    ensures r == Swapped(s, i, j)
  {
  }

  lemma NextRow(s: seq<string>, i: nat)
    requires i < |s| && Best(s, i, |s|)
    ensures if i + 1 < |s| then Best(s, i + 1, i + 2) else Descending(s)
  {
    hide Lt;
  }

  lemma NextDir(es: seq<Entry>, i: nat, p: string -> bool)
    requires i < |es|
    ensures Filter(DirNames(es[i..]), p) ==
              (if es[i].kind == "directory" && p(es[i].name) then [es[i].name] else []) +
                  Filter(DirNames(es[i + 1..]), p)
  {
    assert es[i..][1..] == es[i + 1..];
    var rest := DirNames(es[i + 1..]);
    if es[i].kind == "directory" {
      assert ([es[i].name] + rest)[1..] == rest;
    } else {
      assert [] + rest == rest;
    }
  }

  method WantedDirs(es: seq<Entry>, width: nat, lo: int, hi: int) returns (names: seq<string>)
    ensures names == Filter(DirNames(es), n => Wanted(n, width, lo, hi))
  {
    hide Filter, DirNames, DigitsValue;
    ghost var p := (n: string) => Wanted(n, width, lo, hi);
    names := [];
    assert es[0..] == es;
    ghost var all := Filter(DirNames(es), p);
    assert [] + all == all;
    for i := 0 to |es|
      invariant names + Filter(DirNames(es[i..]), p) == all
    {
      NextDir(es, i, p);
      ghost var rest := Filter(DirNames(es[i + 1..]), p);
      assert [] + rest == rest;
      assert (names + [es[i].name]) + rest == names + ([es[i].name] + rest);
      if es[i].kind != "directory" {
        continue;
      }
      if !Digits(es[i].name, width) {
        continue;
      }
      var n := DigitsValue(es[i].name);
      if n < lo || n > hi {
        continue;
      }
      names := names + [es[i].name];
    }
    NoDirs(p);
    assert es[|es|..] == [] && names + [] == names;
  }

  lemma NoDirs(p: string -> bool)
    ensures Filter(DirNames([]), p) == []
  {
  }

  method DescendingDirs(es: seq<Entry>, width: nat, lo: int, hi: int) returns (r: seq<string>)
    ensures r == Dirs(es, width, lo, hi)
  {
    hide Filter, DirNames;
    var names := WantedDirs(es, width, lo, hi);
    var a := new string[|names|](i requires 0 <= i < |names| => names[i]);
    assert a[..] == names;
    ExchangeSort(a);
    r := a[..];
    SortDownIs(names, r);
  }

  lemma GatherStep(names: seq<string>, i: nat, f: string -> Result<seq<Item>>)
    requires i < |names|
    ensures Gather(names[i..], f) ==
              match f(names[i])
              case Err => Err
              case Ok(items) => match Gather(names[i + 1..], f) case Err => Err case Ok(more) => Ok(items + more)
  {
    assert names[i..][1..] == names[i + 1..];
  }

  /** What is left to gather after the first i directories gave `out`. */
  ghost predicate Gathered(names: seq<string>, i: nat, f: string -> Result<seq<Item>>, out: seq<Item>)
    requires i <= |names|
  {
    Gather(names, f) == match Gather(names[i..], f) case Err => Err case Ok(more) => Ok(out + more)
  }

  lemma GatheredNext(names: seq<string>, i: nat, f: string -> Result<seq<Item>>, out: seq<Item>)
    requires i < |names| && Gathered(names, i, f, out)
    ensures f(names[i]).Err? ==> Gather(names, f).Err?
    ensures f(names[i]).Ok? ==> Gathered(names, i + 1, f, out + f(names[i]).value)
  {
    GatherStep(names, i, f);
    if f(names[i]).Ok? && Gather(names[i + 1..], f).Ok? {
      var more := Gather(names[i + 1..], f).value;
      assert out + (f(names[i]).value + more) == out + f(names[i]).value + more;
    }
  }

  lemma GatheredEnds(names: seq<string>, f: string -> Result<seq<Item>>, out: seq<Item>)
    ensures Gathered(names, 0, f, []) && (Gathered(names, |names|, f, out) ==> Gather(names, f) == Ok(out))
  {
    assert names[0..] == names;
    if Gather(names, f).Ok? {
      assert [] + Gather(names, f).value == Gather(names, f).value;
    }
    assert out + [] == out;
  }

  /** The files of one day. */
  method WalkDay(fs: Tree, q: Query, y: string, m: string, d: string) returns (r: Result<seq<Item>>)
    ensures r == DayItems(fs, q, y, m, d)
  {
    var date := y + "-" + m + "-" + d;
    var t := DayOf(y, m, d);
    if t.None? || !InRange(q, t.value) {
      return Ok([]);
    }
    var files := List(fs, "/" + y + "/" + m + "/" + d + "/");
    if files.Err? {
      return Err;
    }
    var out := ListFiles(files.value, q.number, date);
    return Ok(out);
  }

  method ListFiles(es: seq<Entry>, number: string, date: string) returns (out: seq<Item>)
    ensures out == FileItems(es, number, date)
  {
    hide Matches, ItemOf;
    out := [];
    for i := 0 to |es|
      invariant out + FileItems(es[i..], number, date) == FileItems(es, number, date)
    {
      assert es[i..][1..] == es[i + 1..];
      if es[i].kind != "file" || !Matches(number, es[i].name) {
        assert FileItems(es[i..], number, date) == FileItems(es[i + 1..], number, date);
        continue;
      }
      ghost var rest := FileItems(es[i + 1..], number, date);
      assert out + ([ItemOf(es[i], date)] + rest) == out + [ItemOf(es[i], date)] + rest;
      out := out + [ItemOf(es[i], date)];
    }
  }

  method WalkMonth(fs: Tree, q: Query, y: string, m: string) returns (r: Result<seq<Item>>)
    ensures r == MonthItems(fs, q, y, m)
  {
    var days := List(fs, "/" + y + "/" + m + "/");
    if days.Err? {
      return Err;
    }
    var names := DescendingDirs(days.value, 2, 1, 31);
    var out := [];
    ghost var f := (d: string) => DayItems(fs, q, y, m, d);
    GatheredEnds(names, f, []);
    for i := 0 to |names|
      invariant Gathered(names, i, f, out)
    {
      GatheredNext(names, i, f, out);
      var files := WalkDay(fs, q, y, m, names[i]);
      if files.Err? {
        return Err;
      }
      out := out + files.value;
    }
    GatheredEnds(names, f, out);
    return Ok(out);
  }

  method WalkYear(fs: Tree, q: Query, y: string) returns (r: Result<seq<Item>>)
    ensures r == YearItems(fs, q, y)
  {
    var months := List(fs, "/" + y + "/");
    if months.Err? {
      return Err;
    }
    var names := DescendingDirs(months.value, 2, 1, 12);
    var out := [];
    ghost var f := (m: string) => MonthItems(fs, q, y, m);
    GatheredEnds(names, f, []);
    for i := 0 to |names|
      invariant Gathered(names, i, f, out)
    {
      GatheredNext(names, i, f, out);
      var days := WalkMonth(fs, q, y, names[i]);
      if days.Err? {
        return Err;
      }
      out := out + days.value;
    }
    GatheredEnds(names, f, out);
    return Ok(out);
  }

  /** walkRecordings; what it lists is dated between the two dates as they were written. */
  method WalkRecordings(fs: Tree, q: Query) returns (r: Result<seq<Item>>)
    ensures r == Walk(fs, q)
    ensures forall from, to :: r.Ok? && Spells(from, q.start) && Spells(to, q.end) ==> Between(r.value, from, to)
  {
    hide Spells, Between;
    WalkBetween(fs, q);
    var years := List(fs, "/");
    if years.Err? {
      return Err;
    }
    var names := DescendingDirs(years.value, 4, q.start.y, q.end.y);
    var out := [];
    ghost var f := (y: string) => YearItems(fs, q, y);
    GatheredEnds(names, f, []);
    for i := 0 to |names|
      invariant Gathered(names, i, f, out)
    {
      GatheredNext(names, i, f, out);
      var months := WalkYear(fs, q, names[i]);
      if months.Err? {
        return Err;
      }
      out := out + months.value;
    }
    GatheredEnds(names, f, out);
    return Ok(out);
  }
}
