/** The migration runner: one transaction per file, restarted after any crash, failed statement or lost
    reply. A body is known by its file name; the schema is the list of the bodies that took effect. */
module Migrate {
  import Order
  import opened Subseq

  const SUFFIX := ".up.sql"

  datatype Entry = Entry(name: string, dir: bool)

  /** What survives a crash: the rows of schema_migrations and the schema. */
  datatype Db = Db(versions: set<string>, schema: seq<string>)

  predicate IsMigration(name: string) {
    |SUFFIX| <= |name| && name[|name| - |SUFFIX|..] == SUFFIX
  }

  function Version(name: string): string {
    if IsMigration(name) then name[..|name| - |SUFFIX|] else name
  }

  function VersionsOf(names: seq<string>): set<string> {
    set i | 0 <= i < |names| :: Version(names[i])
  }

  /** The version of a file is its name without the ending. */
  lemma VersionIs(version: string)
    ensures IsMigration(version + ".up.sql") && Version(version + ".up.sql") == version
  {
    var name := version + ".up.sql";
    assert name[|name| - 7..] == ".up.sql" && name[..|name| - 7] == version;
  }

  lemma VersionInjective(a: string, b: string)
    requires IsMigration(a) && IsMigration(b) && Version(a) == Version(b)
    ensures a == b
  {
    assert a == Version(a) + SUFFIX && b == Version(b) + SUFFIX;
  }

  ghost predicate AllMigrations(names: seq<string>) {
    forall i :: 0 <= i < |names| ==> IsMigration(names[i])
  }

  predicate IsFile(e: Entry) {
    !e.dir && IsMigration(e.name)
  }

  ghost predicate UniqueEntries(entries: seq<Entry>) {
    forall i, j :: 0 <= i < j < |entries| ==> entries[i].name != entries[j].name
  }

  /** The files that a run applies, in the order it applies them. */
  ghost predicate Files(entries: seq<Entry>, names: seq<string>) {
    && Order.StrictlyAscending(names) && AllMigrations(names)
    && forall n :: n in names <==> IsMigration(n) && Entry(n, false) in entries
  }

  function MigrationNames(entries: seq<Entry>): seq<string> {
    if entries == [] then []
    else
      var k := |entries| - 1;
      MigrationNames(entries[..k]) + if IsFile(entries[k]) then [entries[k].name] else []
  }

  function FileList(entries: seq<Entry>): seq<string> {
    Order.Sort(MigrationNames(entries))
  }

  // ---------- one run ----------

  function Fresh(versions: set<string>): string -> bool {
    (name: string) => Version(name) !in versions
  }

  /** What a run still has to do. */
  ghost function Pending(names: seq<string>, db: Db): seq<string> {
    Order.Filter(names, Fresh(db.versions))
  }

  function Applied(db: Db, names: seq<string>): Db {
    Db(db.versions + VersionsOf(names), db.schema + names)
  }

  /** A run that got as far as the first k pending files; a completed run did them all. */
  ghost predicate RunStep(names: seq<string>, d: Db, completed: bool, e: Db) {
    exists k :: RunAt(names, d, completed, e, k)
  }

  ghost predicate RunAt(names: seq<string>, d: Db, completed: bool, e: Db, k: int) {
    var pending := Pending(names, d);
    0 <= k <= |pending| && e == Applied(d, pending[..k]) && (completed ==> k == |pending|)
  }

  /** Dead: the process is gone, or will never hear; Bad: an error came back. */
  datatype Reply = Good | Bad | Dead

  datatype Outcome = Completed | Failed | Crashed

  datatype Tx = Tx(bodies: seq<string>, rows: set<string>)

  method AnyReply() returns (reply: Reply) {
    reply := *;
  }

  class Database {
    var tracked: bool
    var db: Db

    constructor ()
      ensures db == Db({}, []) && !tracked
    {
      tracked, db := false, Db({}, []);
    }

    method CreateTable() returns (reply: Reply)
      modifies `tracked
      ensures reply == Good ==> tracked
    {
      reply := AnyReply();
      var works: bool := *;
      if reply == Good || works {
        tracked := true;
      }
    }

    method Exists(version: string) returns (reply: Reply, found: bool)
      requires tracked
      ensures reply == Good ==> found == (version in db.versions)
    {
      reply := AnyReply();
      found := version in db.versions;
    }

    method Body(tx: Tx, name: string) returns (reply: Reply, out: Tx)
      ensures reply == Good ==> out == tx.(bodies := tx.bodies + [name])
    {
      reply := AnyReply();
      out := tx.(bodies := tx.bodies + [name]);
    }

    method Insert(tx: Tx, version: string) returns (reply: Reply, out: Tx)
      ensures reply == Good ==> out == tx.(rows := tx.rows + {version}) && version !in db.versions
    {
      reply := AnyReply();
      out := tx.(rows := tx.rows + {version});
      if reply == Good && version in db.versions {
        reply := Bad;
      }
    }

    /** The commit takes effect whole or not at all, whatever reply comes back, if one does. */
    method Commit(tx: Tx) returns (reply: Reply)
      modifies `db
      ensures db == old(db) || db == Db(old(db).versions + tx.rows, old(db).schema + tx.bodies)
      ensures reply == Good ==> db == Db(old(db).versions + tx.rows, old(db).schema + tx.bodies)
    {
      reply := AnyReply();
      var works: bool := *;
      if reply == Good || works {
        db := Db(db.versions + tx.rows, db.schema + tx.bodies);
      }
    }

    /** One file: skipped when its version is recorded, else its body and its row in one transaction. */
    method ApplyFile(name: string) returns (reply: Reply)
      requires tracked
      modifies `db
      ensures Version(name) in old(db).versions ==> db == old(db)
      ensures db == old(db) || db == Db(old(db).versions + {Version(name)}, old(db).schema + [name])
      ensures reply == Good && Version(name) !in old(db).versions ==>
                db == Db(old(db).versions + {Version(name)}, old(db).schema + [name])
    {
      var version := Version(name);
      var found;
      reply, found := Exists(version);
      if reply != Good || found {
        return;
      }
      reply := AnyReply();
      if reply != Good {
        return;
      }
      var tx := Tx([], {});
      reply, tx := Body(tx, name);
      if reply != Good {
        return;
      }
      reply, tx := Insert(tx, version);
      if reply != Good {
        return;
      }
      assert tx == Tx([name], {version});
      reply := Commit(tx);
    }

    /** Migrate */
    method Migrate(entries: seq<Entry>) returns (outcome: Outcome)
      requires UniqueEntries(entries)
      modifies this
      ensures RunStep(FileList(entries), old(db), outcome == Completed, db)
    {
      hide Order.StrictlyAscending, AllMigrations, Files, FileList, UniqueEntries, RunStep, Pending, Applied, Version;
      ghost var files := FileList(entries);
      FileListInOrder(entries);
      PartWay(files, db, 0);
      NothingYet(files, db);
      var reply := CreateTable();
      if reply != Good {
        return if reply == Dead then Crashed else Failed;
      }
      reply := AnyReply();
      if reply != Good {
        return if reply == Dead then Crashed else Failed;
      }
      var names := FileNames(entries);
      for i := 0 to |names|
        invariant tracked && db == Applied(old(db), Pending(names[..i], old(db)))
      {
        var name := names[i];
        PartWay(names, old(db), i);
        PartWay(names, old(db), i + 1);
        NextFile(names, old(db), i);
        reply := ApplyFile(name);
        if reply != Good {
          return if reply == Dead then Crashed else Failed;
        }
      }
      PartWay(names, old(db), |names|);
      assert names[..|names|] == names;
      outcome := Completed;
    }
  }

  lemma NothingYet(names: seq<string>, d: Db)
    ensures Applied(d, Pending(names[..0], d)) == d
  {
  }

  /** FileNames: the directory's migration files, sorted. */
  method FileNames(entries: seq<Entry>) returns (names: seq<string>)
    ensures names == FileList(entries)
  {
    hide IsMigration, Order.Sort;
    names := [];
    for i := 0 to |entries|
      invariant names == MigrationNames(entries[..i])
    {
      assert entries[..i + 1][..i] == entries[..i];
      if !entries[i].dir && IsMigration(entries[i].name) {
        names := names + [entries[i].name];
      }
    }
    assert entries[..|entries|] == entries;
    names := Order.Sort(names);
  }

  lemma {:induction false} MigrationNamesAre(entries: seq<Entry>)
    requires UniqueEntries(entries)
    ensures Distinct(MigrationNames(entries))
    ensures forall n :: n in MigrationNames(entries) <==> IsMigration(n) && Entry(n, false) in entries
  {
    hide IsMigration;
    if entries != [] {
      var k := |entries| - 1;
      MigrationNamesAre(entries[..k]);
      assert entries == entries[..k] + [entries[k]];
      var before := MigrationNames(entries[..k]);
      forall i | 0 <= i < |before|
        ensures before[i] != entries[k].name
      {
        assert before[i] in before;
        var j :| 0 <= j < k && entries[j] == Entry(before[i], false);
      }
    }
  }

  /** Whatever order the directory is read in, the files come in strictly ascending order, all of them. */
  lemma FileListIs(entries: seq<Entry>)
    requires UniqueEntries(entries)
    ensures Files(entries, FileList(entries))
  {
    hide IsMigration, Order.Sort, Order.StrictlyAscending;
    MigrationNamesAre(entries);
    Order.SortDistinct(MigrationNames(entries));
    var names := FileList(entries);
    assert forall i :: 0 <= i < |names| ==> names[i] in names;
  }

  lemma SuffixIs(name: string)
    ensures IsMigration(name) <==> |name| >= 7 && name[|name| - 7..] == ".up.sql"
  {
  }

  /** They are the entries that are no directories and whose names end in ".up.sql". */
  lemma FileListHolds(entries: seq<Entry>, name: string)
    requires UniqueEntries(entries)
    ensures name in FileList(entries) <==>
              Entry(name, false) in entries && |name| >= 7 && name[|name| - 7..] == ".up.sql"
  {
    hide IsMigration, FileList, Order.StrictlyAscending, AllMigrations;
    FileListIs(entries);
    SuffixIs(name);
  }

  lemma FileListInOrder(entries: seq<Entry>)
    requires UniqueEntries(entries)
    ensures Order.StrictlyAscending(FileList(entries)) && AllMigrations(FileList(entries))
  {
    FileListIs(entries);
  }

  lemma PartWay(names: seq<string>, d: Db, i: nat)
    requires i <= |names|
    ensures RunStep(names, d, i == |names|, Applied(d, Pending(names[..i], d)))
    ensures RunStep(names, d, false, Applied(d, Pending(names[..i], d)))
  {
    assert names == names[..i] + names[i..];
    Order.FilterAppend(names[..i], names[i..], Fresh(d.versions));
    var k := |Pending(names[..i], d)|;
    assert Pending(names, d)[..k] == Pending(names[..i], d);
    assert i == |names| ==> names[i..] == [];
    assert RunAt(names, d, i == |names|, Applied(d, Pending(names[..i], d)), k);
    assert RunAt(names, d, false, Applied(d, Pending(names[..i], d)), k);
  }

  /** The runner asks the table as it is now; that answers whether the file was pending at the start. */
  lemma NextFile(names: seq<string>, d: Db, i: nat)
    requires i < |names| && Order.StrictlyAscending(names) && AllMigrations(names)
    ensures var e := Applied(d, Pending(names[..i], d));
            && (Version(names[i]) in e.versions <==> Version(names[i]) in d.versions)
            && Applied(d, Pending(names[..i + 1], d)) ==
                 if Version(names[i]) in d.versions then e
                 else Db(e.versions + {Version(names[i])}, e.schema + [names[i]])
  {
    hide Order.Lt, IsMigration, Version;
    var before := Pending(names[..i], d);
    var e := Applied(d, before);
    forall k | 0 <= k < i
      ensures names[k] != names[i]
    {
      Order.LtTotal(names[k], names[i]);
    }
    if Version(names[i]) in VersionsOf(before) {
      var j :| 0 <= j < |before| && Version(before[j]) == Version(names[i]);
      assert before[j] in before;
      var k :| 0 <= k < i && names[k] == before[j];
      VersionInjective(names[k], names[i]);
    }
    assert names[..i + 1] == names[..i] + [names[i]];
    Order.FilterAppend(names[..i], [names[i]], Fresh(d.versions));
    assert Order.Filter([names[i]], Fresh(d.versions)) == if Fresh(d.versions)(names[i]) then [names[i]] else [];
    if Version(names[i]) !in d.versions {
      VersionsNext(before, names[i]);
      assert Pending(names[..i + 1], d) == before + [names[i]];
      assert d.versions + VersionsOf(before + [names[i]]) == e.versions + {Version(names[i])};
      assert d.schema + (before + [names[i]]) == e.schema + [names[i]];
    } else {
      assert Pending(names[..i + 1], d) == before;
    }
  }

  lemma VersionsNext(names: seq<string>, name: string)
    ensures VersionsOf(names + [name]) == VersionsOf(names) + {Version(name)}
  {
    var all := names + [name];
    assert forall i :: 0 <= i < |names| ==> all[i] == names[i];
    assert all[|names|] == name;
  }

  // ---------- any number of runs ----------

  /** One run: the files it saw and whether it completed. */
  datatype Run = Run(files: seq<string>, completed: bool)

  ghost predicate FileSet(files: seq<string>) {
    Order.StrictlyAscending(files) && AllMigrations(files)
  }

  /** A fresh database, then runs one after another, each stopped anywhere or completed. */
  ghost predicate History(runs: seq<Run>, states: seq<Db>) {
    && |states| == |runs| + 1 && states[0] == Db({}, [])
    && forall i :: 0 <= i < |runs| ==> FileSet(runs[i].files) && Link(runs[i], states, i)
  }

  ghost predicate Link(run: Run, states: seq<Db>, i: nat)
    requires i + 1 < |states|
  {
    RunStep(run.files, states[i], run.completed, states[i + 1])
  }

  ghost function Last(states: seq<Db>): Db
    requires states != []
  {
    states[|states| - 1]
  }

  ghost predicate Honest(d: Db) {
    && AllMigrations(d.schema) && d.versions == VersionsOf(d.schema) && Distinct(d.schema)
  }

  lemma HistoryCut(runs: seq<Run>, states: seq<Db>)
    requires History(runs, states) && runs != []
    ensures History(runs[..|runs| - 1], states[..|runs|])
    ensures RunStep(runs[|runs| - 1].files, Last(states[..|runs|]), runs[|runs| - 1].completed, Last(states))
    ensures FileSet(runs[|runs| - 1].files)
  {
    hide RunStep, FileSet;
    var n := |runs| - 1;
    assert Link(runs[n], states, n);
    forall i | 0 <= i < n
      ensures FileSet(runs[..n][i].files) && Link(runs[..n][i], states[..n + 1], i)
    {
      assert Link(runs[i], states, i);
    }
  }

  lemma {:induction false} HonestHistory(runs: seq<Run>, states: seq<Db>)
    requires History(runs, states)
    ensures Honest(Last(states))
  {
    if runs != [] {
      HistoryCut(runs, states);
      var n := |runs| - 1;
      HonestHistory(runs[..n], states[..n + 1]);
      StepHonest(runs[n].files, Last(states[..n + 1]), runs[n].completed, Last(states));
    }
  }

  /** In every history, whatever files the runs saw: a version is recorded exactly when its body took
      effect, and no body took effect twice. */
  lemma RecordedIffApplied(runs: seq<Run>, states: seq<Db>)
    requires History(runs, states)
    ensures forall name :: IsMigration(name) ==>
        (Version(name) in Last(states).versions <==> name in Last(states).schema)
    ensures forall name :: multiset(Last(states).schema)[name] <= 1
  {
    HonestHistory(runs, states);
    var d := Last(states);
    forall name | IsMigration(name)
      ensures Version(name) in d.versions <==> name in d.schema
    {
      Recorded(d, name);
    }
    forall name
      ensures multiset(d.schema)[name] <= 1
    {
      OnceEach(d.schema, name);
    }
  }

  lemma Recorded(d: Db, name: string)
    requires Honest(d) && IsMigration(name)
    ensures Version(name) in d.versions <==> name in d.schema
  {
    hide IsMigration;
    if Version(name) in d.versions {
      var i :| 0 <= i < |d.schema| && Version(d.schema[i]) == Version(name);
      VersionInjective(d.schema[i], name);
    }
    if name in d.schema {
      var i :| 0 <= i < |d.schema| && d.schema[i] == name;
      assert Version(d.schema[i]) in VersionsOf(d.schema);
    }
  }

  lemma StepHonest(files: seq<string>, d: Db, completed: bool, e: Db)
    requires Honest(d) && FileSet(files) && RunStep(files, d, completed, e)
    ensures Honest(e)
  {
    hide IsMigration, Order.Lt;
    var k :| RunAt(files, d, completed, e, k);
    var added := Pending(files, d)[..k];
    assert forall i :: 0 <= i < |added| ==> added[i] in Pending(files, d);
    VersionsAppend(d.schema, added);
    PendingDistinct(files, d);
    forall i, j | 0 <= i < |d.schema| && 0 <= j < |added|
      ensures d.schema[i] != added[j]
    {
      assert Version(d.schema[i]) in VersionsOf(d.schema);
      assert Fresh(d.versions)(added[j]);
    }
  }

  lemma VersionsAppend(a: seq<string>, b: seq<string>)
    ensures VersionsOf(a + b) == VersionsOf(a) + VersionsOf(b)
  {
    hide IsMigration;
    var all := a + b;
    forall v
      ensures v in VersionsOf(all) <==> v in VersionsOf(a) || v in VersionsOf(b)
    {
      if v in VersionsOf(a) {
        var i :| 0 <= i < |a| && Version(a[i]) == v;
        assert all[i] == a[i];
      }
      if v in VersionsOf(b) {
        var i :| 0 <= i < |b| && Version(b[i]) == v;
        assert all[|a| + i] == b[i];
      }
    }
  }

  lemma {:induction false} FilterAscending(s: seq<string>, p: string -> bool)
    requires Order.StrictlyAscending(s)
    ensures Order.StrictlyAscending(Order.Filter(s, p))
  {
    if s != [] {
      FilterAscending(s[1..], p);
      var rest := Order.Filter(s[1..], p);
      assert forall i :: 0 <= i < |rest| ==> rest[i] in rest;
      forall i | 0 <= i < |rest|
        ensures Order.Lt(s[0], rest[i])
      {
        assert rest[i] in s[1..];
      }
    }
  }

  lemma PendingDistinct(files: seq<string>, d: Db)
    requires Order.StrictlyAscending(files)
    ensures Order.StrictlyAscending(Pending(files, d)) && Distinct(Pending(files, d))
  {
    FilterAscending(files, Fresh(d.versions));
    var p := Pending(files, d);
    forall i, j | 0 <= i < j < |p|
      ensures p[i] != p[j]
    {
      Order.LtTotal(p[i], p[j]);
    }
  }

  ghost predicate SameFiles(runs: seq<Run>, files: seq<string>) {
    forall i :: 0 <= i < |runs| ==> runs[i].files == files
  }

  ghost predicate AnyCompleted(runs: seq<Run>) {
    exists i :: 0 <= i < |runs| && runs[i].completed
  }

  /** With a fixed set of files the bodies applied are a prefix of the sorted names, and from the first
      completed run on they are all of them: the schema of one uninterrupted run. */
  lemma {:induction false} PrefixOfFiles(runs: seq<Run>, states: seq<Db>, files: seq<string>)
    requires History(runs, states) && SameFiles(runs, files) && FileSet(files)
    ensures Last(states).schema <= files
    ensures AnyCompleted(runs) ==> Last(states).schema == files && Last(states) == Applied(Db({}, []), files)
  {
    assert |states| == |runs| + 1;
    hide FileSet, History, RunStep, Honest, Pending, Applied, Last, AnyCompleted, SameFiles;
    HonestHistory(runs, states);
    if runs == [] {
      FreshStart(runs, states);
    } else {
      var n := |runs| - 1;
      HistoryCut(runs, states);
      RunsCut(runs, files);
      PrefixOfFiles(runs[..n], states[..n + 1], files);
      HonestHistory(runs[..n], states[..n + 1]);
      StepPrefix(files, Last(states[..n + 1]), runs[n].completed, Last(states));
    }
    if AnyCompleted(runs) {
      WholeState(Last(states), files);
    }
  }

  lemma RunsCut(runs: seq<Run>, files: seq<string>)
    requires SameFiles(runs, files) && runs != []
    ensures var n := |runs| - 1;
            && runs[n].files == files && SameFiles(runs[..n], files)
            && (AnyCompleted(runs) <==> AnyCompleted(runs[..n]) || runs[n].completed)
  {
    var n := |runs| - 1;
    if i :| 0 <= i < n && runs[i].completed {
      assert runs[..n][i].completed;
    }
  }

  lemma FreshStart(runs: seq<Run>, states: seq<Db>)
    requires History(runs, states) && runs == []
    ensures Last(states) == Db({}, []) && !AnyCompleted(runs)
  {
  }

  lemma WholeState(d: Db, files: seq<string>)
    requires Honest(d) && d.schema == files
    ensures d == Applied(Db({}, []), files)
  {
    assert [] + files == files && {} + VersionsOf(files) == VersionsOf(files);
  }

  lemma StepPrefix(files: seq<string>, d: Db, completed: bool, e: Db)
    requires FileSet(files) && Honest(d) && d.schema <= files && RunStep(files, d, completed, e)
    ensures e.schema <= files
    ensures completed || d.schema == files ==> e.schema == files
  {
    hide FileSet, Honest;
    PendingAfterPrefix(files, d);
    var k :| RunAt(files, d, completed, e, k);
    hide Pending;
    assert e.schema == d.schema + files[|d.schema|..][..k];
    assert files == d.schema + files[|d.schema|..];
  }

  lemma PendingAfterPrefix(files: seq<string>, d: Db)
    requires FileSet(files) && Honest(d) && d.schema <= files
    ensures Pending(files, d) == files[|d.schema|..]
  {
    hide FileSet, Honest, IsMigration, Version, Order.Filter;
    var n := |d.schema|;
    assert files == files[..n] + files[n..];
    Order.FilterAppend(files[..n], files[n..], Fresh(d.versions));
    forall i | 0 <= i < |files|
      ensures Fresh(d.versions)(files[i]) <==> n <= i
    {
      FreshAfter(files, d, i);
    }
    FilterNone(files[..n], Fresh(d.versions));
    FilterAll(files[n..], Fresh(d.versions));
  }

  lemma FreshAfter(files: seq<string>, d: Db, i: nat)
    requires FileSet(files) && Honest(d) && d.schema <= files && i < |files|
    ensures Version(files[i]) !in d.versions <==> |d.schema| <= i
  {
    hide IsMigration, Order.Lt;
    var n := |d.schema|;
    if i < n {
      assert Version(d.schema[i]) in VersionsOf(d.schema);
    } else {
      forall j | 0 <= j < n
        ensures files[j] != files[i]
      {
        Order.LtTotal(files[j], files[i]);
      }
      if Version(files[i]) in d.versions {
        var j :| 0 <= j < n && Version(d.schema[j]) == Version(files[i]);
        VersionInjective(files[j], files[i]);
      }
    }
  }

  lemma {:induction false} FilterNone(s: seq<string>, p: string -> bool)
    requires forall i :: 0 <= i < |s| ==> !p(s[i])
    ensures Order.Filter(s, p) == []
  {
    if s != [] {
      FilterNone(s[1..], p);
    }
  }

  lemma {:induction false} FilterAll(s: seq<string>, p: string -> bool)
    requires forall i :: 0 <= i < |s| ==> p(s[i])
    ensures Order.Filter(s, p) == s
  {
    if s != [] {
      FilterAll(s[1..], p);
    }
  }

  ghost predicate Includes(files: seq<string>, older: seq<string>) {
    forall x :: x in older ==> x in files
  }

  /** New files all sort after the old ones. */
  ghost predicate SortAfter(files: seq<string>, older: seq<string>) {
    forall x, y :: x in older && y in files && y !in older ==> Order.Lt(x, y)
  }

  /** An upgrade: the old files completed, then the new set completed. It ends in the schema of a fresh
      install of the new set if and only if every new file sorts after every old one. */
  lemma UpgradeIffSortedAfter(older: seq<string>, files: seq<string>, e: Db)
    requires FileSet(older) && FileSet(files) && Includes(files, older)
    requires RunStep(files, Applied(Db({}, []), older), true, e)
    ensures e.schema == files <==> SortAfter(files, older)
  {
    var d := Applied(Db({}, []), older);
    assert d.schema == older && d.versions == VersionsOf(older);
    PendingDistinct(files, d);
    var added := Pending(files, d);
    var k :| RunAt(files, d, true, e, k);
    assert added[..k] == added;
    assert e.schema == older + added;
    forall x
      ensures x in added <==> x in files && x !in older
    {
      NewIff(older, files, d, x);
    }
    assert Order.StrictlyAscending(older) && Order.StrictlyAscending(files);
    hide Order.StrictlyAscending, SortAfter, Includes;
    if e.schema == files {
      SplitSorted(older, added, files);
    }
    if SortAfter(files, older) {
      JoinSorted(older, added, files);
    }
  }

  lemma SplitSorted(older: seq<string>, added: seq<string>, files: seq<string>)
    requires older + added == files && Order.StrictlyAscending(files)
    requires forall x :: x in added <==> x in files && x !in older
    ensures SortAfter(files, older)
  {
    hide Order.Lt;
    forall x, y | x in older && y in files && y !in older
      ensures Order.Lt(x, y)
    {
      var i :| 0 <= i < |older| && older[i] == x;
      var j :| 0 <= j < |added| && added[j] == y;
      assert files[i] == x && files[|older| + j] == y;
    }
  }

  lemma JoinSorted(older: seq<string>, added: seq<string>, files: seq<string>)
    requires SortAfter(files, older) && Includes(files, older)
    requires Order.StrictlyAscending(older) && Order.StrictlyAscending(added) && Order.StrictlyAscending(files)
    requires forall x :: x in added <==> x in files && x !in older
    ensures older + added == files
  {
    hide Order.Lt;
    forall i, j | 0 <= i < |older| && 0 <= j < |added|
      ensures Order.Lt(older[i], added[j])
    {
      assert older[i] in older && added[j] in added;
    }
    Joined(older, added);
    Order.StrictlyAscendingUnique(older + added, files);
  }

  lemma Joined(a: seq<string>, b: seq<string>)
    requires Order.StrictlyAscending(a) && Order.StrictlyAscending(b)
    requires forall i, j :: 0 <= i < |a| && 0 <= j < |b| ==> Order.Lt(a[i], b[j])
    ensures Order.StrictlyAscending(a + b)
  {
    hide Order.Lt;
  }

  lemma NewIff(older: seq<string>, files: seq<string>, d: Db, x: string)
    requires AllMigrations(older) && AllMigrations(files) && d.versions == VersionsOf(older)
    ensures x in Pending(files, d) <==> x in files && x !in older
  {
    hide IsMigration;
    if x in files {
      var f :| 0 <= f < |files| && files[f] == x;
      if x in older {
        var i :| 0 <= i < |older| && older[i] == x;
        assert Version(older[i]) in VersionsOf(older);
      } else if Version(x) in d.versions {
        var i :| 0 <= i < |older| && Version(older[i]) == Version(x);
        VersionInjective(older[i], x);
        assert false;
      }
    }
  }
}
