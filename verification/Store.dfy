/** The store over the desired-state tables: what each statement changes, that every run keeps the tables
    consistent, and which error each call reports when. */
module Store {
  import opened Schema
  import opened Wrappers

  // ---------- every run ----------

  ghost function Step(t: Tables, op: Op): Tables {
    match Exec(t, op) case Done(u, _) => u case Violated(_) => t
  }

  ghost function Run(t: Tables, ops: seq<Op>): Tables {
    if ops == [] then t else Step(Run(t, ops[..|ops| - 1]), ops[|ops| - 1])
  }

  /** After any statements in any order, refused ones included, keys are unique and references are live. */
  lemma {:induction false} IntegrityRun(ops: seq<Op>)
    ensures Integrity(Run(EMPTY, ops))
  {
    if ops != [] {
      var t := Run(EMPTY, ops[..|ops| - 1]);
      IntegrityRun(ops[..|ops| - 1]);
      if Exec(t, ops[|ops| - 1]).Done? {
        IntegrityStep(t, ops[|ops| - 1]);
      }
    }
  }

  // ---------- what a delete removes ----------

  ghost predicate InDomain(t: Tables, domainId: Id, name: string) {
    domainId in t.domains && t.domains[domainId].name == name
  }

  ghost function UsersOf(t: Tables, name: string): set<Id> {
    set id | id in t.users && InDomain(t, t.users[id].domainId, name)
  }

  ghost function ExtsOf(t: Tables, name: string): set<Id> {
    set id | id in t.exts && InDomain(t, t.exts[id].domainId, name)
  }

  ghost function CondsBelow(t: Tables, exts: set<Id>): set<Id> {
    set id | id in t.conds && t.conds[id].extId in exts
  }

  ghost function ActsBelow(t: Tables, conds: set<Id>): set<Id> {
    set id | id in t.acts && t.acts[id].condId in conds
  }

  lemma CondsGone(t: Tables, keep: set<Id>, gone: set<Id>)
    requires ActsRef(t.acts, t.conds.Keys)
    requires forall id :: id in t.conds ==> (id in gone <==> id !in keep)
    ensures KeepConds(t, keep) == t.(conds := t.conds - gone, acts := t.acts - ActsBelow(t, gone))
  {
    var u := KeepConds(t, keep);
    assert u.conds == t.conds - gone;
    assert u.acts == t.acts - ActsBelow(t, gone);
  }

  lemma ExtsGone(t: Tables, keep: set<Id>, gone: set<Id>)
    requires CondsRef(t.conds, t.exts.Keys) && ActsRef(t.acts, t.conds.Keys)
    requires forall id :: id in t.exts ==> (id in gone <==> id !in keep)
    ensures var conds := CondsBelow(t, gone);
            KeepExts(t, keep)
            == t.(exts := t.exts - gone, conds := t.conds - conds, acts := t.acts - ActsBelow(t, conds))
  {
    hide ActsRef;
    var exts := map id | id in t.exts && id in keep :: t.exts[id];
    assert exts == t.exts - gone;
    var kept := set id | id in t.conds && t.conds[id].extId in exts;
    CondsGone(t.(exts := exts), kept, CondsBelow(t, gone));
  }

  lemma DomainRowsGone(t: Tables, name: string)
    requires UsersRef(t.users, t.domains.Keys)
    ensures var left := WithoutName(t.domains, name);
            && left == t.domains - (set id | id in t.domains && InDomain(t, id, name))
            && UsersIn(t.users, left.Keys) == t.users - UsersOf(t, name)
  {
  }

  /** Deleting a domain removes that domain, its users, its extensions and everything below them, and
      nothing else in any table. */
  lemma DeleteDomainIsExact(t: Tables, name: string)
    requires Integrity(t)
    ensures Exec(t, DeleteDomain(name)) == Done(WithoutAll(t, name), HasName(t.domains, name))
  {
    hide UniqueNames, UniqueUsers, UniqueExts, UniqueTiers, UniqueRooms, TiersRef, RoomsRef, UsersRef, CondsRef,
         ActsRef, HasName, KeepExts, UsersIn, UsersOf, CondsBelow, ActsBelow;
    DomainRowsGone(t, name);
    var left := WithoutName(t.domains, name);
    ExtsGone(t.(domains := left, users := UsersIn(t.users, left.Keys)), ExtsIn(t.exts, left.Keys), ExtsOf(t, name));
    BelowSame(t, t.(domains := left, users := UsersIn(t.users, left.Keys)), ExtsOf(t, name));
  }

  ghost function WithoutAll(t: Tables, name: string): Tables {
    var conds := CondsBelow(t, ExtsOf(t, name));
    t.(domains := t.domains - (set id | id in t.domains && InDomain(t, id, name)),
       users := t.users - UsersOf(t, name),
       exts := t.exts - ExtsOf(t, name),
       conds := t.conds - conds,
       acts := t.acts - ActsBelow(t, conds))
  }

  lemma BelowSame(t: Tables, u: Tables, exts: set<Id>)
    requires t.conds == u.conds && t.acts == u.acts
    ensures CondsBelow(t, exts) == CondsBelow(u, exts)
    ensures forall conds :: ActsBelow(t, conds) == ActsBelow(u, conds)
  {
  }

  /** Deleting an extension removes its conditions and their actions, and nothing else. */
  lemma DeleteExtIsExact(t: Tables, ext: Id)
    requires Integrity(t)
    ensures var conds := CondsBelow(t, {ext});
            Exec(t, DeleteExt(ext)) ==
              Done(t.(exts := t.exts - {ext}, conds := t.conds - conds, acts := t.acts - ActsBelow(t, conds)),
                   ext in t.exts)
  {
    hide UniqueNames, UniqueUsers, UniqueExts, UniqueTiers, UniqueRooms, TiersRef, RoomsRef, UsersRef, ExtsRef,
         CondsRef, ActsRef, KeepExts;
    ExtsGone(t, t.exts.Keys - {ext}, {ext});
  }

  // ---------- the rows that the other statements touch ----------

  ghost function Ids(m: map<Id, Named>, name: string): (r: set<Id>)
    ensures r != {} <==> HasName(m, name)
  {
    var r := set id | id in m && m[id].name == name;
    assert forall id :: id in m && m[id].name == name ==> id in r;
    r
  }

  ghost function UserIds(t: Tables, domain: string, number: string): set<Id> {
    set id | id in t.users && t.users[id].domainId in t.domains
             && t.domains[t.users[id].domainId].name == domain && t.users[id].number == number
  }

  ghost function TierIds(t: Tables, queue: string, agent: string): set<Id> {
    set id | id in t.tiers && t.tiers[id].queue == queue && t.tiers[id].agent == agent
  }

  ghost function RoomIds(t: Tables, name: string): set<Id> {
    set id | id in t.rooms && t.rooms[id].name == name
  }

  ghost function WithAttrs(m: map<Id, Named>, name: string, attrs: Attrs): map<Id, Named> {
    m + map id | id in Ids(m, name) :: Named(name, attrs)
  }

  lemma NamedRows(m: map<Id, Named>, name: string, attrs: Attrs)
    ensures SetAttrs(m, name, attrs) == WithAttrs(m, name, attrs)
    ensures WithoutName(m, name) == m - Ids(m, name)
  {
    hide HasName;
  }

  /** New columns reach exactly the rows of that name, in that table only. */
  lemma UpdateNamedIsExact(t: Tables, name: string, attrs: Attrs)
    ensures Exec(t, UpdateDomain(name, attrs)) ==
              Done(t.(domains := WithAttrs(t.domains, name, attrs)), Ids(t.domains, name) != {})
    ensures Exec(t, UpdateQueue(name, attrs)) ==
              Done(t.(queues := WithAttrs(t.queues, name, attrs)), Ids(t.queues, name) != {})
    ensures Exec(t, UpdateAgent(name, attrs)) ==
              Done(t.(agents := WithAttrs(t.agents, name, attrs)), Ids(t.agents, name) != {})
    ensures Exec(t, UpdateProfile(name, attrs)) ==
              Done(t.(profiles := WithAttrs(t.profiles, name, attrs)), Ids(t.profiles, name) != {})
  {
    NamedRows(t.domains, name, attrs);
    NamedRows(t.queues, name, attrs);
    NamedRows(t.agents, name, attrs);
    NamedRows(t.profiles, name, attrs);
    hide HasName, SetAttrs, WithAttrs;
  }

  /** A queue or an agent takes exactly its own tiers with it. */
  lemma DeleteQueueIsExact(t: Tables, name: string)
    ensures Exec(t, DeleteQueue(name)) ==
              Done(t.(queues := t.queues - Ids(t.queues, name),
                      tiers := t.tiers - (set id | id in t.tiers && t.tiers[id].queue == name)),
                   Ids(t.queues, name) != {})
  {
    hide HasName;
  }

  lemma DeleteAgentIsExact(t: Tables, name: string)
    ensures Exec(t, DeleteAgent(name)) ==
              Done(t.(agents := t.agents - Ids(t.agents, name),
                      tiers := t.tiers - (set id | id in t.tiers && t.tiers[id].agent == name)),
                   Ids(t.agents, name) != {})
  {
    hide HasName;
  }

  /** A profile is deleted, and only it, exactly when no room uses it; in use, its reference refuses. */
  lemma DeleteProfileIffUnused(t: Tables, name: string)
    requires Integrity(t)
    ensures Exec(t, DeleteProfile(name)) ==
              if exists r :: r in t.rooms && t.rooms[r].profile == name then Violated(ForeignKeyViolation)
              else Done(t.(profiles := t.profiles - Ids(t.profiles, name)), Ids(t.profiles, name) != {})
  {
    assert RoomsRef(t.rooms, t.profiles);
    NamedRows(t.profiles, name, map[]);
    hide WithoutName, Integrity;
  }

  /** Exactly the user of this number in this domain changes or goes. */
  lemma UserRowsAreExact(t: Tables, domain: string, number: string, attrs: Attrs)
    ensures Exec(t, UpdateUser(domain, number, attrs)) ==
              Done(t.(users := t.users + map id | id in UserIds(t, domain, number) :: t.users[id].(attrs := attrs)),
                   UserIds(t, domain, number) != {})
    ensures Exec(t, DeleteUser(domain, number)) ==
              Done(t.(users := t.users - UserIds(t, domain, number)), UserIds(t, domain, number) != {})
  {
    UsersHit(t, domain, number, attrs);
    hide SetUser, WithoutUser, UserExists, UserIds;
  }

  lemma UsersHit(t: Tables, domain: string, number: string, attrs: Attrs)
    ensures var ids := UserIds(t, domain, number);
            && (UserExists(t, domain, number) <==> ids != {})
            && SetUser(t, domain, number, attrs) == t.users + (map id | id in ids :: t.users[id].(attrs := attrs))
            && WithoutUser(t, domain, number) == t.users - ids
  {
    var ids := UserIds(t, domain, number);
    assert forall id :: id in t.users && IsUser(t, domain, number, t.users[id]) ==> id in ids;
  }

  /** Exactly the tier of this pair changes or goes. */
  lemma TierRowsAreExact(t: Tables, queue: string, agent: string, level: int, position: int)
    ensures Exec(t, UpdateTier(queue, agent, level, position)) ==
              Done(t.(tiers := t.tiers + map id | id in TierIds(t, queue, agent)
                                             :: Tier(queue, agent, level, position)),
                   TierIds(t, queue, agent) != {})
    ensures Exec(t, DeleteTier(queue, agent)) ==
              Done(t.(tiers := t.tiers - TierIds(t, queue, agent)), TierIds(t, queue, agent) != {})
  {
    TiersHit(t, Tier(queue, agent, level, position));
    TiersHit(t, Tier(queue, agent, 0, 0));
    hide SetTier, WithoutTier, TierExists, TierIds;
  }

  lemma TiersHit(t: Tables, row: Tier)
    ensures var ids := TierIds(t, row.queue, row.agent);
            && (TierExists(t.tiers, row) <==> ids != {})
            && SetTier(t.tiers, row) == t.tiers + (map id | id in ids :: row)
            && WithoutTier(t.tiers, row) == t.tiers - ids
  {
    var ids := TierIds(t, row.queue, row.agent);
    assert forall id :: id in t.tiers && SameTier(t.tiers[id], row) ==> id in ids;
  }

  /** Exactly the room of this name goes. */
  lemma DeleteRoomIsExact(t: Tables, name: string)
    ensures Exec(t, DeleteRoom(name)) == Done(t.(rooms := t.rooms - RoomIds(t, name)), RoomIds(t, name) != {})
  {
    RoomsHit(t, name);
    hide WithoutRoom, RoomNamed, RoomIds;
  }

  lemma RoomsHit(t: Tables, name: string)
    ensures RoomNamed(t, name) <==> RoomIds(t, name) != {}
    ensures WithoutRoom(t.rooms, name) == t.rooms - RoomIds(t, name)
    ensures forall row: Room :: row.name == name ==>
        SetRoom(t.rooms, row) == t.rooms + map id | id in RoomIds(t, name) :: row
  {
    assert forall id :: id in t.rooms && t.rooms[id].name == name ==> id in RoomIds(t, name);
  }

  // ---------- what an insert or an update accepts ----------

  /** An insert, or an update of columns that a key or a reference uses. */
  ghost predicate Guarded(op: Op) {
    op.InsertDomain? || op.InsertUser? || op.InsertQueue? || op.InsertAgent? || op.InsertTier? || op.InsertProfile?
    || op.InsertRoom? || op.UpdateRoom? || op.InsertExt? || op.UpdateExt? || op.InsertCond? || op.InsertAct?
  }

  /** An insert under an id that is not in use, or an update of a row that is there. */
  ghost predicate Addressed(t: Tables, op: Op)
    requires Guarded(op)
  {
    match op
    case InsertDomain(id, _) => id !in t.domains
    case InsertUser(id, _) => id !in t.users
    case InsertQueue(id, _) => id !in t.queues
    case InsertAgent(id, _) => id !in t.agents
    case InsertTier(id, _) => id !in t.tiers
    case InsertProfile(id, _) => id !in t.profiles
    case InsertRoom(id, _) => id !in t.rooms
    case UpdateRoom(name, _) => RoomNamed(t, name)
    case InsertExt(id, _) => id !in t.exts
    case UpdateExt(id, _) => id in t.exts
    case InsertCond(id, _) => id !in t.conds
    case InsertAct(id, _) => id !in t.acts
  }

  /** The tables with the row of the statement put in unchecked. */
  ghost function Forced(t: Tables, op: Op): Tables
    requires Guarded(op) && Addressed(t, op)
  {
    match op
    case InsertDomain(id, row) => t.(domains := t.domains[id := row])
    case InsertUser(id, user) => t.(users := t.users[id := user])
    case InsertQueue(id, row) => t.(queues := t.queues[id := row])
    case InsertAgent(id, row) => t.(agents := t.agents[id := row])
    case InsertTier(id, tier) => t.(tiers := t.tiers[id := tier])
    case InsertProfile(id, row) => t.(profiles := t.profiles[id := row])
    case InsertRoom(id, room) => t.(rooms := t.rooms[id := room])
    case UpdateRoom(name, room) => t.(rooms := SetRoom(t.rooms, room.(name := name)))
    case InsertExt(id, ext) => t.(exts := t.exts[id := ext])
    case UpdateExt(id, ext) => t.(exts := t.exts[id := ext.(domainId := t.exts[id].domainId)])
    case InsertCond(id, cond) => t.(conds := t.conds[id := cond])
    case InsertAct(id, act) => t.(acts := t.acts[id := act])
  }

  lemma NameRefused(m: map<Id, Named>, id: Id, row: Named)
    requires id !in m && HasName(m, row.name)
    ensures !UniqueNames(m[id := row])
  {
    var o :| o in m && m[o].name == row.name;
    assert m[id := row][o].name == m[id := row][id].name;
  }

  lemma UserRefused(t: Tables, id: Id, user: User)
    requires id !in t.users && !Exec(t, InsertUser(id, user)).Done?
    ensures var u := t.users[id := user]; !UniqueUsers(u) || !UsersRef(u, t.domains.Keys)
  {
    var u := t.users[id := user];
    if o :| o in t.users && SameUser(t.users[o], user) {
      assert SameUser(u[o], u[id]);
    } else {
      assert u[id] == user;
    }
  }

  lemma TierRefused(t: Tables, id: Id, tier: Tier)
    requires id !in t.tiers && !Exec(t, InsertTier(id, tier)).Done?
    ensures var u := t.tiers[id := tier]; !UniqueTiers(u) || !TiersRef(u, t.queues, t.agents)
  {
    hide HasName;
    var u := t.tiers[id := tier];
    if o :| o in t.tiers && SameTier(t.tiers[o], tier) {
      assert SameTier(u[o], u[id]);
    } else {
      assert u[id] == tier;
    }
  }

  lemma RoomRefused(t: Tables, id: Id, room: Room)
    requires id !in t.rooms && !Exec(t, InsertRoom(id, room)).Done?
    ensures var u := t.rooms[id := room]; !UniqueRooms(u) || !RoomsRef(u, t.profiles)
  {
    hide HasName;
    var u := t.rooms[id := room];
    if o :| o in t.rooms && SameRoom(t.rooms[o], room) {
      assert SameRoom(u[o], u[id]);
    } else {
      assert u[id] == room;
    }
  }

  lemma RoomUpdateRefused(t: Tables, name: string, room: Room)
    requires RoomNamed(t, name) && !Exec(t, UpdateRoom(name, room)).Done?
    ensures var u := SetRoom(t.rooms, room.(name := name)); !UniqueRooms(u) || !RoomsRef(u, t.profiles)
  {
    hide HasName;
    var row := room.(name := name);
    var u := SetRoom(t.rooms, row);
    var id :| id in t.rooms && t.rooms[id].name == name;
    assert u[id] == row;
    if o :| o in t.rooms && t.rooms[o].name != name && SameRoom(t.rooms[o], row) {
      assert SameRoom(u[o], u[id]);
    }
  }

  lemma ExtRefused(t: Tables, id: Id, row: Ext)
    requires exists o :: o in t.exts && o != id && SameExt(t.exts[o], row)
    ensures !UniqueExts(t.exts[id := row])
  {
    var o :| o in t.exts && o != id && SameExt(t.exts[o], row);
    assert SameExt(t.exts[id := row][o], t.exts[id := row][id]);
  }

  lemma ExtWithoutDomain(t: Tables, id: Id, row: Ext)
    requires row.domainId !in t.domains
    ensures !ExtsRef(t.exts[id := row], t.domains.Keys)
  {
    assert t.exts[id := row][id] == row;
  }

  lemma RowRefused(t: Tables, op: Op)
    requires op.InsertCond? || op.InsertAct?
    requires Addressed(t, op) && !Exec(t, op).Done?
    ensures op.InsertCond? ==> !CondsRef(Forced(t, op).conds, t.exts.Keys)
    ensures op.InsertAct? ==> !ActsRef(Forced(t, op).acts, t.conds.Keys)
  {
    match op
    case InsertCond(id, cond) => assert Forced(t, op).conds[id] == cond;
    case InsertAct(id, act) => assert Forced(t, op).acts[id] == act;
  }

  lemma Refused(t: Tables, op: Op)
    requires Guarded(op) && Addressed(t, op) && !Exec(t, op).Done?
    ensures !Integrity(Forced(t, op))
  {
    hide UniqueNames, UniqueUsers, UniqueExts, UniqueTiers, UniqueRooms, UsersRef, ExtsRef, CondsRef, ActsRef, TiersRef,
         RoomsRef, HasName, SameUser, SameTier, SameRoom, SameExt, RoomNamed, NumberTaken, TierExists, SetRoom;
    match op
    case InsertDomain(id, row) => NameRefused(t.domains, id, row);
    case InsertUser(id, user) => UserRefused(t, id, user);
    case InsertQueue(id, row) => NameRefused(t.queues, id, row);
    case InsertAgent(id, row) => NameRefused(t.agents, id, row);
    case InsertTier(id, tier) => TierRefused(t, id, tier);
    case InsertProfile(id, row) => NameRefused(t.profiles, id, row);
    case InsertRoom(id, room) => RoomRefused(t, id, room);
    case UpdateRoom(name, room) => RoomUpdateRefused(t, name, room);
    case InsertExt(id, ext) =>
      if ext.domainId !in t.domains {
        ExtWithoutDomain(t, id, ext);
      } else {
        ExtRefused(t, id, ext);
      }
    case UpdateExt(id, ext) => ExtRefused(t, id, ext.(domainId := t.exts[id].domainId));
    case InsertCond(_, _) | InsertAct(_, _) => RowRefused(t, op);
  }

  /** A new row under an id that is not in use, or new columns of a room or an extension that is there,
      are taken exactly when the tables with them are consistent: nothing is refused without need, and
      what is taken goes in as given. */
  lemma AcceptedIffConsistent(t: Tables, op: Op)
    requires Integrity(t) && Guarded(op) && Addressed(t, op)
    ensures Exec(t, op).Done? <==> Integrity(Forced(t, op))
    ensures Exec(t, op).Done? ==> Exec(t, op) == Done(Forced(t, op), true)
  {
    hide Integrity;
    if Exec(t, op).Done? {
      IntegrityStep(t, op);
    } else {
      Refused(t, op);
    }
  }

  // ---------- the store ----------

  /** What the store reports; Raw is a violation passed on as the database gave it, NoReply a connection
      that broke, before or after the statement took effect. */
  datatype Error = NotFound | AlreadyExists | Conflict | Raw(v: Violation) | NoReply

  datatype Reply = Rows(hit: bool) | Fault(v: Violation) | Broken

  /** uuid.NewString(): any text; a collision is caught by the primary key. */
  method NewUuid() returns (id: Id) {
    id := *;
  }

  /** One statement on the tables. */
  method Statement(t: Tables, op: Op) returns (u: Tables, r: Reply)
    requires Integrity(t)
    ensures Integrity(u)
    ensures match r
            case Rows(hit) => Exec(t, op) == Done(u, hit)
            case Fault(v) => Exec(t, op) == Violated(v) && u == t
            case Broken => u == t || (Exec(t, op).Done? && u == Exec(t, op).t)
  {
    hide Integrity, Exec;
    var arrives: bool, answered: bool := *, *;
    u, r := t, Broken;
    if arrives {
      var out := Exec(t, op);
      if out.Done? {
        IntegrityStep(t, op);
        u := out.t;
      }
      if answered {
        r := match out case Done(_, hit) => Rows(hit) case Violated(v) => Fault(v);
      }
    }
  }

  /** `return err`: what no branch has turned into an error of the store is passed on. */
  function Unmapped(r: Reply): Option<Error> {
    match r
    case Rows(_) => None
    case Fault(v) => Some(Raw(v))
    case Broken => Some(NoReply)
  }

  /** How a call ends: in the outcome that the tables call for, with `ok` as the new tables exactly when
      that is success; or without a reply, and then it has taken effect or not. */
  ghost predicate Ends(before: Tables, after: Tables, err: Option<Error>, outcome: Option<Error>, ok: Tables) {
    if err == outcome then after == if outcome == None then ok else before
    else err == Some(NoReply) && (after == before || (outcome == None && after == ok))
  }

  ghost function NameOutcome(m: map<Id, Named>, id: Id, name: string): Option<Error> {
    if id in m || Ids(m, name) != {} then Some(AlreadyExists) else None
  }

  lemma TakenIs(m: map<Id, Named>, id: Id, name: string)
    ensures Taken(m, id, name) <==> id in m || Ids(m, name) != {}
  {
  }

  ghost function HitOutcome(ids: set<Id>): Option<Error> {
    if ids == {} then Some(NotFound) else None
  }

  ghost predicate UserTaken(t: Tables, id: Id, user: User) {
    || id in t.users
    || exists o :: o in t.users && t.users[o].domainId == user.domainId && t.users[o].number == user.number
  }

  ghost function UserOutcome(t: Tables, domain: string, id: Id, number: string): Option<Error> {
    match DomainId(t, domain)
    case None => Some(NotFound)
    case Some(d) => if UserTaken(t, id, User(d, number, map[])) then Some(AlreadyExists) else None
  }

  ghost function UserAdded(t: Tables, domain: string, id: Id, number: string, attrs: Attrs): Tables {
    match DomainId(t, domain)
    case None => t
    case Some(d) => t.(users := t.users[id := User(d, number, attrs)])
  }

  ghost function TierOutcome(t: Tables, id: Id, tier: Tier): Option<Error> {
    if id in t.tiers || TierIds(t, tier.queue, tier.agent) != {} then Some(AlreadyExists)
    else if Ids(t.queues, tier.queue) == {} || Ids(t.agents, tier.agent) == {} then Some(NotFound)
    else None
  }

  ghost predicate RoomTaken(t: Tables, id: Id, room: Room) {
    || id in t.rooms
    || exists o :: o in t.rooms && (t.rooms[o].name == room.name
                                    || (t.rooms[o].context == room.context && t.rooms[o].number == room.number))
  }

  ghost function RoomOutcome(t: Tables, id: Id, room: Room): Option<Error> {
    if RoomTaken(t, id, room) then Some(AlreadyExists)
    else if Ids(t.profiles, room.profile) == {} then Some(NotFound)
    else None
  }

  /** Another room has the number in the context. */
  ghost predicate NumberInUse(t: Tables, name: string, room: Room) {
    exists o :: o in t.rooms && t.rooms[o].name != name && t.rooms[o].context == room.context
                && t.rooms[o].number == room.number
  }

  /** The asymmetry of the store: the number that makes a create answer that the room already exists makes
      an update pass the database's violation on. */
  ghost function RoomUpdateOutcome(t: Tables, name: string, room: Room): Option<Error> {
    if RoomIds(t, name) == {} then Some(NotFound)
    else if NumberInUse(t, name, room) then Some(Raw(UniqueViolation))
    else if Ids(t.profiles, room.profile) == {} then Some(NotFound)
    else None
  }

  lemma UserInserts(t: Tables, d: Id, id: Id, number: string, attrs: Attrs)
    requires d in t.domains
    ensures Exec(t, InsertUser(id, User(d, number, attrs))) ==
              if UserTaken(t, id, User(d, number, map[])) then Violated(UniqueViolation)
              else Done(t.(users := t.users[id := User(d, number, attrs)]), true)
  {
    assert forall u: User :: SameUser(u, User(d, number, attrs)) <==> SameUser(u, User(d, number, map[]));
  }

  lemma TierInserts(t: Tables, id: Id, tier: Tier)
    ensures Exec(t, InsertTier(id, tier)) ==
              match TierOutcome(t, id, tier)
              case None => Done(t.(tiers := t.tiers[id := tier]), true)
              case Some(AlreadyExists) => Violated(UniqueViolation)
              case _ => Violated(ForeignKeyViolation)
  {
    TiersHit(t, tier);
    hide TierIds, TierExists, Ids, HasName;
  }

  lemma RoomInserts(t: Tables, id: Id, room: Room)
    ensures Exec(t, InsertRoom(id, room)) ==
              match RoomOutcome(t, id, room)
              case None => Done(t.(rooms := t.rooms[id := room]), true)
              case Some(AlreadyExists) => Violated(UniqueViolation)
              case _ => Violated(ForeignKeyViolation)
  {
    hide Ids, HasName;
  }

  lemma RoomUpdates(t: Tables, name: string, room: Room)
    ensures Exec(t, UpdateRoom(name, room)) ==
              match RoomUpdateOutcome(t, name, room)
              case None => Done(t.(rooms := t.rooms + map id | id in RoomIds(t, name) :: room.(name := name)), true)
              case Some(Raw(_)) => Violated(UniqueViolation)
              case _ => if RoomIds(t, name) == {} then Done(t, false) else Violated(ForeignKeyViolation)
  {
    RoomsHit(t, name);
    NumberSame(t, name, room);
    hide RoomIds, RoomNamed, NumberTaken, NumberInUse, Ids, HasName, SetRoom;
  }

  lemma NumberSame(t: Tables, name: string, room: Room)
    ensures NumberTaken(t, room.(name := name)) <==> NumberInUse(t, name, room)
  {
  }

  class Store {
    var db: Tables

    ghost predicate Valid()
      reads this
    {
      Integrity(db)
    }

    constructor ()
      ensures Valid() && db == EMPTY
    {
      db := EMPTY;
    }

    method CreateDomain(name: string, attrs: Attrs) returns (err: Option<Error>, id: Id)
      requires Valid()
      modifies this
      ensures Valid()
      ensures Ends(old(db), db, err, NameOutcome(old(db).domains, id, name),
                   old(db).(domains := old(db).domains[id := Named(name, attrs)]))
    {
      hide Integrity, Taken, Ids;
      id := NewUuid();
      TakenIs(db.domains, id, name);
      var r;
      db, r := Statement(db, InsertDomain(id, Named(name, attrs)));
      if r == Fault(UniqueViolation) {
        return Some(AlreadyExists), id;
      }
      err := Unmapped(r);
    }

    method UpdateDomain(name: string, attrs: Attrs) returns (err: Option<Error>)
      requires Valid()
      modifies this
      ensures Valid()
      ensures Ends(old(db), db, err, HitOutcome(Ids(old(db).domains, name)),
                   old(db).(domains := WithAttrs(old(db).domains, name, attrs)))
    {
      hide Integrity, Exec, Ids, WithAttrs;
      NoneNamed(db.domains, name, attrs);
      UpdateNamedIsExact(db, name, attrs);
      var r;
      db, r := Statement(db, Op.UpdateDomain(name, attrs));
      if r == Rows(false) {
        return Some(NotFound);
      }
      err := Unmapped(r);
    }

    method DeleteDomain(name: string) returns (err: Option<Error>)
      requires Valid()
      modifies this
      ensures Valid()
      ensures Ends(old(db), db, err, HitOutcome(Ids(old(db).domains, name)), WithoutAll(old(db), name))
    {
      hide Integrity, Exec, WithoutAll;
      NothingInDomain(db, name);
      DeleteDomainIsExact(db, name);
      var r;
      db, r := Statement(db, Op.DeleteDomain(name));
      if r == Rows(false) {
        return Some(NotFound);
      }
      err := Unmapped(r);
    }

    method CreateUser(domain: string, number: string, attrs: Attrs) returns (err: Option<Error>, id: Id)
      requires Valid()
      modifies this
      ensures Valid()
      ensures Ends(old(db), db, err, UserOutcome(old(db), domain, id, number),
                   UserAdded(old(db), domain, id, number, attrs))
    {
      hide Exec, UserTaken;
      id := "";
      assert UniqueNames(db.domains);
      hide Integrity;
      var d := FindDomain(db, domain);
      if d == None {
        return Some(NotFound), id;
      }
      id := NewUuid();
      UserInserts(db, d.value, id, number, attrs);
      var r;
      db, r := Statement(db, InsertUser(id, User(d.value, number, attrs)));
      if r == Fault(UniqueViolation) {
        return Some(AlreadyExists), id;
      }
      err := Unmapped(r);
    }

    method UpdateUser(domain: string, number: string, attrs: Attrs) returns (err: Option<Error>)
      requires Valid()
      modifies this
      ensures Valid()
      ensures Ends(old(db), db, err, HitOutcome(UserIds(old(db), domain, number)),
                   old(db).(users := old(db).users + map o | o in UserIds(old(db), domain, number)
                                                         :: old(db).users[o].(attrs := attrs)))
    {
      hide Integrity, Exec, UserIds;
      NoUserRows(db, domain, number, attrs);
      UserRowsAreExact(db, domain, number, attrs);
      var r;
      db, r := Statement(db, Op.UpdateUser(domain, number, attrs));
      if r == Rows(false) {
        return Some(NotFound);
      }
      err := Unmapped(r);
    }

    method DeleteUser(domain: string, number: string) returns (err: Option<Error>)
      requires Valid()
      modifies this
      ensures Valid()
      ensures Ends(old(db), db, err, HitOutcome(UserIds(old(db), domain, number)),
                   old(db).(users := old(db).users - UserIds(old(db), domain, number)))
    {
      hide Integrity, Exec, UserIds;
      UserRowsAreExact(db, domain, number, map[]);
      var r;
      db, r := Statement(db, Op.DeleteUser(domain, number));
      if r == Rows(false) {
        return Some(NotFound);
      }
      err := Unmapped(r);
    }

    method CreateQueue(name: string, attrs: Attrs) returns (err: Option<Error>, id: Id)
      requires Valid()
      modifies this
      ensures Valid()
      ensures Ends(old(db), db, err, NameOutcome(old(db).queues, id, name),
                   old(db).(queues := old(db).queues[id := Named(name, attrs)]))
    {
      hide Integrity, Taken, Ids;
      id := NewUuid();
      TakenIs(db.queues, id, name);
      var r;
      db, r := Statement(db, InsertQueue(id, Named(name, attrs)));
      if r == Fault(UniqueViolation) {
        return Some(AlreadyExists), id;
      }
      err := Unmapped(r);
    }

    method UpdateQueue(name: string, attrs: Attrs) returns (err: Option<Error>)
      requires Valid()
      modifies this
      ensures Valid()
      ensures Ends(old(db), db, err, HitOutcome(Ids(old(db).queues, name)),
                   old(db).(queues := WithAttrs(old(db).queues, name, attrs)))
    {
      hide Integrity, Exec, Ids, WithAttrs;
      NoneNamed(db.queues, name, attrs);
      UpdateNamedIsExact(db, name, attrs);
      var r;
      db, r := Statement(db, Op.UpdateQueue(name, attrs));
      if r == Rows(false) {
        return Some(NotFound);
      }
      err := Unmapped(r);
    }

    method DeleteQueue(name: string) returns (err: Option<Error>)
      requires Valid()
      modifies this
      ensures Valid()
      ensures Ends(old(db), db, err, HitOutcome(Ids(old(db).queues, name)),
                   old(db).(queues := old(db).queues - Ids(old(db).queues, name),
                            tiers := old(db).tiers - set o | o in old(db).tiers && old(db).tiers[o].queue == name))
    {
      hide Exec, HasName;
      NoTiers(db, name);
      hide Integrity;
      DeleteQueueIsExact(db, name);
      var r;
      db, r := Statement(db, Op.DeleteQueue(name));
      if r == Rows(false) {
        return Some(NotFound);
      }
      err := Unmapped(r);
    }

    method CreateAgent(name: string, attrs: Attrs) returns (err: Option<Error>, id: Id)
      requires Valid()
      modifies this
      ensures Valid()
      ensures Ends(old(db), db, err, NameOutcome(old(db).agents, id, name),
                   old(db).(agents := old(db).agents[id := Named(name, attrs)]))
    {
      hide Integrity, Taken, Ids;
      id := NewUuid();
      TakenIs(db.agents, id, name);
      var r;
      db, r := Statement(db, InsertAgent(id, Named(name, attrs)));
      if r == Fault(UniqueViolation) {
        return Some(AlreadyExists), id;
      }
      err := Unmapped(r);
    }

    method UpdateAgent(name: string, attrs: Attrs) returns (err: Option<Error>)
      requires Valid()
      modifies this
      ensures Valid()
      ensures Ends(old(db), db, err, HitOutcome(Ids(old(db).agents, name)),
                   old(db).(agents := WithAttrs(old(db).agents, name, attrs)))
    {
      hide Integrity, Exec, Ids, WithAttrs;
      NoneNamed(db.agents, name, attrs);
      UpdateNamedIsExact(db, name, attrs);
      var r;
      db, r := Statement(db, Op.UpdateAgent(name, attrs));
      if r == Rows(false) {
        return Some(NotFound);
      }
      err := Unmapped(r);
    }

    method DeleteAgent(name: string) returns (err: Option<Error>)
      requires Valid()
      modifies this
      ensures Valid()
      ensures Ends(old(db), db, err, HitOutcome(Ids(old(db).agents, name)),
                   old(db).(agents := old(db).agents - Ids(old(db).agents, name),
                            tiers := old(db).tiers - set o | o in old(db).tiers && old(db).tiers[o].agent == name))
    {
      hide Exec, HasName;
      NoTiers(db, name);
      hide Integrity;
      DeleteAgentIsExact(db, name);
      var r;
      db, r := Statement(db, Op.DeleteAgent(name));
      if r == Rows(false) {
        return Some(NotFound);
      }
      err := Unmapped(r);
    }

    method CreateTier(tier: Tier) returns (err: Option<Error>, id: Id)
      requires Valid()
      modifies this
      ensures Valid()
      ensures Ends(old(db), db, err, TierOutcome(old(db), id, tier), old(db).(tiers := old(db).tiers[id := tier]))
    {
      hide Integrity, Exec, TierIds, Ids;
      id := NewUuid();
      TierInserts(db, id, tier);
      var r;
      db, r := Statement(db, InsertTier(id, tier));
      if r == Fault(UniqueViolation) {
        return Some(AlreadyExists), id;
      }
      if r == Fault(ForeignKeyViolation) {
        return Some(NotFound), id;
      }
      err := Unmapped(r);
    }

    method UpdateTier(queue: string, agent: string, level: int, position: int) returns (err: Option<Error>)
      requires Valid()
      modifies this
      ensures Valid()
      ensures Ends(old(db), db, err, HitOutcome(TierIds(old(db), queue, agent)),
                   old(db).(tiers := old(db).tiers + map o | o in TierIds(old(db), queue, agent)
                                                         :: Tier(queue, agent, level, position)))
    {
      hide Integrity, Exec, TierIds;
      TierRowsAreExact(db, queue, agent, level, position);
      var r;
      db, r := Statement(db, Op.UpdateTier(queue, agent, level, position));
      if r == Rows(false) {
        return Some(NotFound);
      }
      err := Unmapped(r);
    }

    method DeleteTier(queue: string, agent: string) returns (err: Option<Error>)
      requires Valid()
      modifies this
      ensures Valid()
      ensures Ends(old(db), db, err, HitOutcome(TierIds(old(db), queue, agent)),
                   old(db).(tiers := old(db).tiers - TierIds(old(db), queue, agent)))
    {
      hide Integrity, Exec, TierIds;
      TierRowsAreExact(db, queue, agent, 0, 0);
      var r;
      db, r := Statement(db, Op.DeleteTier(queue, agent));
      if r == Rows(false) {
        return Some(NotFound);
      }
      err := Unmapped(r);
    }

    method CreateProfile(name: string, attrs: Attrs) returns (err: Option<Error>, id: Id)
      requires Valid()
      modifies this
      ensures Valid()
      ensures Ends(old(db), db, err, NameOutcome(old(db).profiles, id, name),
                   old(db).(profiles := old(db).profiles[id := Named(name, attrs)]))
    {
      hide Integrity, Taken, Ids;
      id := NewUuid();
      TakenIs(db.profiles, id, name);
      var r;
      db, r := Statement(db, InsertProfile(id, Named(name, attrs)));
      if r == Fault(UniqueViolation) {
        return Some(AlreadyExists), id;
      }
      err := Unmapped(r);
    }

    method UpdateProfile(name: string, attrs: Attrs) returns (err: Option<Error>)
      requires Valid()
      modifies this
      ensures Valid()
      ensures Ends(old(db), db, err, HitOutcome(Ids(old(db).profiles, name)),
                   old(db).(profiles := WithAttrs(old(db).profiles, name, attrs)))
    {
      hide Integrity, Exec, Ids, WithAttrs;
      NoneNamed(db.profiles, name, attrs);
      UpdateNamedIsExact(db, name, attrs);
      var r;
      db, r := Statement(db, Op.UpdateProfile(name, attrs));
      if r == Rows(false) {
        return Some(NotFound);
      }
      err := Unmapped(r);
    }

    method DeleteProfile(name: string) returns (err: Option<Error>)
      requires Valid()
      modifies this
      ensures Valid()
      ensures Ends(old(db), db, err,
                   if exists o :: o in old(db).rooms && old(db).rooms[o].profile == name then Some(Conflict)
                   else HitOutcome(Ids(old(db).profiles, name)),
                   old(db).(profiles := old(db).profiles - Ids(old(db).profiles, name)))
    {
      hide Integrity, Exec, Ids;
      DeleteProfileIffUnused(db, name);
      var r;
      db, r := Statement(db, Op.DeleteProfile(name));
      if r == Fault(ForeignKeyViolation) {
        return Some(Conflict);
      }
      if r == Rows(false) {
        return Some(NotFound);
      }
      err := Unmapped(r);
    }

    method CreateRoom(room: Room) returns (err: Option<Error>, id: Id)
      requires Valid()
      modifies this
      ensures Valid()
      ensures Ends(old(db), db, err, RoomOutcome(old(db), id, room), old(db).(rooms := old(db).rooms[id := room]))
    {
      hide Integrity, Exec, RoomTaken, Ids;
      id := NewUuid();
      RoomInserts(db, id, room);
      var r;
      db, r := Statement(db, InsertRoom(id, room));
      if r == Fault(UniqueViolation) {
        return Some(AlreadyExists), id;
      }
      if r == Fault(ForeignKeyViolation) {
        return Some(NotFound), id;
      }
      err := Unmapped(r);
    }

    method UpdateRoom(name: string, room: Room) returns (err: Option<Error>)
      requires Valid()
      modifies this
      ensures Valid()
      ensures Ends(old(db), db, err, RoomUpdateOutcome(old(db), name, room),
                   old(db).(rooms := old(db).rooms + map o | o in RoomIds(old(db), name) :: room.(name := name)))
    {
      hide Integrity, Exec, NumberInUse, Ids, RoomIds;
      RoomUpdates(db, name, room);
      var r;
      db, r := Statement(db, Op.UpdateRoom(name, room));
      if r == Rows(false) {
        return Some(NotFound);
      }
      if r == Fault(ForeignKeyViolation) {
        return Some(NotFound);
      }
      err := Unmapped(r);
    }

    method DeleteRoom(name: string) returns (err: Option<Error>)
      requires Valid()
      modifies this
      ensures Valid()
      ensures Ends(old(db), db, err, HitOutcome(RoomIds(old(db), name)),
                   old(db).(rooms := old(db).rooms - RoomIds(old(db), name)))
    {
      hide Integrity, Exec, RoomIds;
      DeleteRoomIsExact(db, name);
      var r;
      db, r := Statement(db, Op.DeleteRoom(name));
      if r == Rows(false) {
        return Some(NotFound);
      }
      err := Unmapped(r);
    }
  }

  // ---------- a statement that finds no row changes nothing ----------

  lemma NoneNamed(m: map<Id, Named>, name: string, attrs: Attrs)
    ensures Ids(m, name) == {} ==> WithAttrs(m, name, attrs) == m
  {
  }

  lemma NoUserRows(t: Tables, domain: string, number: string, attrs: Attrs)
    ensures var ids := UserIds(t, domain, number);
            t.users + (map o | o in ids :: t.users[o].(attrs := attrs)) == t.users || ids != {}
  {
  }

  lemma NothingInDomain(t: Tables, name: string)
    requires Integrity(t)
    ensures Ids(t.domains, name) == {} ==> WithoutAll(t, name) == t
  {
    hide UniqueNames, UniqueUsers, UniqueExts, UniqueTiers, UniqueRooms, TiersRef, RoomsRef, UsersRef, ExtsRef,
         CondsRef, ActsRef;
    if Ids(t.domains, name) == {} {
      assert forall id :: id in t.domains && t.domains[id].name == name ==> id in Ids(t.domains, name);
      assert forall id :: !InDomain(t, id, name);
      hide InDomain;
      assert UsersOf(t, name) == {} && ExtsOf(t, name) == {};
      assert CondsBelow(t, {}) == {} && ActsBelow(t, {}) == {};
    }
  }

  lemma NoTiers(t: Tables, name: string)
    requires Integrity(t)
    ensures Ids(t.queues, name) == {} ==> forall id :: id in t.tiers ==> t.tiers[id].queue != name
    ensures Ids(t.agents, name) == {} ==> forall id :: id in t.tiers ==> t.tiers[id].agent != name
  {
    hide HasName;
  }
}
