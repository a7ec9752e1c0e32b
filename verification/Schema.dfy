/** The desired-state tables with their keys and foreign keys, and the statements the store runs on
    them. Columns that no key, reference or order uses are kept together as `attrs`. */
module Schema {
  import opened Wrappers

  type Id = string
  type Attrs = map<string, string>

  datatype Named = Named(name: string, attrs: Attrs)
  datatype User = User(domainId: Id, number: string, attrs: Attrs)
  datatype Ext = Ext(domainId: Id, name: string, context: string, priority: int, enabled: bool)
  datatype Cond = Cond(extId: Id, field: string, expression: string, time: Attrs, order: int)
  datatype Act = Act(condId: Id, application: string, data: string, order: int)
  datatype Tier = Tier(queue: string, agent: string, level: int, position: int)
  datatype Room = Room(name: string, number: string, domain: string, context: string, profile: string, pin: string,
                       maxMembers: int, priority: int, enabled: bool)

  datatype Tables = Tables(
    domains: map<Id, Named>,
    users: map<Id, User>,
    exts: map<Id, Ext>,
    conds: map<Id, Cond>,
    acts: map<Id, Act>,
    queues: map<Id, Named>,
    agents: map<Id, Named>,
    tiers: map<Id, Tier>,
    profiles: map<Id, Named>,
    rooms: map<Id, Room>)

  const EMPTY := Tables(map[], map[], map[], map[], map[], map[], map[], map[], map[], map[])

  /** What the database reports of a statement that it refuses. */
  datatype Violation = UniqueViolation | ForeignKeyViolation

  /** A statement's effect, and whether it touched or returned any row. */
  datatype Outcome = Done(t: Tables, hit: bool) | Violated(v: Violation)

  // ---------- integrity ----------

  ghost predicate UniqueNames(m: map<Id, Named>) {
    forall a, b :: a in m && b in m && m[a].name == m[b].name ==> a == b
  }

  predicate HasName(m: map<Id, Named>, name: string) {
    exists id :: id in m && m[id].name == name
  }

  predicate SameUser(a: User, b: User) {
    a.domainId == b.domainId && a.number == b.number
  }

  predicate SameExt(a: Ext, b: Ext) {
    a.domainId == b.domainId && a.context == b.context && a.name == b.name
  }

  predicate SameTier(a: Tier, b: Tier) {
    a.queue == b.queue && a.agent == b.agent
  }

  /** Either of the two unique keys of a room. */
  predicate SameRoom(a: Room, b: Room) {
    a.name == b.name || (a.context == b.context && a.number == b.number)
  }

  ghost predicate UniqueUsers(m: map<Id, User>) {
    forall a, b :: a in m && b in m && SameUser(m[a], m[b]) ==> a == b
  }

  ghost predicate UniqueExts(m: map<Id, Ext>) {
    forall a, b :: a in m && b in m && SameExt(m[a], m[b]) ==> a == b
  }

  ghost predicate UniqueTiers(m: map<Id, Tier>) {
    forall a, b :: a in m && b in m && SameTier(m[a], m[b]) ==> a == b
  }

  ghost predicate UniqueRooms(m: map<Id, Room>) {
    forall a, b :: a in m && b in m && SameRoom(m[a], m[b]) ==> a == b
  }

  ghost predicate UsersRef(users: map<Id, User>, domains: set<Id>) {
    forall id :: id in users ==> users[id].domainId in domains
  }

  ghost predicate ExtsRef(exts: map<Id, Ext>, domains: set<Id>) {
    forall id :: id in exts ==> exts[id].domainId in domains
  }

  ghost predicate CondsRef(conds: map<Id, Cond>, exts: set<Id>) {
    forall id :: id in conds ==> conds[id].extId in exts
  }

  ghost predicate ActsRef(acts: map<Id, Act>, conds: set<Id>) {
    forall id :: id in acts ==> acts[id].condId in conds
  }

  ghost predicate TiersRef(tiers: map<Id, Tier>, queues: map<Id, Named>, agents: map<Id, Named>) {
    forall id :: id in tiers ==> HasName(queues, tiers[id].queue) && HasName(agents, tiers[id].agent)
  }

  ghost predicate RoomsRef(rooms: map<Id, Room>, profiles: map<Id, Named>) {
    forall id :: id in rooms ==> HasName(profiles, rooms[id].profile)
  }

  ghost predicate Integrity(t: Tables) {
    && UniqueNames(t.domains) && UniqueNames(t.queues) && UniqueNames(t.agents) && UniqueNames(t.profiles)
    && UniqueUsers(t.users) && UniqueExts(t.exts) && UniqueTiers(t.tiers) && UniqueRooms(t.rooms)
    && UsersRef(t.users, t.domains.Keys) && ExtsRef(t.exts, t.domains.Keys)
    && CondsRef(t.conds, t.exts.Keys) && ActsRef(t.acts, t.conds.Keys)
    && TiersRef(t.tiers, t.queues, t.agents) && RoomsRef(t.rooms, t.profiles)
  }

  // ---------- statements ----------

  datatype Op =
    | InsertDomain(id: Id, row: Named)
    | UpdateDomain(name: string, attrs: Attrs)
    | DeleteDomain(name: string)
    | InsertUser(id: Id, user: User)
    | UpdateUser(domain: string, number: string, attrs: Attrs)
    | DeleteUser(domain: string, number: string)
    | InsertQueue(id: Id, row: Named)
    | UpdateQueue(name: string, attrs: Attrs)
    | DeleteQueue(name: string)
    | InsertAgent(id: Id, row: Named)
    | UpdateAgent(name: string, attrs: Attrs)
    | DeleteAgent(name: string)
    | InsertTier(id: Id, tier: Tier)
    | UpdateTier(queue: string, agent: string, level: int, position: int)
    | DeleteTier(queue: string, agent: string)
    | InsertProfile(id: Id, row: Named)
    | UpdateProfile(name: string, attrs: Attrs)
    | DeleteProfile(name: string)
    | InsertRoom(id: Id, room: Room)
    | UpdateRoom(name: string, room: Room)
    | DeleteRoom(name: string)
    | InsertExt(id: Id, ext: Ext)
    | UpdateExt(id: Id, ext: Ext)
    | DeleteExt(id: Id)
    | InsertCond(id: Id, cond: Cond)
    | InsertAct(id: Id, act: Act)
    | DeleteConds(extId: Id)

  /** The id that a domain name stands for; domain names are unique. */
  ghost function DomainId(t: Tables, name: string): (r: Option<Id>)
    ensures r.Some? ==> r.value in t.domains && t.domains[r.value].name == name
    ensures r.None? ==> !HasName(t.domains, name)
  {
    if HasName(t.domains, name) then
      var id :| id in t.domains && t.domains[id].name == name;
      Some(id)
    else None
  }

  /** domainID */
  method FindDomain(t: Tables, name: string) returns (id: Option<Id>)
    requires UniqueNames(t.domains)
    ensures id == DomainId(t, name)
  {
    if o :| o in t.domains && t.domains[o].name == name {
      id := Some(o);
    } else {
      id := None;
    }
  }

  function SetAttrs(m: map<Id, Named>, name: string, attrs: Attrs): map<Id, Named> {
    map id | id in m :: if m[id].name == name then Named(name, attrs) else m[id]
  }

  function WithoutName(m: map<Id, Named>, name: string): map<Id, Named> {
    map id | id in m && m[id].name != name :: m[id]
  }

  /** A primary key or name that is taken refuses the row. */
  predicate Taken(m: map<Id, Named>, id: Id, name: string) {
    id in m || HasName(m, name)
  }

  /** The user of this number in the domain of this name. */
  predicate IsUser(t: Tables, domain: string, number: string, u: User) {
    u.domainId in t.domains && t.domains[u.domainId].name == domain && u.number == number
  }

  function SetUser(t: Tables, domain: string, number: string, attrs: Attrs): map<Id, User> {
    map id | id in t.users ::
      if IsUser(t, domain, number, t.users[id]) then t.users[id].(attrs := attrs) else t.users[id]
  }

  function WithoutUser(t: Tables, domain: string, number: string): map<Id, User> {
    map id | id in t.users && !IsUser(t, domain, number, t.users[id]) :: t.users[id]
  }

  predicate UserExists(t: Tables, domain: string, number: string) {
    exists id :: id in t.users && IsUser(t, domain, number, t.users[id])
  }

  function SetTier(tiers: map<Id, Tier>, row: Tier): map<Id, Tier> {
    map id | id in tiers :: if SameTier(tiers[id], row) then row else tiers[id]
  }

  function WithoutTier(tiers: map<Id, Tier>, key: Tier): map<Id, Tier> {
    map id | id in tiers && !SameTier(tiers[id], key) :: tiers[id]
  }

  predicate TierExists(tiers: map<Id, Tier>, key: Tier) {
    exists id :: id in tiers && SameTier(tiers[id], key)
  }

  function SetRoom(rooms: map<Id, Room>, row: Room): map<Id, Room> {
    map id | id in rooms :: if rooms[id].name == row.name then row else rooms[id]
  }

  function WithoutRoom(rooms: map<Id, Room>, name: string): map<Id, Room> {
    map id | id in rooms && rooms[id].name != name :: rooms[id]
  }

  predicate InUse(t: Tables, profile: string) {
    exists id :: id in t.rooms && t.rooms[id].profile == profile
  }

  predicate RoomNamed(t: Tables, name: string) {
    exists id :: id in t.rooms && t.rooms[id].name == name
  }

  predicate NumberTaken(t: Tables, room: Room) {
    exists id :: id in t.rooms && t.rooms[id].name != room.name && SameRoom(t.rooms[id], room)
  }

  /** ON DELETE CASCADE from conditions to actions. */
  function KeepConds(t: Tables, keep: set<Id>): Tables {
    var conds := map id | id in t.conds && id in keep :: t.conds[id];
    t.(conds := conds, acts := map id | id in t.acts && t.acts[id].condId in conds :: t.acts[id])
  }

  function KeepExts(t: Tables, keep: set<Id>): Tables {
    var exts := map id | id in t.exts && id in keep :: t.exts[id];
    KeepConds(t.(exts := exts), set id | id in t.conds && t.conds[id].extId in exts)
  }

  function UsersIn(users: map<Id, User>, domains: set<Id>): map<Id, User> {
    map id | id in users && users[id].domainId in domains :: users[id]
  }

  function ExtsIn(exts: map<Id, Ext>, domains: set<Id>): set<Id> {
    set id | id in exts && exts[id].domainId in domains
  }

  function WithoutDomain(t: Tables, name: string): Tables {
    var domains := WithoutName(t.domains, name);
    KeepExts(t.(domains := domains, users := UsersIn(t.users, domains.Keys)), ExtsIn(t.exts, domains.Keys))
  }

  /** What the database does with one statement. Unique keys are checked row by row, foreign keys at the
      end of the statement, so a unique violation is reported first. */
  function Exec(t: Tables, op: Op): Outcome {
    match op
    case InsertDomain(id, row) =>
      if Taken(t.domains, id, row.name) then Violated(UniqueViolation)
      else Done(t.(domains := t.domains[id := row]), true)
    case UpdateDomain(name, attrs) =>
      Done(t.(domains := SetAttrs(t.domains, name, attrs)), HasName(t.domains, name))
    case DeleteDomain(name) =>
      Done(WithoutDomain(t, name), HasName(t.domains, name))
    case InsertUser(id, user) =>
      if id in t.users || exists o :: o in t.users && SameUser(t.users[o], user) then Violated(UniqueViolation)
      else if user.domainId !in t.domains then Violated(ForeignKeyViolation)
      else Done(t.(users := t.users[id := user]), true)
    case UpdateUser(domain, number, attrs) =>
      Done(t.(users := SetUser(t, domain, number, attrs)), UserExists(t, domain, number))
    case DeleteUser(domain, number) =>
      Done(t.(users := WithoutUser(t, domain, number)), UserExists(t, domain, number))
    case InsertQueue(id, row) =>
      if Taken(t.queues, id, row.name) then Violated(UniqueViolation)
      else Done(t.(queues := t.queues[id := row]), true)
    case UpdateQueue(name, attrs) =>
      Done(t.(queues := SetAttrs(t.queues, name, attrs)), HasName(t.queues, name))
    case DeleteQueue(name) =>
      Done(t.(queues := WithoutName(t.queues, name),
              tiers := map id | id in t.tiers && t.tiers[id].queue != name :: t.tiers[id]),
           HasName(t.queues, name))
    case InsertAgent(id, row) =>
      if Taken(t.agents, id, row.name) then Violated(UniqueViolation)
      else Done(t.(agents := t.agents[id := row]), true)
    case UpdateAgent(name, attrs) =>
      Done(t.(agents := SetAttrs(t.agents, name, attrs)), HasName(t.agents, name))
    case DeleteAgent(name) =>
      Done(t.(agents := WithoutName(t.agents, name),
              tiers := map id | id in t.tiers && t.tiers[id].agent != name :: t.tiers[id]),
           HasName(t.agents, name))
    case InsertTier(id, tier) =>
      if id in t.tiers || TierExists(t.tiers, tier) then Violated(UniqueViolation)
      else if !HasName(t.queues, tier.queue) || !HasName(t.agents, tier.agent) then Violated(ForeignKeyViolation)
      else Done(t.(tiers := t.tiers[id := tier]), true)
    case UpdateTier(queue, agent, level, position) =>
      var row := Tier(queue, agent, level, position);
      Done(t.(tiers := SetTier(t.tiers, row)), TierExists(t.tiers, row))
    case DeleteTier(queue, agent) =>
      var key := Tier(queue, agent, 0, 0);
      Done(t.(tiers := WithoutTier(t.tiers, key)), TierExists(t.tiers, key))
    case InsertProfile(id, row) =>
      if Taken(t.profiles, id, row.name) then Violated(UniqueViolation)
      else Done(t.(profiles := t.profiles[id := row]), true)
    case UpdateProfile(name, attrs) =>
      Done(t.(profiles := SetAttrs(t.profiles, name, attrs)), HasName(t.profiles, name))
    case DeleteProfile(name) =>
      if HasName(t.profiles, name) && InUse(t, name) then Violated(ForeignKeyViolation)
      else Done(t.(profiles := WithoutName(t.profiles, name)), HasName(t.profiles, name))
    case InsertRoom(id, room) =>
      if id in t.rooms || exists o :: o in t.rooms && SameRoom(t.rooms[o], room) then Violated(UniqueViolation)
      else if !HasName(t.profiles, room.profile) then Violated(ForeignKeyViolation)
      else Done(t.(rooms := t.rooms[id := room]), true)
    case UpdateRoom(name, room) =>
      var row := room.(name := name);
      if !RoomNamed(t, name) then Done(t, false)
      else if NumberTaken(t, row) then Violated(UniqueViolation)
      else if !HasName(t.profiles, row.profile) then Violated(ForeignKeyViolation)
      else Done(t.(rooms := SetRoom(t.rooms, row)), true)
    case DeleteRoom(name) =>
      Done(t.(rooms := WithoutRoom(t.rooms, name)), RoomNamed(t, name))
    case InsertExt(id, ext) =>
      if id in t.exts || exists o :: o in t.exts && SameExt(t.exts[o], ext) then Violated(UniqueViolation)
      else if ext.domainId !in t.domains then Violated(ForeignKeyViolation)
      else Done(t.(exts := t.exts[id := ext]), true)
    case UpdateExt(id, ext) =>
      if id !in t.exts then Done(t, false) else
      var row := ext.(domainId := t.exts[id].domainId);
      if exists o :: o in t.exts && o != id && SameExt(t.exts[o], row) then Violated(UniqueViolation)
      else Done(t.(exts := t.exts[id := row]), true)
    case DeleteExt(id) =>
      Done(KeepExts(t, t.exts.Keys - {id}), id in t.exts)
    case InsertCond(id, cond) =>
      if id in t.conds then Violated(UniqueViolation)
      else if cond.extId !in t.exts then Violated(ForeignKeyViolation)
      else Done(t.(conds := t.conds[id := cond]), true)
    case InsertAct(id, act) =>
      if id in t.acts then Violated(UniqueViolation)
      else if act.condId !in t.conds then Violated(ForeignKeyViolation)
      else Done(t.(acts := t.acts[id := act]), true)
    case DeleteConds(extId) =>
      Done(KeepConds(t, set id | id in t.conds && t.conds[id].extId != extId),
           exists id :: id in t.conds && t.conds[id].extId == extId)
  }

  // ---------- every statement keeps integrity ----------

  lemma NamesKept(m: map<Id, Named>, name: string, attrs: Attrs)
    requires UniqueNames(m)
    ensures UniqueNames(SetAttrs(m, name, attrs)) && UniqueNames(WithoutName(m, name))
    ensures forall n :: HasName(SetAttrs(m, name, attrs), n) <==> HasName(m, n)
    ensures forall n :: HasName(WithoutName(m, name), n) <==> HasName(m, n) && n != name
  {
    var s, w := SetAttrs(m, name, attrs), WithoutName(m, name);
    assert forall id :: id in m ==> s[id].name == m[id].name;
    forall n
      ensures HasName(s, n) <==> HasName(m, n)
      ensures HasName(w, n) <==> HasName(m, n) && n != name
    {
      if id :| id in m && m[id].name == n {
        assert s[id].name == n;
        assert n != name ==> id in w && w[id].name == n;
      }
      if id :| id in s && s[id].name == n {
        assert m[id].name == n;
      }
    }
  }

  lemma NameAdded(m: map<Id, Named>, id: Id, row: Named)
    requires UniqueNames(m) && !Taken(m, id, row.name)
    ensures UniqueNames(m[id := row])
    ensures forall n :: HasName(m, n) ==> HasName(m[id := row], n)
  {
    var u := m[id := row];
    forall n | HasName(m, n)
      ensures HasName(u, n)
    {
      var o :| o in m && m[o].name == n;
      assert o in u && u[o].name == n;
    }
  }

  lemma SetAttrsKeys(m: map<Id, Named>, name: string, attrs: Attrs)
    ensures SetAttrs(m, name, attrs).Keys == m.Keys
  {
  }

  ghost predicate KeepsNames(m: map<Id, Named>, n: map<Id, Named>) {
    forall name :: HasName(m, name) ==> HasName(n, name)
  }

  lemma RefsFollowNames(t: Tables, m: map<Id, Named>)
    ensures TiersRef(t.tiers, t.queues, t.agents) && KeepsNames(t.queues, m) ==> TiersRef(t.tiers, m, t.agents)
    ensures TiersRef(t.tiers, t.queues, t.agents) && KeepsNames(t.agents, m) ==> TiersRef(t.tiers, t.queues, m)
    ensures RoomsRef(t.rooms, t.profiles) && KeepsNames(t.profiles, m) ==> RoomsRef(t.rooms, m)
  {
    hide HasName;
  }

  lemma RefsGrow(t: Tables, domains: set<Id>)
    requires t.domains.Keys <= domains
    ensures UsersRef(t.users, t.domains.Keys) ==> UsersRef(t.users, domains)
    ensures ExtsRef(t.exts, t.domains.Keys) ==> ExtsRef(t.exts, domains)
  {
  }

  lemma InsertNamedKeeps(t: Tables, op: Op)
    requires Integrity(t) && Exec(t, op).Done?
    requires op.InsertDomain? || op.InsertQueue? || op.InsertAgent? || op.InsertProfile?
    ensures Integrity(Exec(t, op).t)
  {
    hide UniqueNames, UniqueUsers, UniqueExts, UniqueTiers, UniqueRooms, UsersRef, ExtsRef, CondsRef, ActsRef,
         TiersRef, RoomsRef,
         HasName, Taken;
    match op
    case InsertDomain(id, row) =>
      NameAdded(t.domains, id, row);
      RefsGrow(t, t.domains[id := row].Keys);
    case InsertQueue(id, row) =>
      NameAdded(t.queues, id, row);
      RefsFollowNames(t, t.queues[id := row]);
    case InsertAgent(id, row) =>
      NameAdded(t.agents, id, row);
      RefsFollowNames(t, t.agents[id := row]);
    case InsertProfile(id, row) =>
      NameAdded(t.profiles, id, row);
      RefsFollowNames(t, t.profiles[id := row]);
  }

  lemma UpdateNamedKeeps(t: Tables, op: Op)
    requires Integrity(t) && Exec(t, op).Done?
    requires op.UpdateDomain? || op.UpdateQueue? || op.UpdateAgent? || op.UpdateProfile?
    ensures Integrity(Exec(t, op).t)
  {
    hide UniqueNames, UniqueUsers, UniqueExts, UniqueTiers, UniqueRooms, UsersRef, ExtsRef, CondsRef, ActsRef,
         TiersRef, RoomsRef,
         HasName, SetAttrs, WithoutName;
    match op
    case UpdateDomain(name, attrs) =>
      NamesKept(t.domains, name, attrs);
      SetAttrsKeys(t.domains, name, attrs);
    case UpdateQueue(name, attrs) =>
      NamesKept(t.queues, name, attrs);
      RefsFollowNames(t, SetAttrs(t.queues, name, attrs));
    case UpdateAgent(name, attrs) =>
      NamesKept(t.agents, name, attrs);
      RefsFollowNames(t, SetAttrs(t.agents, name, attrs));
    case UpdateProfile(name, attrs) =>
      NamesKept(t.profiles, name, attrs);
      RefsFollowNames(t, SetAttrs(t.profiles, name, attrs));
  }

  lemma ProfileUnused(t: Tables, name: string)
    requires RoomsRef(t.rooms, t.profiles) && !(HasName(t.profiles, name) && InUse(t, name))
    requires forall n :: HasName(WithoutName(t.profiles, name), n) <==> HasName(t.profiles, n) && n != name
    ensures RoomsRef(t.rooms, WithoutName(t.profiles, name))
  {
    hide HasName, WithoutName;
  }

  lemma TiersOfOthers(t: Tables, queue: string, agent: string)
    requires TiersRef(t.tiers, t.queues, t.agents) && UniqueTiers(t.tiers)
    requires forall n :: HasName(WithoutName(t.queues, queue), n) <==> HasName(t.queues, n) && n != queue
    requires forall n :: HasName(WithoutName(t.agents, agent), n) <==> HasName(t.agents, n) && n != agent
    ensures var q := map id | id in t.tiers && t.tiers[id].queue != queue :: t.tiers[id];
            UniqueTiers(q) && TiersRef(q, WithoutName(t.queues, queue), t.agents)
    ensures var a := map id | id in t.tiers && t.tiers[id].agent != agent :: t.tiers[id];
            UniqueTiers(a) && TiersRef(a, t.queues, WithoutName(t.agents, agent))
  {
    hide HasName, WithoutName, SameTier;
  }

  lemma DeleteNamedKeeps(t: Tables, op: Op)
    requires Integrity(t) && Exec(t, op).Done?
    requires op.DeleteQueue? || op.DeleteAgent? || op.DeleteProfile?
    ensures Integrity(Exec(t, op).t)
  {
    hide UniqueNames, UniqueUsers, UniqueExts, UniqueTiers, UniqueRooms, UsersRef, ExtsRef, CondsRef, ActsRef,
         TiersRef, RoomsRef,
         HasName, SetAttrs, WithoutName, InUse;
    var name := op.name;
    NamesKept(t.queues, name, map[]);
    NamesKept(t.agents, name, map[]);
    NamesKept(t.profiles, name, map[]);
    if op.DeleteProfile? {
      ProfileUnused(t, name);
    } else {
      TiersOfOthers(t, name, name);
    }
  }

  lemma TiersKeep(t: Tables, op: Op)
    requires UniqueTiers(t.tiers) && TiersRef(t.tiers, t.queues, t.agents) && Exec(t, op).Done?
    requires op.InsertTier? || op.UpdateTier? || op.DeleteTier?
    ensures UniqueTiers(Exec(t, op).t.tiers) && TiersRef(Exec(t, op).t.tiers, t.queues, t.agents)
  {
    hide HasName;
  }

  lemma RoomsKeep(t: Tables, op: Op)
    requires UniqueRooms(t.rooms) && RoomsRef(t.rooms, t.profiles) && Exec(t, op).Done?
    requires op.InsertRoom? || op.UpdateRoom? || op.DeleteRoom?
    ensures UniqueRooms(Exec(t, op).t.rooms) && RoomsRef(Exec(t, op).t.rooms, t.profiles)
  {
    hide HasName;
  }

  lemma UsersKeep(t: Tables, op: Op)
    requires UniqueUsers(t.users) && UsersRef(t.users, t.domains.Keys) && Exec(t, op).Done?
    requires op.InsertUser? || op.UpdateUser? || op.DeleteUser?
    ensures UniqueUsers(Exec(t, op).t.users) && UsersRef(Exec(t, op).t.users, t.domains.Keys)
  {
    hide HasName;
  }

  lemma ExtPut(t: Tables, id: Id, row: Ext)
    requires UniqueExts(t.exts) && ExtsRef(t.exts, t.domains.Keys) && CondsRef(t.conds, t.exts.Keys)
    requires row.domainId in t.domains && !exists o :: o in t.exts && o != id && SameExt(t.exts[o], row)
    ensures var u := t.exts[id := row];
            UniqueExts(u) && ExtsRef(u, t.domains.Keys) && CondsRef(t.conds, u.Keys)
  {
    assert forall a: Ext, b: Ext :: SameExt(a, b) <==> SameExt(b, a);
    hide SameExt;
  }

  lemma ExtsKeep(t: Tables, op: Op)
    requires UniqueExts(t.exts) && ExtsRef(t.exts, t.domains.Keys) && CondsRef(t.conds, t.exts.Keys)
               && Exec(t, op).Done?
    requires op.InsertExt? || op.UpdateExt?
    ensures UniqueExts(Exec(t, op).t.exts) && ExtsRef(Exec(t, op).t.exts, t.domains.Keys)
    ensures CondsRef(t.conds, Exec(t, op).t.exts.Keys)
  {
    hide HasName, SameExt, UniqueExts, CondsRef;
    match op
    case InsertExt(id, ext) => ExtPut(t, id, ext);
    case UpdateExt(id, ext) =>
      if id in t.exts {
        ExtPut(t, id, ext.(domainId := t.exts[id].domainId));
      }
  }

  lemma RowsKeep(t: Tables, op: Op)
    requires CondsRef(t.conds, t.exts.Keys) && ActsRef(t.acts, t.conds.Keys) && Exec(t, op).Done?
    requires op.InsertCond? || op.InsertAct? || op.DeleteConds?
    ensures CondsRef(Exec(t, op).t.conds, t.exts.Keys) && ActsRef(Exec(t, op).t.acts, Exec(t, op).t.conds.Keys)
  {
  }

  lemma TierOrRoomKeeps(t: Tables, op: Op)
    requires Integrity(t) && Exec(t, op).Done?
    requires op.InsertTier? || op.UpdateTier? || op.DeleteTier? || op.InsertRoom? || op.UpdateRoom? || op.DeleteRoom?
    ensures Integrity(Exec(t, op).t)
  {
    hide UniqueNames, UniqueUsers, UniqueExts, UniqueTiers, UniqueRooms, UsersRef, ExtsRef, CondsRef, ActsRef,
         TiersRef, RoomsRef,
         HasName, SameTier, SameRoom;
    if op.InsertTier? || op.UpdateTier? || op.DeleteTier? {
      TiersKeep(t, op);
    } else {
      RoomsKeep(t, op);
    }
  }

  lemma UserOrExtKeeps(t: Tables, op: Op)
    requires Integrity(t) && Exec(t, op).Done?
    requires op.InsertUser? || op.UpdateUser? || op.DeleteUser? || op.InsertExt? || op.UpdateExt?
    ensures Integrity(Exec(t, op).t)
  {
    hide UniqueNames, UniqueUsers, UniqueExts, UniqueTiers, UniqueRooms, UsersRef, ExtsRef, CondsRef, ActsRef,
         TiersRef, RoomsRef,
         HasName, SameUser, SameExt, IsUser;
    if op.InsertExt? || op.UpdateExt? {
      ExtsKeep(t, op);
    } else {
      UsersKeep(t, op);
    }
  }

  lemma RowKeeps(t: Tables, op: Op)
    requires Integrity(t) && Exec(t, op).Done?
    requires op.InsertCond? || op.InsertAct? || op.DeleteConds?
    ensures Integrity(Exec(t, op).t)
  {
    hide UniqueNames, UniqueUsers, UniqueExts, UniqueTiers, UniqueRooms, UsersRef, ExtsRef, CondsRef, ActsRef,
         TiersRef, RoomsRef;
    RowsKeep(t, op);
  }

  /** The cascade from extensions down leaves no orphan. */
  lemma KeepExtsKeeps(t: Tables, keep: set<Id>)
    requires UniqueExts(t.exts)
    ensures var u := KeepExts(t, keep);
            && UniqueExts(u.exts) && u.exts.Keys == t.exts.Keys * keep
            && (ExtsRef(t.exts, t.domains.Keys) ==> ExtsRef(u.exts, t.domains.Keys))
            && CondsRef(u.conds, u.exts.Keys) && ActsRef(u.acts, u.conds.Keys)
  {
    hide SameExt;
  }

  lemma DomainUsersKeep(t: Tables, domains: set<Id>)
    requires UniqueUsers(t.users)
    ensures UniqueUsers(UsersIn(t.users, domains)) && UsersRef(UsersIn(t.users, domains), domains)
  {
    hide SameUser;
  }

  lemma DomainExtsKeep(t: Tables, domains: set<Id>)
    requires UniqueExts(t.exts)
    ensures ExtsRef(KeepExts(t, ExtsIn(t.exts, domains)).exts, domains)
  {
    hide SameExt;
  }

  lemma WithoutDomainKeeps(t: Tables, name: string)
    requires Integrity(t)
    ensures Integrity(WithoutDomain(t, name))
  {
    hide UniqueNames, UniqueUsers, UniqueExts, UniqueTiers, UniqueRooms, UsersRef, ExtsRef, CondsRef, ActsRef,
         TiersRef, RoomsRef,
         HasName, WithoutName, UsersIn, ExtsIn;
    NamesKept(t.domains, name, map[]);
    var domains := WithoutName(t.domains, name).Keys;
    var u := t.(domains := WithoutName(t.domains, name), users := UsersIn(t.users, domains));
    DomainUsersKeep(t, domains);
    DomainExtsKeep(u, domains);
    KeepExtsKeeps(u, ExtsIn(t.exts, domains));
  }

  lemma CascadesKeep(t: Tables, op: Op)
    requires Integrity(t) && Exec(t, op).Done? && (op.DeleteDomain? || op.DeleteExt?)
    ensures Integrity(Exec(t, op).t)
  {
    hide UniqueNames, UniqueUsers, UniqueExts, UniqueTiers, UniqueRooms, UsersRef, ExtsRef, CondsRef, ActsRef,
         TiersRef, RoomsRef,
         HasName, WithoutName;
    match op
    case DeleteDomain(name) => WithoutDomainKeeps(t, name);
    case DeleteExt(id) => KeepExtsKeeps(t, t.exts.Keys - {id});
  }

  /** No statement breaks a key or leaves a reference hanging. */
  lemma IntegrityStep(t: Tables, op: Op)
    requires Integrity(t) && Exec(t, op).Done?
    ensures Integrity(Exec(t, op).t)
  {
    hide Integrity, Exec;
    match op
    case InsertDomain(_, _) | InsertQueue(_, _) | InsertAgent(_, _) | InsertProfile(_, _) => InsertNamedKeeps(t, op);
    case UpdateDomain(_, _) | UpdateQueue(_, _) | UpdateAgent(_, _) | UpdateProfile(_, _) => UpdateNamedKeeps(t, op);
    case DeleteQueue(_) | DeleteAgent(_) | DeleteProfile(_) => DeleteNamedKeeps(t, op);
    case DeleteDomain(_) | DeleteExt(_) => CascadesKeep(t, op);
    case InsertCond(_, _) | InsertAct(_, _) | DeleteConds(_) => RowKeeps(t, op);
    case InsertUser(_, _) | UpdateUser(_, _, _) | DeleteUser(_, _) | InsertExt(_, _) | UpdateExt(_, _) =>
      UserOrExtKeeps(t, op);
    case _ => TierOrRoomKeeps(t, op);
  }
}
