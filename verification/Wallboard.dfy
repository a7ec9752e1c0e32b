/** The supervisor page: the incremental reader of the event stream and the fold over its events. */
module Wallboard {
  import opened Text
  import opened Hub
  import opened Sse
  import opened Wrappers

  datatype Call = Call(caller: Option<string>, dest: Option<string>, dir: Option<string>, since: int, answered: bool)

  /** The page's variables. A missing field of an event is None (JavaScript's undefined). */
  datatype Board = Board(
    calls: map<Option<string>, Call>,
    agents: map<string, string>,
    totalCalls: nat,
    waiting: nat)

  const EMPTY := Board(map[], map[], 0, 0)

  function Field(e: Event, k: string): (v: Option<string>)
    ensures v.Some? <==> k in e.data
    ensures v.Some? ==> v.value == e.data[k]
  {
    if k in e.data then Some(e.data[k]) else None
  }

  function OrElse(v: Option<string>, other: string): string {
    if v.Some? && v.value != "" then v.value else other
  }

  function LowerChar(c: char): char {
    if 'A' <= c <= 'Z' then c + 32 as char else c
  }

  /** The regular expression /word/i for a lower-case word. */
  predicate Mentions(s: string, word: string) {
    exists i :: 0 <= i <= |s| - |word| && MatchesAt(s, word, i)
  }

  predicate MatchesAt(s: string, word: string, i: int)
    requires 0 <= i <= |s| - |word|
  {
    forall j :: 0 <= j < |word| ==> LowerChar(s[i + j]) == word[j]
  }

  /** The word stands at i, each letter in lower or upper case. */
  predicate Spelled(s: string, i: int, lower: string, upper: string)
    requires |lower| == |upper|
  {
    0 <= i <= |s| - |lower| && forall j :: 0 <= j < |lower| ==> s[i + j] == lower[j] || s[i + j] == upper[j]
  }

  predicate Says(s: string, lower: string, upper: string)
    requires |lower| == |upper|
  {
    exists i :: 0 <= i <= |s| - |lower| && Spelled(s, i, lower, upper)
  }

  lemma MentionsSays(s: string, lower: string, upper: string)
    requires |lower| == |upper|
    requires forall j :: 0 <= j < |lower| ==> 'a' <= lower[j] <= 'z' && upper[j] as int == lower[j] as int - 32
    ensures Mentions(s, lower) <==> Says(s, lower, upper)
  {
    forall i | 0 <= i <= |s| - |lower|
      ensures MatchesAt(s, lower, i) <==> Spelled(s, i, lower, upper)
    {
      forall j | 0 <= j < |lower|
        ensures LowerChar(s[i + j]) == lower[j] <==> s[i + j] == lower[j] || s[i + j] == upper[j]
      {
        LowerIs(s[i + j], lower[j], upper[j]);
      }
    }
  }

  lemma LowerIs(c: char, l: char, u: char)
    requires 'a' <= l <= 'z' && u as int == l as int - 32
    ensures LowerChar(c) == l <==> c == l || c == u
  {
  }

  /** What counts as joining a queue and as leaving it, by the words of the action. */
  lemma QueueWords(e: Event)
    ensures var action := Get(e.data, "action");
            && (Joins(e) <==> e.kind == "queue.member" && Says(action, "join", "JOIN"))
            && (Leaves(e) <==> e.kind == "queue.member" && !Says(action, "join", "JOIN")
                               && (Says(action, "abandon", "ABANDON") || Says(action, "bridge", "BRIDGE")
                                   || Says(action, "leave", "LEAVE") || Says(action, "exit", "EXIT")))
  {
    hide Mentions, Says;
    var action := Get(e.data, "action");
    MentionsSays(action, "join", "JOIN");
    MentionsSays(action, "abandon", "ABANDON");
    MentionsSays(action, "bridge", "BRIDGE");
    MentionsSays(action, "leave", "LEAVE");
    MentionsSays(action, "exit", "EXIT");
  }

  predicate Joins(e: Event) {
    e.kind == "queue.member" && Mentions(Get(e.data, "action"), "join")
  }

  predicate Leaves(e: Event) {
    var action := Get(e.data, "action");
    e.kind == "queue.member" && !Mentions(action, "join")
    && (Mentions(action, "abandon") || Mentions(action, "bridge") || Mentions(action, "leave")
        || Mentions(action, "exit"))
  }

  datatype Seen = Seen(e: Event, now: int)

  function Step(b: Board, s: Seen): Board {
    var e := s.e;
    var uuid := Field(e, "uuid");
    match e.kind
    case "call.started" =>
      b.(calls := b.calls[uuid := Call(Field(e, "caller"), Field(e, "destination"), Field(e, "direction"), s.now,
                                       false)],
         totalCalls := b.totalCalls + 1)
    case "call.answered" =>
      if uuid in b.calls then b.(calls := b.calls[uuid := b.calls[uuid].(answered := true)]) else b
    case "call.ended" => b.(calls := b.calls - {uuid})
    case "agent.status" =>
      if OrElse(Field(e, "agent"), "") != "" then
        b.(agents := b.agents[Get(e.data, "agent") := OrElse(Field(e, "status"), "?")])
      else b
    case "queue.member" =>
      if Joins(e) then b.(waiting := b.waiting + 1)
      else if Leaves(e) then b.(waiting := if b.waiting > 0 then b.waiting - 1 else 0)
      else b
    case _ => b
  }

  function Fold(ss: seq<Seen>): Board {
    if ss == [] then EMPTY else Step(Fold(ss[..|ss| - 1]), ss[|ss| - 1])
  }

  // ---------- what the page shows ----------

  ghost predicate StartedAt(ss: seq<Seen>, u: Option<string>, i: nat)
    requires i < |ss|
  {
    ss[i].e.kind == "call.started" && Field(ss[i].e, "uuid") == u
  }

  ghost predicate EndedAfter(ss: seq<Seen>, u: Option<string>, i: nat) {
    exists j: nat :: i < j < |ss| && ss[j].e.kind == "call.ended" && Field(ss[j].e, "uuid") == u
  }

  /** The call has a start with no end after it. */
  ghost predicate Active(ss: seq<Seen>, u: Option<string>) {
    exists i: nat :: i < |ss| && StartedAt(ss, u, i) && !EndedAfter(ss, u, i)
  }

  lemma ActiveNext(ss: seq<Seen>, s: Seen, u: Option<string>)
    ensures var mine := Field(s.e, "uuid") == u;
            Active(ss + [s], u) <==>
              (s.e.kind == "call.started" && mine) || (Active(ss, u) && !(s.e.kind == "call.ended" && mine))
  {
    var all, n := ss + [s], |ss|;
    forall i: nat | i < n
      ensures StartedAt(all, u, i) <==> StartedAt(ss, u, i)
      ensures EndedAfter(all, u, i) <==> EndedAfter(ss, u, i) || (s.e.kind == "call.ended" && Field(s.e, "uuid") == u)
    {
      assert forall j: nat :: j < n ==> all[j] == ss[j];
      if s.e.kind == "call.ended" && Field(s.e, "uuid") == u {
        assert all[n] == s;
      }
    }
    if s.e.kind == "call.started" && Field(s.e, "uuid") == u {
      assert StartedAt(all, u, n) && !EndedAfter(all, u, n);
    }
    if Active(all, u) {
      var i: nat :| i < |all| && StartedAt(all, u, i) && !EndedAfter(all, u, i);
      assert i < n ==> StartedAt(ss, u, i);
    }
  }

  /** The active calls are exactly the uuids with a start and no later end. */
  lemma {:induction false} ActiveCalls(ss: seq<Seen>, u: Option<string>)
    ensures u in Fold(ss).calls <==> Active(ss, u)
  {
    if ss != [] {
      var front, last := ss[..|ss| - 1], ss[|ss| - 1];
      assert front + [last] == ss;
      ActiveNext(front, last, u);
      ActiveCalls(front, u);
    }
  }

  ghost predicate AnsweredAfter(ss: seq<Seen>, u: Option<string>, i: nat) {
    exists j: nat :: i < j < |ss| && ss[j].e.kind == "call.answered" && Field(ss[j].e, "uuid") == u
  }

  ghost predicate LastStart(ss: seq<Seen>, u: Option<string>, i: nat) {
    i < |ss| && StartedAt(ss, u, i) && forall j: nat :: i < j < |ss| ==> !StartedAt(ss, u, j)
  }

  /** An active call shows the parties and the time of its last start, and whether it was answered since. */
  lemma {:induction false} CallShown(ss: seq<Seen>, u: Option<string>, i: nat)
    requires LastStart(ss, u, i) && !EndedAfter(ss, u, i)
    ensures u in Fold(ss).calls
    ensures Fold(ss).calls[u] == Call(Field(ss[i].e, "caller"), Field(ss[i].e, "destination"),
                                      Field(ss[i].e, "direction"), ss[i].now, AnsweredAfter(ss, u, i))
  {
    var n := |ss| - 1;
    var front := ss[..n];
    if i < n {
      forall j: nat | i < j < n
        ensures front[j] == ss[j] && !StartedAt(front, u, j)
      {
        assert !StartedAt(ss, u, j);
      }
      assert StartedAt(front, u, i) && !EndedAfter(front, u, i) && !StartedAt(ss, u, n);
      assert AnsweredAfter(ss, u, i) <==>
             AnsweredAfter(front, u, i) || (ss[n].e.kind == "call.answered" && Field(ss[n].e, "uuid") == u);
      CallShown(front, u, i);
    }
  }

  /** The events that start a call. */
  ghost function Starts(ss: seq<Seen>): set<int> {
    set i | 0 <= i < |ss| && ss[i].e.kind == "call.started"
  }

  lemma StartsNext(ss: seq<Seen>, s: Seen)
    ensures |Starts(ss + [s])| == |Starts(ss)| + if s.e.kind == "call.started" then 1 else 0
  {
    var n := |ss|;
    assert Starts(ss + [s]) == Starts(ss) + if s.e.kind == "call.started" then {n} else {};
    assert n !in Starts(ss);
  }

  lemma FoldNext(ss: seq<Seen>, s: Seen)
    ensures Fold(ss + [s]) == Step(Fold(ss), s)
  {
    assert (ss + [s])[..|ss|] == ss;
  }

  lemma StepTotal(b: Board, s: Seen)
    ensures Step(b, s).totalCalls == b.totalCalls + if s.e.kind == "call.started" then 1 else 0
  {
    hide Joins, Leaves;
  }

  /** The number of calls is the number of starts, ended or not. */
  lemma {:induction false} TotalCalls(ss: seq<Seen>)
    ensures Fold(ss).totalCalls == |Starts(ss)|
  {
    if ss != [] {
      hide Fold, Starts, Step;
      var n := |ss| - 1;
      TotalCalls(ss[..n]);
      assert ss == ss[..n] + [ss[n]];
      StartsNext(ss[..n], ss[n]);
      FoldNext(ss[..n], ss[n]);
      StepTotal(Fold(ss[..n]), ss[n]);
    }
  }

  /** An agent's status event, and the status it sets. */
  predicate StatusOf(e: Event, agent: string) {
    agent != "" && e.kind == "agent.status" && "agent" in e.data && e.data["agent"] == agent
  }

  function Status(e: Event): string {
    if "status" in e.data && e.data["status"] != "" then e.data["status"] else "?"
  }

  lemma StepAgent(b: Board, s: Seen, agent: string)
    ensures if StatusOf(s.e, agent) then agent in Step(b, s).agents && Step(b, s).agents[agent] == Status(s.e)
            else (agent in Step(b, s).agents <==> agent in b.agents)
                 && (agent in b.agents ==> Step(b, s).agents[agent] == b.agents[agent])
  {
    hide Joins, Leaves;
  }

  ghost predicate LastStatus(ss: seq<Seen>, agent: string, i: nat) {
    i < |ss| && StatusOf(ss[i].e, agent) && forall j :: i < j < |ss| ==> !StatusOf(ss[j].e, agent)
  }

  /** An agent is shown with the status of its last event, "?" when that has none. */
  lemma {:induction false} AgentShown(ss: seq<Seen>, agent: string, i: nat)
    requires LastStatus(ss, agent, i)
    ensures agent in Fold(ss).agents && Fold(ss).agents[agent] == Status(ss[i].e)
  {
    hide Fold, StatusOf, Step;
    var n := |ss| - 1;
    assert ss == ss[..n] + [ss[n]];
    FoldNext(ss[..n], ss[n]);
    StepAgent(Fold(ss[..n]), ss[n], agent);
    if i < n {
      AgentShown(ss[..n], agent, i);
    }
  }

  /** Without any such event the agent is not shown. */
  lemma {:induction false} AgentUnknown(ss: seq<Seen>, agent: string)
    requires forall i :: 0 <= i < |ss| ==> !StatusOf(ss[i].e, agent)
    ensures agent !in Fold(ss).agents
  {
    if ss != [] {
      hide Fold, StatusOf, Step;
      var n := |ss| - 1;
      assert ss == ss[..n] + [ss[n]];
      FoldNext(ss[..n], ss[n]);
      StepAgent(Fold(ss[..n]), ss[n], agent);
      AgentUnknown(ss[..n], agent);
    }
  }

  /** Joins minus leaves from position k on. */
  function Net(ss: seq<Seen>, k: nat): int
    requires k <= |ss|
    decreases |ss|
  {
    if k == |ss| then 0 else
    var last := ss[|ss| - 1].e;
    Net(ss[..|ss| - 1], k) + if Joins(last) then 1 else if Leaves(last) then -1 else 0
  }

  /** The waiting counter, clamped at zero, is the largest balance of any suffix, the empty one included. */
  lemma {:induction false} WaitingIsMaxSuffix(ss: seq<Seen>)
    ensures forall k: nat :: k <= |ss| ==> Net(ss, k) <= Fold(ss).waiting
    ensures exists k: nat :: k <= |ss| && Net(ss, k) == Fold(ss).waiting
  {
    if ss == [] {
      assert Net(ss, 0) == 0;
    } else {
      var front := ss[..|ss| - 1];
      WaitingIsMaxSuffix(front);
      var k: nat :| k <= |front| && Net(front, k) == Fold(front).waiting;
      assert Net(ss, |ss|) == 0;
      assert Fold(ss).waiting == Net(ss, k) || Fold(ss).waiting == Net(ss, |ss|);
    }
  }

  // ---------- the page ----------

  function Concat(chunks: seq<string>): string {
    if chunks == [] then "" else Concat(chunks[..|chunks| - 1]) + chunks[|chunks| - 1]
  }

  function Events(ss: seq<Seen>): (r: seq<Event>)
    ensures |r| == |ss|
  {
    seq(|ss|, i requires 0 <= i < |ss| => ss[i].e)
  }

  lemma StartsEmpty(c: Codec)
    ensures SplitBlocks("") == ([], "") && AllEvents(c, []) == []
  {
  }

  class Client {
    var calls: map<Option<string>, Call>
    var agents: map<string, string>
    var totalCalls: nat
    var waiting: nat
    ghost var seen: seq<Seen>  // every event applied since the page was loaded

    function View(): Board
      reads this
    {
      Board(calls, agents, totalCalls, waiting)
    }

    ghost predicate Valid()
      reads this
    {
      View() == Fold(seen)
    }

    constructor ()
      ensures Valid() && seen == []
    {
      calls, agents, totalCalls, waiting := map[], map[], 0, 0;
      seen := [];
    }

    method Apply(e: Event, now: int)
      requires Valid()
      modifies this
      ensures Valid() && seen == old(seen) + [Seen(e, now)]
      ensures calls == match e.kind
                       case "call.started" => old(calls)[Field(e, "uuid") := Call(Field(e, "caller"),
                                                Field(e, "destination"), Field(e, "direction"), now, false)]
                       case "call.answered" =>
                         if Field(e, "uuid") !in old(calls) then old(calls)
                         else old(calls)[Field(e, "uuid") := old(calls)[Field(e, "uuid")].(answered := true)]
                       case "call.ended" => old(calls) - {Field(e, "uuid")}
                       case _ => old(calls)
      ensures agents == if e.kind != "agent.status" || "agent" !in e.data || e.data["agent"] == "" then old(agents)
                        else old(agents)[e.data["agent"] := if "status" in e.data && e.data["status"] != ""
                                                            then e.data["status"] else "?"]
      ensures totalCalls == old(totalCalls) + if e.kind == "call.started" then 1 else 0
      ensures var action := Get(e.data, "action");
              waiting == if e.kind != "queue.member" then old(waiting)
                         else if Says(action, "join", "JOIN") then old(waiting) + 1
                         else if (Says(action, "abandon", "ABANDON") || Says(action, "bridge", "BRIDGE")
                                  || Says(action, "leave", "LEAVE") || Says(action, "exit", "EXIT"))
                                 && old(waiting) > 0 then old(waiting) - 1
                         else old(waiting)
    {
      hide Joins, Leaves, Says;
      QueueWords(e);
      ghost var before := seen;
      seen := seen + [Seen(e, now)];
      assert seen[..|seen| - 1] == before;
      match e.kind {
        case "call.started" =>
          calls := calls[Field(e, "uuid") := Call(Field(e, "caller"), Field(e, "destination"), Field(e, "direction"),
                                                  now, false)];
          totalCalls := totalCalls + 1;
        case "call.answered" =>
          if Field(e, "uuid") in calls {
            calls := calls[Field(e, "uuid") := calls[Field(e, "uuid")].(answered := true)];
          }
        case "call.ended" =>
          calls := calls - {Field(e, "uuid")};
        case "agent.status" =>
          if Get(e.data, "agent") != "" {
            agents := agents[Get(e.data, "agent") := OrElse(Field(e, "status"), "?")];
          }
        case "queue.member" =>
          if Joins(e) {
            waiting := waiting + 1;
          } else if Leaves(e) {
            waiting := if waiting > 0 then waiting - 1 else 0;
          }
        case _ =>
      }
    }

    /** One block: nothing happens without a data line or when the JSON does not parse. */
    method ApplyBlock(c: Codec, block: string)
      requires Valid()
      modifies this
      ensures Valid()
      ensures Events(seen) == Events(old(seen)) + BlockEvents(c, block)
    {
      hide Fold;
      var line := DataLine(block);
      if line.Some? {
        var e := c.dec(TrimSpace(line.value[5..]));
        if e.Some? {
          var now: int := *;
          Apply(e.value, now);
        }
      }
    }

    /** Takes the complete blocks off the buffer and applies what they hold. */
    method TakeBlocks(c: Codec, text: string) returns (rest: string)
      requires Valid()
      modifies this
      ensures Valid()
      ensures rest == SplitBlocks(text).1
      ensures Events(seen) == Events(old(seen)) + AllEvents(c, SplitBlocks(text).0)
    {
      hide Fold, BlankAt, BlockEvents, Events;
      var buf := text;
      var i := BlankAt(buf);
      ghost var all := Events(seen) + AllEvents(c, SplitBlocks(text).0);
      while i < |buf|
        invariant Valid()
        invariant i == BlankAt(buf)
        invariant SplitBlocks(buf).1 == SplitBlocks(text).1
        invariant Events(seen) + AllEvents(c, SplitBlocks(buf).0) == all
        decreases |buf|
      {
        var block := buf[..i];
        ghost var shown, later := Events(seen), SplitBlocks(buf[i + 2..]).0;
        assert ([block] + later)[1..] == later;
        buf := buf[i + 2..];
        ApplyBlock(c, block);
        assert shown + (BlockEvents(c, block) + AllEvents(c, later)) == Events(seen) + AllEvents(c, later);
        i := BlankAt(buf);
      }
      rest := buf;
      assert Events(seen) + [] == Events(seen);
    }

    /** One connection: the chunks of the response in the order they arrive. However the text is cut,
        exactly the events of the whole text are applied. */
    method Stream(c: Codec, chunks: seq<string>)
      requires Valid()
      modifies this
      ensures Valid()
      ensures Events(seen) == Events(old(seen)) + Delivered(c, Concat(chunks))
    {
      hide Fold, SplitBlocks, AllEvents, Events;
      StartsEmpty(c);
      assert Events(seen) + [] == Events(seen);
      var buf := "";
      var n := 0;
      while n < |chunks|
        invariant 0 <= n <= |chunks|
        invariant Valid()
        invariant buf == SplitBlocks(Concat(chunks[..n])).1
        invariant Events(seen) == Events(old(seen)) + Delivered(c, Concat(chunks[..n]))
      {
        ghost var text := Concat(chunks[..n]);
        assert chunks[..n + 1][..n] == chunks[..n];
        SplitMore(text, chunks[n]);
        AllEventsAppend(c, SplitBlocks(text).0, SplitBlocks(buf + chunks[n]).0);
        buf := buf + chunks[n];
        ghost var shown := Events(seen);
        buf := TakeBlocks(c, buf);
        assert shown == Events(old(seen)) + AllEvents(c, SplitBlocks(text).0);
        n := n + 1;
      }
      assert chunks[..n] == chunks;
    }
  }
}
