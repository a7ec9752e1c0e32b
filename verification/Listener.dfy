/** The event-socket client: from a byte stream to normalized events. */
module Listener {
  import opened Text
  import opened Hub
  import opened Wrappers

  predicate Is(m: map<string, string>, header: string, value: string) {
    header in m && m[header] == value
  }

  // ---------- lines and headers ----------

  /** ReadString('\n'): the line without its end and what follows, or None when no line end comes. */
  function CutLine(s: string): (r: Option<(string, string)>)
    ensures r.Some? ==> s == r.value.0 + "\n" + r.value.1
  {
    var i := IndexOf(s, '\n');
    if i == |s| then None else Some((s[..i], s[i + 1..]))
  }

  predicate IsLineEnd(c: char) {
    c == '\r' || c == '\n'
  }

  /** One `Name: value` line; a line without a name is ignored. */
  function AddHeader(h: map<string, string>, line: string): map<string, string> {
    var i := IndexOf(line, ':');
    if 0 < i < |line| then h[TrimSpace(line[..i]) := TrimSpace(line[i + 1..])] else h
  }

  /** The headers up to a blank line, added to h, and the stream after it; None at end of stream. */
  function HeadersFrom(s: string, h: map<string, string>): (r: Option<(map<string, string>, string)>)
    ensures r.Some? ==> |r.value.1| < |s|
    decreases |s|
  {
    match CutLine(s)
    case None => None
    case Some((raw, rest)) =>
      var line := TrimRight(raw, IsLineEnd);
      if line == "" then Some((h, rest)) else HeadersFrom(rest, AddHeader(h, line))
  }

  /** A header line as it is written. */
  datatype Field = Field(name: string, value: string)

  predicate GoodName(n: string) {
    n != "" && Tight(n) && ':' !in n && '\n' !in n
  }

  predicate GoodField(f: Field) {
    GoodName(f.name) && Tight(f.value) && '\n' !in f.value
  }

  function FieldLine(f: Field): string {
    f.name + ": " + f.value
  }

  function FieldsText(fs: seq<Field>): string {
    if fs == [] then "" else FieldLine(fs[0]) + "\n" + FieldsText(fs[1..])
  }

  /** The map of a list of fields; a later field replaces an earlier one of the same name. */
  function PutAll(h: map<string, string>, fs: seq<Field>): map<string, string>
    decreases |fs|
  {
    if fs == [] then h else PutAll(h[fs[0].name := fs[0].value], fs[1..])
  }

  lemma CutLineOf(line: string, rest: string)
    requires '\n' !in line
    ensures CutLine(line + "\n" + rest) == Some((line, rest))
  {
    var s := line + "\n" + rest;
    IndexOfIs(s, '\n', |line|);
    assert s[..|line|] == line && s[|line| + 1..] == rest;
  }

  lemma FieldLineOneLine(f: Field)
    requires GoodField(f)
    ensures '\n' !in FieldLine(f)
  {
    var line := FieldLine(f);
    forall i | 0 <= i < |line|
      ensures line[i] != '\n'
    {
      assert line[i] == if i < |f.name| then f.name[i] else if i < |f.name| + 2 then ": "[i - |f.name|]
                        else f.value[i - |f.name| - 2];
    }
  }

  /** Where the name ends and what the trimmed halves are. */
  lemma FieldLineSplits(f: Field)
    requires GoodField(f)
    ensures var line, i := FieldLine(f), |f.name|;
            IndexOf(line, ':') == i && TrimSpace(line[..i]) == f.name && TrimSpace(line[i + 1..]) == f.value
  {
    var line, i := FieldLine(f), |f.name|;
    IndexOfIs(line, ':', i);
    assert line[..i] == f.name && line[i + 1..] == " " + f.value;
    TrimTight(f.name);
    TrimTight(f.value);
  }

  lemma FieldLineEnd(f: Field, cut: char -> bool)
    requires GoodField(f) && forall c :: cut(c) ==> IsLineEnd(c)
    ensures TrimRight(FieldLine(f), cut) == FieldLine(f)
  {
    var line := FieldLine(f);
    assert line[|line| - 1] == if f.value == "" then ' ' else f.value[|f.value| - 1];
  }

  lemma FieldLineParses(h: map<string, string>, f: Field)
    requires GoodField(f)
    ensures TrimRight(FieldLine(f), IsLineEnd) == FieldLine(f)
    ensures AddHeader(h, FieldLine(f)) == h[f.name := f.value]
  {
    FieldLineEnd(f, IsLineEnd);
    FieldLineSplits(f);
  }

  lemma {:induction false} HeadersOfFields(fs: seq<Field>, rest: string, h: map<string, string>)
    requires forall f <- fs :: GoodField(f)
    ensures HeadersFrom(FieldsText(fs) + "\n" + rest, h) == Some((PutAll(h, fs), rest))
    decreases |fs|
  {
    if fs == [] {
      assert FieldsText(fs) + "\n" + rest == "" + "\n" + rest;
      CutLineOf("", rest);
    } else {
      var tail := FieldsText(fs[1..]) + "\n" + rest;
      assert FieldsText(fs) + "\n" + rest == FieldLine(fs[0]) + "\n" + tail;
      FieldLineOneLine(fs[0]);
      CutLineOf(FieldLine(fs[0]), tail);
      FieldLineParses(h, fs[0]);
      HeadersOfFields(fs[1..], rest, h[fs[0].name := fs[0].value]);
    }
  }

  lemma CutLineLocal(s: string, more: string)
    requires CutLine(s).Some?
    ensures CutLine(s + more) == Some((CutLine(s).value.0, CutLine(s).value.1 + more))
  {
    var i := IndexOf(s, '\n');
    IndexOfIs(s + more, '\n', i);
    assert (s + more)[..i] == s[..i] && (s + more)[i + 1..] == s[i + 1..] + more;
  }

  lemma {:induction false} HeadersLocal(s: string, more: string, h: map<string, string>)
    requires HeadersFrom(s, h).Some?
    ensures HeadersFrom(s + more, h) == Some((HeadersFrom(s, h).value.0, HeadersFrom(s, h).value.1 + more))
    decreases |s|
  {
    CutLineLocal(s, more);
    var (raw, rest) := CutLine(s).value;
    var line := TrimRight(raw, IsLineEnd);
    if line != "" {
      HeadersLocal(rest, more, AddHeader(h, line));
    }
  }

  // ---------- event blocks ----------

  predicate IsReturn(c: char) {
    c == '\r'
  }

  /** The lines of an event block, added to m, up to a blank line or the end. */
  function BlockFrom(s: string, m: map<string, string>): map<string, string>
    decreases |s|
  {
    var i := IndexOf(s, '\n');
    var line := TrimRight(s[..i], IsReturn);
    if line == "" then m
    else if i == |s| then AddDecoded(m, line)
    else BlockFrom(s[i + 1..], AddDecoded(m, line))
  }

  /** One line with its value percent-decoded when it decodes. */
  function AddDecoded(m: map<string, string>, line: string): map<string, string> {
    var i := IndexOf(line, ':');
    if 0 < i < |line| then
      m[TrimSpace(line[..i]) := Decoded(TrimSpace(line[i + 1..]))]
    else m
  }

  function Decoded(raw: string): string {
    match PathUnescape(raw) case Some(dec) => dec case None => raw
  }

  function ParseEventBlock(body: string): map<string, string> {
    BlockFrom(body, map[])
  }

  /** The fields of an event as the switch writes them, values percent-encoded. */
  function EncodeFields(fs: seq<Field>): seq<Field>
    requires forall f <- fs :: IsBytes(f.value)
  {
    seq(|fs|, i requires 0 <= i < |fs| => Field(fs[i].name, PercentEncode(fs[i].value)))
  }

  lemma EncodedIsGood(f: Field)
    requires GoodName(f.name) && IsBytes(f.value)
    ensures GoodField(Field(f.name, PercentEncode(f.value)))
  {
    var v := PercentEncode(f.value);
    assert forall i :: 0 <= i < |v| ==> !IsSpace(v[i]);
  }

  lemma DecodedLine(m: map<string, string>, f: Field)
    requires GoodName(f.name) && IsBytes(f.value)
    ensures var line := FieldLine(Field(f.name, PercentEncode(f.value)));
            && '\n' !in line
            && line != ""
            && TrimRight(line, IsReturn) == line
            && AddDecoded(m, line) == m[f.name := f.value]
  {
    hide TrimRight, TrimSpace, IndexOf, PathUnescape, PercentEncode;
    var e := Field(f.name, PercentEncode(f.value));
    EncodedIsGood(f);
    FieldLineOneLine(e);
    FieldLineEnd(e, IsReturn);
    FieldLineSplits(e);
    UnescapeEncode(f.value);
  }

  /** Round trip: a percent-encoded block parses back to the same map, whatever body follows its blank line. */
  lemma {:induction false} BlockOfFields(fs: seq<Field>, tail: string, m: map<string, string>)
    requires forall f <- fs :: GoodName(f.name) && IsBytes(f.value)
    requires tail != "" ==> tail[0] == '\n'
    ensures BlockFrom(FieldsText(EncodeFields(fs)) + tail, m) == PutAll(m, fs)
    decreases |fs|
  {
    hide PercentEncode, PathUnescape, TrimSpace, AddDecoded;
    var text := FieldsText(EncodeFields(fs)) + tail;
    if fs == [] {
      assert text == tail;
      if tail != "" {
        IndexOfIs(tail, '\n', 0);
      }
    } else {
      var e := Field(fs[0].name, PercentEncode(fs[0].value));
      var rest := FieldsText(EncodeFields(fs[1..])) + tail;
      assert EncodeFields(fs)[1..] == EncodeFields(fs[1..]);
      assert text == FieldLine(e) + "\n" + rest;
      DecodedLine(m, fs[0]);
      CutLineOf(FieldLine(e), rest);
      BlockOfFields(fs[1..], tail, m[fs[0].name := fs[0].value]);
    }
  }

  // ---------- lines of other shapes ----------

  /** A line that names nothing: its first colon, if any, comes first. */
  predicate Nameless(line: string) {
    line != "" && !IsLineEnd(line[|line| - 1]) && '\n' !in line && (line[0] == ':' || ':' !in line)
  }

  lemma NamelessIgnored(line: string, h: map<string, string>)
    requires Nameless(line)
    ensures AddHeader(h, line) == h && AddDecoded(h, line) == h
    ensures TrimRight(line, IsLineEnd) == line && TrimRight(line, IsReturn) == line
  {
    IndexOfIs(line, ':', if line[0] == ':' then 0 else |line|);
  }

  lemma ReturnCut(line: string, cut: char -> bool)
    requires cut('\r') && (line == "" || !cut(line[|line| - 1]))
    ensures TrimRight(line + "\r", cut) == line
  {
    assert (line + "\r")[..|line|] == line;
    assert TrimRight(line + "\r", cut) == TrimRight(line, cut);
  }

  /** Lines may end in "\r\n", an empty line too, and a line that names nothing is passed over. */
  lemma OddHeaders(f: Field, nameless: string, rest: string, h: map<string, string>)
    requires GoodField(f) && Nameless(nameless)
    ensures HeadersFrom((FieldLine(f) + "\r") + "\n" + rest, h) == HeadersFrom(rest, h[f.name := f.value])
    ensures HeadersFrom("\r" + "\n" + rest, h) == Some((h, rest))
    ensures HeadersFrom(nameless + "\n" + rest, h) == HeadersFrom(rest, h)
  {
    hide AddHeader, TrimRight, FieldLine;
    FieldLineOneLine(f);
    FieldLineParses(h, f);
    LineNotCut(f);
    ReturnCut(FieldLine(f), IsLineEnd);
    CutLineOf(FieldLine(f) + "\r", rest);
    ReturnCut("", IsLineEnd);
    assert "" + "\r" == "\r";
    CutLineOf("\r", rest);
    NamelessIgnored(nameless, h);
    CutLineOf(nameless, rest);
  }

  lemma LineNotCut(f: Field)
    requires GoodField(f)
    ensures FieldLine(f) != "" && !IsLineEnd(FieldLine(f)[|FieldLine(f)| - 1])
  {
    FieldLineEnd(f, IsLineEnd);
  }

  lemma BlockLine(line: string, rest: string, m: map<string, string>)
    requires '\n' !in line && TrimRight(line, IsReturn) != ""
    ensures BlockFrom(line + "\n" + rest, m) == BlockFrom(rest, AddDecoded(m, TrimRight(line, IsReturn)))
  {
    CutLineOf(line, rest);
    assert (line + "\n" + rest)[|line| + 1..] == rest;
  }

  /** The same in an event block, where a value that is not percent-encoded is taken as it stands. */
  lemma OddFields(f: Field, nameless: string, rest: string, m: map<string, string>)
    requires GoodField(f) && Nameless(nameless) && PathUnescape(f.value) == None
    ensures BlockFrom(FieldLine(f) + "\n" + rest, m) == BlockFrom(rest, m[f.name := f.value])
    ensures BlockFrom((FieldLine(f) + "\r") + "\n" + rest, m) == BlockFrom(rest, m[f.name := f.value])
    ensures BlockFrom(nameless + "\n" + rest, m) == BlockFrom(rest, m)
  {
    FieldLineSplits(f);
    FieldLineEnd(f, IsReturn);
    LineNotCut(f);
    FieldLineOneLine(f);
    hide BlockFrom, FieldLine, TrimRight, TrimSpace, IndexOf, PathUnescape;
    ReturnCut(FieldLine(f), IsReturn);
    BlockLine(FieldLine(f), rest, m);
    BlockLine(FieldLine(f) + "\r", rest, m);
    NamelessIgnored(nameless, m);
    BlockLine(nameless, rest, m);
  }

  /** The map holds the names of the fields, each with the value of its last field. */
  lemma {:induction false} PutAllIs(h: map<string, string>, fs: seq<Field>, i: nat)
    requires i < |fs| && forall j :: i < j < |fs| ==> fs[j].name != fs[i].name
    ensures Is(PutAll(h, fs), fs[i].name, fs[i].value)
    decreases |fs|
  {
    if i > 0 {
      PutAllIs(h[fs[0].name := fs[0].value], fs[1..], i - 1);
    } else {
      PutAllKeeps(h[fs[0].name := fs[0].value], fs[1..], fs[0].name);
    }
  }

  lemma {:induction false} PutAllKeeps(h: map<string, string>, fs: seq<Field>, name: string)
    requires forall j :: 0 <= j < |fs| ==> fs[j].name != name
    ensures name in PutAll(h, fs) <==> name in h
    ensures name in h ==> PutAll(h, fs)[name] == h[name]
    decreases |fs|
  {
    if fs != [] {
      PutAllKeeps(h[fs[0].name := fs[0].value], fs[1..], name);
    }
  }

  // ---------- normalization ----------

  /** splitAccount: user and domain around the first at sign. */
  function SplitAccount(acct: string): (string, string) {
    var i := IndexOf(acct, '@');
    if i < |acct| then (acct[..i], acct[i + 1..]) else (acct, "")
  }

  /** The new and saved counts of "new/saved (urgent)"; 0 and 0 for anything else. */
  function ParseVoiceMessage(s: string): (int, int) {
    var counts := TrimSpace(s[..IndexOf(s, '(')]);
    var i := IndexOf(counts, '/');
    if i < |counts| then (Atoi(TrimSpace(counts[..i])), Atoi(TrimSpace(counts[i + 1..]))) else (0, 0)
  }

  /** The entries whose value is not empty. */
  function Pick(kvs: seq<(string, string)>): (m: map<string, string>)
    ensures forall k :: k in m ==> m[k] != ""
  {
    if kvs == [] then map[] else
    var last := kvs[|kvs| - 1];
    var m := Pick(kvs[..|kvs| - 1]);
    if last.1 != "" then m[last.0 := last.1] else m
  }

  function MwiFields(m: map<string, string>): seq<(string, string)> {
    var acct := TrimPrefix(Get(m, "MWI-Message-Account"), "sip:");
    var counts := ParseVoiceMessage(Get(m, "MWI-Voice-Message"));
    [("account", acct), ("user", SplitAccount(acct).0), ("domain", SplitAccount(acct).1),
     ("waiting", Get(m, "MWI-Messages-Waiting")), ("new", Itoa(counts.0)), ("saved", Itoa(counts.1))]
  }

  function CallStarted(m: map<string, string>, uuid: string, caller: string, dest: string): (e: Event)
    ensures e.time == 0 && '\n' !in e.kind
  {
    Event("call.started", 0, Pick([("uuid", uuid), ("direction", Get(m, "Call-Direction")), ("caller", caller),
                                   ("destination", dest)]))
  }

  function CallAnswered(uuid: string, caller: string, dest: string): (e: Event)
    ensures e.time == 0 && '\n' !in e.kind
  {
    Event("call.answered", 0, Pick([("uuid", uuid), ("caller", caller), ("destination", dest)]))
  }

  function CallEnded(m: map<string, string>, uuid: string, caller: string, dest: string): (e: Event)
    ensures e.time == 0 && '\n' !in e.kind
  {
    Event("call.ended", 0, Pick([("uuid", uuid), ("cause", Get(m, "Hangup-Cause")), ("caller", caller),
                                 ("destination", dest),
                                 ("duration", Get(m, "variable_duration")), ("billsec", Get(m, "variable_billsec"))]))
  }

  /** The event for a raw header map; None for the ones nobody cares about. The time is set by the hub. */
  function Normalize(m: map<string, string>): (r: Option<Event>)
    ensures r.Some? ==> r.value.time == 0 && '\n' !in r.value.kind
  {
    var uuid := FirstNonEmpty(Get(m, "Unique-ID"), Get(m, "Channel-Call-UUID"));
    var caller, dest := Get(m, "Caller-Caller-ID-Number"), Get(m, "Caller-Destination-Number");
    match Get(m, "Event-Name")
    case "CHANNEL_CREATE" => Some(CallStarted(m, uuid, caller, dest))
    case "CHANNEL_ANSWER" => Some(CallAnswered(uuid, caller, dest))
    case "CHANNEL_HANGUP_COMPLETE" => Some(CallEnded(m, uuid, caller, dest))
    case "MESSAGE_WAITING" => Some(Event("voicemail.mwi", 0, Pick(MwiFields(m))))
    case "CUSTOM" => NormalizeCustom(m)
    case _ => None
  }

  function NormalizeCustom(m: map<string, string>): (r: Option<Event>)
    ensures r.Some? ==> r.value.time == 0 && '\n' !in r.value.kind
  {
    match Get(m, "Event-Subclass")
    case "callcenter::info" =>
      if Get(m, "CC-Action") == "agent-status-change" then
        Some(Event("agent.status", 0, Pick([("agent", Get(m, "CC-Agent")), ("status", Get(m, "CC-Agent-Status"))])))
      else
        Some(Event("queue.member", 0, Pick([("queue", Get(m, "CC-Queue")), ("action", Get(m, "CC-Action")),
                                            ("caller", Get(m, "CC-Caller-CID-Number")),
                                            ("agent", Get(m, "CC-Agent"))])))
    case "conference::maintenance" =>
      Some(Event("conference", 0, Pick([("name", Get(m, "Conference-Name")), ("action", Get(m, "Action")),
                                        ("member", Get(m, "Member-ID")),
                                        ("caller", Get(m, "Caller-Caller-ID-Number"))])))
    case _ => None
  }

  // ---------- what is published, header by header ----------

  /** The event has the value under the key; an empty value leaves the key out. */
  predicate Has(e: Event, key: string, value: string) {
    (key in e.data <==> value != "") && (key in e.data ==> e.data[key] == value)
  }

  /** The event has what the header says under the key; an empty or missing header leaves the key out. */
  predicate Copies(e: Event, key: string, m: map<string, string>, header: string) {
    (key in e.data <==> header in m && m[header] != "") && (key in e.data ==> e.data[key] == m[header])
  }

  /** The channel: its Unique-ID, or the Channel-Call-UUID when there is none. */
  predicate Channel(e: Event, m: map<string, string>) {
    if "Unique-ID" in m && m["Unique-ID"] != "" then Copies(e, "uuid", m, "Unique-ID")
    else Copies(e, "uuid", m, "Channel-Call-UUID")
  }

  predicate Parties(e: Event, m: map<string, string>) {
    Copies(e, "caller", m, "Caller-Caller-ID-Number") && Copies(e, "destination", m, "Caller-Destination-Number")
  }

  predicate Started(e: Event, m: map<string, string>) {
    && e.kind == "call.started" && e.data.Keys <= {"uuid", "direction", "caller", "destination"}
    && Channel(e, m) && Parties(e, m) && Copies(e, "direction", m, "Call-Direction")
  }

  predicate Answered(e: Event, m: map<string, string>) {
    && e.kind == "call.answered" && e.data.Keys <= {"uuid", "caller", "destination"}
    && Channel(e, m) && Parties(e, m)
  }

  predicate Ended(e: Event, m: map<string, string>) {
    && e.kind == "call.ended" && e.data.Keys <= {"uuid", "cause", "caller", "destination", "duration", "billsec"}
    && Channel(e, m) && Parties(e, m) && Copies(e, "cause", m, "Hangup-Cause")
    && Copies(e, "duration", m, "variable_duration") && Copies(e, "billsec", m, "variable_billsec")
  }

  /** An account with its parts. The counts are there even when they are 0. */
  predicate Voicemail(e: Event, m: map<string, string>) {
    && e.kind == "voicemail.mwi" && e.data.Keys <= {"account", "user", "domain", "waiting", "new", "saved"}
    && Copies(e, "waiting", m, "MWI-Messages-Waiting") && "new" in e.data && "saved" in e.data
    && ("MWI-Message-Account" in m ==>
          Has(e, "account", if "sip:" <= m["MWI-Message-Account"] then m["MWI-Message-Account"][4..]
                            else m["MWI-Message-Account"]))
    && (if '@' in Get(e.data, "account")
        then Get(e.data, "user") + "@" + Get(e.data, "domain") == Get(e.data, "account") && '@' !in Get(e.data, "user")
        else Get(e.data, "user") == Get(e.data, "account") && "domain" !in e.data)
  }

  predicate Status(e: Event, m: map<string, string>) {
    && e.kind == "agent.status" && e.data.Keys <= {"agent", "status"}
    && Copies(e, "agent", m, "CC-Agent") && Copies(e, "status", m, "CC-Agent-Status")
  }

  predicate Member(e: Event, m: map<string, string>) {
    && e.kind == "queue.member" && e.data.Keys <= {"queue", "action", "caller", "agent"}
    && Copies(e, "queue", m, "CC-Queue") && Copies(e, "action", m, "CC-Action")
    && Copies(e, "caller", m, "CC-Caller-CID-Number") && Copies(e, "agent", m, "CC-Agent")
  }

  predicate Conference(e: Event, m: map<string, string>) {
    && e.kind == "conference" && e.data.Keys <= {"name", "action", "member", "caller"}
    && Copies(e, "name", m, "Conference-Name") && Copies(e, "action", m, "Action")
    && Copies(e, "member", m, "Member-ID") && Copies(e, "caller", m, "Caller-Caller-ID-Number")
  }

  /** Exactly one event, without a time. */
  predicate Single(es: seq<Event>) {
    |es| == 1 && es[0].time == 0
  }

  /** What the headers m of an event are published as: one event for each of five event names, two of
      the subclasses of CUSTOM among them, and nothing for any other. */
  predicate Publishes(m: map<string, string>, es: seq<Event>) {
    if Is(m, "Event-Name", "CHANNEL_CREATE") then Single(es) && Started(es[0], m)
    else if Is(m, "Event-Name", "CHANNEL_ANSWER") then Single(es) && Answered(es[0], m)
    else if Is(m, "Event-Name", "CHANNEL_HANGUP_COMPLETE") then Single(es) && Ended(es[0], m)
    else if Is(m, "Event-Name", "MESSAGE_WAITING") then Single(es) && Voicemail(es[0], m)
    else if Is(m, "Event-Name", "CUSTOM") && Is(m, "Event-Subclass", "callcenter::info") then
      Single(es) && if Is(m, "CC-Action", "agent-status-change") then Status(es[0], m) else Member(es[0], m)
    else if Is(m, "Event-Name", "CUSTOM") && Is(m, "Event-Subclass", "conference::maintenance") then
      Single(es) && Conference(es[0], m)
    else es == []
  }

  function KeysOf(kvs: seq<(string, string)>): set<string> {
    set i | 0 <= i < |kvs| :: kvs[i].0
  }

  lemma {:induction false} PickKeys(kvs: seq<(string, string)>)
    ensures Pick(kvs).Keys <= KeysOf(kvs)
  {
    if kvs != [] {
      PickKeys(kvs[..|kvs| - 1]);
    }
  }

  ghost predicate DistinctKeys(kvs: seq<(string, string)>) {
    forall j, k :: 0 <= j < k < |kvs| ==> kvs[j].0 != kvs[k].0
  }

  lemma {:induction false} PickHas(kvs: seq<(string, string)>, i: nat)
    requires i < |kvs| && DistinctKeys(kvs)
    ensures kvs[i].0 in Pick(kvs) <==> kvs[i].1 != ""
    ensures kvs[i].0 in Pick(kvs) ==> Pick(kvs)[kvs[i].0] == kvs[i].1
  {
    var front := kvs[..|kvs| - 1];
    if i < |kvs| - 1 {
      PickHas(front, i);
    } else {
      PickMisses(front, kvs[i].0);
    }
  }

  lemma StartedIs(m: map<string, string>)
    requires Is(m, "Event-Name", "CHANNEL_CREATE")
    ensures Normalize(m).Some? && Started(Normalize(m).value, m)
  {
    var uuid := FirstNonEmpty(Get(m, "Unique-ID"), Get(m, "Channel-Call-UUID"));
    var kvs := [("uuid", uuid), ("direction", Get(m, "Call-Direction")), ("caller", Get(m, "Caller-Caller-ID-Number")),
                ("destination", Get(m, "Caller-Destination-Number"))];
    PickKeys(kvs);
    hide Pick;
    PickHas(kvs, 0);
    PickHas(kvs, 1);
    PickHas(kvs, 2);
    PickHas(kvs, 3);
  }

  lemma AnsweredIs(m: map<string, string>)
    requires Is(m, "Event-Name", "CHANNEL_ANSWER")
    ensures Normalize(m).Some? && Answered(Normalize(m).value, m)
  {
    var uuid := FirstNonEmpty(Get(m, "Unique-ID"), Get(m, "Channel-Call-UUID"));
    var kvs := [("uuid", uuid), ("caller", Get(m, "Caller-Caller-ID-Number")),
                ("destination", Get(m, "Caller-Destination-Number"))];
    PickKeys(kvs);
    hide Pick;
    PickHas(kvs, 0);
    PickHas(kvs, 1);
    PickHas(kvs, 2);
  }

  lemma EndedIs(m: map<string, string>)
    requires Is(m, "Event-Name", "CHANNEL_HANGUP_COMPLETE")
    ensures Normalize(m).Some? && Ended(Normalize(m).value, m)
  {
    var uuid := FirstNonEmpty(Get(m, "Unique-ID"), Get(m, "Channel-Call-UUID"));
    var kvs := [("uuid", uuid), ("cause", Get(m, "Hangup-Cause")), ("caller", Get(m, "Caller-Caller-ID-Number")),
                ("destination", Get(m, "Caller-Destination-Number")), ("duration", Get(m, "variable_duration")),
                ("billsec", Get(m, "variable_billsec"))];
    PickKeys(kvs);
    hide Pick;
    PickHas(kvs, 0);
    PickHas(kvs, 1);
    PickHas(kvs, 2);
    PickHas(kvs, 3);
    PickHas(kvs, 4);
    PickHas(kvs, 5);
  }

  lemma StatusIs(m: map<string, string>)
    requires Is(m, "Event-Name", "CUSTOM") && Is(m, "Event-Subclass", "callcenter::info")
    requires Is(m, "CC-Action", "agent-status-change")
    ensures Normalize(m).Some? && Status(Normalize(m).value, m)
  {
    var kvs := [("agent", Get(m, "CC-Agent")), ("status", Get(m, "CC-Agent-Status"))];
    PickKeys(kvs);
    hide Pick;
    PickHas(kvs, 0);
    PickHas(kvs, 1);
  }

  lemma MemberIs(m: map<string, string>)
    requires Is(m, "Event-Name", "CUSTOM") && Is(m, "Event-Subclass", "callcenter::info")
    requires !Is(m, "CC-Action", "agent-status-change")
    ensures Normalize(m).Some? && Member(Normalize(m).value, m)
  {
    var kvs := [("queue", Get(m, "CC-Queue")), ("action", Get(m, "CC-Action")),
                ("caller", Get(m, "CC-Caller-CID-Number")), ("agent", Get(m, "CC-Agent"))];
    PickKeys(kvs);
    hide Pick;
    PickHas(kvs, 0);
    PickHas(kvs, 1);
    PickHas(kvs, 2);
    PickHas(kvs, 3);
  }

  lemma ConferenceIs(m: map<string, string>)
    requires Is(m, "Event-Name", "CUSTOM") && Is(m, "Event-Subclass", "conference::maintenance")
    ensures Normalize(m).Some? && Conference(Normalize(m).value, m)
  {
    var kvs := [("name", Get(m, "Conference-Name")), ("action", Get(m, "Action")), ("member", Get(m, "Member-ID")),
                ("caller", Get(m, "Caller-Caller-ID-Number"))];
    PickKeys(kvs);
    hide Pick;
    PickHas(kvs, 0);
    PickHas(kvs, 1);
    PickHas(kvs, 2);
    PickHas(kvs, 3);
  }

  lemma SplitIs(acct: string)
    ensures var (user, domain) := SplitAccount(acct);
            if '@' in acct then user + "@" + domain == acct && '@' !in user else user == acct && domain == ""
  {
    var i := IndexOf(acct, '@');
    assert i == |acct| ==> '@' !in acct;
  }

  /** The six entries of a voicemail event. */
  lemma MwiHas(m: map<string, string>)
    requires Is(m, "Event-Name", "MESSAGE_WAITING")
    ensures Normalize(m).Some? && Normalize(m).value.kind == "voicemail.mwi"
    ensures var e := Normalize(m).value;
            var acct := TrimPrefix(Get(m, "MWI-Message-Account"), "sip:");
            var counts := ParseVoiceMessage(Get(m, "MWI-Voice-Message"));
            && e.data.Keys <= {"account", "user", "domain", "waiting", "new", "saved"}
            && Has(e, "account", acct) && Has(e, "user", SplitAccount(acct).0) && Has(e, "domain", SplitAccount(acct).1)
            && Has(e, "waiting", Get(m, "MWI-Messages-Waiting"))
            && Has(e, "new", Itoa(counts.0)) && Has(e, "saved", Itoa(counts.1))
  {
    var kvs := MwiFields(m);
    PickKeys(kvs);
    hide Pick, Itoa, ParseVoiceMessage, SplitAccount, TrimPrefix;
    PickHas(kvs, 0);
    PickHas(kvs, 1);
    PickHas(kvs, 2);
    PickHas(kvs, 3);
    PickHas(kvs, 4);
    PickHas(kvs, 5);
  }

  lemma VoicemailIs(m: map<string, string>)
    requires Is(m, "Event-Name", "MESSAGE_WAITING")
    ensures Normalize(m).Some? && Voicemail(Normalize(m).value, m)
  {
    hide Normalize, Pick, Itoa, ParseVoiceMessage;
    MwiHas(m);
    SplitIs(TrimPrefix(Get(m, "MWI-Message-Account"), "sip:"));
  }

  /** Every header map is published as the table says. */
  lemma NormalizeIs(m: map<string, string>)
    ensures Publishes(m, match Normalize(m) case None => [] case Some(e) => [e])
  {
    hide Started, Answered, Ended, Voicemail, Status, Member, Conference;
    if Is(m, "Event-Name", "CHANNEL_CREATE") {
      StartedIs(m);
    } else if Is(m, "Event-Name", "CHANNEL_ANSWER") {
      AnsweredIs(m);
    } else if Is(m, "Event-Name", "CHANNEL_HANGUP_COMPLETE") {
      EndedIs(m);
    } else if Is(m, "Event-Name", "MESSAGE_WAITING") {
      VoicemailIs(m);
    } else if Is(m, "Event-Name", "CUSTOM") {
      if Is(m, "Event-Subclass", "callcenter::info") {
        if Is(m, "CC-Action", "agent-status-change") {
          StatusIs(m);
        } else {
          MemberIs(m);
        }
      } else if Is(m, "Event-Subclass", "conference::maintenance") {
        ConferenceIs(m);
      }
    }
  }

  /** A number that stands in a message line: nothing to trim and nothing that separates. */
  predicate Plain(s: string) {
    s != "" && Tight(s) && '(' !in s && '/' !in s
  }

  lemma ItoaPlain(n: int)
    ensures Plain(Itoa(n))
  {
    ItoaTight(n);
    var t := Itoa(n);
    assert forall i :: 0 <= i < |t| ==> t[i] == '-' || IsDigit(t[i]);
  }

  lemma CountsOf(a: string, b: string, more: string)
    requires Plain(a) && Plain(b)
    ensures var counts := a + "/" + b;
            TrimSpace((counts + " (" + more)[..IndexOf(counts + " (" + more, '(')]) == counts
  {
    hide TrimSpace;
    var counts := a + "/" + b;
    var line := counts + " (" + more;
    assert line[|counts| + 1] == '(';
    forall j | 0 <= j <= |counts|
      ensures line[j] != '('
    {
      assert line[j] == if j < |a| then a[j] else if j == |a| then '/'
                        else if j < |counts| then b[j - |a| - 1] else ' ';
    }
    IndexOfIs(line, '(', |counts| + 1);
    assert line[..|counts| + 1] == counts + " ";
    TrimAfter(counts);
  }

  lemma CountsRead(a: string, b: string)
    requires Plain(a) && Plain(b)
    ensures var counts, i := a + "/" + b, |a|;
            IndexOf(counts, '/') == i && TrimSpace(counts[..i]) == a && TrimSpace(counts[i + 1..]) == b
  {
    var counts := a + "/" + b;
    IndexOfIs(counts, '/', |a|);
    assert counts[..|a|] == a && counts[|a| + 1..] == b;
    TrimTight(a);
    TrimTight(b);
  }

  /** The counts of a message line "n/s (...)" are n and s. */
  lemma VoiceCounts(n: int, s: int, more: string)
    requires MIN_INT <= n <= MAX_INT && MIN_INT <= s <= MAX_INT
    ensures ParseVoiceMessage(Itoa(n) + "/" + Itoa(s) + " (" + more) == (n, s)
  {
    hide Itoa, Atoi, TrimSpace, Plain;
    ItoaPlain(n);
    ItoaPlain(s);
    AtoiItoa(n);
    AtoiItoa(s);
    CountsOf(Itoa(n), Itoa(s), more);
    CountsRead(Itoa(n), Itoa(s));
  }

  lemma TrimAfter(s: string)
    requires Tight(s) && s != ""
    ensures TrimSpace(s + " ") == s
  {
    var t := s + " ";
    assert t[..|t| - 1] == s;
    assert TrimLeft(t) == t;
    assert TrimRight(t, IsSpace) == TrimRight(s, IsSpace);
  }

  lemma AccountTrims(sip: bool, acct: string)
    requires !sip ==> !("sip:" <= acct)
    ensures TrimPrefix((if sip then "sip:" else "") + acct, "sip:") == acct
  {
    var raw := (if sip then "sip:" else "") + acct;
    if sip {
      assert raw[..4] == "sip:" && raw[4..] == acct;
    } else {
      assert raw == acct;
    }
  }

  lemma AccountSplits(user: string, domain: string)
    requires '@' !in user
    ensures SplitAccount(user + "@" + domain) == (user, domain)
  {
    var acct := user + "@" + domain;
    IndexOfIs(acct, '@', |user|);
    assert acct[..|user|] == user && acct[|user| + 1..] == domain;
  }

  /** A voicemail event as it reaches the notifier: from an account "user@domain", with "sip:" in front
      or not, and a message line "n/s (...)", it holds the account, its two parts and the two counts. */
  lemma MwiCounts(m: map<string, string>, sip: bool, user: string, domain: string, n: int, s: int, more: string)
    requires Is(m, "Event-Name", "MESSAGE_WAITING") && '@' !in user
    requires Is(m, "MWI-Message-Account", (if sip then "sip:" else "") + (user + "@" + domain))
    requires !sip ==> !("sip:" <= user + "@" + domain)
    requires Is(m, "MWI-Voice-Message", Itoa(n) + "/" + Itoa(s) + " (" + more)
    requires MIN_INT <= n <= MAX_INT && MIN_INT <= s <= MAX_INT
    ensures Normalize(m).Some? && Normalize(m).value.kind == "voicemail.mwi"
    ensures var e := Normalize(m).value;
            && Has(e, "account", user + "@" + domain) && Has(e, "user", user) && Has(e, "domain", domain)
            && Has(e, "new", Itoa(n)) && Has(e, "saved", Itoa(s))
            && Atoi(Get(e.data, "new")) == n && Atoi(Get(e.data, "saved")) == s
  {
    hide Normalize, Itoa, Atoi, ParseVoiceMessage, SplitAccount, TrimPrefix;
    MwiHas(m);
    VoiceCounts(n, s, more);
    AtoiItoa(n);
    AtoiItoa(s);
    AccountTrims(sip, user + "@" + domain);
    AccountSplits(user, domain);
  }

  /** Without counts there are none: a message line that shows no slash before its parenthesis. */
  lemma NoCounts(line: string)
    requires '/' !in line[..IndexOf(line, '(')]
    ensures ParseVoiceMessage(line) == (0, 0)
  {
    var head := line[..IndexOf(line, '(')];
    TrimKeeps(head);
    assert '/' !in TrimSpace(head);
  }

  lemma {:induction false} TrimKeeps(s: string)
    ensures forall c :: c in TrimSpace(s) ==> c in s
  {
    LeftKeeps(s);
  }

  lemma {:induction false} LeftKeeps(s: string)
    ensures forall c :: c in TrimLeft(s) ==> c in s
  {
    if s != "" && IsSpace(s[0]) {
      LeftKeeps(s[1..]);
    }
  }

  lemma {:induction false} PickMisses(kvs: seq<(string, string)>, k: string)
    requires forall j :: 0 <= j < |kvs| ==> kvs[j].0 != k
    ensures k !in Pick(kvs)
  {
    if kvs != [] {
      PickMisses(kvs[..|kvs| - 1], k);
    }
  }

  // ---------- the read loop ----------

  /** What a body contributes. */
  function BodyEvents(h: map<string, string>, body: string): seq<Event> {
    if !HasPrefix(Get(h, "Content-Type"), "text/event-plain") then []
    else match Normalize(ParseEventBlock(body)) case None => [] case Some(e) => [e]
  }

  /** A percent-encoded event block is published as the table says of the fields it was written from. */
  lemma FieldsPublish(h: map<string, string>, fs: seq<Field>, tail: string)
    requires "Content-Type" in h && "text/event-plain" <= h["Content-Type"]
    requires (forall f <- fs :: GoodName(f.name) && IsBytes(f.value)) && (tail != "" ==> tail[0] == '\n')
    ensures Publishes(PutAll(map[], fs), BodyEvents(h, FieldsText(EncodeFields(fs)) + tail))
  {
    hide Publishes, Normalize, BlockFrom, PutAll, FieldsText, EncodeFields;
    BlockOfFields(fs, tail, map[]);
    NormalizeIs(PutAll(map[], fs));
  }

  /** What Go's make can allocate on a 64-bit machine; beyond it, and below 0, it panics. */
  const MAX_ALLOC: int := 0x1_0000_0000_0000

  /** The lengths for which the body cannot be allocated. */
  predicate Unallocatable(n: int) {
    n < 0 || n > MAX_ALLOC
  }

  /** The loop over a stream that ends: the events it publishes, and whether it stops because the
      allocation of a body panics. */
  datatype Loop = Loop(events: seq<Event>, panics: bool)

  function ReadLoop(s: string): (r: Loop)
    decreases |s|
  {
    match HeadersFrom(s, map[])
    case None => Loop([], false)
    case Some((h, rest)) =>
      var n := Atoi(Get(h, "Content-Length"));
      if n == 0 then ReadLoop(rest)
      else if Unallocatable(n) then Loop([], true)
      else if |rest| < n then Loop([], false)
      else
        var r := ReadLoop(rest[n..]);
        r.(events := BodyEvents(h, rest[..n]) + r.events)
  }

  /** One message on the event socket. */
  datatype Frame = Frame(fields: seq<Field>, body: string) {
    function Headers(): map<string, string> {
      PutAll(map[], fields)
    }

    predicate Good() {
      forall f <- fields :: GoodField(f)
    }

    function Length(): int {
      Atoi(Get(Headers(), "Content-Length"))
    }

    /** The announced length is that of the body, and the body fits. */
    predicate WellFormed() {
      Good() && Length() == |body| && !Unallocatable(Length())
    }

    /** The announced length cannot be allocated, whatever follows the header. */
    predicate Fatal() {
      Good() && Unallocatable(Length())
    }

    function Head(): string {
      FieldsText(fields) + "\n"
    }

    function Text(): string {
      Head() + body
    }

    function Events(): seq<Event> {
      if body == "" then [] else BodyEvents(Headers(), body)
    }
  }

  function StreamText(fs: seq<Frame>): string {
    if fs == [] then "" else fs[0].Text() + StreamText(fs[1..])
  }

  function StreamEvents(fs: seq<Frame>): seq<Event> {
    if fs == [] then [] else fs[0].Events() + StreamEvents(fs[1..])
  }

  /** How many frames are complete in the first k bytes, up to the first fatal one. */
  function Complete(fs: seq<Frame>, k: nat): (n: nat)
    ensures n <= |fs|
  {
    if fs == [] || fs[0].Fatal() || k < |fs[0].Text()| then 0 else 1 + Complete(fs[1..], k - |fs[0].Text()|)
  }

  /** The header of frame i is fatal and has arrived in the first k bytes. */
  predicate FatalAt(fs: seq<Frame>, k: nat, i: nat) {
    i < |fs| && fs[i].Fatal() && |StreamText(fs[..i])| + |fs[i].Head()| <= k
  }

  /** A fatal header has arrived. */
  ghost predicate Kills(fs: seq<Frame>, k: nat) {
    exists i: nat :: FatalAt(fs, k, i)
  }

  /** A whole frame in front is read exactly: its events first, then those of the rest. */
  lemma LoopOfFrame(f: Frame, rest: string)
    requires f.WellFormed()
    ensures ReadLoop(f.Text() + rest) == ReadLoop(rest).(events := f.Events() + ReadLoop(rest).events)
  {
    hide HeadersFrom, BodyEvents, FieldsText, PutAll, Atoi, Unallocatable;
    assert f.Text() + rest == FieldsText(f.fields) + "\n" + (f.body + rest);
    HeadersOfFields(f.fields, f.body + rest, map[]);
    assert (f.body + rest)[..|f.body|] == f.body && (f.body + rest)[|f.body|..] == rest;
    if f.body == "" {
      assert f.body + rest == rest;
      assert [] + ReadLoop(rest).events == ReadLoop(rest).events;
    }
  }

  /** A frame that is cut off publishes nothing. */
  lemma LoopOfCut(f: Frame, k: nat)
    requires f.WellFormed() && k < |f.Text()|
    ensures ReadLoop(f.Text()[..k]) == Loop([], false)
  {
    hide HeadersFrom, BodyEvents, FieldsText, PutAll, Atoi;
    var s := f.Text();
    HeadersOfFields(f.fields, f.body, map[]);
    if HeadersFrom(s[..k], map[]).Some? {
      HeadersLocal(s[..k], s[k..], map[]);
      assert s[..k] + s[k..] == s;
      var (h, rest) := HeadersFrom(s[..k], map[]).value;
      assert h == f.Headers() && rest + s[k..] == f.body;
    }
  }

  lemma LoopOfNothing()
    ensures ReadLoop("") == Loop([], false)
  {
  }

  /** A fatal header ends the process as soon as it is complete, and does nothing before. */
  lemma LoopOfFatal(f: Frame, rest: string, k: nat)
    requires f.Fatal() && k <= |f.Head() + rest|
    ensures ReadLoop((f.Head() + rest)[..k]) == Loop([], |f.Head()| <= k)
  {
    hide HeadersFrom, BodyEvents, FieldsText, PutAll, Atoi;
    var s := f.Head() + rest;
    HeadersOfFields(f.fields, "", map[]);
    var head := f.Head();
    assert head + "" == head && (k <= |head| ==> s[..k] == head[..k] && head[..k] + head[k..] == head);
    if |f.Head()| <= k {
      assert s[..k] == f.Head() + s[|f.Head()|..k];
      HeadersOfFields(f.fields, s[|f.Head()|..k], map[]);
    } else if HeadersFrom(s[..k], map[]).Some? {
      HeadersLocal(s[..k], head[k..], map[]);
    }
  }

  lemma FatalShift(fs: seq<Frame>, k: nat, i: nat)
    requires fs != [] && |fs[0].Text()| <= k
    ensures FatalAt(fs, k, i + 1) <==> FatalAt(fs[1..], k - |fs[0].Text()|, i)
  {
    hide Frame.Text, Frame.Fatal, Frame.Head;
    if i < |fs[1..]| {
      assert fs[..i + 1][0] == fs[0] && fs[..i + 1][1..] == fs[1..][..i];
      assert StreamText(fs[..i + 1]) == fs[0].Text() + StreamText(fs[1..][..i]);
    }
  }

  /** Nothing arrives of a frame behind an incomplete one. */
  lemma FatalNeedsFirst(fs: seq<Frame>, k: nat, i: nat)
    requires FatalAt(fs, k, i) && i > 0
    ensures |fs[0].Text()| <= k
  {
    hide Frame.Text, Frame.Fatal, Frame.Head;
    assert StreamText(fs[..i]) == fs[0].Text() + StreamText(fs[..i][1..]);
  }

  lemma FatalFirst(fs: seq<Frame>, k: nat)
    requires fs != [] && fs[0].Fatal() && k <= |StreamText(fs)|
    ensures ReadLoop(StreamText(fs)[..k]) == Loop([], Kills(fs, k))
  {
    hide Frame.Fatal, ReadLoop;
    var rest := fs[0].body + StreamText(fs[1..]);
    assert StreamText(fs) == fs[0].Head() + rest;
    LoopOfFatal(fs[0], rest, k);
    if |fs[0].Head()| <= k {
      assert FatalAt(fs, k, 0);
    } else if i: nat :| FatalAt(fs, k, i) {
      if i > 0 {
        FatalNeedsFirst(fs, k, i);
      }
    }
  }

  lemma CutFirst(fs: seq<Frame>, k: nat)
    requires fs != [] && fs[0].WellFormed() && k < |fs[0].Text()|
    ensures ReadLoop(StreamText(fs)[..k]) == Loop([], false)
    ensures !Kills(fs, k)
  {
    hide ReadLoop, Frame.Text;
    assert StreamText(fs)[..k] == fs[0].Text()[..k];
    LoopOfCut(fs[0], k);
    if i: nat :| FatalAt(fs, k, i) {
      if i > 0 {
        FatalNeedsFirst(fs, k, i);
      }
    }
  }

  lemma FatalLater(fs: seq<Frame>, k: nat)
    requires fs != [] && !fs[0].Fatal() && |fs[0].Text()| <= k
    ensures Kills(fs, k) <==> Kills(fs[1..], k - |fs[0].Text()|)
  {
    hide Frame.Text, Frame.Fatal;
    if i: nat :| FatalAt(fs, k, i) {
      assert i > 0;
      FatalShift(fs, k, i - 1);
    }
    var rest, left := fs[1..], k - |fs[0].Text()|;
    if i: nat :| FatalAt(rest, left, i) {
      FatalShift(fs, k, i);
    }
  }

  /** For every sequence of frames, each well formed or fatal, cut off at any byte: the loop publishes
      exactly the events of the frames that are complete before any fatal one, in order, whatever the
      bodies contain; and it panics if and only if a fatal header has arrived. */
  lemma {:induction false} LoopOfStream(fs: seq<Frame>, k: nat)
    requires (forall f <- fs :: f.WellFormed() || f.Fatal()) && k <= |StreamText(fs)|
    ensures ReadLoop(StreamText(fs)[..k]) ==
              Loop(StreamEvents(fs[..Complete(fs, k)]), Kills(fs, k))
    decreases |fs|
  {
    hide ReadLoop, Frame.Events, Frame.Text, Frame.WellFormed, Frame.Fatal, Frame.Head, FatalAt;
    if fs == [] {
      LoopOfNothing();
      NoneFatal(k);
    } else if fs[0].Fatal() {
      FatalFirst(fs, k);
    } else if k < |fs[0].Text()| {
      CutFirst(fs, k);
    } else {
      var first := fs[0].Text();
      var n := Complete(fs[1..], k - |first|);
      assert StreamText(fs)[..k] == first + StreamText(fs[1..])[..k - |first|];
      LoopOfFrame(fs[0], StreamText(fs[1..])[..k - |first|]);
      LoopOfStream(fs[1..], k - |first|);
      FatalLater(fs, k);
      assert fs[..n + 1][1..] == fs[1..][..n];
    }
  }

  lemma NoneFatal(k: nat)
    ensures !Kills([], k)
  {
  }

  lemma {:induction false} WholeStream(fs: seq<Frame>, i: nat)
    requires i < |fs|
    ensures |StreamText(fs[..i])| + |fs[i].Head()| <= |StreamText(fs)|
  {
    hide Frame.Text, Frame.Head;
    assert |fs[i].Head()| <= |fs[i].Text()| by { HeadInText(fs[i]); }
    if i > 0 {
      assert fs[..i][1..] == fs[1..][..i - 1];
      WholeStream(fs[1..], i - 1);
    }
  }

  lemma HeadInText(f: Frame)
    ensures |f.Head()| <= |f.Text()|
  {
  }

  /** A whole stream of such frames kills the process if and only if one of them announces a length below
      0 or above what can be allocated. */
  lemma TooLarge(n: int)
    ensures Unallocatable(n) <==> n < 0 || n > 0x1_0000_0000_0000
  {
  }

  lemma PanicsIff(fs: seq<Frame>)
    requires forall f <- fs :: f.WellFormed() || f.Fatal()
    ensures ReadLoop(StreamText(fs)).panics <==>
              exists i :: 0 <= i < |fs| && (fs[i].Length() < 0 || fs[i].Length() > 0x1_0000_0000_0000)
  {
    hide ReadLoop, StreamText, FatalAt, Frame.Fatal, Frame.WellFormed, Unallocatable, Frame.Length;
    var k := |StreamText(fs)|;
    assert StreamText(fs)[..k] == StreamText(fs);
    LoopOfStream(fs, k);
    if i: nat :| FatalAt(fs, k, i) {
      FatalFrame(fs, k, i);
      TooLarge(fs[i].Length());
    }
    if i :| 0 <= i < |fs| && (fs[i].Length() < 0 || fs[i].Length() > 0x1_0000_0000_0000) {
      TooLarge(fs[i].Length());
      assert fs[i] in fs;
      FatalInside(fs, i);
    }
  }

  lemma FatalFrame(fs: seq<Frame>, k: nat, i: nat)
    requires FatalAt(fs, k, i)
    ensures i < |fs| && Unallocatable(fs[i].Length())
  {
  }

  lemma FatalInside(fs: seq<Frame>, i: nat)
    requires i < |fs| && (fs[i].WellFormed() || fs[i].Fatal()) && Unallocatable(fs[i].Length())
    ensures FatalAt(fs, |StreamText(fs)|, i)
  {
    hide StreamText, Frame.Head, Unallocatable, Frame.Length;
    WholeStream(fs, i);
  }

  /** The input: one header with any such length, negative or too large. */
  lemma OneLineKills(n: int)
    requires MIN_INT <= n <= MAX_INT && (n < 0 || n > 0x1_0000_0000_0000)
    ensures ReadLoop("Content-Length: " + Itoa(n) + "\n\n") == Loop([], true)
  {
    hide ReadLoop, Atoi, Itoa;
    var f := Frame([Field("Content-Length", Itoa(n))], "");
    AtoiItoa(n);
    ItoaTight(n);
    LengthHead(Itoa(n));
    assert f.Fatal();
    LoopOfFatal(f, "", |f.Head()|);
    assert (f.Head() + "")[..|f.Head()|] == f.Head();
  }

  lemma LengthHead(value: string)
    ensures var f := Frame([Field("Content-Length", value)], "");
            f.Head() == "Content-Length: " + value + "\n\n" && Get(f.Headers(), "Content-Length") == value
    ensures GoodName("Content-Length")
  {
    var f := Field("Content-Length", value);
    assert FieldLine(f) == "Content-Length: " + value;
    assert [f][1..] == [];
    assert FieldsText([f]) == FieldLine(f) + "\n" + "";
    var h: map<string, string> := map[];
    assert PutAll(h, [f]) == h["Content-Length" := value];
  }

  lemma ItoaTight(n: int)
    ensures Tight(Itoa(n)) && '\n' !in Itoa(n)
  {
    var t := Itoa(n);
    assert forall i :: 0 <= i < |t| ==> t[i] == '-' || IsDigit(t[i]);
  }

  /** On any stream at all, cutting it can only take away events from the end. */
  lemma {:induction false} LoopOfPrefix(s: string, more: string)
    ensures ReadLoop(s).events <= ReadLoop(s + more).events
    decreases |s|
  {
    hide HeadersFrom, BodyEvents, Atoi;
    if HeadersFrom(s, map[]).Some? {
      HeadersLocal(s, more, map[]);
      var (h, rest) := HeadersFrom(s, map[]).value;
      var n := Atoi(Get(h, "Content-Length"));
      if n == 0 {
        LoopOfPrefix(rest, more);
      } else if 0 < n <= |rest| {
        assert (rest + more)[..n] == rest[..n] && (rest + more)[n..] == rest[n..] + more;
        LoopOfPrefix(rest[n..], more);
      }
    }
  }

  // ---------- the session ----------

  /** A buffered reader over the connection: the bytes it will still deliver. */
  class Reader {
    var data: string

    constructor (data: string)
      ensures this.data == data
    {
      this.data := data;
    }

    /** The line up to the next line end; not ok, with the data used up, when there is none. */
    method ReadString() returns (line: string, ok: bool)
      modifies this
      ensures ok <==> CutLine(old(data)).Some?
      ensures ok ==> CutLine(old(data)) == Some((line, data))
    {
      var i := IndexOf(data, '\n');
      if i == |data| {
        line, data := "", "";
        return line, false;
      }
      line := data[..i];
      data := data[i + 1..];
      ok := true;
    }

    method ReadFull(n: nat) returns (body: string, ok: bool)
      modifies this
      ensures ok <==> n <= |old(data)|
      ensures ok ==> body == old(data)[..n] && data == old(data)[n..]
    {
      if |data| < n {
        data := "";
        return "", false;
      }
      body := data[..n];
      data := data[n..];
      ok := true;
    }

    method ReadHeaders() returns (h: map<string, string>, ok: bool)
      modifies this
      ensures ok <==> HeadersFrom(old(data), map[]).Some?
      ensures ok ==> HeadersFrom(old(data), map[]) == Some((h, data))
    {
      h := map[];
      while true
        invariant HeadersFrom(data, h) == HeadersFrom(old(data), map[])
        decreases |data|
      {
        var line;
        line, ok := ReadString();
        if !ok {
          return;
        }
        line := TrimRight(line, IsLineEnd);
        if line == "" {
          return;
        }
        h := AddHeader(h, line);
      }
    }
  }

  /** parseEventBlock, line by line. */
  method ParseBlock(body: string) returns (m: map<string, string>)
    ensures m == ParseEventBlock(body)
  {
    m := map[];
    var rest, more := body, true;
    while more
      invariant more ==> BlockFrom(rest, m) == ParseEventBlock(body)
      invariant !more ==> m == ParseEventBlock(body)
      decreases |rest| + (if more then 1 else 0)
    {
      var i := IndexOf(rest, '\n');
      var line := TrimRight(rest[..i], IsReturn);
      if line == "" {
        break;
      }
      m := AddDecoded(m, line);
      more := i < |rest|;
      rest := if more then rest[i + 1..] else "";
    }
  }

  /** Why a session ended; every one of these is an error, and a panic ends the process with it. */
  datatype SessionEnd = NoConnection | AuthRequest | AuthReply | AuthRefused | SubscribeReply | StreamEnd | Panic

  predicate Contains(s: string, t: string) {
    exists i :: 0 <= i <= |s| && HasPrefix(s[i..], t)
  }

  lemma ContainsIff(s: string, t: string)
    ensures Contains(s, t) <==> exists a, b :: s == a + t + b
  {
    if i :| 0 <= i <= |s| && HasPrefix(s[i..], t) {
      assert s == s[..i] + t + s[i..][|t|..];
    }
    if a, b :| s == a + t + b {
      assert s[|a|..] == t + b;
    }
  }

  /** What a whole session reads from the connection: three header blocks, then the loop. */
  function SessionEvents(s: string): (seq<Event>, SessionEnd) {
    match HeadersFrom(s, map[])
    case None => ([], AuthRequest)
    case Some((_, s1)) =>
      match HeadersFrom(s1, map[])
      case None => ([], AuthReply)
      case Some((reply, s2)) =>
        if !Contains(Get(reply, "Reply-Text"), "+OK") then ([], AuthRefused) else
        match HeadersFrom(s2, map[])
        case None => ([], SubscribeReply)
        case Some((_, s3)) => (ReadLoop(s3).events, if ReadLoop(s3).panics then Panic else StreamEnd)
  }

  /** A session from its first byte: after a reply whose text holds "+OK" everything behind the third
      header block is read; after any other reply nothing is. */
  lemma SessionOf(greeting: seq<Field>, reply: seq<Field>, subscribed: seq<Field>, rest: string)
    requires forall f <- greeting + reply + subscribed :: GoodField(f)
    ensures var text := Head(greeting) + (Head(reply) + (Head(subscribed) + rest));
            var answer := Get(PutAll(map[], reply), "Reply-Text");
            SessionEvents(text) == if exists a, b :: answer == a + "+OK" + b
                                   then (ReadLoop(rest).events, if ReadLoop(rest).panics then Panic else StreamEnd)
                                   else ([], AuthRefused)
  {
    hide HeadersFrom, ReadLoop, PutAll, GoodField, Contains, FieldsText;
    HeadOfFields(greeting, Head(reply) + (Head(subscribed) + rest));
    HeadOfFields(reply, Head(subscribed) + rest);
    HeadOfFields(subscribed, rest);
    ContainsIff(Get(PutAll(map[], reply), "Reply-Text"), "+OK");
  }

  function Head(fs: seq<Field>): string {
    FieldsText(fs) + "\n"
  }

  lemma HeadOfFields(fs: seq<Field>, rest: string)
    requires forall f <- fs :: GoodField(f)
    ensures HeadersFrom(Head(fs) + rest, map[]) == Some((PutAll(map[], fs), rest))
  {
    HeadersOfFields(fs, rest, map[]);
  }

  /** One connection. `published` is what was handed to the hub, in order. */
  method Session(r: Reader) returns (published: seq<Event>, end: SessionEnd)
    modifies r
    ensures (published, end) == SessionEvents(old(r.data))
  {
    published := [];
    var h, ok := r.ReadHeaders();
    if !ok {
      return published, AuthRequest;
    }
    h, ok := r.ReadHeaders();
    if !ok {
      return published, AuthReply;
    }
    if !Contains(Get(h, "Reply-Text"), "+OK") {
      return published, AuthRefused;
    }
    h, ok := r.ReadHeaders();
    if !ok {
      return published, SubscribeReply;
    }
    var panics;
    published, panics := ReadEvents(r);
    end := if panics then Panic else StreamEnd;
  }

  /** The loop of a session, after the subscription. */
  method ReadEvents(r: Reader) returns (published: seq<Event>, panics: bool)
    modifies r
    ensures Loop(published, panics) == ReadLoop(old(r.data))
  {
    hide HeadersFrom, BodyEvents, Atoi;
    published := [];
    ghost var all := ReadLoop(r.data);
    while true
      invariant all.panics == ReadLoop(r.data).panics
      invariant all.events == published + ReadLoop(r.data).events
      decreases |r.data|
    {
      ghost var rest := ReadLoop(r.data).events;
      assert published + [] == published;
      var h, ok := r.ReadHeaders();
      if !ok {
        return published, false;
      }
      var n := Atoi(Get(h, "Content-Length"));
      if n == 0 {
        continue;
      }
      if Unallocatable(n) {
        return published, true;
      }
      var body;
      body, ok := r.ReadFull(n);
      if !ok {
        return published, false;
      }
      assert rest == BodyEvents(h, body) + ReadLoop(r.data).events;
      assert published + rest == (published + BodyEvents(h, body)) + ReadLoop(r.data).events;
      var es := HandleBody(h, body);
      published := published + es;
    }
  }

  /** Log, disconnect and command bodies are ignored, and so are events nobody cares about. */
  method HandleBody(h: map<string, string>, body: string) returns (es: seq<Event>)
    ensures es == BodyEvents(h, body)
    ensures if "Content-Type" in h && "text/event-plain" <= h["Content-Type"] then Publishes(ParseEventBlock(body), es)
            else es == []
  {
    hide Publishes, Normalize;
    if !HasPrefix(Get(h, "Content-Type"), "text/event-plain") {
      return [];
    }
    var m := ParseBlock(body);
    NormalizeIs(m);
    var e := Normalize(m);
    es := if e.Some? then [e.value] else [];
  }

  // ---------- reconnecting ----------

  /** What the network does with one attempt: no connection, or the bytes that it delivers before it ends. */
  datatype Attempt = Unreachable | Delivers(data: string)

  function Outcome(a: Attempt): (seq<Event>, SessionEnd) {
    match a
    case Unreachable => ([], NoConnection)
    case Delivers(data) => SessionEvents(data)
  }

  /** session, with the connection it makes. */
  method Connect(a: Attempt) returns (published: seq<Event>, err: Option<SessionEnd>)
    ensures (published, err) == (Outcome(a).0, Some(Outcome(a).1))
  {
    if a.Unreachable? {
      return [], Some(NoConnection);
    }
    var r := new Reader(a.data);
    var end;
    published, end := Session(r);
    err := Some(end);
  }

  /** Seconds before attempt k + 1: 1, 2, 4, 8, 16, then always 32. */
  function Delay(k: nat): int {
    if k == 0 then 1 else if k == 1 then 2 else if k == 2 then 4 else if k == 3 then 8 else if k == 4 then 16 else 32
  }

  predicate Crashes(a: Attempt) {
    Outcome(a).1 == Panic
  }

  /** How many sessions end before one panics. */
  function Survived(attempts: seq<Attempt>): nat {
    if attempts == [] || Crashes(attempts[0]) then 0 else 1 + Survived(attempts[1..])
  }

  lemma {:induction false} SurvivedIs(attempts: seq<Attempt>)
    ensures Survived(attempts) <= |attempts|
    ensures forall i :: 0 <= i < Survived(attempts) ==> !Crashes(attempts[i])
    ensures Survived(attempts) < |attempts| ==> Crashes(attempts[Survived(attempts)])
  {
    hide Crashes;
    if attempts != [] {
      SurvivedIs(attempts[1..]);
    }
  }

  function Published(attempts: seq<Attempt>): seq<Event> {
    if attempts == [] then [] else Published(attempts[..|attempts| - 1]) + Outcome(attempts[|attempts| - 1]).0
  }

  /** Run, until it is cancelled or a session panics. No session ends without an error, so the wait never
      starts over: wait number i of the whole life of the process is Delay(i), however long the sessions
      in between have lasted. */
  method Run(attempts: seq<Attempt>) returns (published: seq<Event>, waits: seq<int>, crashed: bool)
    ensures |waits| == Survived(attempts) <= |attempts| && (crashed <==> |waits| < |attempts|)
    ensures forall i :: 0 <= i < |waits| ==> waits[i] == Delay(i)
    ensures published == Published(attempts[..if crashed then |waits| + 1 else |waits|])
  {
    hide Outcome, Survived;
    SurvivedIs(attempts);
    published, waits, crashed := [], [], false;
    var backoff := 1;
    for i := 0 to |attempts|
      invariant |waits| == i && backoff == Delay(i) && i <= Survived(attempts)
      invariant forall k :: 0 <= k < i ==> waits[k] == Delay(k)
      invariant published == Published(attempts[..i])
    {
      var events, err := Connect(attempts[i]);
      assert attempts[..i + 1][..i] == attempts[..i];
      published := published + events;
      if err == Some(Panic) {
        crashed := true;
        return;
      }
      if err != None {
        waits := waits + [backoff];
        if backoff < 30 {
          backoff := backoff * 2;
        }
        continue;
      }
      backoff := 1;
    }
  }
}
