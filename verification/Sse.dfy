/** Server-sent events as the control plane writes them. The JSON encoder is a parameter: all that
    is used of it is that it can be undone, has no line end and no space at either end. */
module Sse {
  import opened Text
  import opened Hub
  import opened Wrappers

  datatype Codec = Codec(enc: Event -> string, dec: string -> Option<Event>)

  ghost predicate Faithful(c: Codec, e: Event) {
    '\n' !in c.enc(e) && Tight(c.enc(e)) && c.dec(c.enc(e)) == Some(e)
  }

  /** What wakes the handler up: the ticker, an event from the hub, or the end of the request or channel. */
  datatype Signal = Beat | Deliver(e: Event) | Stop

  const HELLO := ": connected\n\n"
  const PING := ": ping\n\n"

  function FrameText(c: Codec, e: Event): string {
    "event: " + e.kind + "\ndata: " + c.enc(e) + "\n\n"
  }

  function Output(c: Codec, signals: seq<Signal>): string {
    if signals == [] || signals[0].Stop? then ""
    else (if signals[0].Beat? then PING else FrameText(c, signals[0].e)) + Output(c, signals[1..])
  }

  /** The events among the signals, up to the end. */
  function Sent(signals: seq<Signal>): seq<Event> {
    if signals == [] || signals[0].Stop? then []
    else (if signals[0].Beat? then [] else [signals[0].e]) + Sent(signals[1..])
  }

  method HandleEvents(c: Codec, signals: seq<Signal>) returns (out: string)
    ensures out == HELLO + Output(c, signals)
  {
    hide FrameText;
    out := ": connected\n\n";
    var i := 0;
    while i < |signals|
      invariant 0 <= i <= |signals|
      invariant out + Output(c, signals[i..]) == HELLO + Output(c, signals)
    {
      if signals[i].Stop? {
        assert out + "" == out;
        return;
      }
      ghost var before, piece := out, if signals[i].Beat? then PING else FrameText(c, signals[i].e);
      match signals[i] {
        case Beat =>
          out := out + ": ping\n\n";
        case Deliver(e) =>
          out := WriteFrame(out, c, e);
      }
      assert signals[i..][1..] == signals[i + 1..];
      assert before + (piece + Output(c, signals[i + 1..])) == out + Output(c, signals[i + 1..]);
      i := i + 1;
    }
    assert out + "" == out;
  }

  /** The three writes of one event. */
  method WriteFrame(sofar: string, c: Codec, e: Event) returns (out: string)
    ensures out == sofar + FrameText(c, e)
  {
    out := sofar + ("event: " + e.kind + "\ndata: ");
    out := out + c.enc(e);
    out := out + "\n\n";
  }

  // ---------- blocks ----------

  predicate Blank(s: string, j: nat) {
    j + 1 < |s| && s[j] == '\n' && s[j + 1] == '\n'
  }

  /** `indexOf("\n\n")`, with the length when there is none. */
  function BlankAt(s: string): (i: nat)
    ensures i <= |s|
    ensures forall j: nat :: j < i ==> !Blank(s, j)
    ensures i < |s| ==> Blank(s, i)
  {
    if |s| < 2 then |s|
    else if s[0] == '\n' && s[1] == '\n' then 0
    else
      var k := BlankAt(s[1..]);
      assert forall j: nat :: 0 < j ==> (Blank(s, j) <==> Blank(s[1..], j - 1));
      1 + k
  }

  lemma BlankAtIs(s: string, i: nat)
    requires Blank(s, i) && forall j: nat :: j < i ==> !Blank(s, j)
    ensures BlankAt(s) == i
  {
  }

  /** The blocks that are complete, and the text after the last of them. */
  function SplitBlocks(s: string): (r: (seq<string>, string))
    decreases |s|
  {
    var i := BlankAt(s);
    if i == |s| then ([], s) else
    var (bs, rest) := SplitBlocks(s[i + 2..]);
    ([s[..i]] + bs, rest)
  }

  /** Splitting in two steps: what was left over is split together with what comes next. */
  lemma {:induction false} SplitMore(s: string, more: string)
    ensures var (bs, rest) := SplitBlocks(s);
            var (cs, end) := SplitBlocks(rest + more);
            SplitBlocks(s + more) == (bs + cs, end)
    decreases |s|
  {
    hide BlankAt;
    var i := BlankAt(s);
    if i == |s| {
      assert [] + SplitBlocks(s + more).0 == SplitBlocks(s + more).0;
    } else {
      assert forall j: nat :: j <= i ==> (Blank(s + more, j) <==> Blank(s, j));
      BlankAtIs(s + more, i);
      assert (s + more)[..i] == s[..i] && (s + more)[i + 2..] == s[i + 2..] + more;
      SplitMore(s[i + 2..], more);
      var (bs, rest) := SplitBlocks(s[i + 2..]);
      var cs := SplitBlocks(rest + more).0;
      assert [s[..i]] + (bs + cs) == [s[..i]] + bs + cs;
    }
  }

  // ---------- reading a block ----------

  /** The first line that starts with "data:". */
  function DataLine(block: string): (r: Option<string>)
    ensures r.Some? ==> HasPrefix(r.value, "data:")
    decreases |block|
  {
    var i := IndexOf(block, '\n');
    if HasPrefix(block[..i], "data:") then Some(block[..i])
    else if i == |block| then None
    else DataLine(block[i + 1..])
  }

  /** The first line that starts with "data:" is taken, whatever the others hold. */
  lemma DataLineIs(line: string, rest: string)
    requires '\n' !in line
    ensures DataLine(line) == if "data:" <= line then Some(line) else None
    ensures DataLine(line + "\n" + rest) == if "data:" <= line then Some(line) else DataLine(rest)
  {
    IndexOfIs(line, '\n', |line|);
    assert line[..|line|] == line;
    var block := line + "\n" + rest;
    IndexOfIs(block, '\n', |line|);
    assert block[..|line|] == line && block[|line| + 1..] == rest;
  }

  /** The event of a block; none without a data line or when the JSON does not parse. */
  function BlockEvents(c: Codec, block: string): seq<Event> {
    match DataLine(block)
    case None => []
    case Some(line) => match c.dec(TrimSpace(line[5..])) case None => [] case Some(e) => [e]
  }

  function AllEvents(c: Codec, blocks: seq<string>): seq<Event> {
    if blocks == [] then [] else BlockEvents(c, blocks[0]) + AllEvents(c, blocks[1..])
  }

  lemma {:induction false} AllEventsAppend(c: Codec, bs: seq<string>, cs: seq<string>)
    ensures AllEvents(c, bs + cs) == AllEvents(c, bs) + AllEvents(c, cs)
  {
    if bs == [] {
      assert bs + cs == cs;
    } else {
      assert (bs + cs)[1..] == bs[1..] + cs;
      AllEventsAppend(c, bs[1..], cs);
    }
  }

  /** Everything a text delivers once it has arrived. */
  function Delivered(c: Codec, text: string): seq<Event> {
    AllEvents(c, SplitBlocks(text).0)
  }

  // ---------- reading undoes writing ----------

  lemma SplitFirst(block: string, rest: string)
    requires forall j: nat :: !Blank(block, j)
    requires block != "" && block[|block| - 1] != '\n'
    ensures SplitBlocks(block + "\n\n" + rest) == ([block] + SplitBlocks(rest).0, SplitBlocks(rest).1)
  {
    var s := block + "\n\n" + rest;
    assert forall j: nat :: j < |block| ==> (Blank(s, j) <==> Blank(block, j));
    BlankAtIs(s, |block|);
    assert s[..|block|] == block && s[|block| + 2..] == rest;
  }

  lemma CommentBlock(c: Codec, block: string, rest: string)
    requires block == ": connected" || block == ": ping"
    ensures Delivered(c, block + "\n\n" + rest) == Delivered(c, rest)
  {
    SplitFirst(block, rest);
    IndexOfIs(block, '\n', |block|);
    assert block[..|block|] == block;
    assert [block][1..] == [] && ([block] + SplitBlocks(rest).0)[1..] == SplitBlocks(rest).0;
    assert BlockEvents(c, block) == [];
  }

  lemma DataLineOfFrame(c: Codec, e: Event)
    requires '\n' !in e.kind && '\n' !in c.enc(e)
    ensures DataLine("event: " + e.kind + "\ndata: " + c.enc(e)) == Some("data: " + c.enc(e))
  {
    var head, data := "event: " + e.kind, "data: " + c.enc(e);
    var block := "event: " + e.kind + "\ndata: " + c.enc(e);
    assert block == head + "\n" + data;
    IndexOfIs(block, '\n', |head|);
    assert block[..|head|] == head && block[|head| + 1..] == data;
    assert head[0] == 'e';
    IndexOfIs(data, '\n', |data|);
    assert data[..|data|] == data;
    assert data[..5] == "data:";
  }

  lemma EventBlock(c: Codec, e: Event, rest: string)
    requires '\n' !in e.kind && Faithful(c, e)
    ensures Delivered(c, FrameText(c, e) + rest) == [e] + Delivered(c, rest)
  {
    var block := "event: " + e.kind + "\ndata: " + c.enc(e);
    assert FrameText(c, e) + rest == block + "\n\n" + rest;
    forall j | 0 <= j < |block|
      ensures block[j] == '\n' ==> j == |e.kind| + 7
    {
      assert block[j] == if j < 7 then "event: "[j] else if j < 7 + |e.kind| then e.kind[j - 7]
                         else if j < 14 + |e.kind| then "\ndata: "[j - 7 - |e.kind|] else c.enc(e)[j - 14 - |e.kind|];
    }
    SplitFirst(block, rest);
    DataLineOfFrame(c, e);
    assert ("data: " + c.enc(e))[5..] == " " + c.enc(e);
    TrimTight(c.enc(e));
    assert ([block] + SplitBlocks(rest).0)[1..] == SplitBlocks(rest).0;
  }

  ghost predicate Writable(c: Codec, es: seq<Event>) {
    forall i :: 0 <= i < |es| ==> '\n' !in es[i].kind && Faithful(c, es[i])
  }

  lemma DeliveredNothing(c: Codec)
    ensures Delivered(c, "") == []
  {
  }

  lemma {:induction false} DeliveredOutput(c: Codec, signals: seq<Signal>)
    requires Writable(c, Sent(signals))
    ensures Delivered(c, Output(c, signals)) == Sent(signals)
  {
    hide FrameText, Delivered, Faithful;
    if signals == [] || signals[0].Stop? {
      DeliveredNothing(c);
    } else {
      var rest := signals[1..];
      match signals[0]
      case Beat =>
        assert Sent(signals) == Sent(rest);
        assert PING == ": ping" + "\n\n";
        DeliveredOutput(c, rest);
        CommentBlock(c, ": ping", Output(c, rest));
      case Deliver(e) =>
        assert Sent(signals)[0] == e && Sent(signals)[1..] == Sent(rest);
        DeliveredOutput(c, rest);
        EventBlock(c, e, Output(c, rest));
    }
  }

  /** The page gets exactly the written events, in order, heartbeats or not. */
  lemma {:induction false} ReadUndoesWrite(c: Codec, signals: seq<Signal>)
    requires Writable(c, Sent(signals))
    ensures Delivered(c, HELLO + Output(c, signals)) == Sent(signals)
  {
    DeliveredOutput(c, signals);
    CommentBlock(c, ": connected", Output(c, signals));
    assert HELLO == ": connected" + "\n\n";
  }

  /** A connection that breaks at any byte delivers a prefix. */
  lemma BrokenConnection(c: Codec, signals: seq<Signal>, k: nat)
    requires Writable(c, Sent(signals)) && k <= |HELLO + Output(c, signals)|
    ensures Delivered(c, (HELLO + Output(c, signals))[..k]) <= Sent(signals)
  {
    hide SplitBlocks, AllEvents, Output, Sent, Writable;
    var text := HELLO + Output(c, signals);
    ReadUndoesWrite(c, signals);
    assert text[..k] + text[k..] == text;
    SplitMore(text[..k], text[k..]);
    var (bs, rest) := SplitBlocks(text[..k]);
    AllEventsAppend(c, bs, SplitBlocks(rest + text[k..]).0);
  }
}
