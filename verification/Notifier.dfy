/** The voicemail notifier: one notification per sink each time an account's new count goes up. */
module Notifier {
  import opened Text
  import opened Hub
  import opened Subseq

  datatype Sink = Webhook | Telegram | Push

  datatype Config = Config(webhookURL: string, telegramToken: string, telegramChat: string, push: bool) {
    /** The sinks that are set up, in the order in which they are used. */
    function Sinks(): seq<Sink> {
      (if webhookURL != "" then [Webhook] else [])
      + (if telegramToken != "" && telegramChat != "" then [Telegram] else [])
      + (if push then [Push] else [])
    }
  }

  datatype Notice = Notice(sink: Sink, account: string, count: int)

  function Count(e: Event): int {
    Atoi(Get(e.data, "new"))
  }

  // ---------- what is promised ----------

  /** The counts are the decimal numbers under "new" of the account's voicemail events. */
  lemma {:induction false} CountsAre(es: seq<Event>, acct: string, ns: seq<int>)
    requires |es| == |ns|
    requires forall i :: 0 <= i < |es| ==>
               && es[i].kind == "voicemail.mwi" && MIN_INT <= ns[i] <= MAX_INT
               && "account" in es[i].data && es[i].data["account"] == acct
               && "new" in es[i].data && es[i].data["new"] == Itoa(ns[i])
    ensures Counts(es, acct) == ns
  {
    hide Atoi, Itoa;
    if es != [] {
      AtoiItoa(ns[0]);
      CountsAre(es[1..], acct, ns[1..]);
    }
  }

  /** The counts that account acct shows in a stream of hub events. */
  function Counts(es: seq<Event>, acct: string): seq<int> {
    if es == [] then [] else
    (if es[0].kind == "voicemail.mwi" && Get(es[0].data, "account") == acct then [Count(es[0])] else [])
    + Counts(es[1..], acct)
  }

  /** The counts that are higher than the one before, the first one being compared with prev. */
  function Rises(prev: int, counts: seq<int>): (r: seq<int>)
    decreases |counts|
  {
    if counts == [] then [] else
    (if counts[0] > prev then [counts[0]] else []) + Rises(counts[0], counts[1..])
  }

  function NoticesTo(sent: seq<Notice>, sink: Sink, acct: string): seq<int> {
    if sent == [] then [] else
    NoticesTo(sent[..|sent| - 1], sink, acct)
    + (var last := sent[|sent| - 1]; if last.sink == sink && last.account == acct then [last.count] else [])
  }

  // ---------- the notifier ----------

  function Last(lastNew: map<string, int>, acct: string): int {
    if acct in lastNew then lastNew[acct] else 0
  }

  class Notifier {
    const cfg: Config
    var lastNew: map<string, int>
    var sent: seq<Notice>

    constructor (cfg: Config)
      ensures this.cfg == cfg && lastNew == map[] && sent == []
    {
      this.cfg, lastNew, sent := cfg, map[], [];
    }

    method Handle(e: Event)
      modifies this
      ensures lastNew == NextLast(old(lastNew), e)
      ensures sent == old(sent) + NewNotices(old(lastNew), cfg.Sinks(), e)
      ensures Told(cfg, old(lastNew), lastNew, e, sent[|old(sent)|..])
    {
      hide Told;
      ToldIs(cfg, lastNew, e);
      var acct := Get(e.data, "account");
      if acct == "" {
        return;
      }
      var newC := Atoi(Get(e.data, "new"));
      var prev := Last(lastNew, acct);
      lastNew := lastNew[acct := newC];
      if newC <= prev {
        return;
      }
      if cfg.webhookURL != "" {
        sent := sent + [Notice(Webhook, acct, newC)];
      }
      if cfg.telegramToken != "" && cfg.telegramChat != "" {
        sent := sent + [Notice(Telegram, acct, newC)];
      }
      if cfg.push {
        sent := sent + [Notice(Push, acct, newC)];
      }
    }

    /** The events received before the context ends or the channel is closed. Every account gets, on
        every sink that is set up, exactly the strict rises of its own counts, and nothing else is sent. */
    method Run(received: seq<Event>)
      requires lastNew == map[] && sent == []
      modifies this
      ensures forall sink, acct :: Notified(received, sent, cfg.Sinks(), sink, acct)
    {
      if cfg.Sinks() == [] {
        return;
      }
      var i := 0;
      while i < |received|
        invariant 0 <= i <= |received|
        invariant Tracks(received[..i], lastNew, sent, cfg.Sinks())
      {
        var e := received[i];
        assert received[..i + 1] == received[..i] + [e];
        TracksNext(received[..i], lastNew, sent, cfg.Sinks(), e);
        if e.kind == "voicemail.mwi" {
          Handle(e);
        }
        i := i + 1;
      }
      assert received[..i] == received;
    }
  }

  /** What one event does: the account's count becomes the "new" that the event carries, and when that is
      more than before, or more than 0 the first time, every sink that is set up hears of it once. */
  predicate Told(cfg: Config, before: map<string, int>, after: map<string, int>, e: Event, notices: seq<Notice>) {
    if "account" !in e.data || e.data["account"] == "" then after == before && notices == []
    else
      var acct := e.data["account"];
      var n := if "new" in e.data then Atoi(e.data["new"]) else 0;
      && after == before[acct := n]
      && notices == if n <= (if acct in before then before[acct] else 0) then []
                    else (if cfg.webhookURL != "" then [Notice(Webhook, acct, n)] else [])
                         + (if cfg.telegramToken != "" && cfg.telegramChat != "" then [Notice(Telegram, acct, n)]
                            else [])
                         + (if cfg.push then [Notice(Push, acct, n)] else [])
  }

  lemma ToldIs(cfg: Config, before: map<string, int>, e: Event)
    ensures Told(cfg, before, NextLast(before, e), e, NewNotices(before, cfg.Sinks(), e))
  {
    assert Atoi("") == 0;
    hide Atoi;
    ToEach(cfg, Get(e.data, "account"), Count(e));
  }

  lemma ToEach(cfg: Config, acct: string, n: int)
    ensures ToSinks(cfg.Sinks(), acct, n) ==
              (if cfg.webhookURL != "" then [Notice(Webhook, acct, n)] else [])
              + (if cfg.telegramToken != "" && cfg.telegramChat != "" then [Notice(Telegram, acct, n)] else [])
              + (if cfg.push then [Notice(Push, acct, n)] else [])
  {
  }

  function NextLast(lastNew: map<string, int>, e: Event): map<string, int> {
    var acct := Get(e.data, "account");
    if acct == "" then lastNew else lastNew[acct := Count(e)]
  }

  function NewNotices(lastNew: map<string, int>, sinks: seq<Sink>, e: Event): seq<Notice> {
    var acct := Get(e.data, "account");
    if acct != "" && Count(e) > Last(lastNew, acct) then ToSinks(sinks, acct, Count(e)) else []
  }

  /** The map holds the last count of every account. */
  ghost predicate Remembered(es: seq<Event>, lastNew: map<string, int>, acct: string) {
    acct != "" ==> LastCount(es, acct) == Last(lastNew, acct)
  }

  /** What was sent to one sink about one account: its strict rises from 0. */
  ghost predicate Notified(es: seq<Event>, sent: seq<Notice>, sinks: seq<Sink>, sink: Sink, acct: string) {
    NoticesTo(sent, sink, acct) == if acct != "" && sink in sinks then Rises(0, Counts(es, acct)) else []
  }

  lemma RememberedNext(es: seq<Event>, lastNew: map<string, int>, e: Event, acct: string)
    requires Remembered(es, lastNew, acct)
    ensures Remembered(es + [e], if e.kind == "voicemail.mwi" then NextLast(lastNew, e) else lastNew, acct)
  {
    CountsLast(es, e, acct);
  }

  lemma NotifiedNext(es: seq<Event>, lastNew: map<string, int>, sent: seq<Notice>, sinks: seq<Sink>, e: Event,
                     sink: Sink, acct: string)
    requires Distinct(sinks) && Remembered(es, lastNew, acct) && Notified(es, sent, sinks, sink, acct)
    ensures Notified(es + [e], if e.kind == "voicemail.mwi" then sent + NewNotices(lastNew, sinks, e) else sent,
                     sinks, sink, acct)
  {
    hide Rises, Counts, NoticesTo, Count, ToSinks;
    var of := Get(e.data, "account");
    CountsLast(es, e, acct);
    NoticesToSinks(sent, sinks, sink, of, Count(e), acct);
    assert sent + [] == sent && NoticesTo(sent, sink, acct) + [] == NoticesTo(sent, sink, acct);
    assert Counts(es, acct) + [] == Counts(es, acct);
    assert Rises(0, Counts(es, acct)) + [] == Rises(0, Counts(es, acct));
    if e.kind == "voicemail.mwi" && of == acct {
      RisesLast(0, Counts(es, acct), Count(e));
    }
  }

  ghost predicate Tracks(es: seq<Event>, lastNew: map<string, int>, sent: seq<Notice>, sinks: seq<Sink>) {
    && (forall acct :: Remembered(es, lastNew, acct))
    && (forall sink, acct :: Notified(es, sent, sinks, sink, acct))
  }

  lemma TracksNext(es: seq<Event>, lastNew: map<string, int>, sent: seq<Notice>, sinks: seq<Sink>, e: Event)
    requires Distinct(sinks) && Tracks(es, lastNew, sent, sinks)
    ensures if e.kind == "voicemail.mwi"
            then Tracks(es + [e], NextLast(lastNew, e), sent + NewNotices(lastNew, sinks, e), sinks)
            else Tracks(es + [e], lastNew, sent, sinks)
  {
    hide Remembered, Notified, NextLast, NewNotices;
    var mwi := e.kind == "voicemail.mwi";
    var es', last', sent' := es + [e], if mwi then NextLast(lastNew, e) else lastNew,
                             if mwi then sent + NewNotices(lastNew, sinks, e) else sent;
    forall acct
      ensures Remembered(es', last', acct)
    {
      RememberedNext(es, lastNew, e, acct);
    }
    forall sink, acct
      ensures Notified(es', sent', sinks, sink, acct)
    {
      NotifiedNext(es, lastNew, sent, sinks, e, sink, acct);
    }
  }

  function ToSinks(sinks: seq<Sink>, acct: string, count: int): seq<Notice> {
    seq(|sinks|, i requires 0 <= i < |sinks| => Notice(sinks[i], acct, count))
  }

  function LastCount(es: seq<Event>, acct: string): int {
    var cs := Counts(es, acct);
    if cs == [] then 0 else cs[|cs| - 1]
  }

  lemma {:induction false} CountsLast(es: seq<Event>, e: Event, acct: string)
    ensures Counts(es + [e], acct) ==
              Counts(es, acct) + if e.kind == "voicemail.mwi" && Get(e.data, "account") == acct then [Count(e)] else []
  {
    hide Count, Get;
    var last := if e.kind == "voicemail.mwi" && Get(e.data, "account") == acct then [Count(e)] else [];
    if es == [] {
      assert es + [e] == [e];
      assert Counts([e], acct) == last + [];
    } else {
      assert (es + [e])[1..] == es[1..] + [e] && (es + [e])[0] == es[0];
      CountsLast(es[1..], e, acct);
      var first := if es[0].kind == "voicemail.mwi" && Get(es[0].data, "account") == acct then [Count(es[0])] else [];
      assert Counts(es + [e], acct) == first + (Counts(es[1..], acct) + last);
      assert Counts(es, acct) == first + Counts(es[1..], acct);
    }
  }

  lemma {:induction false} RisesLast(prev: int, cs: seq<int>, c: int)
    ensures var last := if cs == [] then prev else cs[|cs| - 1];
            Rises(prev, cs + [c]) == Rises(prev, cs) + if c > last then [c] else []
    decreases |cs|
  {
    if cs == [] {
      assert cs + [c] == [c];
    } else {
      assert (cs + [c])[1..] == cs[1..] + [c];
      RisesLast(cs[0], cs[1..], c);
    }
  }

  lemma {:induction false} NoticesToSinks(sent: seq<Notice>, sinks: seq<Sink>, sink: Sink, of: string, count: int,
                                          acct: string)
    requires Distinct(sinks)
    ensures NoticesTo(sent + ToSinks(sinks, of, count), sink, acct) ==
              NoticesTo(sent, sink, acct) + if of == acct && sink in sinks then [count] else []
  {
    var all := sent + ToSinks(sinks, of, count);
    if sinks == [] {
      assert all == sent;
    } else {
      var front := sinks[..|sinks| - 1];
      assert all[..|all| - 1] == sent + ToSinks(front, of, count);
      NoticesToSinks(sent, front, sink, of, count, acct);
    }
  }

  // ---------- lossy delivery ----------

  lemma RisesFrom(p: int, q: int, cs: seq<int>)
    ensures |Rises(p, cs)| <= |Rises(q, cs)| + if p < q then 1 else 0
  {
  }

  /** Dropping counts never adds a rise. */
  lemma {:induction false} RisesOfSub(prev: int, xs: seq<int>, ys: seq<int>)
    requires Sub(xs, ys)
    ensures |Rises(prev, xs)| <= |Rises(prev, ys)|
    decreases |ys|
  {
    if xs != [] {
      if xs[0] == ys[0] && Sub(xs[1..], ys[1..]) {
        RisesOfSub(xs[0], xs[1..], ys[1..]);
      } else {
        RisesOfSub(ys[0], xs, ys[1..]);
        RisesFrom(prev, ys[0], xs);
      }
    }
  }

  lemma {:induction false} CountsOfSub(xs: seq<Event>, ys: seq<Event>, acct: string)
    requires Sub(xs, ys)
    ensures Sub(Counts(xs, acct), Counts(ys, acct))
    decreases |ys|
  {
    hide Counts;
    if xs == [] {
      NoCounts(acct);
    } else {
      CountsFirst(ys, acct);
      var first := Counts([ys[0]], acct);
      if xs[0] == ys[0] && Sub(xs[1..], ys[1..]) {
        CountsOfSub(xs[1..], ys[1..], acct);
        CountsFirst(xs, acct);
        SubSelf(first);
        SubAppend(first, first, Counts(xs[1..], acct), Counts(ys[1..], acct));
      } else {
        CountsOfSub(xs, ys[1..], acct);
        assert [] + Counts(xs, acct) == Counts(xs, acct);
        SubAppend([], first, Counts(xs, acct), Counts(ys[1..], acct));
      }
    }
  }

  lemma NoCounts(acct: string)
    ensures Counts([], acct) == []
  {
  }

  lemma CountsFirst(es: seq<Event>, acct: string)
    requires es != []
    ensures Counts(es, acct) == Counts([es[0]], acct) + Counts(es[1..], acct)
  {
    hide Count, Get;
    assert [es[0]][1..] == [];
  }

  /** A lossy stream can suppress notifications but never creates one. */
  lemma LossNeverNotifies(xs: seq<Event>, ys: seq<Event>, acct: string)
    requires Sub(xs, ys)
    ensures |Rises(0, Counts(xs, acct))| <= |Rises(0, Counts(ys, acct))|
  {
    CountsOfSub(xs, ys, acct);
    RisesOfSub(0, Counts(xs, acct), Counts(ys, acct));
  }
}
