/** Parameter lists rendered from maps that Go walks in any order. */
module Params {
  import Order
  import opened Subseq
  import opened Text
  import opened Wrappers

  datatype Param = Param(name: string, value: string)

  function Names(params: seq<Param>): seq<string> {
    seq(|params|, i requires 0 <= i < |params| => params[i].name)
  }

  /** The entries of the map, each once, in strictly ascending order of their keys. */
  ghost predicate Lists(m: map<string, string>, params: seq<Param>) {
    && Order.StrictlyAscending(Names(params))
    && (forall k :: k in Names(params) <==> k in m)
    && (forall i :: 0 <= i < |params| ==> params[i].name in m && params[i].value == m[params[i].name])
  }

  /** Whatever order the map is walked in, the list is the same one. */
  lemma ListsUnique(m: map<string, string>, p: seq<Param>, q: seq<Param>)
    requires Lists(m, p) && Lists(m, q)
    ensures p == q
  {
    hide Order.Lt;
    Order.StrictlyAscendingUnique(Names(p), Names(q));
    assert |p| == |Names(p)| == |Names(q)| == |q|;
    forall i | 0 <= i < |p|
      ensures p[i] == q[i]
    {
      assert Names(p)[i] == Names(q)[i];
    }
  }

  /** The list determines the map: nothing is lost. */
  lemma ListsInjective(m: map<string, string>, n: map<string, string>, p: seq<Param>)
    requires Lists(m, p) && Lists(n, p)
    ensures m == n
  {
  }

  method SortedParams(m: map<string, string>) returns (params: seq<Param>)
    ensures Lists(m, params)
  {
    hide Order.Lt, Order.Sort;
    var keys := Order.KeysOf(m);
    Order.SortDistinct(keys);
    keys := Order.Sort(keys);
    params := [];
    for i := 0 to |keys|
      invariant |params| == i
      invariant forall k :: 0 <= k < i ==> keys[k] in m && params[k] == Param(keys[k], m[keys[k]])
    {
      assert keys[i] in keys;
      params := params + [Param(keys[i], m[keys[i]])];
    }
    assert Names(params) == keys;
  }

  // ---------- directory users ----------

  datatype Voicemail = Voicemail(enabled: bool, attachFile: bool, emailAll: bool, password: string, email: string)

  function BoolStr(b: bool): string {
    if b then "true" else "false"
  }

  function VoicemailParams(vm: Option<Voicemail>): map<string, string> {
    match vm
    case None => map[]
    case Some(v) =>
      map["vm-enabled" := BoolStr(v.enabled),
          "vm-attach-file" := BoolStr(v.attachFile),
          "vm-email-all-messages" := BoolStr(v.emailAll)]
      + (if v.password != "" then map["vm-password" := v.password] else map[])
      + (if v.email != "" then map["vm-mailto" := v.email] else map[])
  }

  function A1Hash(md5: string -> string, user: string, realm: string, password: string): string {
    md5(user + ":" + realm + ":" + password)
  }

  /** An order in which Go may walk the map. */
  ghost predicate WalkOrder(freeform: map<string, string>, order: seq<string>) {
    Distinct(order) && forall k :: k in order <==> k in freeform
  }

  function WalkKey(out: map<string, string>, key: string, value: string, hash: string -> string): map<string, string> {
    if key == "password" then out["a1-hash" := hash(value)] else out[key := value]
  }

  function Walk(freeform: map<string, string>, order: seq<string>, hash: string -> string): map<string, string>
    requires forall k :: k in order ==> k in freeform
  {
    if order == [] then map[]
    else
      var n := |order| - 1;
      WalkKey(Walk(freeform, order[..n], hash), order[n], freeform[order[n]], hash)
  }

  predicate Says(m: map<string, string>, key: string, value: string) {
    key in m && m[key] == value
  }

  /** A password is not shown; it becomes the hash of "user:realm:password" unless a hash was given. */
  predicate HashShows(number: string, domain: string, freeform: map<string, string>, md5: string -> string,
                      m: map<string, string>) {
    && "password" !in m
    && ("password" in freeform && "a1-hash" !in freeform ==>
          Says(m, "a1-hash", md5(number + ":" + domain + ":" + freeform["password"])))
    && ("password" !in freeform && "a1-hash" in freeform ==> Says(m, "a1-hash", freeform["a1-hash"]))
    && ("a1-hash" in m ==> "password" in freeform || "a1-hash" in freeform)
  }

  /** The voicemail settings stand as they are typed. */
  predicate VoicemailShows(vm: Option<Voicemail>, m: map<string, string>) {
    vm.Some? ==>
      && Says(m, "vm-enabled", if vm.value.enabled then "true" else "false")
      && Says(m, "vm-attach-file", if vm.value.attachFile then "true" else "false")
      && Says(m, "vm-email-all-messages", if vm.value.emailAll then "true" else "false")
      && (vm.value.password != "" ==> Says(m, "vm-password", vm.value.password))
      && (vm.value.email != "" ==> Says(m, "vm-mailto", vm.value.email))
  }

  predicate TypedKey(vm: Option<Voicemail>, key: string) {
    vm.Some? && (key in ["vm-enabled", "vm-attach-file", "vm-email-all-messages"]
                 || (key == "vm-password" && vm.value.password != "") || (key == "vm-mailto" && vm.value.email != ""))
  }

  /** All other entries pass through, and nothing else is shown. */
  ghost predicate OthersShow(freeform: map<string, string>, vm: Option<Voicemail>, m: map<string, string>) {
    && (forall k :: k in freeform && !TypedKey(vm, k) && k != "password" && k != "a1-hash" ==> Says(m, k, freeform[k]))
    && (forall k :: k in m ==> k in freeform || k == "a1-hash" || TypedKey(vm, k))
  }

  /** What a user's rendered parameters say, whatever order the entries were walked in. */
  ghost predicate UserShows(number: string, domain: string, freeform: map<string, string>, vm: Option<Voicemail>,
                            md5: string -> string, params: seq<Param>) {
    exists m :: Lists(m, params) && HashShows(number, domain, freeform, md5, m) && VoicemailShows(vm, m)
                && OthersShow(freeform, vm, m)
  }

  lemma TypedAre(vm: Option<Voicemail>)
    ensures VoicemailShows(vm, VoicemailParams(vm))
    ensures forall k :: k in VoicemailParams(vm) <==> TypedKey(vm, k)
  {
  }

  lemma VoicemailOver(vm: Option<Voicemail>, m: map<string, string>, v: map<string, string>)
    requires VoicemailShows(vm, v)
    ensures VoicemailShows(vm, m + v)
  {
  }

  lemma HashIs(number: string, domain: string, freeform: map<string, string>, last: bool, md5: string -> string,
               v: map<string, string>)
    requires "password" !in v && "a1-hash" !in v
    requires last ==> "password" in freeform
    ensures HashShows(number, domain, freeform, md5, Left(freeform, last, p => A1Hash(md5, number, domain, p)) + v)
  {
  }

  lemma OthersAre(freeform: map<string, string>, vm: Option<Voicemail>, last: bool, hash: string -> string,
                  v: map<string, string>)
    requires forall k :: k in v <==> TypedKey(vm, k)
    ensures OthersShow(freeform, vm, Left(freeform, last, hash) + v)
  {
    hide TypedKey;
  }

  lemma UserIs(number: string, domain: string, freeform: map<string, string>, order: seq<string>,
               vm: Option<Voicemail>, md5: string -> string, params: seq<Param>)
    requires WalkOrder(freeform, order)
    requires Lists(Walk(freeform, order, p => A1Hash(md5, number, domain, p)) + VoicemailParams(vm), params)
    ensures UserShows(number, domain, freeform, vm, md5, params)
  {
    hide WalkOrder, Walk, VoicemailParams, Left, HashShows, VoicemailShows, OthersShow, TypedKey, Lists, PasswordLast;
    var hash := (p: string) => A1Hash(md5, number, domain, p);
    var last, v := PasswordLast(order), VoicemailParams(vm);
    WholeWalk(freeform, order, hash);
    OnlyPasswordLast(freeform, order);
    TypedAre(vm);
    TypedKeys(vm);
    VoicemailOver(vm, Left(freeform, last, hash), v);
    HashIs(number, domain, freeform, last, md5, v);
    OthersAre(freeform, vm, last, hash, v);
  }

  /** Without a password in the map, it is not what is walked last. */
  lemma OnlyPasswordLast(freeform: map<string, string>, order: seq<string>)
    requires WalkOrder(freeform, order)
    ensures PasswordLast(order) ==> "password" in freeform
  {
    hide Walk;
    WalkLeaves(freeform, order, p => p);
  }

  /** for k, v := range from { into[k] = v } */
  method Merge(into: map<string, string>, from: map<string, string>) returns (out: map<string, string>)
    ensures out == into + from
  {
    out := into;
    var left := from.Keys;
    while left != {}
      invariant left <= from.Keys
      invariant out == into + (map k | k in from && k !in left :: from[k])
      decreases left
    {
      var k :| k in left;
      out := out[k := from[k]];
      left := left - {k};
    }
    assert (map k | k in from && k !in left :: from[k]) == from;
  }

  method DirectoryUserParams(number: string, domain: string, freeform: map<string, string>, vm: Option<Voicemail>,
                             md5: string -> string)
    returns (params: seq<Param>, order: seq<string>)
    ensures WalkOrder(freeform, order)
    ensures Lists(Walk(freeform, order, p => A1Hash(md5, number, domain, p)) + VoicemailParams(vm), params)
    ensures UserShows(number, domain, freeform, vm, md5, params)
  {
    hide Lists, Order.Lt, VoicemailParams, UserShows;
    order := Order.KeysOf(freeform);
    var out: map<string, string> := map[];
    for i := 0 to |order|
      invariant out == Walk(freeform, order[..i], p => A1Hash(md5, number, domain, p))
    {
      assert order[..i + 1][..i] == order[..i];
      assert order[i] in order;
      if order[i] == "password" {
        out := out["a1-hash" := A1Hash(md5, number, domain, freeform[order[i]])];
      } else {
        out := out[order[i] := freeform[order[i]]];
      }
    }
    assert order[..|order|] == order;
    out := Merge(out, VoicemailParams(vm));
    params := SortedParams(out);
    UserIs(number, domain, freeform, order, vm, md5, params);
  }

  /** Of the two keys that write a1-hash, is `password` the one walked last? */
  predicate PasswordLast(order: seq<string>) {
    if order == [] then false
    else
      var n := |order| - 1;
      order[n] == "password" || (order[n] != "a1-hash" && PasswordLast(order[..n]))
  }

  /** What one walk leaves under a key. */
  function Left(freeform: map<string, string>, passwordLast: bool, hash: string -> string): (m: map<string, string>)
    ensures "password" !in m
  {
    var others := freeform - {"password"};
    if "password" in freeform && (passwordLast || "a1-hash" !in freeform) then
        others["a1-hash" := hash(freeform["password"])]
    else others
  }

  lemma {:induction false} WalkLeaves(freeform: map<string, string>, order: seq<string>, hash: string -> string)
    requires forall k :: k in order ==> k in freeform
    ensures Walk(freeform, order, hash) == Left(map k | k in order :: freeform[k], PasswordLast(order), hash)
    ensures PasswordLast(order) ==> "password" in order
    ensures "password" in order && "a1-hash" !in order ==> PasswordLast(order)
  {
    if order != [] {
      var n := |order| - 1;
      WalkLeaves(freeform, order[..n], hash);
      assert order == order[..n] + [order[n]];
      LeftNext(map k | k in order[..n] :: freeform[k], PasswordLast(order[..n]), order[n], freeform[order[n]], hash);
      assert (map k | k in order :: freeform[k])
          == (map k | k in order[..n] :: freeform[k])[order[n] := freeform[order[n]]];
    }
  }

  lemma LeftNext(m: map<string, string>, last: bool, key: string, value: string, hash: string -> string)
    ensures WalkKey(Left(m, last, hash), key, value, hash) ==
              Left(m[key := value], key == "password" || (key != "a1-hash" && last), hash)
  {
  }

  lemma WholeWalk(freeform: map<string, string>, order: seq<string>, hash: string -> string)
    requires WalkOrder(freeform, order)
    ensures Walk(freeform, order, hash) == Left(freeform, PasswordLast(order), hash)
  {
    WalkLeaves(freeform, order, hash);
    assert (map k | k in order :: freeform[k]) == freeform;
  }

  /** However the map is walked: no password is left, typed voicemail settings win over freeform ones,
      a password becomes a1-hash unless one was given, and every other entry passes through. */
  lemma UserParams(freeform: map<string, string>, order: seq<string>, hash: string -> string, vm: Option<Voicemail>)
    requires WalkOrder(freeform, order)
    ensures var typed := VoicemailParams(vm);
            var m := Walk(freeform, order, hash) + typed;
            && "password" !in m
            && (forall k :: k in typed ==> k in m && m[k] == typed[k])
            && (forall k :: k in freeform && k !in typed && k != "password" && k != "a1-hash" ==>
                  k in m && m[k] == freeform[k])
            && (forall k :: k in m ==>
                  k in typed || (k in freeform && k != "password") || (k == "a1-hash" && "password" in freeform))
            && ("password" in freeform && "a1-hash" !in freeform ==>
                  "a1-hash" in m && m["a1-hash"] == hash(freeform["password"]))
  {
    WholeWalk(freeform, order, hash);
    assert "password" !in VoicemailParams(vm) && "a1-hash" !in VoicemailParams(vm) by { TypedKeys(vm); }
  }

  lemma TypedKeys(vm: Option<Voicemail>)
    ensures forall k :: k in VoicemailParams(vm) ==> |k| >= 9 && k[..3] == "vm-"
    ensures "password" !in VoicemailParams(vm) && "a1-hash" !in VoicemailParams(vm)
  {
    assert "password"[0] == 'p' && "a1-hash"[0] == 'a' && "vm-"[0] == 'v';
  }

  lemma {:induction false} SomeOrder(keys: set<string>) returns (order: seq<string>)
    ensures Distinct(order) && forall k :: k in order <==> k in keys
    decreases keys
  {
    if keys == {} {
      order := [];
    } else {
      var k :| k in keys;
      var rest := SomeOrder(keys - {k});
      order := rest + [k];
    }
  }

  ghost predicate OneResult(freeform: map<string, string>, hash: string -> string) {
    forall o, p :: WalkOrder(freeform, o) && WalkOrder(freeform, p) ==>
        Walk(freeform, o, hash) == Walk(freeform, p, hash)
  }

  ghost predicate Disagree(freeform: map<string, string>, hash: string -> string) {
    "password" in freeform && "a1-hash" in freeform && freeform["a1-hash"] != hash(freeform["password"])
  }

  lemma TwoResults(freeform: map<string, string>, hash: string -> string)
    requires Disagree(freeform, hash)
    ensures !OneResult(freeform, hash)
  {
    var o := SomeOrder(freeform.Keys - {"password"});
    var p := SomeOrder(freeform.Keys - {"a1-hash"});
    EndsWith(freeform, o, "password");
    EndsWith(freeform, p, "a1-hash");
    WholeWalk(freeform, o + ["password"], hash);
    WholeWalk(freeform, p + ["a1-hash"], hash);
    hide Walk, WalkOrder;
    assert PasswordLast(o + ["password"]) && !PasswordLast(p + ["a1-hash"]);
    assert Left(freeform, true, hash)["a1-hash"] != Left(freeform, false, hash)["a1-hash"];
  }

  lemma SameLeft(freeform: map<string, string>, hash: string -> string)
    requires !Disagree(freeform, hash)
    ensures Left(freeform, true, hash) == Left(freeform, false, hash)
  {
  }

  /** The result is independent of Go's map order exactly when the input does not hold both a password
      and a different a1-hash. */
  lemma OneResultIff(freeform: map<string, string>, hash: string -> string)
    ensures OneResult(freeform, hash) <==>
              !("password" in freeform && "a1-hash" in freeform && freeform["a1-hash"] != hash(freeform["password"]))
  {
    if Disagree(freeform, hash) {
      TwoResults(freeform, hash);
    } else {
      hide Walk, WalkOrder, Left;
      SameLeft(freeform, hash);
      forall o, p | WalkOrder(freeform, o) && WalkOrder(freeform, p)
        ensures Walk(freeform, o, hash) == Walk(freeform, p, hash)
      {
        WholeWalk(freeform, o, hash);
        WholeWalk(freeform, p, hash);
      }
    }
  }

  lemma EndsWith(freeform: map<string, string>, order: seq<string>, last: string)
    requires Distinct(order) && last in freeform && forall k :: k in order <==> k in freeform && k != last
    ensures WalkOrder(freeform, order + [last])
  {
  }

  // ---------- conference profiles ----------

  datatype Profile = Profile(name: string, rate: int, intervalMs: int, energyLevel: int, comfortNoise: bool,
                             mohSound: string, videoMode: string, videoLayout: string, videoCanvasSize: string,
                             videoFps: int, autoRecord: string,
                             freeform: map<string, string>)

  /** The typed settings: video settings only for a video profile, a recording path only when given. */
  function Typed(p: Profile): map<string, string> {
    var base := map["rate" := Itoa(p.rate), "interval" := Itoa(p.intervalMs), "energy-level" := Itoa(p.energyLevel),
                    "comfort-noise" := BoolStr(p.comfortNoise), "moh-sound" := p.mohSound];
    var video := if p.videoMode == "" then base
                 else base["video-mode" := p.videoMode]["video-layout-name" := p.videoLayout]
                          ["video-canvas-size" := p.videoCanvasSize]["video-fps" := Itoa(p.videoFps)];
    if p.autoRecord == "" then video else video["auto-record" := p.autoRecord]
  }

  predicate Setting(p: Profile, m: map<string, string>, key: string, value: string) {
    key !in p.freeform ==> Says(m, key, value)
  }

  /** What the parameters of a profile say: every freeform setting as given, and each typed one that is not
      given freeform; video settings only with a video mode, a recording path only when there is one. */
  ghost predicate ProfileShows(p: Profile, m: map<string, string>) {
    && (forall k :: k in p.freeform ==> Says(m, k, p.freeform[k]))
    && Setting(p, m, "rate", Itoa(p.rate)) && Setting(p, m, "interval", Itoa(p.intervalMs))
    && Setting(p, m, "energy-level", Itoa(p.energyLevel)) && Setting(p, m, "moh-sound", p.mohSound)
    && Setting(p, m, "comfort-noise", if p.comfortNoise then "true" else "false")
    && (p.videoMode != "" ==>
          && Setting(p, m, "video-mode", p.videoMode) && Setting(p, m, "video-layout-name", p.videoLayout)
          && Setting(p, m, "video-canvas-size", p.videoCanvasSize) && Setting(p, m, "video-fps", Itoa(p.videoFps)))
    && (p.autoRecord != "" ==> Setting(p, m, "auto-record", p.autoRecord))
    && (forall k :: k in m ==>
          || k in p.freeform
          || k in ["rate", "interval", "energy-level", "moh-sound", "comfort-noise"]
          || (p.videoMode != "" && k in ["video-mode", "video-layout-name", "video-canvas-size", "video-fps"])
          || (p.autoRecord != "" && k == "auto-record"))
  }

  ghost predicate ProfileList(p: Profile, params: seq<Param>) {
    exists m :: Lists(m, params) && ProfileShows(p, m)
  }

  lemma ProfileIs(p: Profile)
    ensures ProfileShows(p, Typed(p) + p.freeform)
  {
    hide Itoa;
  }

  /** RenderConference: here the freeform settings win over the typed ones, and the order in which they
      are walked cannot be seen in the result. */
  method RenderConference(profiles: seq<Profile>) returns (out: seq<(string, seq<Param>)>)
    ensures |out| == |profiles|
    ensures forall i :: 0 <= i < |out| ==> out[i].0 == profiles[i].name
    ensures forall i :: 0 <= i < |out| ==> Lists(Typed(profiles[i]) + profiles[i].freeform, out[i].1)
    ensures forall i :: 0 <= i < |out| ==> ProfileList(profiles[i], out[i].1)
  {
    hide Lists, Typed, ProfileShows;
    out := [];
    for i := 0 to |profiles|
      invariant |out| == i
      invariant forall k :: 0 <= k < i ==> out[k].0 == profiles[k].name
      invariant forall k :: 0 <= k < i ==> Lists(Typed(profiles[k]) + profiles[k].freeform, out[k].1)
      invariant forall k :: 0 <= k < i ==> ProfileList(profiles[k], out[k].1)
    {
      var p := profiles[i];
      var params := Merge(Typed(p), p.freeform);
      ProfileIs(p);
      var sorted := SortedParams(params);
      out := out + [(p.name, sorted)];
    }
  }
}
