/** The server side of multi-step user authentication (auth2.c, auth2-chall.c and the key
gate of auth2-pubkey.c) as a state machine over the client's packets.

`Auth` holds the fields of Authctxt that decide the outcome, and a history of what
happened.  The functions give one packet's effect; the class `Authctxt` performs them in
place, with the loops of the source.
*/
module UserAuth {
  import opened MethodLists
  import opened Wrappers

  const MAX_ATTEMPTS := 1024
  const SERVICE := "ssh-connection"
  const NONE := "none"
  const KBDINT := "keyboard-interactive"

  /** Which handler a table entry has. */
  datatype Kind = NoneKind | PubkeyKind | KbdintKind | OtherKind

  datatype Authmethod = Authmethod(name: string, synonym: Option<string>, kind: Kind)

  /** The method table of auth2.c. */
  const AUTHMETHODS := [
    Authmethod(NONE, None, NoneKind),
    Authmethod("publickey", Some("publickey-hostbound-v00@openssh.com"), PubkeyKind),
    Authmethod("gssapi-with-mic", None, OtherKind),
    Authmethod("password", None, OtherKind),
    Authmethod(KBDINT, None, KbdintKind),
    Authmethod("hostbased", None, OtherKind)]

  /** The public part decides whether two keys are equal; a certificate is not part of it. */
  datatype Key = Key(pub: nat, cert: nat)

  /** The method table, max_authtries, the AuthenticationMethods lists and the methods
      switched on. */
  datatype Config = Config(table: seq<Authmethod>, maxTries: int, lists: seq<string>, enabled: set<string>)

  /** What the checks of userauth_pubkey find out about one request. */
  datatype PubkeyRequest = PubkeyRequest(
    key: Option<Key>,          // the key, if the blob decodes to the announced type
    accepted: bool,            // algorithm, CA and length checks
    signed: bool,              // a signature was sent
    allowed: bool, verified: bool,
    touched: bool,             // presence and PIN requirements are met
    consistent: bool)          // auth_activate_options accepts the key's options

  /** What any other method handler does. */
  datatype Verdict = Verdict(
    authenticated: bool, postponed: bool, serverCaused: bool,
    device: string,            // keyboard-interactive device that was asked
    recorded: Option<Key>)     // hostbased records its key

  datatype Response = Accepted | More(sent: bool) | Refused

  datatype Packet =
    | Request(user: string, service: string, name: string, known: bool, rootDenied: bool,
              pubkey: PubkeyRequest, other: Verdict)
    | InfoResponse(response: Response, next: Option<string>, rootDenied: bool)

  datatype Identity = Identity(user: string, service: string, valid: bool)

  /** What has happened so far. */
  datatype History = History(
    events: seq<Event>,            // successes handed to the pending lists
    wins: seq<Key>,                // keys with which userauth_pubkey succeeded
    starts: seq<(nat, nat)>)       // failures and attempt when a handler started

  datatype Auth = Auth(
    attempt: nat, failures: nat, id: Identity,
    postponed: bool, serverCaused: bool, success: bool, fatal: bool,
    noneEnabled: bool, awaiting: Option<string>, pending: seq<string>, prevKeys: seq<Key>,
    log: History)

  const Fresh := Auth(0, 0, Identity("", "", false), false, false, false, false, true, None, [], [],
                      History([], [], []))

  // ----- method table and configured lists

  /** The first entry with that name or synonym. */
  function ByName(table: seq<Authmethod>, name: string): (m: Option<Authmethod>)
    ensures m.Some? ==> m.value in table
  {
    if table == [] then None
    else if table[0].name == name || table[0].synonym == Some(name) then Some(table[0])
    else ByName(table[1..], name)
  }

  predicate IsName(table: seq<Authmethod>, name: string)
  {
    exists i :: 0 <= i < |table| && table[i].name == name
  }

  /** The single list "any" means that nothing is required. */
  function Required(cfg: Config): seq<string> { if cfg.lists == ["any"] then [] else cfg.lists }

  /** The comma-separated tokens, empty ones included. */
  function Tokens(s: string): seq<string>
    decreases |s|
  {
    var k := Find(s, ',');
    [s[..k]] + if k == |s| then [] else Tokens(s[k + 1..])
  }

  predicate NameOn(cfg: Config, token: string)
  {
    var name := ParseItem(token).name;
    IsName(cfg.table, name) && (name in cfg.enabled || name == NONE)
  }

  predicate NamesOn(cfg: Config, tokens: seq<string>) { forall i :: 0 <= i < |tokens| ==> NameOn(cfg, tokens[i]) }

  predicate AllOn(cfg: Config, s: string) { NamesOn(cfg, Tokens(s)) }

  /** auth2_methods_valid: at the first request "none" is still switched on. */
  predicate ValidList(cfg: Config, s: string) { s != "" && AllOn(cfg, s) }

  lemma {:induction false} AllOnByToken(cfg: Config, s: string)
    ensures var k := Find(s, ',');
            AllOn(cfg, s) <==> NameOn(cfg, s[..k]) && (k < |s| ==> AllOn(cfg, s[k + 1..]))
  {
    var k := Find(s, ',');
    if k < |s| { FrontNameOn(cfg, s[..k], Tokens(s[k + 1..])); } else { FrontNameOn(cfg, s[..k], []); }
  }

  lemma FrontNameOn(cfg: Config, token: string, rest: seq<string>)
    ensures NamesOn(cfg, [token] + rest) <==> NameOn(cfg, token) && NamesOn(cfg, rest)
  {
    var all := [token] + rest;
    assert all[0] == token && forall i :: 0 <= i < |rest| ==> all[i + 1] == rest[i];
  }

  function ValidLists(cfg: Config, lists: seq<string>): seq<string>
  {
    if lists == [] then []
    else
      var front := ValidLists(cfg, lists[..|lists| - 1]);
      if ValidList(cfg, lists[|lists| - 1]) then front + [lists[|lists| - 1]] else front
  }

  /** The lists that authentication of this user has to satisfy. */
  function Demands(cfg: Config): seq<string> { ValidLists(cfg, Required(cfg)) }

  predicate MethodAllowed(cfg: Config, pending: seq<string>, name: string, sub: Option<string>)
  {
    Required(cfg) == [] || exists i :: 0 <= i < |pending| && ListStartsWith(pending[i], name, sub) != NoMatch
  }

  predicate Enabled(cfg: Config, a: Auth, m: Authmethod)
  {
    if m.kind.NoneKind? then a.noneEnabled else m.name in cfg.enabled
  }

  function Lookup(cfg: Config, a: Auth, name: string): Option<Authmethod>
  {
    var m := ByName(cfg.table, name);
    if m.Some? && Enabled(cfg, a, m.value) && MethodAllowed(cfg, a.pending, m.value.name, None) then m else None
  }

  // ----- keys

  predicate EqualPublic(a: Key, b: Key) { a.pub == b.pub }

  predicate KeyUsed(keys: seq<Key>, key: Key)
  {
    exists i :: 0 <= i < |keys| && EqualPublic(key, keys[i])
  }

  /** userauth_pubkey: the new state and whether it authenticated. */
  function Pubkey(a: Auth, p: PubkeyRequest): (Auth, bool)
  {
    if p.key.None? || KeyUsed(a.prevKeys, p.key.value) || !p.accepted || !a.id.valid then (a, false)
    else if !p.signed then (a.(postponed := p.allowed), false)
    else if !(p.allowed && p.verified && p.touched) then (a, false)
    else
      var b := a.(prevKeys := a.prevKeys + [p.key.value]);
      if p.consistent then (b.(log := b.log.(wins := b.log.wins + [p.key.value])), true) else (b, false)
  }

  function OtherHandler(a: Auth, kind: Kind, v: Verdict): (Auth, bool)
  {
    var b := a.(postponed := v.postponed, serverCaused := v.serverCaused,
                noneEnabled := a.noneEnabled && !kind.NoneKind?,
                awaiting := if kind.KbdintKind? && v.postponed then Some(v.device) else None,
                prevKeys := if v.recorded.Some? then a.prevKeys + [v.recorded.value] else a.prevKeys);
    (b, v.authenticated && !kind.KbdintKind?)
  }

  // ----- packets

  /** A success that counts: it completes authentication, or is one step of a list. */
  function Admit(cfg: Config, a: Auth, e: Event): Auth
  {
    var b := a.(log := a.log.(events := a.log.events + [e]));
    if Required(cfg) == [] then b.(success := true)
    else match UpdateLists(a.pending, e)
      case NotListed => b.(fatal := true)
      case Complete(ls) => b.(pending := ls, success := true)
      case Continue(ls) => b.(pending := ls, fatal := a.failures >= cfg.maxTries)
  }

  /** A failure, charged unless it is a first try of "none" or the server's own fault. */
  function Deny(cfg: Config, a: Auth, isNone: bool): Auth
  {
    var f := if !a.serverCaused && (a.attempt > 1 || !isNone) then 1 else 0;
    a.(failures := a.failures + f, fatal := a.failures + f >= cfg.maxTries)
  }

  /** userauth_finish. */
  function Finish(cfg: Config, a: Auth, authenticated: bool, packetName: string,
                  sub: Option<string>, rootDenied: bool): Auth
  {
    var m := ByName(cfg.table, packetName);
    if !authenticated then if a.postponed then a else Deny(cfg, a, packetName == NONE)
    else if !a.id.valid || a.postponed || m.None? then a.(fatal := true)
    else if rootDenied then Deny(cfg, a, m.value.name == NONE)
    else Admit(cfg, a, Event(m.value.name, sub))
  }

  function CutStyle(user: string): string { user[..Find(user, ':')] }

  /** The first request settles who is authenticating and what is required. */
  function Introduce(cfg: Config, a: Auth, p: Packet): Auth
    requires p.Request?
  {
    var b := a.(attempt := 1, id := Identity(CutStyle(p.user), p.service, p.known && p.service == SERVICE));
    if Required(cfg) == [] then b else b.(pending := Demands(cfg), fatal := Demands(cfg) == [])
  }

  /** The part of input_userauth_request before the method lookup. */
  function Identify(cfg: Config, a: Auth, p: Packet): Auth
    requires p.Request?
  {
    if a.attempt >= MAX_ATTEMPTS then a.(fatal := true)
    else if a.attempt == 0 then Introduce(cfg, a, p)
    else a.(attempt := a.attempt + 1, fatal := CutStyle(p.user) != a.id.user || p.service != a.id.service)
  }

  function Reset(a: Auth): Auth { a.(postponed := false, serverCaused := false, awaiting := None) }

  function RunHandler(a: Auth, kind: Kind, p: Packet): (Auth, bool)
    requires p.Request?
  {
    var b := a.(log := a.log.(starts := a.log.starts + [(a.failures, a.attempt)]));
    if kind.PubkeyKind? then Pubkey(b, p.pubkey) else OtherHandler(b, kind, p.other)
  }

  /** The rest of input_userauth_request: look the method up, try it, report. */
  function Answer(cfg: Config, a: Auth, p: Packet): Auth
    requires p.Request?
  {
    var m := Lookup(cfg, a, p.name);
    var (b, ok) := if m.Some? && a.failures < cfg.maxTries then RunHandler(a, m.value.kind, p) else (a, false);
    Finish(cfg, b, ok, p.name, None, p.rootDenied)
  }

  function HandleRequest(cfg: Config, a: Auth, p: Packet): Auth
    requires p.Request?
  {
    var b := Identify(cfg, a, p);
    if b.fatal then b else Answer(cfg, Reset(b), p)
  }

  /** The state of the exchange after a response: asked again, ended, or the next device. */
  function Continued(a: Auth, p: Packet, ok: bool): Auth
    requires p.InfoResponse?
  {
    if p.response == More(true) then a.(postponed := true)
    else if ok then a.(postponed := false, awaiting := None)
    else a.(postponed := p.next.Some?, awaiting := p.next)
  }

  function HandleResponse(cfg: Config, a: Auth, p: Packet): Auth
    requires p.InfoResponse? && a.awaiting.Some?
  {
    var ok := p.response.Accepted? && a.id.valid;
    Finish(cfg, Continued(a, p, ok), ok, KBDINT, a.awaiting, p.rootDenied)
  }

  /** Nothing is handled after success.  A response that is not awaited ends the connection,
      except before the first request, when it is only answered as unimplemented. */
  function Handle(cfg: Config, a: Auth, p: Packet): Auth
  {
    if a.fatal || a.success then a
    else match p
      case Request(_, _, _, _, _, _, _) => HandleRequest(cfg, a, p)
      case InfoResponse(_, _, _) =>
        if a.awaiting.Some? then HandleResponse(cfg, a, p)
        else if a.attempt == 0 then a else a.(fatal := true)
  }

  function Run(cfg: Config, packets: seq<Packet>): Auth
  {
    if packets == [] then Fresh else Handle(cfg, Run(cfg, packets[..|packets| - 1]), packets[|packets| - 1])
  }

  // ----- what every run keeps

  predicate CleanDevice(d: Option<string>) { d.Some? ==> ',' !in d.value }

  /** Device names are constants of the program, without commas. */
  predicate Plausible(p: Packet)
  {
    match p
    case Request(_, _, _, _, _, _, v) => ',' !in v.device
    case InfoResponse(_, next, _) => CleanDevice(next)
  }

  predicate Fair(cfg: Config, packets: seq<Packet>)
  {
    CleanTable(cfg.table) && forall p :: p in packets ==> Plausible(p)
  }

  ghost predicate KeysOnce(a: Auth)
  {
    && (forall i :: 0 <= i < |a.log.wins| ==> a.log.wins[i] in a.prevKeys)
    && (forall i, j :: 0 <= i < j < |a.log.wins| ==> !EqualPublic(a.log.wins[i], a.log.wins[j]))
  }

  ghost predicate ListsTracked(cfg: Config, a: Auth)
  {
    && (forall e :: e in a.log.events ==> Clean(e)) && CleanDevice(a.awaiting)
    && if Required(cfg) == [] then a.success <==> a.log.events != []
       else if a.success then Completed(Demands(cfg), a.log.events)
       else After(Demands(cfg), a.log.events) == Some(a.pending)
  }

  /** The last event completed a list, and no earlier one did. */
  ghost predicate Completed(lists: seq<string>, events: seq<Event>)
  {
    && events != []
    && After(lists, events[..|events| - 1]).Some?
    && UpdateLists(After(lists, events[..|events| - 1]).value, events[|events| - 1]).Complete?
  }

  /** What holds between the parts of one packet's handling. */
  ghost predicate Going(cfg: Config, a: Auth) { a.attempt > 0 && ListsTracked(cfg, a) }

  ghost predicate Inv(cfg: Config, a: Auth) { a.fatal || a == Fresh || Going(cfg, a) }

  /** Method names contain no separator. */
  predicate CleanTable(table: seq<Authmethod>)
  {
    forall m :: m in table ==> Clean(Event(m.name, None))
  }

  lemma ShortNamesAreClean()
    ensures Clean(Event(NONE, None)) && Clean(Event("publickey", None)) && Clean(Event("password", None))
  {
  }

  lemma LongNamesAreClean()
    ensures Clean(Event("gssapi-with-mic", None)) && Clean(Event("hostbased", None))
  {
  }

  lemma KbdintIsClean()
    ensures Clean(Event(KBDINT, None))
  {
    var front, back := "keyboard-", "interactive";
    assert ',' !in front && ':' !in front;
    assert ',' !in back && ':' !in back;
    assert KBDINT == front + back;
    assert forall c :: c in front + back <==> c in front || c in back;
  }

  lemma TableIsClean()
    ensures CleanTable(AUTHMETHODS)
  {
    ShortNamesAreClean();
    LongNamesAreClean();
    KbdintIsClean();
    forall m | m in AUTHMETHODS ensures Clean(Event(m.name, None)) {
      var i :| 0 <= i < 6 && m == AUTHMETHODS[i];
    }
  }

  /** The lists kept by auth2_setup_methods_lists are ones that RemoveDropsFirst is about, and
      every entry names a method of the table. */
  lemma {:induction false} ValidIsWellFormed(cfg: Config, s: string)
    requires CleanTable(cfg.table) && ValidList(cfg, s)
    ensures WellFormed(s) && AllNamed(cfg, Items(s))
    decreases |s|
  {
    var k := Find(s, ',');
    FirstIsNamed(cfg, s, k);
    if k < |s| {
      ValidIsWellFormed(cfg, s[k + 1..]);
      FrontJoins(cfg, s, k, s[k + 1..]);
    } else {
      FrontJoins(cfg, s, k, "");
    }
  }

  lemma FirstIsNamed(cfg: Config, s: string, k: nat)
    requires CleanTable(cfg.table) && ValidList(cfg, s) && k == Find(s, ',')
    ensures Named(cfg, ParseItem(s[..k])) && (k < |s| ==> ValidList(cfg, s[k + 1..]))
  {
    AllOnByToken(cfg, s);
    NamesAreClean(cfg.table, ParseItem(s[..k]).name);
    EmptyIsOff(cfg, "");
  }

  lemma FrontJoins(cfg: Config, s: string, k: nat, rest: string)
    requires s != "" && k == Find(s, ',') && rest == if k == |s| then "" else s[k + 1..]
    requires Named(cfg, ParseItem(s[..k])) && WellFormed(rest) && AllNamed(cfg, Items(rest)) && (k < |s| ==> rest != "")
    ensures WellFormed(s) && AllNamed(cfg, Items(s))
  {
    ItemsStep(s, k, rest);
    FrontNamed(cfg, ParseItem(s[..k]), Items(rest));
  }

  /** The entry names a method of the table, without separators. */
  ghost predicate Named(cfg: Config, i: Item) { IsName(cfg.table, i.name) && Clean(Event(i.name, None)) }

  ghost predicate AllNamed(cfg: Config, items: seq<Item>) { forall i :: 0 <= i < |items| ==> Named(cfg, items[i]) }

  lemma FrontNamed(cfg: Config, i: Item, rest: seq<Item>)
    requires Named(cfg, i) && AllNamed(cfg, rest)
    ensures AllNamed(cfg, [i] + rest)
  {
  }

  lemma EmptyIsOff(cfg: Config, s: string)
    requires CleanTable(cfg.table) && s == ""
    ensures !NameOn(cfg, s) && !AllOn(cfg, s)
  {
    AllOnByToken(cfg, s);
    assert s[..Find(s, ',')] == s && ParseItem(s).name == "" && !IsName(cfg.table, "");
  }

  lemma NamesAreClean(table: seq<Authmethod>, name: string)
    requires CleanTable(table) && IsName(table, name)
    ensures Clean(Event(name, None))
  {
    var i :| 0 <= i < |table| && table[i].name == name;
    assert table[i] in table;
  }

  lemma {:induction false} ValidListsUsable(cfg: Config, lists: seq<string>)
    requires CleanTable(cfg.table)
    ensures Usable(ValidLists(cfg, lists))
  {
    if lists != [] {
      ValidListsUsable(cfg, lists[..|lists| - 1]);
      if ValidList(cfg, lists[|lists| - 1]) { ValidIsWellFormed(cfg, lists[|lists| - 1]); }
    }
  }

  lemma FirstRequestKeeps(cfg: Config, p: Packet)
    requires p.Request?
    ensures var b := Identify(cfg, Fresh, p); b.fatal || (Going(cfg, Reset(b)) && !b.success)
  {
    assert After(Demands(cfg), []) == Some(Demands(cfg));
  }

  lemma IdentifyKeeps(cfg: Config, a: Auth, p: Packet)
    requires Inv(cfg, a) && !a.fatal && !a.success && p.Request?
    ensures var b := Identify(cfg, a, p); b.fatal || (Going(cfg, Reset(b)) && !b.success)
  {
    if a == Fresh {
      FirstRequestKeeps(cfg, p);
    } else {
      var b := Identify(cfg, a, p);
      assert b == a.(attempt := b.attempt, fatal := b.fatal);
    }
  }

  lemma PubkeyKeeps(cfg: Config, a: Auth, p: PubkeyRequest)
    requires Going(cfg, a) && !a.fatal && !a.success
    ensures var b := Pubkey(a, p).0; Going(cfg, b) && !b.fatal && !b.success && b.failures == a.failures
  {
  }

  lemma OtherKeeps(cfg: Config, a: Auth, kind: Kind, v: Verdict)
    requires Going(cfg, a) && !a.fatal && !a.success && ',' !in v.device
    ensures var b := OtherHandler(a, kind, v).0;
            Going(cfg, b) && !b.fatal && !b.success && b.failures == a.failures
  {
  }

  lemma AfterMore(lists: seq<string>, events: seq<Event>, e: Event)
    requires After(lists, events).Some?
    ensures var u := UpdateLists(After(lists, events).value, e);
            && (Completed(lists, events + [e]) <==> u.Complete?)
            && (u.Continue? ==> After(lists, events + [e]) == Some(u.lists))
  {
    assert (events + [e])[..|events|] == events;
  }

  lemma AdmitKeeps(cfg: Config, a: Auth, e: Event)
    requires Going(cfg, a) && !a.fatal && !a.success && Clean(e)
    ensures Inv(cfg, Admit(cfg, a, e))
  {
    if Required(cfg) != [] { AfterMore(Demands(cfg), a.log.events, e); }
  }

  lemma DenyKeeps(cfg: Config, a: Auth, isNone: bool)
    requires Going(cfg, a) && !a.fatal && !a.success
    ensures Inv(cfg, Deny(cfg, a, isNone))
  {
  }

  lemma FinishKeeps(cfg: Config, a: Auth, ok: bool, name: string, sub: Option<string>, rootDenied: bool)
    requires CleanTable(cfg.table) && Going(cfg, a) && !a.fatal && !a.success && CleanDevice(sub)
    ensures Inv(cfg, Finish(cfg, a, ok, name, sub, rootDenied))
  {
    var m := ByName(cfg.table, name);
    DenyKeeps(cfg, a, name == NONE);
    if m.Some? { DenyKeeps(cfg, a, m.value.name == NONE); }
    if ok && a.id.valid && !a.postponed && m.Some? {
      assert Clean(Event(m.value.name, None));
      AdmitKeeps(cfg, a, Event(m.value.name, sub));
    }
  }

  lemma AnswerKeeps(cfg: Config, a: Auth, p: Packet)
    requires CleanTable(cfg.table) && Going(cfg, a) && !a.fatal && !a.success && !a.postponed
    requires p.Request? && Plausible(p)
    ensures Inv(cfg, Answer(cfg, a, p))
  {
    var m := Lookup(cfg, a, p.name);
    if m.Some? && a.failures < cfg.maxTries {
      var b := a.(log := a.log.(starts := a.log.starts + [(a.failures, a.attempt)]));
      assert Going(cfg, b);
      PubkeyKeeps(cfg, b, p.pubkey);
      OtherKeeps(cfg, b, m.value.kind, p.other);
      var (c, ok) := RunHandler(a, m.value.kind, p);
      FinishKeeps(cfg, c, ok, p.name, None, p.rootDenied);
    } else {
      FinishKeeps(cfg, a, false, p.name, None, p.rootDenied);
    }
  }

  lemma RequestKeeps(cfg: Config, a: Auth, p: Packet)
    requires CleanTable(cfg.table)
    requires Inv(cfg, a) && !a.fatal && !a.success && p.Request? && Plausible(p)
    ensures Inv(cfg, HandleRequest(cfg, a, p))
  {
    var b := Identify(cfg, a, p);
    IdentifyKeeps(cfg, a, p);
    if !b.fatal { AnswerKeeps(cfg, Reset(b), p); }
  }

  lemma ResponseKeeps(cfg: Config, a: Auth, p: Packet)
    requires CleanTable(cfg.table)
    requires Inv(cfg, a) && !a.fatal && !a.success && p.InfoResponse? && Plausible(p) && a.awaiting.Some?
    ensures Inv(cfg, HandleResponse(cfg, a, p))
  {
    var ok := p.response.Accepted? && a.id.valid;
    FinishKeeps(cfg, Continued(a, p, ok), ok, KBDINT, a.awaiting, p.rootDenied);
  }

  lemma {:induction false} RunKeeps(cfg: Config, packets: seq<Packet>)
    requires Fair(cfg, packets)
    ensures Inv(cfg, Run(cfg, packets))
  {
    if packets != [] {
      var n := |packets| - 1;
      var a, p := Run(cfg, packets[..n]), packets[n];
      assert p in packets;
      RunKeeps(cfg, packets[..n]);
      if !a.fatal && !a.success {
        if p.Request? { RequestKeeps(cfg, a, p); } else if a.awaiting.Some? { ResponseKeeps(cfg, a, p); }
      }
    }
  }

  // ----- main results

  /** What no packet can break, not even one that ends the connection. */
  ghost predicate Safe(cfg: Config, a: Auth)
  {
    && a.attempt <= MAX_ATTEMPTS && KeysOnce(a)
    && (a.success ==> a.id.valid && !a.postponed)
    && (forall i :: 0 <= i < |a.log.starts| ==> a.log.starts[i].0 < cfg.maxTries && a.log.starts[i].1 <= MAX_ATTEMPTS)
  }

  /** Once a request was answered, too many failures have ended the connection. */
  ghost predicate Charged(cfg: Config, a: Auth) { a.fatal || a.attempt == 0 || a.failures < cfg.maxTries }

  lemma PubkeySafe(cfg: Config, a: Auth, p: PubkeyRequest)
    requires Safe(cfg, a) && !a.success
    ensures var b := Pubkey(a, p).0;
            Safe(cfg, b) && !b.success && b.failures == a.failures && b.attempt == a.attempt && b.fatal == a.fatal
  {
  }

  lemma OtherSafe(cfg: Config, a: Auth, kind: Kind, v: Verdict)
    requires Safe(cfg, a) && !a.success
    ensures var b := OtherHandler(a, kind, v).0;
            Safe(cfg, b) && !b.success && b.failures == a.failures && b.attempt == a.attempt && b.fatal == a.fatal
  {
  }

  lemma HandlerSafe(cfg: Config, a: Auth, kind: Kind, p: Packet)
    requires Safe(cfg, a) && !a.success && a.failures < cfg.maxTries && p.Request?
    ensures var b := RunHandler(a, kind, p).0;
            Safe(cfg, b) && !b.success && b.failures == a.failures && b.attempt == a.attempt && b.fatal == a.fatal
  {
    var b := a.(log := a.log.(starts := a.log.starts + [(a.failures, a.attempt)]));
    assert Safe(cfg, b);
    if kind.PubkeyKind? { PubkeySafe(cfg, b, p.pubkey); } else { OtherSafe(cfg, b, kind, p.other); }
  }

  lemma AdmitSafe(cfg: Config, a: Auth, e: Event)
    requires Safe(cfg, a) && !a.success && a.id.valid && !a.postponed && a.failures < cfg.maxTries
    ensures Safe(cfg, Admit(cfg, a, e)) && Charged(cfg, Admit(cfg, a, e))
  {
    var b := Admit(cfg, a, e);
    assert b == a.(log := a.log.(events := a.log.events + [e]), success := b.success,
                   pending := b.pending, fatal := b.fatal);
  }

  lemma DenySafe(cfg: Config, a: Auth, isNone: bool)
    requires Safe(cfg, a) && !a.success
    ensures Safe(cfg, Deny(cfg, a, isNone)) && Charged(cfg, Deny(cfg, a, isNone))
  {
  }

  lemma FinishSafe(cfg: Config, a: Auth, ok: bool, name: string, sub: Option<string>, rootDenied: bool)
    requires Safe(cfg, a) && !a.success && (ok || a.postponed ==> a.failures < cfg.maxTries)
    ensures var b := Finish(cfg, a, ok, name, sub, rootDenied); Safe(cfg, b) && Charged(cfg, b)
  {
    var m := ByName(cfg.table, name);
    if !ok {
      DenySafe(cfg, a, name == NONE);
    } else if a.id.valid && !a.postponed && m.Some? {
      DenySafe(cfg, a, m.value.name == NONE);
      AdmitSafe(cfg, a, Event(m.value.name, sub));
    }
  }

  lemma AnswerSafe(cfg: Config, a: Auth, p: Packet)
    requires Safe(cfg, a) && !a.success && !a.postponed && p.Request?
    ensures Safe(cfg, Answer(cfg, a, p)) && Charged(cfg, Answer(cfg, a, p))
  {
    var m := Lookup(cfg, a, p.name);
    if m.Some? && a.failures < cfg.maxTries {
      HandlerSafe(cfg, a, m.value.kind, p);
      var (b, ok) := RunHandler(a, m.value.kind, p);
      FinishSafe(cfg, b, ok, p.name, None, p.rootDenied);
    } else {
      FinishSafe(cfg, a, false, p.name, None, p.rootDenied);
    }
  }

  lemma IdentifySafe(cfg: Config, a: Auth, p: Packet)
    requires Safe(cfg, a) && !a.success && p.Request?
    ensures Safe(cfg, Identify(cfg, a, p)) && Safe(cfg, Reset(Identify(cfg, a, p))) && !Identify(cfg, a, p).success
  {
    var b := Identify(cfg, a, p);
    assert b.log == a.log;
  }

  lemma RequestSafe(cfg: Config, a: Auth, p: Packet)
    requires Safe(cfg, a) && !a.success && p.Request?
    ensures Safe(cfg, HandleRequest(cfg, a, p)) && Charged(cfg, HandleRequest(cfg, a, p))
  {
    var b := Identify(cfg, a, p);
    IdentifySafe(cfg, a, p);
    if !b.fatal { AnswerSafe(cfg, Reset(b), p); }
  }

  lemma ResponseSafe(cfg: Config, a: Auth, p: Packet)
    requires Safe(cfg, a) && !a.success && a.failures < cfg.maxTries && p.InfoResponse? && a.awaiting.Some?
    ensures Safe(cfg, HandleResponse(cfg, a, p)) && Charged(cfg, HandleResponse(cfg, a, p))
  {
    var ok := p.response.Accepted? && a.id.valid;
    FinishSafe(cfg, Continued(a, p, ok), ok, KBDINT, a.awaiting, p.rootDenied);
  }

  /** A response is awaited only after a request. */
  predicate Begun(a: Auth) { a.awaiting.Some? ==> a.attempt > 0 }

  lemma HandleBegun(cfg: Config, a: Auth, p: Packet)
    requires Begun(a)
    ensures Begun(Handle(cfg, a, p))
  {
    if !a.fatal && !a.success && p.Request? {
      var b := Identify(cfg, a, p);
      if !b.fatal { AnswerKeepsIdentity(cfg, Reset(b), p); }
    } else if a.attempt > 0 {
      HandleKeepsIdentity(cfg, a, p);
    }
  }

  lemma {:induction false} RunSafe(cfg: Config, packets: seq<Packet>)
    ensures var a := Run(cfg, packets); Safe(cfg, a) && Charged(cfg, a) && Begun(a)
  {
    if packets != [] {
      var n := |packets| - 1;
      var a, p := Run(cfg, packets[..n]), packets[n];
      RunSafe(cfg, packets[..n]);
      HandleBegun(cfg, a, p);
      if !a.fatal && !a.success {
        if p.Request? { RequestSafe(cfg, a, p); } else if a.awaiting.Some? { ResponseSafe(cfg, a, p); }
      }
    }
  }

  /** In every run, the ones that are cut off included: handlers start only below
      max_authtries failures and within 1024 attempts, success is granted only to a valid
      user with nothing postponed, and a run that goes on has failures below the limit. */
  lemma TriesBounded(cfg: Config, packets: seq<Packet>)
    ensures var a := Run(cfg, packets);
            && a.attempt <= MAX_ATTEMPTS
            && (forall i :: 0 <= i < |a.log.starts| ==>
                  a.log.starts[i].0 < cfg.maxTries && a.log.starts[i].1 <= MAX_ATTEMPTS)
            && (a.success ==> a.id.valid && !a.postponed)
            && (!a.fatal && a.attempt > 0 ==> a.failures < cfg.maxTries)
  {
    RunSafe(cfg, packets);
  }

  /** In every run no two successes of publickey authentication use equal public keys. */
  lemma KeysNeverReused(cfg: Config, packets: seq<Packet>)
    ensures var w := Run(cfg, packets).log.wins;
            forall i, j :: 0 <= i < j < |w| ==> !EqualPublic(w[i], w[j])
  {
    RunSafe(cfg, packets);
  }

  ghost predicate Satisfied(lists: seq<string>, events: seq<Event>)
  {
    exists j :: 0 <= j < |lists| && IsSubsequence(Items(lists[j]), events)
  }

  lemma CompletedMeaning(lists: seq<string>, events: seq<Event>)
    requires Usable(lists) && (forall e :: e in events ==> Clean(e)) && Completed(lists, events)
    ensures Satisfied(lists, events) && !Satisfied(lists, events[..|events| - 1])
  {
    var front, e := events[..|events| - 1], events[|events| - 1];
    assert front + [e] == events;
    FrontIsClean(front, e);
    CompletingMeaning(lists, front, e);
  }

  lemma FrontIsClean(front: seq<Event>, e: Event)
    requires forall x :: x in front + [e] ==> Clean(x)
    ensures Clean(e) && forall x :: x in front ==> Clean(x)
  {
    assert e in front + [e];
  }

  lemma CompletingMeaning(lists: seq<string>, events: seq<Event>, e: Event)
    requires Usable(lists) && Clean(e) && (forall x :: x in events ==> Clean(x)) && After(lists, events).Some?
    requires UpdateLists(After(lists, events).value, e).Complete?
    ensures Satisfied(lists, events + [e]) && !Satisfied(lists, events)
  {
    CompletesWhenSubsequence(lists, events, e);
  }

  lemma PendingMeaning(lists: seq<string>, events: seq<Event>)
    requires Usable(lists) && (forall e :: e in events ==> Clean(e)) && After(lists, events).Some?
    ensures !Satisfied(lists, events)
  {
    CompletesWhenSubsequence(lists, events, Event("x", None));
  }

  /** Authentication has succeeded exactly when the successes so far contain some required
      list as a subsequence, and then the last of them was needed: it stopped at the first
      such event.  With no required list, the first success is enough. */
  lemma SuccessIffListMet(cfg: Config, packets: seq<Packet>)
    requires Fair(cfg, packets) && !Run(cfg, packets).fatal
    ensures var a := Run(cfg, packets);
            if Required(cfg) == [] then a.success <==> a.log.events != []
            else a.attempt > 0 ==>
              && (a.success <==> Satisfied(Demands(cfg), a.log.events))
              && (a.success ==> a.log.events != [] && !Satisfied(Demands(cfg), a.log.events[..|a.log.events| - 1]))
  {
    var a := Run(cfg, packets);
    RunKeeps(cfg, packets);
    ValidListsUsable(cfg, Required(cfg));
    if Completed(Demands(cfg), a.log.events) { CompletedMeaning(Demands(cfg), a.log.events); }
    if After(Demands(cfg), a.log.events).Some? { PendingMeaning(Demands(cfg), a.log.events); }
  }

  // ----- what every success rests on

  /** The request carries a key the server accepts and a signature by it that the server verified. */
  ghost predicate Signs(p: PubkeyRequest, key: Key)
  {
    p.key == Some(key) && p.accepted && p.signed && p.allowed && p.verified && p.touched && p.consistent
  }

  /** The packet makes the server remember the key: a signature by it verified, whether or not the
      key's options were then accepted, or another method reports it. */
  ghost predicate Presents(p: Packet, key: Key)
  {
    p.Request? && (Signs(p.pubkey.(consistent := true), key) || p.other.recorded == Some(key))
  }

  /** The packet is what a success of the method and submethod in `e` has to rest on. */
  ghost predicate Grants(cfg: Config, p: Packet, e: Event)
  {
    match p
    case Request(_, _, name, _, rootDenied, pubkey, v) =>
      var m := ByName(cfg.table, name);
      && m.Some? && e == Event(m.value.name, None) && !rootDenied
      && (m.value.kind.NoneKind? || m.value.name in cfg.enabled)
      && if m.value.kind.PubkeyKind? then exists key :: Signs(pubkey, key)
         else !m.value.kind.KbdintKind? && v.authenticated && !v.postponed
    case InfoResponse(response, _, rootDenied) =>
      var m := ByName(cfg.table, KBDINT);
      m.Some? && e.name == m.value.name && e.sub.Some? && !rootDenied && response.Accepted?
  }

  /** A publickey request of a valid user authenticates exactly when the key is unused and signs,
      and exactly then it is recorded as a success. */
  lemma PubkeyIff(a: Auth, p: Packet)
    requires p.Request?
    ensures var (b, ok) := RunHandler(a, PubkeyKind, p);
            && (ok <==> a.id.valid && exists key :: Signs(p.pubkey, key) && !KeyUsed(a.prevKeys, key))
            && (forall key :: ok && Signs(p.pubkey, key) ==> b.log.wins == a.log.wins + [key])
            && (!ok ==> b.log.wins == a.log.wins)
            && b.log.events == a.log.events && (ok ==> b.postponed == a.postponed)
            && (b.prevKeys == a.prevKeys || exists key :: Presents(p, key) && b.prevKeys == a.prevKeys + [key])
  {
    var (b, ok) := RunHandler(a, PubkeyKind, p);
    if p.pubkey.key.Some? {
      var key := p.pubkey.key.value;
      assert ok ==> Signs(p.pubkey, key);
      if b.prevKeys != a.prevKeys { assert Presents(p, key); }
    }
  }

  lemma OtherIff(a: Auth, kind: Kind, p: Packet)
    requires p.Request? && !kind.PubkeyKind?
    ensures var (b, ok) := RunHandler(a, kind, p);
            && (ok <==> p.other.authenticated && !kind.KbdintKind?)
            && b.log.wins == a.log.wins && b.log.events == a.log.events && b.postponed == p.other.postponed
            && (b.prevKeys == a.prevKeys || exists key :: Presents(p, key) && b.prevKeys == a.prevKeys + [key])
  {
    if p.other.recorded.Some? { assert Presents(p, p.other.recorded.value); }
  }

  /** Every success is written down, and nothing else is. */
  lemma FinishLogs(cfg: Config, a: Auth, ok: bool, name: string, sub: Option<string>, rootDenied: bool)
    ensures var b := Finish(cfg, a, ok, name, sub, rootDenied);
            var m := ByName(cfg.table, name);
            && b.log.wins == a.log.wins && b.prevKeys == a.prevKeys
            && b.log.events == a.log.events +
                 if ok && a.id.valid && !a.postponed && m.Some? && !rootDenied then [Event(m.value.name, sub)] else []
  {
    assert a.log.events + [] == a.log.events;
  }

  /** What one packet adds to the history rests on that packet. */
  ghost predicate Rests(cfg: Config, a: Auth, b: Auth, p: Packet)
  {
    && (b.log.wins == a.log.wins
        || (p.Request? && exists key :: Signs(p.pubkey, key) && b.log.wins == a.log.wins + [key]))
    && (b.log.events == a.log.events || exists e :: Grants(cfg, p, e) && b.log.events == a.log.events + [e])
    && (b.prevKeys == a.prevKeys || exists key :: Presents(p, key) && b.prevKeys == a.prevKeys + [key])
  }

  lemma AnswerRests(cfg: Config, a: Auth, p: Packet)
    requires p.Request?
    ensures Rests(cfg, a, Answer(cfg, a, p), p)
  {
    var m := Lookup(cfg, a, p.name);
    if m.Some? && a.failures < cfg.maxTries {
      var (b, ok) := RunHandler(a, m.value.kind, p);
      FinishLogs(cfg, b, ok, p.name, None, p.rootDenied);
      if m.value.kind.PubkeyKind? { PubkeyIff(a, p); } else { OtherIff(a, m.value.kind, p); }
      HandlersKeepIdentity(a, m.value.kind, p);
    } else {
      FinishLogs(cfg, a, false, p.name, None, p.rootDenied);
    }
  }

  lemma ResponseRests(cfg: Config, a: Auth, p: Packet)
    requires p.InfoResponse? && a.awaiting.Some?
    ensures Rests(cfg, a, HandleResponse(cfg, a, p), p)
  {
    var ok := p.response.Accepted? && a.id.valid;
    FinishLogs(cfg, Continued(a, p, ok), ok, KBDINT, a.awaiting, p.rootDenied);
  }

  lemma HandleRests(cfg: Config, a: Auth, p: Packet)
    ensures Rests(cfg, a, Handle(cfg, a, p), p)
  {
    if !a.fatal && !a.success {
      if p.Request? {
        var b := Identify(cfg, a, p);
        assert b.log == a.log;
        if !b.fatal { AnswerRests(cfg, Reset(b), p); }
      } else if a.awaiting.Some? {
        ResponseRests(cfg, a, p);
      }
    }
  }

  /** `at` are ascending positions in a run of n packets. */
  ghost predicate Ascending(at: seq<nat>, n: nat)
  {
    && (forall i :: 0 <= i < |at| ==> at[i] < n)
    && (forall i, j :: 0 <= i < j < |at| ==> at[i] < at[j])
  }

  /** The keys signed the requests at those positions, one each and in that order. */
  ghost predicate SignedAt(packets: seq<Packet>, keys: seq<Key>, at: seq<nat>)
  {
    && |at| == |keys| && Ascending(at, |packets|)
    && forall i :: 0 <= i < |at| ==> packets[at[i]].Request? && Signs(packets[at[i]].pubkey, keys[i])
  }

  /** The packets at those positions grant the events, one each and in that order. */
  ghost predicate GrantedAt(cfg: Config, packets: seq<Packet>, events: seq<Event>, at: seq<nat>)
  {
    && |at| == |events| && Ascending(at, |packets|)
    && forall i :: 0 <= i < |at| ==> Grants(cfg, packets[at[i]], events[i])
  }

  lemma SignedMore(packets: seq<Packet>, p: Packet, keys: seq<Key>, at: seq<nat>)
    requires SignedAt(packets, keys, at)
    ensures SignedAt(packets + [p], keys, at)
    ensures forall key :: p.Request? && Signs(p.pubkey, key) ==> SignedAt(packets + [p], keys + [key], at + [|packets|])
  {
  }

  lemma GrantedMore(cfg: Config, packets: seq<Packet>, p: Packet, events: seq<Event>, at: seq<nat>)
    requires GrantedAt(cfg, packets, events, at)
    ensures GrantedAt(cfg, packets + [p], events, at)
    ensures forall e :: Grants(cfg, p, e) ==> GrantedAt(cfg, packets + [p], events + [e], at + [|packets|])
  {
  }

  ghost predicate Traced(cfg: Config, packets: seq<Packet>, log: History)
  {
    (exists at :: SignedAt(packets, log.wins, at)) && (exists at :: GrantedAt(cfg, packets, log.events, at))
  }

  lemma TracedMore(cfg: Config, packets: seq<Packet>, p: Packet, a: Auth, b: Auth)
    requires Traced(cfg, packets, a.log) && Rests(cfg, a, b, p)
    ensures Traced(cfg, packets + [p], b.log)
  {
    var at :| SignedAt(packets, a.log.wins, at);
    SignedMore(packets, p, a.log.wins, at);
    var to :| GrantedAt(cfg, packets, a.log.events, to);
    GrantedMore(cfg, packets, p, a.log.events, to);
  }

  /** In every run the keys that succeeded came, in order, in requests of the run that were signed
      by them, the signature verified and every other check passed; and the successes handed to
      the lists rest, in order and one for one, on packets of the run that grant them. */
  lemma {:induction false} SuccessesAreProved(cfg: Config, packets: seq<Packet>)
    ensures Traced(cfg, packets, Run(cfg, packets).log)
  {
    if packets == [] {
      assert SignedAt(packets, [], []) && GrantedAt(cfg, packets, [], []);
    } else {
      var front, p := packets[..|packets| - 1], packets[|packets| - 1];
      assert front + [p] == packets;
      SuccessesAreProved(cfg, front);
      HandleRests(cfg, Run(cfg, front), p);
      TracedMore(cfg, front, p, Run(cfg, front), Run(cfg, packets));
    }
  }

  ghost predicate PresentedIn(packets: seq<Packet>, key: Key)
  {
    exists n :: 0 <= n < |packets| && Presents(packets[n], key)
  }

  lemma PresentedLater(packets: seq<Packet>, p: Packet, key: Key)
    ensures PresentedIn(packets, key) || Presents(p, key) ==> PresentedIn(packets + [p], key)
  {
    var all := packets + [p];
    if Presents(p, key) { assert Presents(all[|packets|], key); }
    if PresentedIn(packets, key) {
      var n :| 0 <= n < |packets| && Presents(packets[n], key);
      assert Presents(all[n], key);
    }
  }

  /** A key counts as used only if some packet of the run presented it. */
  lemma {:induction false} UsedWerePresented(cfg: Config, packets: seq<Packet>)
    ensures forall i :: 0 <= i < |Run(cfg, packets).prevKeys| ==> PresentedIn(packets, Run(cfg, packets).prevKeys[i])
  {
    if packets != [] {
      var front, p := packets[..|packets| - 1], packets[|packets| - 1];
      assert front + [p] == packets;
      UsedWerePresented(cfg, front);
      HandleRests(cfg, Run(cfg, front), p);
      var keys := Run(cfg, packets).prevKeys;
      forall i | 0 <= i < |keys| ensures PresentedIn(packets, keys[i]) { PresentedLater(front, p, keys[i]); }
    }
  }

  lemma RunMore(cfg: Config, packets: seq<Packet>, p: Packet)
    ensures Run(cfg, packets + [p]) == Handle(cfg, Run(cfg, packets), p)
  {
    assert (packets + [p])[..|packets|] == packets;
  }

  /** The run goes on, and the request passes the checks that come before any method. */
  ghost predicate Heard(cfg: Config, a: Auth, p: Packet)
  {
    !a.fatal && !a.success && p.Request? && !Identify(cfg, a, p).fatal
  }

  /** Conversely a request of a valid user that is signed by an unused key always counts: it is
      recorded, and without required lists it logs the user in unless root is refused. */
  lemma ProofSucceeds(cfg: Config, packets: seq<Packet>, p: Packet, m: Authmethod, key: Key)
    requires Heard(cfg, Run(cfg, packets), p) && Run(cfg, packets).failures < cfg.maxTries
    requires Identify(cfg, Run(cfg, packets), p).id.valid
    requires Lookup(cfg, Identify(cfg, Run(cfg, packets), p), p.name) == Some(m) && m.kind.PubkeyKind?
    requires Signs(p.pubkey, key) && !KeyUsed(Run(cfg, packets).prevKeys, key)
    ensures var a, b := Run(cfg, packets), Run(cfg, packets + [p]);
            && b.log.wins == a.log.wins + [key]
            && (!p.rootDenied ==> b.log.events == a.log.events + [Event(m.name, None)])
            && (!p.rootDenied && Required(cfg) == [] ==> b.success)
  {
    RunMore(cfg, packets, p);
    ProofAnswered(cfg, Reset(Identify(cfg, Run(cfg, packets), p)), p, m, key);
  }

  lemma ProofAnswered(cfg: Config, a: Auth, p: Packet, m: Authmethod, key: Key)
    requires p.Request? && a.id.valid && !a.postponed && a.failures < cfg.maxTries
    requires Lookup(cfg, a, p.name) == Some(m) && m.kind.PubkeyKind?
    requires Signs(p.pubkey, key) && !KeyUsed(a.prevKeys, key)
    ensures var b := Answer(cfg, a, p);
            && b.log.wins == a.log.wins + [key]
            && (!p.rootDenied ==> b.log.events == a.log.events + [Event(m.name, None)])
            && (!p.rootDenied && Required(cfg) == [] ==> b.success)
  {
    PubkeyIff(a, p);
    var (b, ok) := RunHandler(a, m.kind, p);
    HandlersKeepIdentity(a, m.kind, p);
    FinishLogs(cfg, b, ok, p.name, None, p.rootDenied);
  }

  // ----- which methods are tried

  /** The name is in the table, the method is switched on ("none" until it was tried), some pending
      list starts with it if lists are required, and the limit is not reached. */
  ghost predicate Tried(cfg: Config, a: Auth, name: string)
  {
    var m := ByName(cfg.table, name);
    && m.Some? && a.failures < cfg.maxTries
    && (if m.value.kind.NoneKind? then a.noneEnabled else m.value.name in cfg.enabled)
    && (Required(cfg) == [] ||
        exists i :: 0 <= i < |a.pending| && ListStartsWith(a.pending[i], m.value.name, None) != NoMatch)
  }

  /** Trying the method is recorded, and "none" is off once it was tried. */
  ghost predicate TriesOnce(cfg: Config, a: Auth, name: string, b: Auth)
  {
    var tried := Tried(cfg, a, name);
    var isNone := ByName(cfg.table, name).Some? && ByName(cfg.table, name).value.kind.NoneKind?;
    && b.log.starts == a.log.starts + (if tried then [(a.failures, a.attempt)] else [])
    && b.noneEnabled == (a.noneEnabled && !(tried && isNone))
  }

  lemma DenyStarts(cfg: Config, a: Auth, isNone: bool)
    ensures Deny(cfg, a, isNone).log == a.log && Deny(cfg, a, isNone).noneEnabled == a.noneEnabled
  {
  }

  lemma AdmitStarts(cfg: Config, a: Auth, e: Event)
    ensures Admit(cfg, a, e).log.starts == a.log.starts && Admit(cfg, a, e).noneEnabled == a.noneEnabled
  {
    var b := a.(log := a.log.(events := a.log.events + [e]));
    AdmittedStarts(cfg, b, UpdateLists(a.pending, e), a.failures);
  }

  lemma AdmittedStarts(cfg: Config, b: Auth, u: Update, failures: nat)
    ensures var c := match u
                     case NotListed => b.(fatal := true)
                     case Complete(ls) => b.(pending := ls, success := true)
                     case Continue(ls) => b.(pending := ls, fatal := failures >= cfg.maxTries);
            c.log == b.log && c.noneEnabled == b.noneEnabled
  {
  }

  lemma FinishStarts(cfg: Config, a: Auth, ok: bool, name: string, sub: Option<string>, rootDenied: bool)
    ensures var b := Finish(cfg, a, ok, name, sub, rootDenied);
            b.log.starts == a.log.starts && b.noneEnabled == a.noneEnabled
  {
    var m := ByName(cfg.table, name);
    DenyStarts(cfg, a, name == NONE);
    if m.Some? {
      DenyStarts(cfg, a, m.value.name == NONE);
      AdmitStarts(cfg, a, Event(m.value.name, sub));
    }
  }

  lemma HandlerStarts(a: Auth, kind: Kind, p: Packet)
    requires p.Request?
    ensures var b := RunHandler(a, kind, p).0;
            && b.log.starts == a.log.starts + [(a.failures, a.attempt)]
            && b.noneEnabled == (a.noneEnabled && !kind.NoneKind?)
  {
  }

  lemma AnswerTries(cfg: Config, a: Auth, p: Packet)
    requires p.Request?
    ensures TriesOnce(cfg, a, p.name, Answer(cfg, a, p))
  {
    var m := Lookup(cfg, a, p.name);
    if m.Some? && a.failures < cfg.maxTries {
      var (b, ok) := RunHandler(a, m.value.kind, p);
      HandlerStarts(a, m.value.kind, p);
      FinishStarts(cfg, b, ok, p.name, None, p.rootDenied);
    } else {
      FinishStarts(cfg, a, false, p.name, None, p.rootDenied);
      assert a.log.starts + [] == a.log.starts;
    }
  }

  /** A handler is started for exactly those requests. */
  lemma HandlerStartsIff(cfg: Config, packets: seq<Packet>, p: Packet)
    requires Heard(cfg, Run(cfg, packets), p)
    ensures TriesOnce(cfg, Identify(cfg, Run(cfg, packets), p), p.name, Run(cfg, packets + [p]))
  {
    RunMore(cfg, packets, p);
    AnswerTries(cfg, Reset(Identify(cfg, Run(cfg, packets), p)), p);
  }

  // ----- the keyboard-interactive dialogue

  /** A request that a device answers with questions starts a dialogue with that device. */
  lemma DialogueStarts(cfg: Config, packets: seq<Packet>, p: Packet, m: Authmethod)
    requires Heard(cfg, Run(cfg, packets), p) && Run(cfg, packets).failures < cfg.maxTries
    requires Lookup(cfg, Identify(cfg, Run(cfg, packets), p), p.name) == Some(m) && m.kind.KbdintKind?
    requires p.other.postponed
    ensures var a, b := Run(cfg, packets), Run(cfg, packets + [p]);
            !b.fatal && !b.success && b.awaiting == Some(p.other.device) && b.failures == a.failures
  {
    RunMore(cfg, packets, p);
    AnswerStarts(cfg, Reset(Identify(cfg, Run(cfg, packets), p)), p, m);
  }

  lemma AnswerStarts(cfg: Config, a: Auth, p: Packet, m: Authmethod)
    requires p.Request? && a.failures < cfg.maxTries && Lookup(cfg, a, p.name) == Some(m)
    requires m.kind.KbdintKind? && p.other.postponed
    ensures var b := Answer(cfg, a, p);
            && b.fatal == a.fatal && b.success == a.success && b.failures == a.failures
            && b.awaiting == Some(p.other.device)
  {
  }

  /** The dialogue goes on when the device asks again, moves to the next device when there is one,
      and ends with the event of the device that accepted the answers, or with a failure. */
  lemma DialogueGoes(cfg: Config, packets: seq<Packet>, p: Packet)
    requires var a := Run(cfg, packets); !a.fatal && !a.success && a.awaiting.Some? && a.id.valid
    requires p.InfoResponse? && ByName(cfg.table, KBDINT).Some?
    ensures Answered(cfg, Run(cfg, packets), p, Run(cfg, packets + [p]))
  {
    RunMore(cfg, packets, p);
    ResponseAnswered(cfg, Run(cfg, packets), p);
  }

  lemma ResponseAnswered(cfg: Config, a: Auth, p: Packet)
    requires !a.fatal && !a.success && a.awaiting.Some? && a.id.valid
    requires p.InfoResponse? && ByName(cfg.table, KBDINT).Some?
    ensures Answered(cfg, a, p, HandleResponse(cfg, a, p))
  {
    var ok := p.response.Accepted?;
    FinishLogs(cfg, Continued(a, p, ok), ok, KBDINT, a.awaiting, p.rootDenied);
  }

  /** How a response to the device that was asked changes the state. */
  ghost predicate Answered(cfg: Config, a: Auth, p: Packet, b: Auth)
    requires p.InfoResponse? && ByName(cfg.table, KBDINT).Some?
  {
    var e := Event(ByName(cfg.table, KBDINT).value.name, a.awaiting);
    var again := p.response == More(true);
    && (again ==> b == a.(postponed := true))
    && (p.response.Accepted? && !p.rootDenied ==> b.log.events == a.log.events + [e] && b.awaiting.None?)
    && (!p.response.Accepted? && !again && p.next.Some? ==> b == a.(postponed := true, awaiting := p.next))
    && (!p.response.Accepted? && !again && p.next.None? ==>
          !b.success && b.awaiting.None? && b.failures == a.failures + if a.serverCaused then 0 else 1)
  }

  // ----- what every refusal costs

  /** The request neither proves anything nor asks to go on, and no fault of the server excuses it. */
  ghost predicate Refused(p: Packet)
  {
    && p.Request? && p.name != NONE
    && !p.other.authenticated && !p.other.postponed && !p.other.serverCaused
    && (!p.pubkey.signed ==> !p.pubkey.allowed) && !exists key :: Signs(p.pubkey, key)
  }

  ghost function Refusals(packets: seq<Packet>): nat
  {
    if packets == [] then 0
    else Refusals(packets[..|packets| - 1]) + if Refused(packets[|packets| - 1]) then 1 else 0
  }

  lemma HandlerRefuses(a: Auth, kind: Kind, p: Packet)
    requires Refused(p) && !a.postponed && !a.serverCaused
    ensures var (b, ok) := RunHandler(a, kind, p);
            && !ok && !b.postponed && !b.serverCaused
            && b.failures == a.failures && b.attempt == a.attempt && b.success == a.success
  {
    if kind.PubkeyKind? { PubkeyIff(a, p); }
  }

  lemma AnswerRefuses(cfg: Config, a: Auth, p: Packet)
    requires Refused(p) && !a.postponed && !a.serverCaused && !a.success
    ensures var b := Answer(cfg, a, p);
            b.failures == a.failures + 1 && !b.success && (b.fatal <==> b.failures >= cfg.maxTries)
  {
    var m := Lookup(cfg, a, p.name);
    if m.Some? && a.failures < cfg.maxTries { HandlerRefuses(a, m.value.kind, p); }
  }

  /** A refused request is charged, and ends the connection exactly when it reaches the limit. */
  lemma RefusalCharged(cfg: Config, packets: seq<Packet>, p: Packet)
    requires Refused(p) && Heard(cfg, Run(cfg, packets), p)
    ensures var a, b := Run(cfg, packets), Run(cfg, packets + [p]);
            b.failures == a.failures + 1 && !b.success && (b.fatal <==> b.failures >= cfg.maxTries)
  {
    RunMore(cfg, packets, p);
    AnswerRefuses(cfg, Reset(Identify(cfg, Run(cfg, packets), p)), p);
  }

  lemma FinishCharges(cfg: Config, a: Auth, ok: bool, name: string, sub: Option<string>, rootDenied: bool)
    ensures Finish(cfg, a, ok, name, sub, rootDenied).failures >= a.failures
  {
  }

  lemma AnswerCharges(cfg: Config, a: Auth, p: Packet)
    requires p.Request?
    ensures Answer(cfg, a, p).failures >= a.failures
  {
    var m := Lookup(cfg, a, p.name);
    if m.Some? && a.failures < cfg.maxTries {
      var (b, ok) := RunHandler(a, m.value.kind, p);
      FinishCharges(cfg, b, ok, p.name, None, p.rootDenied);
    } else {
      FinishCharges(cfg, a, false, p.name, None, p.rootDenied);
    }
  }

  lemma HandleCharges(cfg: Config, a: Auth, p: Packet)
    ensures Handle(cfg, a, p).failures >= a.failures
  {
    if !a.fatal && !a.success {
      if p.Request? {
        AnswerCharges(cfg, Reset(Identify(cfg, a, p)), p);
      } else if a.awaiting.Some? {
        var ok := p.response.Accepted? && a.id.valid;
        FinishCharges(cfg, Continued(a, p, ok), ok, KBDINT, a.awaiting, p.rootDenied);
      }
    }
  }

  /** Guessing is bounded: as long as a run is neither cut off nor successful, each of its refused
      requests has been charged, so that it contains fewer of them than max_authtries. */
  lemma {:induction false} GuessesBounded(cfg: Config, packets: seq<Packet>)
    requires var a := Run(cfg, packets); !a.fatal && !a.success
    ensures Refusals(packets) <= Run(cfg, packets).failures
    ensures Refusals(packets) > 0 ==> Refusals(packets) < cfg.maxTries
  {
    if packets != [] {
      var front, p := packets[..|packets| - 1], packets[|packets| - 1];
      assert front + [p] == packets;
      GuessesBounded(cfg, front);
      HandleCharges(cfg, Run(cfg, front), p);
      if Refused(p) { RefusalCharged(cfg, front, p); }
    }
  }

  ghost predicate SameIdentity(a: Auth, b: Auth)
  {
    b.attempt >= a.attempt && b.id == a.id
  }

  lemma HandlersKeepIdentity(a: Auth, kind: Kind, p: Packet)
    requires p.Request?
    ensures SameIdentity(a, RunHandler(a, kind, p).0)
  {
  }

  lemma FinishKeepsIdentity(cfg: Config, a: Auth, ok: bool, name: string, sub: Option<string>, rootDenied: bool)
    ensures SameIdentity(a, Finish(cfg, a, ok, name, sub, rootDenied))
  {
  }

  lemma AnswerKeepsIdentity(cfg: Config, a: Auth, p: Packet)
    requires p.Request?
    ensures SameIdentity(a, Answer(cfg, a, p))
  {
    var m := Lookup(cfg, a, p.name);
    if m.Some? && a.failures < cfg.maxTries {
      HandlersKeepIdentity(a, m.value.kind, p);
      var (b, ok) := RunHandler(a, m.value.kind, p);
      FinishKeepsIdentity(cfg, b, ok, p.name, None, p.rootDenied);
    } else {
      FinishKeepsIdentity(cfg, a, false, p.name, None, p.rootDenied);
    }
  }

  lemma HandleKeepsIdentity(cfg: Config, a: Auth, p: Packet)
    requires a.attempt > 0
    ensures SameIdentity(a, Handle(cfg, a, p))
  {
    if p.Request? {
      AnswerKeepsIdentity(cfg, Reset(Identify(cfg, a, p)), p);
    } else if a.awaiting.Some? {
      var ok := p.response.Accepted? && a.id.valid;
      FinishKeepsIdentity(cfg, Continued(a, p, ok), ok, KBDINT, a.awaiting, p.rootDenied);
    }
  }

  lemma PacketKeepsIdentity(cfg: Config, a: Auth, packets: seq<Packet>)
    requires packets != [] && a.attempt > 0 && SameIdentity(a, Run(cfg, packets[..|packets| - 1]))
    ensures SameIdentity(a, Run(cfg, packets))
  {
    HandleKeepsIdentity(cfg, Run(cfg, packets[..|packets| - 1]), packets[|packets| - 1]);
  }

  lemma {:induction false} PacketsKeepIdentity(cfg: Config, a: Auth, packets: seq<Packet>, i: nat)
    requires i <= |packets| && a.attempt > 0 && SameIdentity(a, Run(cfg, packets[..i]))
    ensures SameIdentity(a, Run(cfg, packets))
  {
    if i == |packets| {
      assert packets[..i] == packets;
    } else {
      var front := packets[..|packets| - 1];
      assert front[..i] == packets[..i];
      PacketsKeepIdentity(cfg, a, front, i);
      PacketKeepsIdentity(cfg, a, packets);
    }
  }

  /** User, service and validity are settled by the first request. */
  lemma IdentityFixed(cfg: Config, packets: seq<Packet>, more: seq<Packet>)
    requires Run(cfg, packets).attempt > 0
    ensures SameIdentity(Run(cfg, packets), Run(cfg, packets + more))
  {
    assert (packets + more)[..|packets|] == packets;
    PacketsKeepIdentity(cfg, Run(cfg, packets), packets + more, |packets|);
  }

  /** A later request for another user or service ends the connection. */
  lemma OtherUserEnds(cfg: Config, packets: seq<Packet>, p: Packet)
    requires var a := Run(cfg, packets); !a.fatal && !a.success && a.attempt > 0
    requires p.Request? && (CutStyle(p.user) != Run(cfg, packets).id.user || p.service != Run(cfg, packets).id.service)
    ensures Run(cfg, packets + [p]).fatal && !Run(cfg, packets + [p]).success
  {
    RunMore(cfg, packets, p);
  }

  /** The n-th packet is the first request of the run. */
  ghost predicate FirstRequest(packets: seq<Packet>, n: nat)
  {
    n < |packets| && packets[n].Request? && forall k :: 0 <= k < n ==> packets[k].InfoResponse?
  }

  lemma {:induction false} NothingBegun(cfg: Config, packets: seq<Packet>)
    requires forall k :: 0 <= k < |packets| ==> packets[k].InfoResponse?
    ensures Run(cfg, packets) == Fresh
  {
    if packets != [] { NothingBegun(cfg, packets[..|packets| - 1]); }
  }

  lemma Introduced(cfg: Config, p: Packet)
    requires p.Request?
    ensures var a := Handle(cfg, Fresh, p);
            a.attempt > 0 && a.id == Identity(CutStyle(p.user), p.service, p.known && p.service == SERVICE)
  {
    var b := Identify(cfg, Fresh, p);
    if !b.fatal { AnswerKeepsIdentity(cfg, Reset(b), p); }
  }

  lemma BegunAt(cfg: Config, packets: seq<Packet>, n: nat)
    requires FirstRequest(packets, n)
    ensures var a, p := Run(cfg, packets[..n + 1]), packets[n];
            a.attempt > 0 && a.id == Identity(CutStyle(p.user), p.service, p.known && p.service == SERVICE)
  {
    assert packets[..n + 1][..n] == packets[..n];
    NothingBegun(cfg, packets[..n]);
    Introduced(cfg, packets[n]);
  }

  /** The first request alone says who is authenticated: the user before the style, the service, and
      valid only for a known user of the connection service. */
  lemma FirstRequestDecides(cfg: Config, packets: seq<Packet>, n: nat)
    requires FirstRequest(packets, n)
    ensures var p := packets[n];
            Run(cfg, packets).id == Identity(CutStyle(p.user), p.service, p.known && p.service == SERVICE)
  {
    var a := Run(cfg, packets[..n + 1]);
    BegunAt(cfg, packets, n);
    PacketsKeepIdentity(cfg, a, packets, n + 1);
  }

  // ----- the functions of auth2.c that update the context in place

  method HasName(table: seq<Authmethod>, name: string) returns (found: bool)
    ensures found == IsName(table, name)
  {
    for i := 0 to |table|
      invariant forall j :: 0 <= j < i ==> table[j].name != name
    {
      if table[i].name == name { return true; }
    }
    found := false;
  }

  /** auth2_methods_valid with need_enable set: walks the tokens with strsep. */
  method MethodsValid(cfg: Config, list: string) returns (ok: bool)
    ensures ok == ValidList(cfg, list)
  {
    if list == "" { return false; }
    var rest := Some(list);
    while rest.Some?
      invariant AllOn(cfg, list) <==> (rest.Some? ==> AllOn(cfg, rest.value))
      decreases if rest.Some? then |rest.value| + 1 else 0
    {
      AllOnByToken(cfg, rest.value);
      var k := Find(rest.value, ',');
      var name := ParseItem(rest.value[..k]).name;
      var found := HasName(cfg.table, name);
      if !found || !(name in cfg.enabled || name == NONE) { return false; }
      rest := if k == |rest.value| then None else Some(rest.value[k + 1..]);
    }
    ok := true;
  }

  class Authctxt {
    const cfg: Config
    var attempt: nat
    var failures: nat
    var user: string
    var service: string
    var valid: bool
    var postponed: bool
    var serverCaused: bool
    var success: bool
    var fatal: bool
    var noneEnabled: bool
    var awaiting: Option<string>
    var authMethods: seq<string>
    var prevKeys: seq<Key>
    ghost var events: seq<Event>
    ghost var wins: seq<Key>
    ghost var starts: seq<(nat, nat)>

    ghost function Value(): Auth
      reads this
    {
      Auth(attempt, failures, Identity(user, service, valid), postponed, serverCaused, success, fatal,
           noneEnabled, awaiting, authMethods, prevKeys, History(events, wins, starts))
    }

    constructor (cfg: Config)
      ensures Value() == Fresh && this.cfg == cfg
    {
      this.cfg := cfg;
      attempt, failures, user, service := 0, 0, "", "";
      valid, postponed, serverCaused, success, fatal := false, false, false, false, false;
      noneEnabled, awaiting, authMethods, prevKeys := true, None, [], [];
      events, wins, starts := [], [], [];
    }

    /** Fails when lists are required and every one of them names a disabled method. */
    method SetupMethodsLists() returns (ok: bool)
      modifies this`authMethods
      ensures ok <==> Required(cfg) == [] || Demands(cfg) != []
      ensures authMethods == if Required(cfg) == [] then old(authMethods) else Demands(cfg)
    {
      var lists := if cfg.lists == ["any"] then [] else cfg.lists;
      if |lists| == 0 { return true; }
      authMethods := [];
      for i := 0 to |lists|
        invariant authMethods == ValidLists(cfg, lists[..i])
      {
        assert lists[..i + 1][..i] == lists[..i];
        var v := MethodsValid(cfg, lists[i]);
        if v { authMethods := authMethods + [lists[i]]; }
      }
      assert lists[..|lists|] == lists;
      ok := |authMethods| > 0;
    }

    /** Strips a successful method from every list up to the first one it completes. */
    method UpdateMethodsLists(name: string, sub: Option<string>) returns (complete: bool, refused: bool)
      modifies this`authMethods
      ensures match UpdateLists(old(authMethods), Event(name, sub))
              case Complete(ls) => complete && !refused && authMethods == ls
              case Continue(ls) => !complete && !refused && authMethods == ls
              case NotListed => !complete && refused && authMethods == old(authMethods)
    {
      ghost var before, e := authMethods, Event(name, sub);
      var found := false;
      complete, refused := false, false;
      var i := 0;
      while i < |authMethods|
        invariant 0 <= i <= |authMethods| == |before| && authMethods == StripTo(before, e, i)
        invariant forall j :: 0 <= j < i ==> !Finishes(before[j], e)
        invariant found <==> exists j :: 0 <= j < i && Listed(before[j], e)
      {
        StripStep(before, e, i);
        var r := RemoveMethod(authMethods[i], name, sub);
        if r.Some? {
          assert Listed(before[i], e);
          found := true;
          authMethods := authMethods[i := r.value];
          if |r.value| == 0 {
            assert Finishes(before[i], e);
            return true, false;
          }
        }
        i := i + 1;
      }
      refused := !found;
    }

    method KeyAlreadyUsed(key: Key) returns (used: bool)
      ensures used == KeyUsed(prevKeys, key)
    {
      for i := 0 to |prevKeys|
        invariant forall j :: 0 <= j < i ==> !EqualPublic(key, prevKeys[j])
      {
        if key.pub == prevKeys[i].pub { return true; }
      }
      used := false;
    }

    method UserauthPubkey(p: PubkeyRequest) returns (authenticated: bool)
      modifies this
      ensures (Value(), authenticated) == Pubkey(old(Value()), p)
      ensures authenticated <==> old(valid) && exists key :: Signs(p, key) && !KeyUsed(old(prevKeys), key)
    {
      authenticated := false;
      if p.key.None? { return; }
      var used := KeyAlreadyUsed(p.key.value);
      if used || !p.accepted { return; }
      if p.signed {
        if !valid { return; }
        if p.allowed && p.verified { authenticated := true; }
        if authenticated && !p.touched { return false; }
        if authenticated { prevKeys := prevKeys + [p.key.value]; }
      } else {
        if !valid { return; }
        postponed := p.allowed;
        assert Value().postponed == p.allowed;
      }
      if authenticated && !p.consistent { authenticated := false; }
      assert authenticated ==> Signs(p, p.key.value);
      if authenticated { wins := wins + [p.key.value]; }
    }

    method ChargeFailure(isNone: bool)
      requires !fatal
      modifies this
      ensures Value() == Deny(cfg, old(Value()), isNone)
    {
      if !serverCaused && (attempt > 1 || !isNone) { failures := failures + 1; }
      if failures >= cfg.maxTries { fatal := true; }
    }

    method AdmitSuccess(name: string, sub: Option<string>)
      requires !fatal
      modifies this
      ensures Value() == Admit(cfg, old(Value()), Event(name, sub))
    {
      events := events + [Event(name, sub)];
      if Required(cfg) == [] {
        success := true;
        return;
      }
      ghost var b := Value();
      var complete, refused := UpdateMethodsLists(name, sub);
      assert Value() == b.(pending := authMethods);
      if complete { success := true; } else { fatal := refused || failures >= cfg.maxTries; }
    }

    method UserauthFinish(ok: bool, packetName: string, sub: Option<string>, rootDenied: bool)
      requires !fatal
      modifies this
      ensures Value() == Finish(cfg, old(Value()), ok, packetName, sub, rootDenied)
    {
      if ok {
        var m := ByName(cfg.table, packetName);
        if !valid || postponed || m.None? { fatal := true; return; }
        if rootDenied { ChargeFailure(m.value.name == NONE); } else { AdmitSuccess(m.value.name, sub); }
      } else if !postponed {
        ChargeFailure(packetName == NONE);
      }
    }

    /** The part of a request that runs a method handler. */
    method StartHandler(kind: Kind, p: Packet) returns (authenticated: bool)
      requires p.Request?
      modifies this
      ensures (Value(), authenticated) == RunHandler(old(Value()), kind, p)
    {
      starts := starts + [(failures, attempt)];
      if kind.PubkeyKind? {
        authenticated := UserauthPubkey(p.pubkey);
      } else {
        authenticated := OtherMethod(kind, p.other);
      }
    }

    /** What the handlers of the other methods leave in the context. */
    method OtherMethod(kind: Kind, v: Verdict) returns (authenticated: bool)
      modifies this
      ensures (Value(), authenticated) == OtherHandler(old(Value()), kind, v)
    {
      postponed, serverCaused := v.postponed, v.serverCaused;
      if kind.NoneKind? { noneEnabled := false; }
      awaiting := if kind.KbdintKind? && v.postponed then Some(v.device) else None;
      if v.recorded.Some? { prevKeys := prevKeys + [v.recorded.value]; }
      authenticated := v.authenticated && !kind.KbdintKind?;
    }

    /** Is the method known, switched on and expected by some pending list? */
    method LookupMethod(name: string) returns (m: Option<Authmethod>)
      ensures m == Lookup(cfg, Value(), name)
    {
      m := ByName(cfg.table, name);
      if m.None? { return; }
      if !(if m.value.kind.NoneKind? then noneEnabled else m.value.name in cfg.enabled) { return None; }
      if Required(cfg) == [] { return; }
      for i := 0 to |authMethods|
        invariant forall j :: 0 <= j < i ==> ListStartsWith(authMethods[j], m.value.name, None) == NoMatch
      {
        if ListStartsWith(authMethods[i], m.value.name, None) != NoMatch { return; }
      }
      m := None;
    }

    method SetIdentity(name: string, svc: string, known: bool)
      modifies this
      ensures Value() == old(Value()).(attempt := 1, id := Identity(name, svc, known && svc == SERVICE))
    {
      attempt, user, service, valid := 1, name, svc, known && svc == SERVICE;
    }

    method IntroduceUser(p: Packet)
      requires p.Request? && !fatal
      modifies this
      ensures Value() == Introduce(cfg, old(Value()), p)
    {
      SetIdentity(CutStyle(p.user), p.service, p.known);
      var ok := SetupMethodsLists();
      if !ok { fatal := true; }
    }

    /** Checks the attempt limit and settles or compares the identity. */
    method BeginRequest(p: Packet)
      requires p.Request? && !fatal
      modifies this
      ensures Value() == Identify(cfg, old(Value()), p)
    {
      if attempt >= MAX_ATTEMPTS {
        fatal := true;
      } else if attempt == 0 {
        IntroduceUser(p);
      } else {
        attempt := attempt + 1;
        if CutStyle(p.user) != user || p.service != service { fatal := true; }
      }
    }

    method AnswerRequest(p: Packet)
      requires p.Request? && !fatal
      modifies this
      ensures Value() == Answer(cfg, old(Value()), p)
    {
      var authenticated := false;
      var m := LookupMethod(p.name);
      if m.Some? && failures < cfg.maxTries {
        authenticated := StartHandler(m.value.kind, p);
      }
      UserauthFinish(authenticated, p.name, None, p.rootDenied);
    }

    method InputRequest(p: Packet)
      requires p.Request? && !fatal && !success
      modifies this
      ensures Value() == Handle(cfg, old(Value()), p)
    {
      BeginRequest(p);
      if fatal { return; }
      postponed, serverCaused, awaiting := false, false, None;
      AnswerRequest(p);
    }

    method InputInfoResponse(p: Packet)
      requires p.InfoResponse? && !fatal && !success
      modifies this
      ensures Value() == Handle(cfg, old(Value()), p)
    {
      if awaiting.None? {
        fatal := attempt > 0;
        return;
      }
      var device, authenticated := awaiting, false;
      postponed := false;
      match p.response {
        case Accepted => authenticated := valid;
        case More(sent) => if sent { postponed := true; }
        case Refused =>
      }
      if !postponed {
        if authenticated {
          awaiting := None;
        } else {
          awaiting, postponed := p.next, p.next.Some?;
        }
      }
      UserauthFinish(authenticated, KBDINT, device, p.rootDenied);
    }
  }
}
