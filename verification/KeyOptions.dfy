/** Key and certificate options: the merge of auth-options.c and its use in auth.c. */
module KeyOptions {
  import opened Bits
  import opened Wrappers

  /** A C string without its terminator. */
  type CString = s: seq<byte> | 0 !in s

  datatype Options = Options(
    permitPortForwarding: int, permitAgentForwarding: int, permitX11Forwarding: int,
    permitPty: int, permitUserRc: int, restricted: int, certAuthority: int,
    noRequireUserPresence: int, requireVerify: int,
    validBefore: nat, forceTunDevice: int,
    certPrincipals: Option<CString>, forceCommand: Option<CString>,
    requiredFromHostCert: Option<CString>, requiredFromHostKeys: Option<CString>,
    env: seq<CString>, permitOpen: seq<CString>, permitListen: seq<CString>)

  /** sshauthopt_new: nothing is permitted, nothing is required. */
  const Blank := Options(0, 0, 0, 0, 0, 0, 0, 0, 0, 0, -1, None, None, None, None, [], [], [])

  // ----- the parts of the merge

  function First(p: Option<CString>, a: Option<CString>): Option<CString> { if p.Some? then p else a }

  function FirstList(p: seq<CString>, a: seq<CString>): seq<CString> { if p != [] then p else a }

  function FirstTun(p: int, a: int): int { if p != -1 then p else a }

  function Both(p: int, a: int): int { if p == 1 && a == 1 then 1 else 0 }

  function Either(p: int, a: int): int { if p == 1 || a == 1 then 1 else 0 }

  function Earliest(p: nat, a: nat): nat { if a != 0 && a < p then a else p }

  predicate Clash(p: Option<CString>, a: Option<CString>) { p.Some? && a.Some? && p != a }

  /** sshauthopt_merge; it fails when both sides force different commands. */
  function Merge(p: Options, a: Options): Option<Options>
  {
    if Clash(p.forceCommand, a.forceCommand) then None
    else Some(Options(
      Both(p.permitPortForwarding, a.permitPortForwarding),
      Both(p.permitAgentForwarding, a.permitAgentForwarding),
      Both(p.permitX11Forwarding, a.permitX11Forwarding),
      Both(p.permitPty, a.permitPty),
      Both(p.permitUserRc, a.permitUserRc),
      0, 0,
      Both(p.noRequireUserPresence, a.noRequireUserPresence),
      Either(p.requireVerify, a.requireVerify),
      Earliest(p.validBefore, a.validBefore),
      FirstTun(p.forceTunDevice, a.forceTunDevice),
      None,
      First(p.forceCommand, a.forceCommand),
      First(p.requiredFromHostCert, a.requiredFromHostCert),
      First(p.requiredFromHostKeys, a.requiredFromHostKeys),
      FirstList(p.env, a.env), FirstList(p.permitOpen, a.permitOpen), FirstList(p.permitListen, a.permitListen)))
  }

  function MergeLeft(x: Options, y: Options, z: Options): Option<Options>
  {
    match Merge(x, y)
    case None => None
    case Some(m) => Merge(m, z)
  }

  function MergeRight(x: Options, y: Options, z: Options): Option<Options>
  {
    match Merge(y, z)
    case None => None
    case Some(m) => Merge(x, m)
  }

  // ----- algebra

  /** The middle operand has no expiry while the outer ones have, the last the earlier. */
  predicate LosesExpiry(x: Options, y: Options, z: Options)
  {
    x.validBefore != 0 && y.validBefore == 0 && z.validBefore != 0 && z.validBefore < x.validBefore
  }

  /** Both groupings fail on exactly the same operands: two set forced commands differ.
      Otherwise they agree on every field but the expiry, and on that one too unless the
      middle operand hides the expiry of the last. */
  lemma MergeAssociates(x: Options, y: Options, z: Options)
    ensures var l, r := MergeLeft(x, y, z), MergeRight(x, y, z);
            && (l.None? <==> r.None?)
            && (l.None? <==> Clash(x.forceCommand, y.forceCommand) || Clash(y.forceCommand, z.forceCommand)
                             || Clash(x.forceCommand, z.forceCommand))
            && (l.Some? ==> l.value.(validBefore := 0) == r.value.(validBefore := 0))
            && (l.Some? ==> (l == r <==> !LosesExpiry(x, y, z)))
  {
  }

  predicate IsEarliest(e: nat, p: nat, a: nat)
  {
    && (e == 0 <==> p == 0 && a == 0)
    && (e != 0 ==> (e == p || e == a) && (p != 0 ==> e <= p) && (a != 0 ==> e <= a))
  }

  /** "Earliest expiry time should win" holds exactly when the primary has an expiry or the
      additional options have none. */
  lemma EarliestWinsIff(p: Options, a: Options)
    requires !Clash(p.forceCommand, a.forceCommand)
    ensures IsEarliest(Merge(p, a).value.validBefore, p.validBefore, a.validBefore)
            <==> p.validBefore != 0 || a.validBefore == 0
  {
  }

  /** An additional expiry is dropped when the primary has none. */
  lemma ExpiryCanVanish()
    ensures Merge(Blank, Blank.(validBefore := 5)).value.validBefore == 0
  {
  }

  /** The two groupings differ on expiries 9, none and 5. */
  lemma GroupingMatters()
    ensures var x, z := Blank.(validBefore := 9), Blank.(validBefore := 5);
            && MergeLeft(x, Blank, z).Some? && MergeLeft(x, Blank, z).value.validBefore == 5
            && MergeRight(x, Blank, z).Some? && MergeRight(x, Blank, z).value.validBefore == 9
  {
  }

  // ----- activation over a whole session

  /** auth_opts after activating each of `list` in turn; none of the merges may fail. */
  function Activated(start: Options, list: seq<Options>): Option<Options>
  {
    if list == [] then Some(start)
    else match Activated(start, list[..|list| - 1])
      case None => None
      case Some(o) => Merge(o, list[|list| - 1])
  }

  /** The first forced command set by `start` or by an activation. */
  function FirstCommand(start: Option<CString>, list: seq<Options>): Option<CString>
  {
    if list == [] then start else First(FirstCommand(start, list[..|list| - 1]), list[|list| - 1].forceCommand)
  }

  /** Every activation's forced command is the first one set, or is not set. */
  ghost predicate CommandsAgree(start: Option<CString>, list: seq<Options>)
  {
    && (forall i :: 0 <= i < |list| ==> !Clash(start, list[i].forceCommand))
    && (forall i, j :: 0 <= i < j < |list| ==> !Clash(list[i].forceCommand, list[j].forceCommand))
  }

  lemma {:induction false} CommandsMeaning(start: Option<CString>, list: seq<Options>)
    requires CommandsAgree(start, list)
    ensures var c := FirstCommand(start, list);
            && (start.Some? ==> c == start)
            && (forall i :: 0 <= i < |list| && list[i].forceCommand.Some? ==> c == list[i].forceCommand)
            && (c.Some? && start.None? ==> exists i :: 0 <= i < |list| && list[i].forceCommand == c)
  {
    if list != [] { CommandsMeaning(start, list[..|list| - 1]); }
  }

  /** One more activation agrees with those before it exactly when it does not clash with the
      command in force. */
  lemma AgreeLast(start: Option<CString>, list: seq<Options>)
    requires list != []
    ensures var front, last := list[..|list| - 1], list[|list| - 1].forceCommand;
            CommandsAgree(start, list) <==>
            CommandsAgree(start, front) && !Clash(FirstCommand(start, front), last)
  {
    var n := |list| - 1;
    var front, last := list[..n], list[n].forceCommand;
    assert forall i :: 0 <= i < n ==> front[i] == list[i];
    if CommandsAgree(start, front) { CommandsMeaning(start, front); }
    if CommandsAgree(start, list) { assert CommandsAgree(start, front); }
  }

  /** Activations succeed exactly when no two set forced commands differ. */
  lemma {:induction false} ActivationSucceedsIff(start: Options, list: seq<Options>)
    ensures Activated(start, list).Some? <==> CommandsAgree(start.forceCommand, list)
    ensures Activated(start, list).Some? ==>
              Activated(start, list).value.forceCommand == FirstCommand(start.forceCommand, list)
  {
    if list != [] {
      ActivationSucceedsIff(start, list[..|list| - 1]);
      AgreeLast(start.forceCommand, list);
    }
  }

  /** The i-th permission flag. */
  datatype Flag = PortForwarding | AgentForwarding | X11Forwarding | Pty | UserRc | NoPresence

  function Get(o: Options, f: Flag): int
  {
    match f
    case PortForwarding => o.permitPortForwarding
    case AgentForwarding => o.permitAgentForwarding
    case X11Forwarding => o.permitX11Forwarding
    case Pty => o.permitPty
    case UserRc => o.permitUserRc
    case NoPresence => o.noRequireUserPresence
  }

  /** After any sequence of successful activations a permission is granted exactly when the
      starting options and every activation grant it; verification is required as soon as
      one of them requires it; and a forced command, once set, stays. */
  lemma {:induction false} SessionRestrictions(start: Options, list: seq<Options>, f: Flag)
    requires list != [] && Activated(start, list).Some?
    ensures var o := Activated(start, list).value;
            && (Get(o, f) == 1 <==> Get(start, f) == 1 && forall i :: 0 <= i < |list| ==> Get(list[i], f) == 1)
            && 0 <= Get(o, f) <= 1 && 0 <= o.requireVerify <= 1
            && (o.requireVerify == 1 <==>
                  start.requireVerify == 1 || exists i :: 0 <= i < |list| && list[i].requireVerify == 1)
  {
    var n := |list| - 1;
    if n > 0 { SessionRestrictions(start, list[..n], f); }
  }

  /** The options of which the first setting wins. */
  datatype Field = Environment | OpenTo | ListenOn | TunnelDevice | Command | CertHosts | KeyHosts

  datatype Setting = Unset | Texts(list: seq<CString>) | Text(text: CString) | Device(number: int)

  function TextOf(t: Option<CString>): Setting { if t.None? then Unset else Text(t.value) }

  function TextsOf(t: seq<CString>): Setting { if t == [] then Unset else Texts(t) }

  /** What the options set in that field; an empty list and device -1 set nothing. */
  function SettingOf(o: Options, f: Field): Setting
  {
    match f
    case Environment => TextsOf(o.env)
    case OpenTo => TextsOf(o.permitOpen)
    case ListenOn => TextsOf(o.permitListen)
    case TunnelDevice => if o.forceTunDevice == -1 then Unset else Device(o.forceTunDevice)
    case Command => TextOf(o.forceCommand)
    case CertHosts => TextOf(o.requiredFromHostCert)
    case KeyHosts => TextOf(o.requiredFromHostKeys)
  }

  /** Activation i is the first that sets the field. */
  ghost predicate SetsFirst(list: seq<Options>, f: Field, i: nat)
  {
    i < |list| && !SettingOf(list[i], f).Unset? && forall j :: 0 <= j < i ==> SettingOf(list[j], f).Unset?
  }

  /** `v` is what the starting options set, or else what the first activation that sets the field
      does, and is unset exactly when none does. */
  ghost predicate FirstWins(v: Setting, start: Setting, list: seq<Options>, f: Field)
  {
    && (!start.Unset? ==> v == start)
    && (start.Unset? && !v.Unset? ==> exists i: nat :: SetsFirst(list, f, i) && v == SettingOf(list[i], f))
    && (v.Unset? <==> start.Unset? && forall i :: 0 <= i < |list| ==> SettingOf(list[i], f).Unset?)
  }

  lemma FirstWinsMore(v: Setting, start: Setting, list: seq<Options>, o: Options, f: Field)
    requires FirstWins(v, start, list, f)
    ensures FirstWins(if v.Unset? then SettingOf(o, f) else v, start, list + [o], f)
  {
    var more := list + [o];
    assert forall i :: 0 <= i < |list| ==> more[i] == list[i];
    if start.Unset? && v.Unset? && !SettingOf(o, f).Unset? { assert SetsFirst(more, f, |list|); }
    if start.Unset? && !v.Unset? {
      var i: nat :| SetsFirst(list, f, i) && v == SettingOf(list[i], f);
      assert SetsFirst(more, f, i);
    }
  }

  lemma MergeSetting(p: Options, a: Options, f: Field)
    requires Merge(p, a).Some?
    ensures SettingOf(Merge(p, a).value, f) == if SettingOf(p, f).Unset? then SettingOf(a, f) else SettingOf(p, f)
  {
  }

  /** After any sequence of successful activations the first setting of each such field is in force. */
  lemma {:induction false} FirstSettingWins(start: Options, list: seq<Options>, f: Field)
    requires Activated(start, list).Some?
    ensures FirstWins(SettingOf(Activated(start, list).value, f), SettingOf(start, f), list, f)
  {
    if list != [] {
      var front, last := list[..|list| - 1], list[|list| - 1];
      assert front + [last] == list;
      FirstSettingWins(start, front, f);
      var o := Activated(start, front).value;
      MergeSetting(o, last, f);
      FirstWinsMore(SettingOf(o, f), SettingOf(start, f), front, last, f);
    }
  }

  /** What concerns only the authentication itself does not outlive an activation. */
  lemma AuthenticationOnly(start: Options, list: seq<Options>)
    requires list != [] && Activated(start, list).Some?
    ensures var o := Activated(start, list).value;
            o.certPrincipals.None? && o.certAuthority == 0 && o.restricted == 0
  {
  }

  /** `e` is the earliest of the start's expiry and those that the activations set. */
  ghost predicate EarliestOf(e: nat, start: Options, list: seq<Options>)
  {
    && 0 < e <= start.validBefore
    && (forall i :: 0 <= i < |list| && list[i].validBefore != 0 ==> e <= list[i].validBefore)
    && (e == start.validBefore || exists i :: 0 <= i < |list| && list[i].validBefore == e)
  }

  /** Over any sequence of successful activations the expiry is the earliest one set, if the
      starting options have one; if they have none, as the defaults do, it stays unset. */
  lemma {:induction false} SessionExpiry(start: Options, list: seq<Options>)
    requires Activated(start, list).Some?
    ensures var e := Activated(start, list).value.validBefore;
            if start.validBefore == 0 then e == 0 else EarliestOf(e, start, list)
  {
    if list != [] {
      var n := |list| - 1;
      SessionExpiry(start, list[..n]);
      var f := Activated(start, list[..n]).value.validBefore;
      if start.validBefore != 0 && f != start.validBefore {
        var i :| 0 <= i < n && list[..n][i].validBefore == f;
        assert list[i].validBefore == f;
      }
      assert forall i :: 0 <= i < n ==> list[..n][i] == list[i];
    }
  }

  lemma CommandStays(start: Options, list: seq<Options>, more: seq<Options>)
    requires Activated(start, list).Some? && Activated(start, list).value.forceCommand.Some?
    requires Activated(start, list + more).Some?
    ensures Activated(start, list + more).value.forceCommand == Activated(start, list).value.forceCommand
    decreases |more|
  {
    if more == [] {
      assert list + more == list;
    } else {
      var n := |more| - 1;
      assert (list + more)[..|list + more| - 1] == list + more[..n];
      CommandStays(start, list, more[..n]);
    }
  }

  /** What auth_restrict_session activates. */
  const Restriction := Blank.(permitPty := 1, restricted := 1)

  /** Restricting a session never fails and leaves only what was permitted for a terminal. */
  lemma RestrictionLeaves(o: Options, f: Flag)
    ensures Merge(o, Restriction).Some?
    ensures Get(Merge(o, Restriction).value, f) == 1 <==> f == Pty && o.permitPty == 1
    ensures Merge(o, Restriction).value.forceCommand == o.forceCommand
    ensures Merge(o, Restriction).value.restricted == 0
  {
  }

  // ----- the global options of auth.c

  class Session {
    var authOpts: Option<Options>

    constructor (opts: Options)
      ensures authOpts == Some(opts)
    {
      authOpts := Some(opts);
    }

    /** auth_activate_options: on a mismatch the options are gone. */
    method ActivateOptions(opts: Options) returns (ok: bool)
      requires authOpts.Some?
      modifies this
      ensures authOpts == Merge(old(authOpts).value, opts)
      ensures ok <==> !Clash(old(authOpts).value.forceCommand, opts.forceCommand)
    {
      authOpts := Merge(authOpts.value, opts);
      ok := authOpts.Some?;
    }

    method RestrictSession()
      requires authOpts.Some?
      modifies this
      ensures authOpts.Some? && authOpts == Merge(old(authOpts).value, Restriction)
    {
      var restricted := Blank.(permitPty := 1, restricted := 1);
      var ok := ActivateOptions(restricted);
      assert ok;
    }
  }
}
