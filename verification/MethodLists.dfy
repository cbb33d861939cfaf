/** Comma-separated lists of required authentication methods (AuthenticationMethods).

auth2.c keeps each pending list as a string and strips a name from its front.  Here the
string operations are related to the lists of items that the strings denote, and stripping
event by event is related to subsequences of the events.
*/
module MethodLists {
  import opened Wrappers

  datatype Match = NoMatch | MatchMethod | MatchBoth | MatchPartial

  // ----- the string operations of auth2.c

  /** What follows a matched name: end of string or a comma. */
  predicate AtEnd(p: string) { p == "" || p[0] == ',' }

  function ListStartsWith(methods: string, name: string, submethod: Option<string>): Match
  {
    if !(name <= methods) then NoMatch
    else
      var p := methods[|name|..];
      if p != "" && p[0] == ':' then
        if submethod.None? then MatchPartial
        else if !(submethod.value <= p[1..]) then NoMatch
        else if AtEnd(p[1 + |submethod.value|..]) then MatchBoth else NoMatch
      else if AtEnd(p) then MatchMethod
      else NoMatch
  }

  /** The list without its first method, if the list starts with that method. */
  function RemoveMethod(methods: string, name: string, submethod: Option<string>): Option<string>
  {
    Removed(methods, name, submethod, ListStartsWith(methods, name, submethod))
  }

  function Removed(methods: string, name: string, submethod: Option<string>, m: Match): Option<string>
    requires m.MatchMethod? ==> |name| <= |methods|
    requires m.MatchBoth? ==> submethod.Some? && |name| + 1 + |submethod.value| <= |methods|
  {
    if m.MatchMethod? then Some(DropComma(methods[|name|..]))
    else if m.MatchBoth? then Some(DropComma(methods[|name| + 1 + |submethod.value|..]))
    else None
  }

  function DropComma(p: string): string { if p != "" && p[0] == ',' then p[1..] else p }

  // ----- what a list denotes

  /** One entry `name` or `name:sub`. */
  datatype Item = Item(name: string, sub: Option<string>)

  /** A method that succeeded, with the device it used if it names one. */
  datatype Event = Event(name: string, sub: Option<string>)

  predicate Fits(i: Item, e: Event) { i.name == e.name && (i.sub.None? || i.sub == e.sub) }

  /** The first position of `c` in `s`, or |s|. */
  function Find(s: string, c: char): (k: nat)
    ensures k <= |s| && c !in s[..k] && (k < |s| ==> s[k] == c)
  {
    if s == "" || s[0] == c then 0
    else
      var k := Find(s[1..], c);
      assert s[..k + 1] == [s[0]] + s[1..][..k];
      k + 1
  }

  function ParseItem(token: string): Item
  {
    var k := Find(token, ':');
    if k == |token| then Item(token, None) else Item(token[..k], Some(token[k + 1..]))
  }

  function Items(s: string): seq<Item>
    decreases |s|
  {
    if s == "" then []
    else
      var k := Find(s, ',');
      [ParseItem(s[..k])] + if k == |s| then [] else Items(s[k + 1..])
  }

  /** Every entry has a name, and no comma ends the list. */
  predicate WellFormed(s: string)
    decreases |s|
  {
    if s == "" then true
    else
      var k := Find(s, ',');
      && ParseItem(s[..k]).name != ""
      && (k < |s| ==> s[k + 1..] != "" && WellFormed(s[k + 1..]))
  }

  /** Method names are constants without separators; device names contain no comma. */
  predicate Clean(e: Event)
  {
    && e.name != "" && ',' !in e.name && ':' !in e.name
    && (e.sub.Some? ==> ',' !in e.sub.value)
  }

  lemma FindUnique(s: string, c: char, k: nat)
    requires k <= |s| && c !in s[..k] && (k < |s| ==> s[k] == c)
    ensures Find(s, c) == k
  {
    var j := Find(s, c);
    assert forall i :: 0 <= i < k ==> s[..k][i] == s[i];
    assert forall i :: 0 <= i < j ==> s[..j][i] == s[i];
  }

  /** The entry at the front of `p` ends at the first comma. */
  lemma EntryEnds(s: string, k: nat)
    requires k <= |s| && ',' !in s[..k] && AtEnd(s[k..])
    ensures Find(s, ',') == k
    ensures DropComma(s[k..]) == if k == |s| then "" else s[k + 1..]
  {
    FindUnique(s, ',', k);
  }

  lemma NotBeforeComma(s: string, n: nat)
    requires n <= |s| && ',' !in s[..n]
    ensures n <= Find(s, ',')
  {
    assert forall i :: 0 <= i < n ==> s[..n][i] == s[i];
  }

  /** The front entry of a list fits an event exactly when ListStartsWith says so. */
  lemma FrontEntry(s: string, e: Event)
    requires s != "" && Clean(e)
    ensures var m := ListStartsWith(s, e.name, e.sub);
            var i := ParseItem(s[..Find(s, ',')]);
            && (m.MatchMethod? <==> i == Item(e.name, None))
            && (m.MatchBoth? <==> e.sub.Some? && i == Item(e.name, e.sub))
            && (m.MatchMethod? ==> Find(s, ',') == |e.name|)
            && (m.MatchBoth? ==> Find(s, ',') == |e.name| + 1 + |e.sub.value|)
  {
    var m, k := ListStartsWith(s, e.name, e.sub), Find(s, ',');
    var t, n := s[..k], |e.name|;
    assert n <= |t| && t[..n] == e.name ==> s[..n] == e.name;
    if e.name <= s {
      assert s[..n] == e.name;
      NotBeforeComma(s, n);
      assert t[..n] == e.name;
      if n < |s| && s[n] == ':' {
        assert k > n;
        FindUnique(t, ':', n);
        if e.sub.Some? {
          DeviceEntry(s, e, k);
        }
      } else if n == k {
        FindUnique(t, ':', n);
      }
    }
  }

  lemma DeviceEntry(s: string, e: Event, k: nat)
    requires Clean(e) && e.sub.Some? && e.name <= s && |e.name| < k == Find(s, ',')
    requires s[|e.name|] == ':'
    ensures ListStartsWith(s, e.name, e.sub).MatchBoth? <==> s[..k][|e.name| + 1..] == e.sub.value
  {
    var n, d := |e.name|, e.sub.value;
    var u, p := s[..k][n + 1..], s[n + 1..];
    assert u == p[..k - n - 1] && s[n..][1..] == p;
    if d <= p {
      if AtEnd(p[|d|..]) {
        assert ',' !in p[..k - n - 1];
        FindUnique(p, ',', k - n - 1);
        EntryEnds(p, |d|);
      }
      assert k < |s| ==> p[k - n - 1] == s[k];
    }
  }

  /** What is left of the string after a fitting event: what follows the first comma. */
  lemma RemovedIs(s: string, e: Event, m: Match, i: Item, k: nat)
    requires k <= |s| && (k < |s| ==> s[k] == ',')
    requires m.MatchMethod? <==> i == Item(e.name, None)
    requires m.MatchBoth? <==> e.sub.Some? && i == Item(e.name, e.sub)
    requires m.MatchMethod? ==> k == |e.name|
    requires m.MatchBoth? ==> k == |e.name| + 1 + |e.sub.value|
    ensures Removed(s, e.name, e.sub, m) ==
            if !Fits(i, e) then None else Some(if k == |s| then "" else s[k + 1..])
  {
    assert DropComma(s[k..]) == if k == |s| then "" else s[k + 1..];
  }

  /** The entries of a list: the front one and those after the first comma. */
  lemma ItemsStep(s: string, k: nat, rest: string)
    requires s != "" && k == Find(s, ',') && rest == if k == |s| then "" else s[k + 1..]
    ensures Items(s) == [ParseItem(s[..k])] + Items(rest)
    ensures WellFormed(s) ==> WellFormed(rest)
  {
  }

  lemma ItemsEmpty(s: string)
    ensures Items(s) == [] <==> s == ""
  {
  }

  /** Stripping a fitting event from the string drops the first item of the list it
      denotes; an event that does not fit strips nothing. */
  lemma RemoveDropsFirst(s: string, e: Event)
    requires s != "" && WellFormed(s) && Clean(e)
    ensures Items(s) != []
    ensures var r := RemoveMethod(s, e.name, e.sub);
            && (r.Some? <==> Fits(Items(s)[0], e))
            && (r.Some? ==> Items(r.value) == Items(s)[1..] && WellFormed(r.value)
                            && (r.value == "" <==> |Items(s)| == 1))
  {
    var k := Find(s, ',');
    var front, rest := ParseItem(s[..k]), if k == |s| then "" else s[k + 1..];
    var r := RemoveMethod(s, e.name, e.sub);
    assert r == if !Fits(front, e) then None else Some(rest) by {
      FrontEntry(s, e);
      RemovedIs(s, e, ListStartsWith(s, e.name, e.sub), front, k);
    }
    ItemsStep(s, k, rest);
    ItemsEmpty(rest);
  }

  // ----- stripping event after event

  /** How many leading items of `items` the events match, each event at most one. */
  function Greedy(items: seq<Item>, events: seq<Event>): (k: nat)
    ensures k <= |items|
  {
    if events == [] then 0
    else
      var k := Greedy(items, events[..|events| - 1]);
      if k < |items| && Fits(items[k], events[|events| - 1]) then k + 1 else k
  }

  /** `at` places the items, in order, on distinct events that fit them. */
  ghost predicate Embeds(items: seq<Item>, events: seq<Event>, at: seq<nat>)
  {
    && |at| == |items|
    && (forall i :: 0 <= i < |at| ==> at[i] < |events| && Fits(items[i], events[at[i]]))
    && (forall i, j :: 0 <= i < j < |at| ==> at[i] < at[j])
  }

  ghost predicate IsSubsequence(items: seq<Item>, events: seq<Event>)
  {
    exists at :: Embeds(items, events, at)
  }

  /** Greedy matching is optimal. */
  lemma {:induction false} GreedyIsBest(items: seq<Item>, events: seq<Event>, k: nat, at: seq<nat>)
    requires k <= |items| && Embeds(items[..k], events, at)
    ensures Greedy(items, events) >= k
    decreases |events|
  {
    if k > 0 {
      assert events != [] by { assert at[0] < |events|; }
      var n := |events| - 1;
      var front := events[..n];
      if at[k - 1] < n {
        forall i | 0 <= i < k ensures at[i] < n { assert at[i] <= at[k - 1]; }
        assert Embeds(items[..k], front, at);
        GreedyIsBest(items, front, k, at);
      } else {
        forall i | 0 <= i < k - 1 ensures at[i] < n { assert at[i] < at[k - 1]; }
        assert Embeds(items[..k - 1], front, at[..k - 1]);
        GreedyIsBest(items, front, k - 1, at[..k - 1]);
        assert Fits(items[..k][k - 1], events[at[k - 1]]);
      }
    }
  }

  lemma {:induction false} GreedyEmbeds(items: seq<Item>, events: seq<Event>) returns (at: seq<nat>)
    ensures Embeds(items[..Greedy(items, events)], events, at)
    decreases |events|
  {
    if events == [] {
      at := [];
    } else {
      var n := |events| - 1;
      var k := Greedy(items, events[..n]);
      at := GreedyEmbeds(items, events[..n]);
      if k < |items| && Fits(items[k], events[n]) {
        assert items[..k + 1][..k] == items[..k];
        at := at + [n];
      }
    }
  }

  /** The events exhaust a list exactly when the list is a subsequence of them. */
  lemma GreedyComplete(items: seq<Item>, events: seq<Event>)
    ensures Greedy(items, events) == |items| <==> IsSubsequence(items, events)
  {
    assert items[..|items|] == items;
    if IsSubsequence(items, events) {
      var at :| Embeds(items, events, at);
      GreedyIsBest(items, events, |items|, at);
    }
    if Greedy(items, events) == |items| {
      var at := GreedyEmbeds(items, events);
    }
  }

  // ----- several lists at once

  datatype Update = Complete(lists: seq<string>) | Continue(lists: seq<string>) | NotListed

  /** What becomes of one list. */
  function Strip(list: string, e: Event): string
  {
    match RemoveMethod(list, e.name, e.sub)
    case None => list
    case Some(r) => r
  }

  predicate Listed(list: string, e: Event) { RemoveMethod(list, e.name, e.sub).Some? }

  predicate Finishes(list: string, e: Event) { RemoveMethod(list, e.name, e.sub) == Some("") }

  /** The first list that `e` empties, or |lists|. */
  function FirstFinished(lists: seq<string>, e: Event): (k: nat)
    ensures k <= |lists| && (k < |lists| ==> Finishes(lists[k], e))
    ensures forall j :: 0 <= j < k ==> !Finishes(lists[j], e)
  {
    if lists == [] || Finishes(lists[0], e) then 0 else 1 + FirstFinished(lists[1..], e)
  }

  /** The lists with `e` stripped from the first `n` of them. */
  function StripTo(lists: seq<string>, e: Event, n: nat): seq<string>
  {
    seq(|lists|, i requires 0 <= i < |lists| => if i < n then Strip(lists[i], e) else lists[i])
  }

  lemma StripStep(lists: seq<string>, e: Event, i: nat)
    requires i < |lists|
    ensures StripTo(lists, e, i)[i] == lists[i]
    ensures StripTo(lists, e, i)[i := Strip(lists[i], e)] == StripTo(lists, e, i + 1)
    ensures !Listed(lists[i], e) ==> StripTo(lists, e, i) == StripTo(lists, e, i + 1)
  {
  }

  /** auth2_update_methods_lists: the scan stops at the first list that becomes empty, and
      an event that no list expects is refused. */
  function UpdateLists(lists: seq<string>, e: Event): Update
  {
    var k := FirstFinished(lists, e);
    if k < |lists| then Complete(StripTo(lists, e, k + 1))
    else if forall j :: 0 <= j < |lists| ==> !Listed(lists[j], e) then NotListed
    else Continue(StripTo(lists, e, |lists|))
  }

  /** The pending lists after events none of which completed a list. */
  function After(lists: seq<string>, events: seq<Event>): Option<seq<string>>
  {
    if events == [] then Some(lists)
    else match After(lists, events[..|events| - 1])
      case None => None
      case Some(pending) =>
        match UpdateLists(pending, events[|events| - 1])
        case Continue(ls) => Some(ls)
        case _ => None
  }

  predicate Usable(lists: seq<string>)
  {
    forall i :: 0 <= i < |lists| ==> lists[i] != "" && WellFormed(lists[i])
  }

  /** What one event does to one list, in terms of its items. */
  predicate StripMeans(s: string, e: Event)
  {
    && Items(s) != []
    && (Listed(s, e) <==> Fits(Items(s)[0], e))
    && (Finishes(s, e) <==> |Items(s)| == 1 && Fits(Items(s)[0], e))
    && (!Finishes(s, e) ==>
          && Strip(s, e) != "" && WellFormed(Strip(s, e))
          && Items(Strip(s, e)) == if Listed(s, e) then Items(s)[1..] else Items(s))
  }

  lemma StripMeaning(s: string, e: Event)
    requires s != "" && WellFormed(s) && Clean(e)
    ensures StripMeans(s, e)
  {
    RemoveDropsFirst(s, e);
  }

  /** One update: it completes iff some list has one item left and that item fits; it is
      refused iff no list's first item fits; otherwise every list loses its first item
      exactly when that fits. */
  lemma UpdateMeaning(lists: seq<string>, e: Event)
    requires Usable(lists) && Clean(e)
    ensures forall j :: 0 <= j < |lists| ==> Items(lists[j]) != []
    ensures var u := UpdateLists(lists, e);
            && (u.Complete? <==> exists j :: 0 <= j < |lists| && |Items(lists[j])| == 1 && Fits(Items(lists[j])[0], e))
            && (u.NotListed? <==> forall j :: 0 <= j < |lists| ==> !Fits(Items(lists[j])[0], e))
            && (u.Continue? ==>
                  && |u.lists| == |lists| && Usable(u.lists)
                  && forall j :: 0 <= j < |lists| ==>
                       Items(u.lists[j]) == if Fits(Items(lists[j])[0], e)
                                            then Items(lists[j])[1..] else Items(lists[j]))
  {
    forall j | 0 <= j < |lists| ensures StripMeans(lists[j], e) { StripMeaning(lists[j], e); }
  }

  /** Every pending list is the original one without its greedily matched prefix. */
  lemma {:induction false} PendingIsSuffix(lists: seq<string>, events: seq<Event>)
    requires Usable(lists) && (forall e :: e in events ==> Clean(e)) && After(lists, events).Some?
    ensures var p := After(lists, events).value;
            && |p| == |lists| && Usable(p)
            && forall j :: 0 <= j < |lists| ==>
                 Items(p[j]) == Items(lists[j])[Greedy(Items(lists[j]), events)..]
  {
    if events != [] {
      var n := |events| - 1;
      assert events[n] in events;
      PendingIsSuffix(lists, events[..n]);
      UpdateMeaning(After(lists, events[..n]).value, events[n]);
    }
  }

  /** One list: what is left of it decides what one more event does. */
  lemma OneMoreEvent(items: seq<Item>, events: seq<Event>, e: Event, rest: seq<Item>)
    requires rest == items[Greedy(items, events)..] && rest != []
    ensures !IsSubsequence(items, events)
    ensures |rest| == 1 && Fits(rest[0], e) <==> IsSubsequence(items, events + [e])
    ensures Fits(rest[0], e) <==> Greedy(items, events + [e]) > Greedy(items, events)
  {
    assert (events + [e])[..|events|] == events;
    GreedyComplete(items, events);
    GreedyComplete(items, events + [e]);
  }

  /** After events that completed nothing, no configured list is a subsequence of them,
      and one more event completes authentication exactly when it makes some configured
      list a subsequence of all the events.  It is refused when it advances no list. */
  lemma CompletesWhenSubsequence(lists: seq<string>, events: seq<Event>, e: Event)
    requires Usable(lists) && Clean(e) && (forall x :: x in events ==> Clean(x))
    requires After(lists, events).Some?
    ensures forall j :: 0 <= j < |lists| ==> !IsSubsequence(Items(lists[j]), events)
    ensures UpdateLists(After(lists, events).value, e).Complete?
            <==> exists j :: 0 <= j < |lists| && IsSubsequence(Items(lists[j]), events + [e])
    ensures UpdateLists(After(lists, events).value, e).NotListed?
            <==> forall j :: 0 <= j < |lists| ==>
                   Greedy(Items(lists[j]), events + [e]) <= Greedy(Items(lists[j]), events)
  {
    var p := After(lists, events).value;
    PendingIsSuffix(lists, events);
    UpdateMeaning(p, e);
    forall j | 0 <= j < |lists|
      ensures !IsSubsequence(Items(lists[j]), events)
      ensures (|Items(p[j])| == 1 && Fits(Items(p[j])[0], e)) <==> IsSubsequence(Items(lists[j]), events + [e])
      ensures Fits(Items(p[j])[0], e) <==>
                Greedy(Items(lists[j]), events + [e]) > Greedy(Items(lists[j]), events)
    {
      OneMoreEvent(Items(lists[j]), events, e, Items(p[j]));
    }
  }
}
