/**
 From the contacts a call is for to the call itself: the callsigns, collated
 against all friendly callsigns, and who hears it.
 */
module Calls {
  import opened Basics
  import opened Trackfiles
  import opened Callsigns
  import opened Collation
  import opened CollationMeaning

  // ---- Names, each listed once -----------------------------------------------------------------

  function Added(names: seq<string>, name: Option<string>): seq<string> {
    match name
    case Some(n) => if n in names then names else names + [n]
    case None => names
  }

  function Deduplicated(names: seq<Option<string>>): seq<string> {
    if names == [] then [] else Added(Deduplicated(Init(names)), Last(names))
  }

  lemma {:induction false} DeduplicatedExactly(names: seq<Option<string>>)
    ensures Distinct(Deduplicated(names)) && forall n :: n in Deduplicated(names) <==> Some(n) in names
  {
    if names != [] {
      DeduplicatedExactly(Init(names));
      assert names == Init(names) + [Last(names)];
      var before := Deduplicated(Init(names));
      assert forall k :: 0 <= k < |before| ==> before[k] in before;
    }
  }

  // ---- Friendly callsigns -----------------------------------------------------------------

  // The callsigns of all contacts of the coalition.
  function RosterNames(contacts: seq<Trackfile>, coalition: Coalition, parse: CallsignParser): seq<string> {
    if contacts == [] then []
    else
      var before, t := RosterNames(Init(contacts), coalition, parse), Last(contacts);
      if t.contact.coalition != coalition then before
      else
        match parse(t.contact.name)
        case Some(name) => before + [name]
        case None => before
  }

  ghost predicate IsFriendlyName(contacts: seq<Trackfile>, coalition: Coalition, parse: CallsignParser, name: string) {
    exists t :: t in contacts && t.contact.coalition == coalition && parse(t.contact.name) == Some(name)
  }

  lemma {:induction false} RosterNamesExactly(contacts: seq<Trackfile>, coalition: Coalition, parse: CallsignParser, name: string)
    ensures name in RosterNames(contacts, coalition, parse) <==> IsFriendlyName(contacts, coalition, parse, name)
  {
    if contacts != [] {
      RosterNamesExactly(Init(contacts), coalition, parse, name);
      assert contacts == Init(contacts) + [Last(contacts)];
    }
  }

  method GetFriendlyCallsigns(contacts: seq<Trackfile>, coalition: Coalition, parse: CallsignParser) returns (names: seq<string>)
    ensures names == RosterNames(contacts, coalition, parse)
  {
    names := [];
    for i := 0 to |contacts|
      invariant names == RosterNames(contacts[..i], coalition, parse)
    {
      assert Init(contacts[..i + 1]) == contacts[..i];
      if contacts[i].contact.coalition == coalition {
        match parse(contacts[i].contact.name) {
          case Some(name) => names := names + [name];
          case None =>
        }
      }
    }
    assert contacts[..|contacts|] == contacts;
  }

  // ---- Composing a call ---------------------------------------------------------------------

  method Compose(names: seq<string>, roster: seq<string>) returns (call: seq<Entry>)
    ensures call == Collated(names, roster)
  {
    var receivers := new string[|names|](i requires 0 <= i < |names| => names[i]);
    var everyone := new string[|roster|](i requires 0 <= i < |roster| => roster[i]);
    assert receivers[..] == names && everyone[..] == roster;
    call := CollateCallsigns(receivers, everyone);
  }

  // Whom the client may address: everybody, or only those on the radio.
  datatype Policy = Policy(requiresSRS: bool, isOnFrequency: string -> bool)

  // The callsign under which a contact is added to a merged call, if it is.
  function CallName(t: Trackfile, policy: Policy, parse: CallsignParser): Option<string> {
    if policy.requiresSRS && !policy.isOnFrequency(t.contact.name) then None else parse(t.contact.name)
  }

  function CallNames(friendlies: seq<Trackfile>, policy: Policy, parse: CallsignParser): seq<string> {
    Deduplicated(seq(|friendlies|, k requires 0 <= k < |friendlies| => CallName(friendlies[k], policy, parse)))
  }

  method AddFriendlyToBroadcast(names: seq<string>, friendly: Trackfile, policy: Policy, parse: CallsignParser)
    returns (more: seq<string>)
    ensures more == Added(names, CallName(friendly, policy, parse))
  {
    var isOnFrequency := policy.isOnFrequency(friendly.contact.name);
    var shouldBroadcast := !policy.requiresSRS || isOnFrequency;
    if !shouldBroadcast {
      return names;
    }
    more := names;
    match parse(friendly.contact.name) {
      case Some(callsign) =>
        if callsign !in names {
          more := names + [callsign];
        }
      case None =>
    }
  }

  ghost function MergedCall(friendlies: seq<Trackfile>, contacts: seq<Trackfile>, coalition: Coalition, policy: Policy,
                            parse: CallsignParser): seq<Entry> {
    Collated(CallNames(friendlies, policy, parse), RosterNames(contacts, coalition, parse))
  }

  method CreateMergedCall(friendlies: seq<Trackfile>, contacts: seq<Trackfile>, coalition: Coalition, policy: Policy,
                          parse: CallsignParser) returns (call: seq<Entry>)
    ensures call == MergedCall(friendlies, contacts, coalition, policy, parse)
  {
    var names: seq<string> := [];
    for i := 0 to |friendlies|
      invariant names == CallNames(friendlies[..i], policy, parse)
    {
      CallNamesOneMore(friendlies[..i], friendlies[i], policy, parse);
      assert friendlies[..i + 1] == friendlies[..i] + [friendlies[i]];
      names := AddFriendlyToBroadcast(names, friendlies[i], policy, parse);
    }
    assert friendlies[..|friendlies|] == friendlies;
    var roster := GetFriendlyCallsigns(contacts, coalition, parse);
    call := Compose(names, roster);
  }

  lemma CallNamesOneMore(friendlies: seq<Trackfile>, t: Trackfile, policy: Policy, parse: CallsignParser)
    ensures CallNames(friendlies + [t], policy, parse)
         == Added(CallNames(friendlies, policy, parse), CallName(t, policy, parse))
  {
    var more := friendlies + [t];
    var names := seq(|more|, k requires 0 <= k < |more| => CallName(more[k], policy, parse));
    assert Init(names) == seq(|friendlies|, k requires 0 <= k < |friendlies| => CallName(friendlies[k], policy, parse));
  }

  // ---- Who hears a call ---------------------------------------------------------------------

  // Callsign parsing sets all digits apart.
  ghost predicate Tidy(parse: CallsignParser) {
    forall s :: parse(s).Some? ==> Spaced(parse(s).value)
  }

  // Of several names in a call, a strict one is heard exactly when a contact of
  // the bot's own coalition has it.
  lemma HeardIff(names: seq<string>, contacts: seq<Trackfile>, coalition: Coalition, parse: CallsignParser,
                 word: Option<string>, name: string)
    requires Tidy(parse) && name in names && Spaced(name)
    ensures var roster := RosterNames(contacts, coalition, parse);
      IsHeard(name, Collated(names, roster), word, roster) <==>
        |names| <= 1 || Parse(name).None? || IsFriendlyName(contacts, coalition, parse, name)
  {
    var roster := RosterNames(contacts, coalition, parse);
    RosterNamesExactly(contacts, coalition, parse, name);
    if |names| <= 1 {
      ShortListIsHeardAs(names, roster, word);
      NamedInIdentities(names, name);
    } else {
      ReceiverIsHeardIff(names, roster, word, name);
      if Parse(name).Some? {
        SpacedIsCanonical(name);
        OnRosterIff(contacts, coalition, parse, name);
      }
    }
  }

  lemma OnRosterIff(contacts: seq<Trackfile>, coalition: Coalition, parse: CallsignParser, name: string)
    requires Tidy(parse) && Spaced(name) && Parse(name).Some?
    ensures Parse(name).value in Roster(RosterNames(contacts, coalition, parse)) <==> name in RosterNames(contacts, coalition, parse)
  {
    var roster := RosterNames(contacts, coalition, parse);
    SpacedIsCanonical(name);
    if other :| other in roster && Parse(other) == Parse(name) {
      RosterNamesExactly(contacts, coalition, parse, other);
      SpacedIsCanonical(other);
    }
  }

  // The callsign of one of the contacts, on frequency if that is required.
  ghost predicate IsNamed(friendlies: seq<Trackfile>, policy: Policy, parse: CallsignParser, name: string) {
    exists t :: t in friendlies && (policy.requiresSRS ==> policy.isOnFrequency(t.contact.name)) && parse(t.contact.name) == Some(name)
  }

  // The contact has a callsign, and is on frequency if that is required.
  predicate MayBeNamed(t: Trackfile, policy: Policy, parse: CallsignParser) {
    parse(t.contact.name).Some? && (policy.requiresSRS ==> policy.isOnFrequency(t.contact.name))
  }

  // A call names, once each, exactly the contacts that may be addressed.
  lemma NamedByCall(friendlies: seq<Trackfile>, policy: Policy, parse: CallsignParser, name: string)
    ensures name in CallNames(friendlies, policy, parse) <==> IsNamed(friendlies, policy, parse, name)
    ensures Distinct(CallNames(friendlies, policy, parse))
  {
    var names := seq(|friendlies|, k requires 0 <= k < |friendlies| => CallName(friendlies[k], policy, parse));
    DeduplicatedExactly(names);
    if IsNamed(friendlies, policy, parse, name) {
      var t :| t in friendlies && (policy.requiresSRS ==> policy.isOnFrequency(t.contact.name)) && parse(t.contact.name) == Some(name);
      var k :| 0 <= k < |friendlies| && friendlies[k] == t;
      assert names[k] == Some(name);
    }
    if Some(name) in names {
      var k :| 0 <= k < |names| && names[k] == Some(name);
      assert friendlies[k] in friendlies;
    }
  }

  // A notified contact hears a merged call exactly when it is the only one named
  // in it, or its callsign is not strict, or is that of a friendly contact.
  lemma NotifiedIsHeardIff(friendlies: seq<Trackfile>, contacts: seq<Trackfile>, coalition: Coalition, policy: Policy,
                           parse: CallsignParser, word: Option<string>, t: Trackfile)
    requires Tidy(parse) && t in friendlies && MayBeNamed(t, policy, parse)
    ensures var name := parse(t.contact.name).value;
      IsHeard(name, MergedCall(friendlies, contacts, coalition, policy, parse), word, RosterNames(contacts, coalition, parse)) <==>
        |CallNames(friendlies, policy, parse)| <= 1 || Parse(name).None? || IsFriendlyName(contacts, coalition, parse, name)
  {
    var name := parse(t.contact.name).value;
    NamedByCall(friendlies, policy, parse, name);
    HeardIff(CallNames(friendlies, policy, parse), contacts, coalition, parse, word, name);
  }

  // In particular every notified contact of the bot's own coalition hears it.
  lemma FriendliesHearMergedCalls(friendlies: seq<Trackfile>, contacts: seq<Trackfile>, coalition: Coalition, policy: Policy,
                                  parse: CallsignParser, word: Option<string>, t: Trackfile)
    requires Tidy(parse) && t in friendlies && MayBeNamed(t, policy, parse)
    requires t in contacts && t.contact.coalition == coalition
    ensures IsHeard(parse(t.contact.name).value, MergedCall(friendlies, contacts, coalition, policy, parse), word,
                    RosterNames(contacts, coalition, parse))
  {
    NotifiedIsHeardIff(friendlies, contacts, coalition, policy, parse, word, t);
  }

  // And whoever is heard was notified.
  lemma HeardIsNotified(friendlies: seq<Trackfile>, contacts: seq<Trackfile>, coalition: Coalition, policy: Policy,
                        parse: CallsignParser, word: Option<string>, x: Pilot)
    requires x in Heard(MergedCall(friendlies, contacts, coalition, policy, parse), word,
                        Roster(RosterNames(contacts, coalition, parse)))
    ensures exists t :: t in friendlies && MayBeNamed(t, policy, parse) && Identity(parse(t.contact.name).value) == x
  {
    var names := CallNames(friendlies, policy, parse);
    NobodyElseIsNamed(names, RosterNames(contacts, coalition, parse), word, x);
    var name := IdentityOf(names, x);
    NamedByCall(friendlies, policy, parse, name);
    var t :| t in friendlies && (policy.requiresSRS ==> policy.isOnFrequency(t.contact.name)) && parse(t.contact.name) == Some(name);
    assert MayBeNamed(t, policy, parse);
  }

  lemma {:induction false} IdentityOf(names: seq<string>, x: Pilot) returns (name: string)
    requires x in Identities(names)
    ensures name in names && Identity(name) == x
  {
    var n := |names| - 1;
    if Identity(names[n]) == x {
      name := names[n];
    } else {
      name := IdentityOf(names[..n], x);
    }
  }
}
