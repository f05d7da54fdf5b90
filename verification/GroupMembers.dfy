/**
 Who is in a group, in terms of positions, coalitions and tags alone, and that
 every contact in the air is in one.
 */
module GroupMembers {
  import opened Trackfiles
  import opened Encyclopedias
  import opened Grouping
  import opened Enumeration

  // The tags of the contact's type; none if it is unknown.
  function KnownTags(w: Airspace, t: Trackfile): set<Tag> {
    match w.data(t.contact.acmiName)
    case Some(aircraft) => aircraft.tags
    case None => {}
  }

  // It has a position, and it is above 10 m over ground, or faster than 50 kn if
  // that is not known.
  predicate IsAirborne(w: Airspace, t: Trackfile) {
    && t.LastKnown().point != Point(0.0, 0.0)
    && (t.LastKnown().agl.Some? ==> t.LastKnown().agl.value > 10.0)
    && (t.LastKnown().agl.None? ==> w.speed(t) > 50.0)
  }

  // If its type is known, it is an airplane with a seed that is one or is unknown,
  // and a helicopter with a seed that is one.
  predicate HasWingsOf(w: Airspace, seed: Trackfile, t: Trackfile) {
    w.data(t.contact.acmiName).Some? ==>
      if FixedWingTag in KnownTags(w, seed) || w.data(seed.contact.acmiName).None? then FixedWingTag in KnownTags(w, t)
      else if RotaryWingTag in KnownTags(w, seed) then RotaryWingTag in KnownTags(w, t) && FixedWingTag !in KnownTags(w, t)
      else true
  }

  // It carries the first of the tags fighter, attack and unarmed that the other has.
  predicate HasRoleOf(w: Airspace, lead: Trackfile, t: Trackfile) {
    var tags := KnownTags(w, lead);
    && (Fighter in tags ==> Fighter in KnownTags(w, t))
    && (Fighter !in tags && Attack in tags ==> Attack in KnownTags(w, t))
    && (Fighter !in tags && Attack !in tags && Unarmed in tags ==> Unarmed in KnownTags(w, t))
  }

  predicate FliesWith(w: Airspace, lead: Trackfile, t: Trackfile) {
    && t.contact.coalition == lead.contact.coalition && HasRoleOf(w, lead, t)
    && w.dist(t.LastKnown().point, lead.LastKnown().point) < 5.0
  }

  // What a link is, in these terms.
  lemma LinkedIff(w: Airspace, seed: Trackfile, lead: Trackfile, t: Trackfile)
    ensures Linked(w, CategoryOf(w, seed), lead, t) <==>
      IsAirborne(w, t) && HasWingsOf(w, seed, t) && FliesWith(w, lead, t)
  {
  }

  // ---- Members --------------------------------------------------------------------------

  // A chain that ends elsewhere than it starts reaches its end from another contact.
  lemma {:induction false} LastLink(w: Airspace, category: Category, p: seq<Trackfile>, a: Trackfile, b: Trackfile)
    returns (u: Trackfile)
    requires IsChain(w, category, p, a, b) && a != b
    ensures u != b && Reaches(w, category, a, u) && Linked(w, category, u, b) && IsLive(w, b)
    decreases |p|
  {
    if p[0] == b {
      ReachesItself(w, category, a);
      u := a;
    } else {
      u := LastLink(w, category, p[1..], p[0], b);
      ReachesThrough(w, category, a, p[0], u);
    }
  }

  lemma ReachesNext(w: Airspace, category: Category, a: Trackfile, b: Trackfile, c: Trackfile)
    requires Reaches(w, category, a, b) && IsLive(w, c) && Linked(w, category, b, c)
    ensures Reaches(w, category, a, c)
  {
    var p :| IsChain(w, category, p, a, b);
    ReachesOneMore(w, category, p, a, b, c);
  }

  // May join the group beside another member.
  ghost predicate MayJoin(w: Airspace, seed: Trackfile, ts: seq<Trackfile>, t: Trackfile) {
    IsLive(w, t) && IsAirborne(w, t) && HasWingsOf(w, seed, t) && exists u :: u in ts && u != t && FliesWith(w, u, t)
  }

  // The members of the group of a seed with a position are the seed and exactly
  // the live contacts in the air, with its kind of wings, that fly within 5 NM of
  // another member of their coalition and role.
  lemma MembersExactly(w: Airspace, seed: Trackfile, ts: seq<Trackfile>)
    requires IsGroupOf(w, seed, ts) && !seed.IsLastKnownPointZero()
    ensures forall t :: t in ts <==> t == seed || MayJoin(w, seed, ts, t)
  {
    var category := CategoryOf(w, seed);
    ReachesItself(w, category, seed);
    forall t ensures t in ts <==> t == seed || MayJoin(w, seed, ts, t) {
      if t in ts && t != seed {
        var p :| IsChain(w, category, p, seed, t);
        var u := LastLink(w, category, p, seed, t);
        LinkedIff(w, seed, u, t);
        assert u in ts;
      }
      if MayJoin(w, seed, ts, t) {
        var u :| u in ts && u != t && FliesWith(w, u, t);
        LinkedIff(w, seed, u, t);
        ReachesNext(w, category, seed, u, t);
      }
    }
  }

  // ---- Plainly tagged contacts ------------------------------------------------------------

  predicate SameTag(w: Airspace, a: Trackfile, b: Trackfile, tag: Tag) {
    tag in KnownTags(w, a) <==> tag in KnownTags(w, b)
  }

  ghost predicate SameKind(w: Airspace, a: Trackfile, b: Trackfile) {
    forall tag: Tag :: SameTag(w, a, b, tag)
  }

  lemma OneOfEach(w: Airspace, t: Trackfile)
    requires PlainlyTagged(w) && IsLive(w, t)
    ensures w.data(t.contact.acmiName).Some?
    ensures var tags := KnownTags(w, t);
      && (FixedWingTag in tags <==> RotaryWingTag !in tags)
      && (Fighter in tags ==> Attack !in tags && Unarmed !in tags)
      && (Attack in tags ==> Unarmed !in tags) && (Fighter in tags || Attack in tags || Unarmed in tags)
  {
    TagsOf(w, t);
    var tags := KnownTags(w, w.contacts[t.contact.id]);
    var wing :| wing in {FixedWingTag, RotaryWingTag} && tags * {FixedWingTag, RotaryWingTag} == {wing};
    assert forall tag :: tag in {FixedWingTag, RotaryWingTag} ==> (tag in tags <==> tag in tags * {FixedWingTag, RotaryWingTag});
  }

  lemma LinkKeepsKind(w: Airspace, seed: Trackfile, lead: Trackfile, t: Trackfile)
    requires PlainlyTagged(w) && IsLive(w, seed) && IsLive(w, lead) && IsLive(w, t)
    requires SameKind(w, seed, lead) && Linked(w, CategoryOf(w, seed), lead, t)
    ensures SameKind(w, seed, t)
  {
    LinkedIff(w, seed, lead, t);
    OneOfEach(w, seed);
    OneOfEach(w, lead);
    OneOfEach(w, t);
    forall tag: Tag ensures SameTag(w, seed, t, tag) {
      assert SameTag(w, seed, lead, FixedWingTag) && SameTag(w, seed, lead, RotaryWingTag);
      assert SameTag(w, seed, lead, Fighter) && SameTag(w, seed, lead, Attack) && SameTag(w, seed, lead, Unarmed);
      match tag
      case FixedWingTag =>
      case RotaryWingTag =>
      case Unarmed =>
      case Fighter =>
      case Attack =>
    }
  }

  lemma {:induction false} ChainKeepsKind(w: Airspace, seed: Trackfile, p: seq<Trackfile>, a: Trackfile, b: Trackfile)
    requires PlainlyTagged(w) && IsLive(w, seed) && IsLive(w, a) && SameKind(w, seed, a)
    requires IsChain(w, CategoryOf(w, seed), p, a, b)
    ensures SameKind(w, seed, b)
    decreases |p|
  {
    if p != [] {
      LinkKeepsKind(w, seed, a, p[0]);
      ChainKeepsKind(w, seed, p[1..], p[0], b);
    }
  }

  // With one wing tag and one role tag on every live contact, all members of a
  // group have those of the seed.
  lemma GroupIsOfOneKind(w: Airspace, seed: Trackfile, ts: seq<Trackfile>, t: Trackfile)
    requires PlainlyTagged(w) && IsLive(w, seed) && IsGroupOf(w, seed, ts) && t in ts
    ensures SameKind(w, seed, t)
  {
    if !seed.IsLastKnownPointZero() {
      var p :| IsChain(w, CategoryOf(w, seed), p, seed, t);
      ChainKeepsKind(w, seed, p, seed, t);
    }
  }

  // ---- All groups ---------------------------------------------------------------------------

  // Of the live contacts of a coalition, exactly those in the air are in a group.
  lemma AirborneIffGrouped(w: Airspace, groups: seq<seq<Trackfile>>, coalition: Coalition, t: Trackfile)
    requires Enumerates(w, groups, coalition) && IsLive(w, t)
    ensures InSome(groups, t) <==> t.contact.coalition == coalition && IsAirborne(w, t)
  {
    if InSome(groups, t) {
      MembersAreCandidates(w, groups, coalition, t);
    }
  }
}
