/**
 What a receiver publishes over any run of arrivals, checks and resets.
 */
module ReceiverRuns {
  import opened Basics
  import opened VoicePacket
  import opened Receivers

  // ---- Strict running maxima -------------------------------------------------------------

  ghost predicate Increasing(ps: seq<Packet>) {
    forall i, j :: 0 <= i < j < |ps| ==> ps[i].packetID < ps[j].packetID
  }

  ghost predicate AllFrom(ps: seq<Packet>, origin: GUID) {
    forall i :: 0 <= i < |ps| ==> ps[i].originGUID == origin
  }

  // The last maximum bounds everything heard.
  ghost predicate Bounds(p: Packet, ps: seq<Packet>) {
    forall i :: 0 <= i < |ps| ==> ps[i].packetID <= p.packetID
  }

  lemma {:induction false} MaximaAreIncreasing(ps: seq<Packet>, origin: GUID)
    requires ps != [] && AllFrom(ps, origin)
    ensures Maxima(ps) != [] && Bounds(Last(Maxima(ps)), ps) && Last(Maxima(ps)) in ps
    ensures Increasing(Maxima(ps)) && AllFrom(Maxima(ps), origin)
  {
    var init, p := Init(ps), Last(ps);
    assert ps == init + [p];
    if init == [] {
      assert Maxima(ps) == [p];
    } else {
      MaximaAreIncreasing(init, origin);
      MaximaStep(init, p);
      if Last(Maxima(init)).packetID < p.packetID {
        OneMoreMaximum(Maxima(init), p);
      }
    }
  }

  lemma OneMoreMaximum(m: seq<Packet>, p: Packet)
    requires m != [] && Increasing(m) && Last(m).packetID < p.packetID
    ensures Increasing(m + [p])
  {
    forall i | 0 <= i < |m| ensures m[i].packetID <= Last(m).packetID {
    }
  }

  // A newcomer extends the maxima exactly when it beats the last of them.
  lemma MaximaStep(ps: seq<Packet>, p: Packet)
    requires ps != [] && Maxima(ps) != [] && Bounds(Last(Maxima(ps)), ps) && Last(Maxima(ps)) in ps
    ensures Maxima(ps + [p])
         == Maxima(ps) + if Last(Maxima(ps)).packetID < p.packetID then [p] else []
  {
    var all, top := ps + [p], Last(Maxima(ps));
    assert Init(all) == ps;
    var k :| 0 <= k < |ps| && ps[k] == top;
    assert all[k] == top;
  }

  lemma {:induction false} FromOriginIsFrom(ps: seq<Packet>, origin: GUID)
    ensures AllFrom(FromOrigin(ps, origin), origin)
  {
    if ps != [] {
      FromOriginIsFrom(Init(ps), origin);
    }
  }

  lemma FromOriginStep(ps: seq<Packet>, p: Packet, origin: GUID)
    ensures FromOrigin(ps + [p], origin) == FromOrigin(ps, origin) + if p.originGUID == origin then [p] else []
  {
    assert Init(ps + [p]) == ps;
  }

  // ---- The state is determined by the session ----------------------------------------------

  lemma FirstArrival(p: Packet, now: Time)
    requires p.originGUID != []
    ensures Holds(Received(FRESH, p, now), [p])
  {
    var o := p.originGUID;
    assert Init([p]) == [];
    FromOriginStep([], p, o);
    assert FromOrigin([p], o) == [p];
    assert Maxima([p]) == [p];
  }

  lemma OtherSpeaker(s: RxState, session: seq<Packet>, p: Packet)
    requires session != [] && Holds(s, session) && p.originGUID != session[0].originGUID
    ensures Holds(s, session + [p])
  {
    var heard := FromOrigin(session, session[0].originGUID);
    FromOriginStep(session, p, session[0].originGUID);
    assert (session + [p])[0] == session[0] && heard + [] == heard;
  }

  lemma HearsOneMore(s: RxState, origin: GUID, heard: seq<Packet>, p: Packet, now: Time)
    requires HasHeard(s, origin, heard) && AllFrom(heard, origin) && p.originGUID == origin
    ensures HasHeard(Received(s, p, now), origin, heard + [p])
  {
    MaximaAreIncreasing(heard, origin);
    MaximaStep(heard, p);
    TakeOneMore(Maxima(heard), p);
    assert Maxima(heard) + [] == Maxima(heard);
  }

  lemma SameSpeaker(s: RxState, session: seq<Packet>, p: Packet, now: Time)
    requires session != [] && Holds(s, session) && p.originGUID == session[0].originGUID
    ensures Holds(Received(s, p, now), session + [p])
  {
    var o := session[0].originGUID;
    FromOriginIsFrom(session, o);
    HearsOneMore(s, o, FromOrigin(session, o), p, now);
    FromOriginStep(session, p, o);
    assert (session + [p])[0] == session[0];
  }

  lemma TakeOneMore(ps: seq<Packet>, p: Packet)
    ensures Take(ps + [p], MAX_RX_PACKETS)
         == if |Take(ps, MAX_RX_PACKETS)| < MAX_RX_PACKETS then Take(ps, MAX_RX_PACKETS) + [p] else Take(ps, MAX_RX_PACKETS)
  {
  }

  // The buffer holds exactly the first 750 strict running maxima of the IDs
  // sent by whoever spoke first since the last reset.
  lemma {:induction false} BufferIsRunningMaxima(run: seq<Event>)
    requires Identified(run)
    ensures Holds(StateAfter(run), Session(run))
  {
    if run != [] {
      var init, e := Init(run), Last(run);
      BufferIsRunningMaxima(init);
      match e
      case Arrival(p, now) =>
        assert run[|run| - 1].Arrival?;
        if Session(init) == [] {
          FirstArrival(p, now);
        } else if p.originGUID == Session(init)[0].originGUID {
          SameSpeaker(StateAfter(init), Session(init), p, now);
        } else {
          OtherSpeaker(StateAfter(init), Session(init), p);
        }
      case Idle(_) =>
      case Cleared =>
    }
  }

  // ---- What is published ---------------------------------------------------------------------

  ghost predicate GoodTransmission(t: seq<Packet>) {
    && 26 <= |t| <= 750 && Increasing(t)
    && t[0].originGUID != [] && AllFrom(t, t[0].originGUID)
  }

  lemma BufferIsGood(run: seq<Event>)
    requires Identified(run) && IsLongEnough(StateAfter(run))
    ensures GoodTransmission(StateAfter(run).buffer)
  {
    BufferIsRunningMaxima(run);
    var session := Session(run);
    var o := session[0].originGUID;
    FromOriginIsFrom(session, o);
    MaximaAreIncreasing(FromOrigin(session, o), o);
  }

  // Every published transmission: 26 to 750 packets of one speaker, in
  // strictly increasing order.
  lemma {:induction false} TransmissionsAreGood(run: seq<Event>)
    requires Identified(run)
    ensures forall k :: 0 <= k < |Transmissions(run)| ==> GoodTransmission(Transmissions(run)[k])
  {
    if run != [] {
      TransmissionsAreGood(Init(run));
      if Published(StateAfter(Init(run)), Last(run)) != [] {
        BufferIsGood(Init(run));
      }
    }
  }

  // ---- No arrival is used twice ----------------------------------------------------------------

  function Arrivals(run: seq<Event>): seq<Packet> {
    if run == [] then []
    else Arrivals(Init(run)) + if Last(run).Arrival? then [Last(run).packet] else []
  }

  function Flatten(ts: seq<seq<Packet>>): seq<Packet> {
    if ts == [] then [] else Flatten(Init(ts)) + Last(ts)
  }

  // `at` tells for each packet of xs which arrival it is; later packets are
  // later arrivals, so no two are the same arrival.
  ghost predicate Embeds(xs: seq<Packet>, ys: seq<Packet>, at: seq<nat>) {
    && |at| == |xs|
    && (forall k :: 0 <= k < |at| ==> at[k] < |ys| && xs[k] == ys[at[k]])
    && (forall j, k :: 0 <= j < k < |at| ==> at[j] < at[k])
  }

  lemma FlattenOne(ts: seq<seq<Packet>>, t: seq<Packet>)
    ensures Flatten(ts + [t]) == Flatten(ts) + t
  {
    assert Init(ts + [t]) == ts;
  }

  lemma EmbedsMore(xs: seq<Packet>, ys: seq<Packet>, at: seq<nat>, p: Packet)
    requires Embeds(xs, ys, at)
    ensures Embeds(xs + [p], ys + [p], at + [|ys|])
    ensures Embeds(xs, ys + [p], at)
  {
  }

  lemma EmbedsPrefix(xs: seq<Packet>, dropped: seq<Packet>, ys: seq<Packet>, at: seq<nat>)
    requires Embeds(xs + dropped, ys, at)
    ensures Embeds(xs + [], ys, at[..|xs|])
  {
    assert forall k :: 0 <= k < |xs| ==> (xs + dropped)[k] == xs[k];
  }

  // What is published so far and still buffered, as each kind of step changes it.
  lemma ArrivalEmbeds(sent: seq<Packet>, s: RxState, p: Packet, now: Time, ys: seq<Packet>, at: seq<nat>)
    returns (at': seq<nat>)
    requires Embeds(sent + s.buffer, ys, at)
    ensures Embeds(sent + Received(s, p, now).buffer, ys + [p], at')
  {
    EmbedsMore(sent + s.buffer, ys, at, p);
    if Accepts(s, p) && |s.buffer| < MAX_RX_PACKETS {
      assert sent + (s.buffer + [p]) == (sent + s.buffer) + [p];
      at' := at + [|ys|];
    } else {
      at' := at;
    }
  }

  lemma IdleEmbeds(sent: seq<Packet>, s: RxState, now: Time, ys: seq<Packet>, at: seq<nat>) returns (at': seq<nat>)
    requires Embeds(sent + s.buffer, ys, at)
    ensures Embeds(sent + Flatten(Published(s, Idle(now))) + After(s, Idle(now)).buffer, ys, at')
  {
    assert sent + [] == sent;
    if Published(s, Idle(now)) != [] {
      FlattenOne([], s.buffer);
      assert [] + [s.buffer] == [s.buffer] && [] + s.buffer == s.buffer;
      assert sent + s.buffer + [] == sent + s.buffer;
      at' := at;
    } else if HasTransmission(s, now) {
      EmbedsPrefix(sent, s.buffer, ys, at);
      at' := at[..|sent|];
    } else {
      at' := at;
    }
  }

  lemma OneStepEmbeds(sent: seq<Packet>, s: RxState, e: Event, ys: seq<Packet>, at: seq<nat>) returns (at': seq<nat>)
    requires Embeds(sent + s.buffer, ys, at)
    ensures Embeds(sent + Flatten(Published(s, e)) + After(s, e).buffer,
                   ys + (if e.Arrival? then [e.packet] else []), at')
  {
    assert ys + [] == ys && sent + [] == sent;
    match e
    case Arrival(p, now) =>
      at' := ArrivalEmbeds(sent, s, p, now, ys, at);
    case Idle(now) =>
      at' := IdleEmbeds(sent, s, now, ys, at);
    case Cleared =>
      EmbedsPrefix(sent, s.buffer, ys, at);
      at' := at[..|sent|];
  }

  // All published packets, and those still buffered, are distinct arrivals in
  // the order of their arrival.
  lemma {:induction false} PublishedArrivalsAreDistinct(run: seq<Event>) returns (at: seq<nat>)
    ensures Embeds(Flatten(Transmissions(run)) + StateAfter(run).buffer, Arrivals(run), at)
  {
    if run == [] {
      at := [];
    } else {
      var init, e := Init(run), Last(run);
      at := PublishedArrivalsAreDistinct(init);
      at := OneStepEmbeds(Flatten(Transmissions(init)), StateAfter(init), e, Arrivals(init), at);
      FlattenPublished(Transmissions(init), StateAfter(init), e);
    }
  }

  lemma FlattenPublished(ts: seq<seq<Packet>>, s: RxState, e: Event)
    ensures Flatten(ts + Published(s, e)) == Flatten(ts) + Flatten(Published(s, e))
  {
    var more := Published(s, e);
    if more == [] {
      assert ts + more == ts && Flatten(ts) + [] == Flatten(ts);
    } else {
      FlattenOne(ts, s.buffer);
      FlattenOne([], s.buffer);
      assert [] + [s.buffer] == more && [] + s.buffer == s.buffer;
    }
  }
}
