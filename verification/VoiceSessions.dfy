/**
 Several transmissions one after the other, from the transmitting client's audio
 to what the receiver publishes.
 */
module VoiceSessions {
  import opened Basics
  import opened Bytes
  import opened VoicePacket
  import opened Receivers
  import opened ReceiverRuns
  import opened VoiceEncoder
  import opened VoicePath
  import opened Datagrams

  // ---- Runs of the receiver, put together ------------------------------------------------

  // Arrivals and checks none of which finds a complete transmission.
  predicate Quiet(run: seq<Event>) {
    run == [] ||
    (Quiet(Init(run)) && match Last(run)
      case Arrival(_, _) => true
      case Idle(now) => !HasTransmission(StateAfter(Init(run)), now)
      case Cleared => false)
  }

  lemma {:induction false} QuietPublishesNothing(run: seq<Event>)
    requires Quiet(run)
    ensures Session(run) == Arrivals(run) && Transmissions(run) == []
  {
    if run != [] {
      QuietPublishesNothing(Init(run));
    }
  }

  // What is done to a fresh receiver can be told apart from what came before.
  lemma {:induction false} StateAfterFresh(first: seq<Event>, second: seq<Event>)
    requires StateAfter(first) == FRESH
    ensures StateAfter(first + second) == StateAfter(second)
  {
    if second == [] {
      assert first + second == first;
    } else {
      assert Init(first + second) == first + Init(second);
      StateAfterFresh(first, Init(second));
    }
  }

  lemma {:induction false} TransmissionsAfterFresh(first: seq<Event>, second: seq<Event>)
    requires StateAfter(first) == FRESH
    ensures Transmissions(first + second) == Transmissions(first) + Transmissions(second)
  {
    if second == [] {
      assert first + second == first;
    } else {
      var init, e := Init(second), Last(second);
      assert Init(first + second) == first + init && Last(first + second) == e;
      TransmissionsAfterFresh(first, init);
      StateAfterFresh(first, init);
      var more := Published(StateAfter(init), e);
      assert Transmissions(first + second) == Transmissions(first + init) + more;
      assert Transmissions(second) == Transmissions(init) + more;
    }
  }

  lemma {:induction false} ArrivalsOfBoth(first: seq<Event>, second: seq<Event>)
    ensures Arrivals(first + second) == Arrivals(first) + Arrivals(second)
  {
    if second == [] {
      assert first + second == first;
    } else {
      var init := Init(second);
      assert Init(first + second) == first + init && Last(first + second) == Last(second);
      ArrivalsOfBoth(first, init);
      AppendTwice(Arrivals(first), Arrivals(init), if Last(second).Arrival? then [Last(second).packet] else []);
    }
  }

  // ---- Times -------------------------------------------------------------------------------

  function ArrivalTimes(run: seq<Event>): (times: seq<Time>)
    ensures |times| == |Arrivals(run)|
  {
    if run == [] then []
    else ArrivalTimes(Init(run)) + if Last(run).Arrival? then [Last(run).now] else []
  }

  // When packets that arrived at these times are over: 300 ms after the last of
  // those that are in order, which the first `fit` are.
  function Over(times: seq<Time>, fit: nat): Time
    requires times != [] && fit > 0
  {
    times[Min(|times|, fit) - 1] + 300
  }

  // No check comes more than 300 ms after the last packet before it.
  predicate Paced(run: seq<Event>, fit: nat)
    requires fit > 0
  {
    run == [] ||
    (Paced(Init(run), fit) && match Last(run)
      case Arrival(_, _) => true
      case Idle(now) => ArrivalTimes(Init(run)) == [] || now <= Over(ArrivalTimes(Init(run)), fit)
      case Cleared => false)
  }

  // What the receiver is listening for, after so many numbered packets.
  ghost predicate Listens(s: RxState, times: seq<Time>, start: uint64, origin: GUID) {
    if times == [] then s == FRESH
    else
      && s.origin == origin && s.buffer != []
      && s.packetNumber == Number(start, Min(|times|, BeforeWrap(start)) - 1)
      && s.deadline == Some(Over(times, BeforeWrap(start)))
  }

  lemma OneArrivalMore(s: RxState, times: seq<Time>, start: uint64, origin: GUID, p: Packet, now: Time)
    requires Listens(s, times, start, origin) && origin != []
    requires p.packetID == Number(start, |times|) && p.originGUID == origin
    ensures Listens(Received(s, p, now), times + [now], start, origin)
  {
    NumberBeforeWrap(start, |times|);
    if times != [] {
      NumberBeforeWrap(start, Min(|times|, BeforeWrap(start)) - 1);
      assert |times| < BeforeWrap(start) || s.packetNumber == TWO_64 - 1;
    }
  }

  // A check in time finds nothing.
  lemma {:induction false} PacedIsQuiet(run: seq<Event>, start: uint64, origin: GUID)
    requires Paced(run, BeforeWrap(start)) && origin != []
    requires Numbered(Arrivals(run), start) && AllFrom(Arrivals(run), origin)
    ensures Quiet(run) && Listens(StateAfter(run), ArrivalTimes(run), start, origin)
  {
    if run != [] {
      var init, e := Init(run), Last(run);
      FrontArrivals(run, start, origin);
      PacedIsQuiet(init, start, origin);
      match e
      case Arrival(p, now) =>
        OneArrivalMore(StateAfter(init), ArrivalTimes(init), start, origin, p, now);
      case Idle(now) =>
      case Cleared =>
    }
  }

  lemma FrontArrivals(run: seq<Event>, start: uint64, origin: GUID)
    requires run != [] && Numbered(Arrivals(run), start) && AllFrom(Arrivals(run), origin)
    ensures Numbered(Arrivals(Init(run)), start) && AllFrom(Arrivals(Init(run)), origin)
    ensures Last(run).Arrival? ==>
      Last(run).packet.packetID == Number(start, |Arrivals(Init(run))|) && Last(run).packet.originGUID == origin
  {
    var before, all := Arrivals(Init(run)), Arrivals(run);
    assert forall i :: 0 <= i < |before| ==> before[i] == all[i];
    if Last(run).Arrival? {
      assert all[|before|] == Last(run).packet;
    }
  }

  // One transmission as the receiver hears it, and the check that ends it.
  datatype Leg = Leg(heard: seq<Event>, done: Time)

  function Whole(leg: Leg): seq<Event> {
    leg.heard + [Idle(leg.done)]
  }

  function Joined(legs: seq<Leg>): seq<Event> {
    if legs == [] then [] else Joined(Init(legs)) + Whole(Last(legs))
  }

  // The packets are heard, no check comes more than 300 ms after the last one
  // before it, and the final check comes later than that.
  predicate Delivers(leg: Leg, ps: seq<Packet>, start: uint64) {
    && Arrivals(leg.heard) == ps && Paced(leg.heard, BeforeWrap(start))
    && (ps != [] ==> leg.done > Over(ArrivalTimes(leg.heard), BeforeWrap(start)))
  }

  // ---- One leg ------------------------------------------------------------------------------

  lemma {:induction false} IdentifiedByArrivals(run: seq<Event>, origin: GUID)
    requires origin != [] && AllFrom(Arrivals(run), origin)
    ensures Identified(run)
  {
    if run != [] {
      assert AllFrom(Arrivals(Init(run)), origin) by {
        assert forall i :: 0 <= i < |Arrivals(Init(run))| ==> Arrivals(Init(run))[i] == Arrivals(run)[i];
      }
      IdentifiedByArrivals(Init(run), origin);
      if Last(run).Arrival? {
        assert Last(Arrivals(run)) == Last(run).packet;
      }
    }
  }

  lemma BufferOfLeg(run: seq<Event>, start: uint64, origin: GUID)
    requires Quiet(run) && Numbered(Arrivals(run), start) && AllFrom(Arrivals(run), origin) && origin != []
    ensures var ps := Arrivals(run);
      StateAfter(run).buffer == Take(ps[..Min(|ps|, BeforeWrap(start))], MAX_RX_PACKETS)
    ensures Arrivals(run) == [] ==> StateAfter(run) == FRESH
  {
    IdentifiedByArrivals(run, origin);
    QuietPublishesNothing(run);
    BufferIsRunningMaxima(run);
    if Arrivals(run) != [] {
      FromOriginOfAll(Arrivals(run), origin);
      MaximaOfNumbered(Arrivals(run), start);
    }
  }

  // The receiver publishes what it buffered, if that is long enough, and is
  // fresh again.
  lemma LegPublishes(leg: Leg, ps: seq<Packet>, start: uint64, origin: GUID)
    requires Delivers(leg, ps, start) && Numbered(ps, start) && AllFrom(ps, origin) && origin != []
    ensures StateAfter(Whole(leg)) == FRESH && Arrivals(Whole(leg)) == ps
    ensures var buffer := Take(ps[..Min(|ps|, BeforeWrap(start))], MAX_RX_PACKETS);
      Transmissions(Whole(leg)) == if |buffer| >= 26 then [buffer] else []
  {
    assert Init(Whole(leg)) == leg.heard && Last(Whole(leg)) == Idle(leg.done);
    PacedIsQuiet(leg.heard, start, origin);
    QuietPublishesNothing(leg.heard);
    BufferOfLeg(leg.heard, start, origin);
  }

  // ---- The audio of transmissions -----------------------------------------------------------

  function AudioOfAll(ts: seq<seq<Packet>>): seq<seq<seq<byte>>> {
    if ts == [] then [] else AudioOfAll(Init(ts)) + [AudioOf(Last(ts))]
  }

  function Size(audio: seq<seq<seq<byte>>>): nat {
    if audio == [] then 0 else Size(Init(audio)) + |Last(audio)|
  }

  lemma {:induction false} AudioOfBoth(ts: seq<seq<Packet>>, us: seq<seq<Packet>>)
    ensures AudioOfAll(ts + us) == AudioOfAll(ts) + AudioOfAll(us)
  {
    if us == [] {
      assert ts + us == ts;
    } else {
      assert Init(ts + us) == ts + Init(us);
      AudioOfBoth(ts, Init(us));
    }
  }

  lemma {:induction false} SizeOfBoth(a: seq<seq<seq<byte>>>, b: seq<seq<seq<byte>>>)
    ensures Size(a + b) == Size(a) + Size(b)
  {
    if b == [] {
      assert a + b == a;
    } else {
      assert Init(a + b) == a + Init(b);
      SizeOfBoth(a, Init(b));
    }
  }

  // Lists that can only lack something are joined to equal lists only if
  // neither lacks anything.
  lemma NothingLacks(a: seq<seq<seq<byte>>>, b: seq<seq<seq<byte>>>, x: seq<seq<seq<byte>>>, y: seq<seq<seq<byte>>>)
    requires Size(a) <= Size(b) && Size(x) <= Size(y) && (Size(x) == Size(y) ==> x == y)
    ensures a + x == b + y <==> a == b && x == y
  {
    SizeOfBoth(a, x);
    SizeOfBoth(b, y);
    if a + x == b + y {
      assert x == y;
      assert |a| == |b|;
      assert a == (a + x)[..|a|] && b == (b + y)[..|b|];
    }
  }

  // What should be published of a transmission: nothing up to a second, and
  // nothing beyond thirty.
  function Wanted(payloads: seq<OpusBytes>): seq<seq<seq<byte>>> {
    if |payloads| >= 26 then [FirstPayloads(payloads, 750)] else []
  }

  // The counter does not wrap among the packets that are wanted.
  predicate Unwrapped(payloads: seq<OpusBytes>, start: uint64) {
    |payloads| >= 26 ==> Min(|payloads|, MAX_RX_PACKETS) <= BeforeWrap(start)
  }

  // What is published of a buffer, as it can differ from what is wanted.
  ghost predicate Falls(audio: seq<seq<seq<byte>>>, payloads: seq<OpusBytes>, start: uint64) {
    && Size(audio) <= Size(Wanted(payloads))
    && (Size(audio) == Size(Wanted(payloads)) ==> audio == Wanted(payloads))
    && (audio == Wanted(payloads) <==> Unwrapped(payloads, start))
  }

  lemma AudioOfBuffer(payloads: seq<OpusBytes>, buffer: seq<Packet>, start: uint64)
    requires |buffer| == Min(Min(|payloads|, BeforeWrap(start)), MAX_RX_PACKETS)
    requires AudioOf(buffer) == FirstPayloads(payloads, MAX_RX_PACKETS) <==> Min(|payloads|, MAX_RX_PACKETS) <= BeforeWrap(start)
    ensures Falls(AudioOfAll(if |buffer| >= 26 then [buffer] else []), payloads, start)
  {
    var wanted := FirstPayloads(payloads, MAX_RX_PACKETS);
    assert |wanted| == Min(|payloads|, MAX_RX_PACKETS) && |buffer| <= |wanted|;
    assert Init([buffer]) == [] && AudioOfAll([buffer]) == [AudioOf(buffer)];
    SizeOfOne(AudioOf(buffer));
    SizeOfOne(wanted);
  }

  lemma AudioOfLeg(payloads: seq<OpusBytes>, ps: seq<Packet>, start: uint64)
    requires |ps| == |payloads| && forall k :: 0 <= k < |ps| ==> ps[k].audioBytes == payloads[k]
    ensures var buffer := Take(ps[..Min(|ps|, BeforeWrap(start))], MAX_RX_PACKETS);
      Falls(AudioOfAll(if |buffer| >= 26 then [buffer] else []), payloads, start)
  {
    var buffer := Take(ps[..Min(|ps|, BeforeWrap(start))], MAX_RX_PACKETS);
    BufferedAudio(payloads, ps, buffer, BeforeWrap(start));
    AudioOfBuffer(payloads, buffer, start);
  }

  lemma SizeOfOne(x: seq<seq<byte>>)
    ensures Size([x]) == |x| && Size([]) == 0
  {
    assert Init([x]) == [];
  }

  // ---- Any number of transmissions ------------------------------------------------------------

  // The payloads of one transmission; without an encoder there are none.
  function PayloadsOf(audio: seq<Sample>, opus: Option<Encoder>): seq<OpusBytes> {
    match opus
    case Some(encoder) => Payloads(encoder, Frames(audio))
    case None => []
  }

  // The number of the first packet after those of all these transmissions.
  function NextNumber(audio: seq<seq<Sample>>, opus: seq<Option<Encoder>>, start: uint64, frequencies: seq<Frequency>, guid: GUID): uint64
    requires |audio| == |opus|
  {
    Number(start, |Sent(audio, opus, start, frequencies, guid)|)
  }

  // Each leg carries the packets of its transmission.
  predicate AllDelivered(audio: seq<seq<Sample>>, opus: seq<Option<Encoder>>, start: uint64, frequencies: seq<Frequency>, guid: GUID,
                         legs: seq<Leg>)
    requires |audio| == |opus| == |legs|
  {
    legs == [] ||
    (AllDelivered(Init(audio), Init(opus), start, frequencies, guid, Init(legs))
     && var number := NextNumber(Init(audio), Init(opus), start, frequencies, guid);
        Delivers(Last(legs), Packets(PayloadsOf(Last(audio), Last(opus)), number, frequencies, guid), number))
  }

  function AllWanted(audio: seq<seq<Sample>>, opus: seq<Option<Encoder>>): seq<seq<seq<byte>>>
    requires |audio| == |opus|
  {
    if audio == [] then [] else AllWanted(Init(audio), Init(opus)) + Wanted(PayloadsOf(Last(audio), Last(opus)))
  }

  predicate AllUnwrapped(audio: seq<seq<Sample>>, opus: seq<Option<Encoder>>, start: uint64, frequencies: seq<Frequency>, guid: GUID)
    requires |audio| == |opus|
  {
    audio == [] ||
    (AllUnwrapped(Init(audio), Init(opus), start, frequencies, guid)
     && Unwrapped(PayloadsOf(Last(audio), Last(opus)), NextNumber(Init(audio), Init(opus), start, frequencies, guid)))
  }

  lemma LegPackets(payloads: seq<OpusBytes>, start: uint64, frequencies: seq<Frequency>, guid: GUID)
    requires |guid| == GUID_LENGTH && FitsDatagram(frequencies)
    ensures var ps := Packets(payloads, start, frequencies, guid);
      Numbered(ps, start) && AllFrom(ps, guid) && forall k :: 0 <= k < |ps| ==> ps[k].audioBytes == payloads[k]
  {
    PacketsSurviveTransport(payloads, start, frequencies, guid);
  }

  lemma OneLeg(leg: Leg, payloads: seq<OpusBytes>, start: uint64, frequencies: seq<Frequency>, guid: GUID)
    requires |guid| == GUID_LENGTH && FitsDatagram(frequencies)
    requires Delivers(leg, Packets(payloads, start, frequencies, guid), start)
    ensures StateAfter(Whole(leg)) == FRESH && Arrivals(Whole(leg)) == Packets(payloads, start, frequencies, guid)
    ensures Falls(AudioOfAll(Transmissions(Whole(leg))), payloads, start)
  {
    var ps := Packets(payloads, start, frequencies, guid);
    LegPackets(payloads, start, frequencies, guid);
    LegPublishes(leg, ps, start, guid);
    AudioOfLeg(payloads, ps, start);
  }

  // All published audio, and its size, against all that is wanted.
  lemma OneMoreLeg(legs: seq<Leg>, leg: Leg, wanted: seq<seq<seq<byte>>>, unwrapped: bool, payloads: seq<OpusBytes>, start: uint64)
    requires StateAfter(Joined(legs)) == FRESH && Falls(AudioOfAll(Transmissions(Whole(leg))), payloads, start)
    requires Size(AudioOfAll(Transmissions(Joined(legs)))) <= Size(wanted)
    requires AudioOfAll(Transmissions(Joined(legs))) == wanted <==> unwrapped
    ensures var published := AudioOfAll(Transmissions(Joined(legs) + Whole(leg)));
      && Size(published) <= Size(wanted + Wanted(payloads))
      && (published == wanted + Wanted(payloads) <==> unwrapped && Unwrapped(payloads, start))
  {
    TransmissionsAfterFresh(Joined(legs), Whole(leg));
    var before, more := Transmissions(Joined(legs)), Transmissions(Whole(leg));
    AudioOfBoth(before, more);
    SizeOfBoth(AudioOfAll(before), AudioOfAll(more));
    SizeOfBoth(wanted, Wanted(payloads));
    NothingLacks(AudioOfAll(before), wanted, AudioOfAll(more), Wanted(payloads));
  }

  lemma {:induction false} RunOfLegs(audio: seq<seq<Sample>>, opus: seq<Option<Encoder>>, start: uint64, frequencies: seq<Frequency>, guid: GUID,
                                     legs: seq<Leg>)
    requires |audio| == |opus| == |legs| && |guid| == GUID_LENGTH && FitsDatagram(frequencies)
    requires AllDelivered(audio, opus, start, frequencies, guid, legs)
    ensures StateAfter(Joined(legs)) == FRESH && Arrivals(Joined(legs)) == Sent(audio, opus, start, frequencies, guid)
    ensures var published := AudioOfAll(Transmissions(Joined(legs)));
      && Size(published) <= Size(AllWanted(audio, opus))
      && (published == AllWanted(audio, opus) <==> AllUnwrapped(audio, opus, start, frequencies, guid))
  {
    if legs != [] {
      RunOfLegs(Init(audio), Init(opus), start, frequencies, guid, Init(legs));
      var payloads := PayloadsOf(Last(audio), Last(opus));
      var number := NextNumber(Init(audio), Init(opus), start, frequencies, guid);
      OneLeg(Last(legs), payloads, number, frequencies, guid);
      StateAfterFresh(Joined(Init(legs)), Whole(Last(legs)));
      ArrivalsOfBoth(Joined(Init(legs)), Whole(Last(legs)));
      OneMoreLeg(Init(legs), Last(legs), AllWanted(Init(audio), Init(opus)),
                 AllUnwrapped(Init(audio), Init(opus), start, frequencies, guid), payloads, number);
    }
  }

  // What is published of any number of transmissions whose packets arrive.
  lemma PacketsEndToEnd(audio: seq<seq<Sample>>, opus: seq<Option<Encoder>>, start: uint64, frequencies: seq<Frequency>, guid: GUID,
                        legs: seq<Leg>)
    requires |audio| == |opus| == |legs| && |guid| == GUID_LENGTH && FitsDatagram(frequencies)
    requires AllDelivered(audio, opus, start, frequencies, guid, legs)
    ensures Arrivals(Joined(legs)) == Sent(audio, opus, start, frequencies, guid) && StateAfter(Joined(legs)) == FRESH
    ensures AudioOfAll(Transmissions(Joined(legs))) == AllWanted(audio, opus)
       <==> AllUnwrapped(audio, opus, start, frequencies, guid)
  {
    RunOfLegs(audio, opus, start, frequencies, guid, legs);
  }

  // ---- From datagram to datagram --------------------------------------------------------------

  // One transmission on the wire, and the check that ends it.
  datatype WireLeg = WireLeg(wire: seq<Wire>, done: Time)

  function JoinedWire(legs: seq<WireLeg>): seq<Wire> {
    if legs == [] then [] else JoinedWire(Init(legs)) + WholeWire(Last(legs))
  }

  function WholeWire(leg: WireLeg): seq<Wire> {
    leg.wire + [Check(leg.done)]
  }

  // The datagrams a receiver tuned like this takes notice of. Any others, be
  // they for other radios or no packets at all, may come in between.
  function Caught(wire: seq<Wire>, isMine: Tuning): seq<seq<byte>> {
    if wire == [] then []
    else Caught(Init(wire), isMine) + CaughtOne(Last(wire), isMine)
  }

  function CaughtOne(e: Wire, isMine: Tuning): seq<seq<byte>> {
    match e
    case Datagram(b, _) => if Decoding(b).Ok? && IsFor(Decoding(b).value, isMine) then [b] else []
    case _ => []
  }

  // They are the encoded packets, in order; no check comes more than 300 ms after
  // the last one before it, and the final check comes later than that.
  ghost predicate Carries(leg: WireLeg, ps: seq<Packet>, start: uint64, isMine: Tuning) {
    && (forall p :: p in ps ==> Encodable(p))
    && Caught(leg.wire, isMine) == Encodings(ps)
    && Paced(Events(leg.wire, isMine), BeforeWrap(start))
    && (ArrivalTimes(Events(leg.wire, isMine)) != [] ==>
          leg.done > Over(ArrivalTimes(Events(leg.wire, isMine)), BeforeWrap(start)))
  }

  function Encodings(ps: seq<Packet>): (bs: seq<seq<byte>>)
    requires forall p :: p in ps ==> Encodable(p)
    ensures |bs| == |ps|
  {
    seq(|ps|, k requires 0 <= k < |ps| => Encoding(ps[k]))
  }

  ghost predicate AllCarried(audio: seq<seq<Sample>>, opus: seq<Option<Encoder>>, start: uint64, frequencies: seq<Frequency>, guid: GUID,
                             legs: seq<WireLeg>, isMine: Tuning)
    requires |audio| == |opus| == |legs|
  {
    legs == [] ||
    (AllCarried(Init(audio), Init(opus), start, frequencies, guid, Init(legs), isMine)
     && var number := NextNumber(Init(audio), Init(opus), start, frequencies, guid);
        Carries(Last(legs), Packets(PayloadsOf(Last(audio), Last(opus)), number, frequencies, guid), number, isMine))
  }

  function Noticing(legs: seq<WireLeg>, isMine: Tuning): (noticed: seq<Leg>)
    ensures |noticed| == |legs|
    ensures forall k :: 0 <= k < |legs| ==> noticed[k] == Leg(Events(legs[k].wire, isMine), legs[k].done)
  {
    seq(|legs|, k requires 0 <= k < |legs| => Leg(Events(legs[k].wire, isMine), legs[k].done))
  }

  lemma AppendTwice<T>(a: seq<T>, b: seq<T>, c: seq<T>)
    ensures (a + b) + c == a + (b + c)
  {
  }

  lemma {:induction false} EventsOfBoth(first: seq<Wire>, second: seq<Wire>, isMine: Tuning)
    ensures Events(first + second, isMine) == Events(first, isMine) + Events(second, isMine)
  {
    if second == [] {
      assert first + second == first;
    } else {
      var init, e := Init(second), Last(second);
      assert Init(first + second) == first + init && Last(first + second) == e;
      EventsOfBoth(first, init, isMine);
      AppendTwice(Events(first, isMine), Events(init, isMine), Noticed(e, isMine));
    }
  }

  lemma EventsOfLeg(leg: WireLeg, isMine: Tuning)
    ensures Events(WholeWire(leg), isMine) == Whole(Leg(Events(leg.wire, isMine), leg.done))
  {
    assert Init(WholeWire(leg)) == leg.wire;
  }

  lemma NoticingLast(legs: seq<WireLeg>, isMine: Tuning)
    requires legs != []
    ensures Init(Noticing(legs, isMine)) == Noticing(Init(legs), isMine)
    ensures Last(Noticing(legs, isMine)) == Leg(Events(Last(legs).wire, isMine), Last(legs).done)
  {
  }

  lemma {:induction false} EventsOfJoined(legs: seq<WireLeg>, isMine: Tuning)
    ensures Events(JoinedWire(legs), isMine) == Joined(Noticing(legs, isMine))
  {
    if legs != [] {
      var init, last := Init(legs), Last(legs);
      EventsOfJoined(init, isMine);
      EventsOfLeg(last, isMine);
      EventsOfBoth(JoinedWire(init), WholeWire(last), isMine);
      NoticingLast(legs, isMine);
    }
  }

  ghost predicate DecodeTo(bs: seq<seq<byte>>, ps: seq<Packet>) {
    |bs| == |ps| && forall k :: 0 <= k < |bs| ==> Decoding(bs[k]) == Ok(ps[k])
  }

  lemma DecodeBoth(bs: seq<seq<byte>>, ps: seq<Packet>, cs: seq<seq<byte>>, qs: seq<Packet>)
    requires DecodeTo(bs, ps) && DecodeTo(cs, qs)
    ensures DecodeTo(bs + cs, ps + qs)
  {
    forall k | 0 <= k < |bs + cs| ensures Decoding((bs + cs)[k]) == Ok((ps + qs)[k]) {
      if k < |bs| {
        assert (bs + cs)[k] == bs[k] && (ps + qs)[k] == ps[k];
      } else {
        assert (bs + cs)[k] == cs[k - |bs|] && (ps + qs)[k] == qs[k - |bs|];
      }
    }
  }

  // What arrives at the receiver is decoded from what it catches.
  lemma {:induction false} ArrivalsAreCaught(wire: seq<Wire>, isMine: Tuning)
    ensures DecodeTo(Caught(wire, isMine), Arrivals(Events(wire, isMine)))
  {
    if wire != [] {
      var init, e := Init(wire), Last(wire);
      ArrivalsAreCaught(init, isMine);
      ArrivalsOfBoth(Events(init, isMine), Noticed(e, isMine));
      ArrivalOfOne(e, isMine);
      DecodeBoth(Caught(init, isMine), Arrivals(Events(init, isMine)), CaughtOne(e, isMine), Arrivals(Noticed(e, isMine)));
    }
  }

  lemma ArrivalOfOne(e: Wire, isMine: Tuning)
    ensures DecodeTo(CaughtOne(e, isMine), Arrivals(Noticed(e, isMine)))
  {
    var noticed := Noticed(e, isMine);
    if noticed != [] {
      assert Init(noticed) == [];
      assert Arrivals([]) == [];
      assert Arrivals(noticed) == if noticed[0].Arrival? then [noticed[0].packet] else [];
    }
  }

  lemma CarriedIsDelivered(leg: WireLeg, ps: seq<Packet>, start: uint64, isMine: Tuning)
    requires Carries(leg, ps, start, isMine) && forall p :: p in ps ==> Transported(p) == Ok(p)
    ensures Delivers(Leg(Events(leg.wire, isMine), leg.done), ps, start)
  {
    ArrivalsAreCaught(leg.wire, isMine);
    var arrived := Arrivals(Events(leg.wire, isMine));
    forall k | 0 <= k < |ps| ensures arrived[k] == ps[k] {
      assert ps[k] in ps && Caught(leg.wire, isMine)[k] == Encoding(ps[k]);
    }
  }

  lemma {:induction false} AllCarriedAreDelivered(audio: seq<seq<Sample>>, opus: seq<Option<Encoder>>, start: uint64,
                                                  frequencies: seq<Frequency>, guid: GUID, legs: seq<WireLeg>, isMine: Tuning)
    requires |audio| == |opus| == |legs| && |guid| == GUID_LENGTH && FitsDatagram(frequencies)
    requires AllCarried(audio, opus, start, frequencies, guid, legs, isMine)
    ensures AllDelivered(audio, opus, start, frequencies, guid, Noticing(legs, isMine))
  {
    if legs != [] {
      AllCarriedAreDelivered(Init(audio), Init(opus), start, frequencies, guid, Init(legs), isMine);
      var payloads, number := PayloadsOf(Last(audio), Last(opus)), NextNumber(Init(audio), Init(opus), start, frequencies, guid);
      PacketsSurviveTransport(payloads, number, frequencies, guid);
      CarriedIsDelivered(Last(legs), Packets(payloads, number, frequencies, guid), number, isMine);
      NoticingLast(legs, isMine);
    }
  }

  // A client sends any number of transmissions, and a receiver catches the
  // datagrams of each in order, with any datagrams of no concern to it in between,
  // and with checks that never come more than 300 ms after the last one, until one
  // does. It then publishes, one by one, exactly the encoded frames of the
  // transmissions longer than a second, up to thirty seconds of each, unless the
  // packet counter wraps among those.
  lemma SessionsEndToEnd(audio: seq<seq<Sample>>, opus: seq<Option<Encoder>>, start: uint64, frequencies: seq<Frequency>, guid: GUID,
                         legs: seq<WireLeg>, isMine: Tuning)
    requires |audio| == |opus| == |legs| && |guid| == GUID_LENGTH && FitsDatagram(frequencies)
    requires AllCarried(audio, opus, start, frequencies, guid, legs, isMine)
    ensures var run := Events(JoinedWire(legs), isMine);
      && Arrivals(run) == Sent(audio, opus, start, frequencies, guid) && StateAfter(run) == FRESH
      && (AudioOfAll(Transmissions(run)) == AllWanted(audio, opus) <==> AllUnwrapped(audio, opus, start, frequencies, guid))
  {
    EventsOfJoined(legs, isMine);
    AllCarriedAreDelivered(audio, opus, start, frequencies, guid, legs, isMine);
    PacketsEndToEnd(audio, opus, start, frequencies, guid, Noticing(legs, isMine));
  }

  // Each packet that is sent is encodable, and its datagram is caught by every
  // receiver tuned to one of the frequencies.
  lemma {:induction false} AllAreCaught(audio: seq<seq<Sample>>, opus: seq<Option<Encoder>>, start: uint64,
                                        frequencies: seq<Frequency>, guid: GUID, isMine: Tuning)
    requires |audio| == |opus| && |guid| == GUID_LENGTH && FitsDatagram(frequencies)
    ensures forall p :: p in Sent(audio, opus, start, frequencies, guid) ==>
      Encodable(p) && Transported(p) == Ok(p) && (IsFor(p, isMine) <==> exists i :: 0 <= i < |frequencies| && isMine(frequencies[i]))
  {
    if audio != [] {
      AllAreCaught(Init(audio), Init(opus), start, frequencies, guid, isMine);
      var payloads, number := PayloadsOf(Last(audio), Last(opus)), NextNumber(Init(audio), Init(opus), start, frequencies, guid);
      PacketsSurviveTransport(payloads, number, frequencies, guid);
    }
  }
}
