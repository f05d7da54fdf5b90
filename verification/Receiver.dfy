/**
 The receiver of one radio frequency: it listens to whoever spoke first, keeps
 the packets that are newer than all before, and hands a transmission on once
 the speaker has been silent. Times are milliseconds.
 */
module Receivers {
  import opened Basics
  import opened Bytes
  import opened VoicePacket

  type GUID = seq<byte>

  const FRAME_LENGTH: int := 40
  const MAX_RX_GAP: int := 300
  const MAX_RX_PACKETS: nat := 30_000 / 40
  const MIN_RX_DURATION: int := 1_000

  // `deadline` is None for the zero time, which lies before every other.
  datatype RxState = RxState(buffer: seq<Packet>, origin: GUID, deadline: Option<Time>, packetNumber: uint64)

  const FRESH: RxState := RxState([], [], None, 0)

  predicate Accepts(s: RxState, p: Packet) {
    var isNewTransmission := s.origin == [] && s.packetNumber == 0;
    isNewTransmission || (p.packetID > s.packetNumber && s.origin == p.originGUID)
  }

  function Received(s: RxState, p: Packet, now: Time): RxState {
    if !Accepts(s, p) then s
    else RxState(
      if |s.buffer| < MAX_RX_PACKETS then s.buffer + [p] else s.buffer,
      p.originGUID, Some(now + MAX_RX_GAP), p.packetID)
  }

  predicate HasTransmission(s: RxState, now: Time) {
    |s.buffer| > 0 && (s.deadline.Some? ==> now > s.deadline.value)
  }

  // A transmission is worth publishing when it lasts over a second.
  predicate IsLongEnough(s: RxState) {
    |s.buffer| * FRAME_LENGTH > MIN_RX_DURATION
  }

  class Receiver {
    var buffer: seq<Packet>
    var origin: GUID
    var deadline: Option<Time>
    var packetNumber: uint64

    constructor ()
      ensures State() == FRESH
    {
      buffer, origin, deadline, packetNumber := [], [], None, 0;
    }

    function State(): RxState
      reads this
    {
      RxState(buffer, origin, deadline, packetNumber)
    }

    method Receive(packet: Packet, now: Time)
      modifies this
      ensures State() == Received(old(State()), packet, now)
    {
      var isNewTransmission := origin == [] && packetNumber == 0;
      var isNewerPacket := packet.packetID > packetNumber;
      var isSameOrigin := origin == packet.originGUID;
      var shouldAcceptPacket := isNewTransmission || (isNewerPacket && isSameOrigin);
      if !shouldAcceptPacket {
        return;
      }
      if |buffer| < MAX_RX_PACKETS {
        buffer := buffer + [packet];
      }
      origin := packet.originGUID;
      deadline := Some(now + MAX_RX_GAP);
      packetNumber := packet.packetID;
    }

    method Reset()
      modifies this
      ensures State() == FRESH
    {
      buffer := [];
      origin := [];
      deadline := None;
      packetNumber := 0;
    }

    // An arriving packet is delivered once for every matching frequency it
    // carries; more than one match is as good as one.
    method Deliver(packet: Packet, isMine: Frequency -> bool, now: Time)
      requires packet.originGUID != []
      modifies this
      ensures State() == if exists i :: 0 <= i < |packet.frequencies| && isMine(packet.frequencies[i])
                         then Received(old(State()), packet, now) else old(State())
    {
      for i := 0 to |packet.frequencies|
        invariant State() == if exists k :: 0 <= k < i && isMine(packet.frequencies[k])
                             then Received(old(State()), packet, now) else old(State())
      {
        if isMine(packet.frequencies[i]) {
          Receive(packet, now);
        }
      }
    }

    // The periodic check, while no packet is waiting.
    method Tick(now: Time) returns (published: Option<seq<Packet>>)
      modifies this
      ensures published == if HasTransmission(old(State()), now) && IsLongEnough(old(State()))
                           then Some(old(buffer)) else None
      ensures State() == if HasTransmission(old(State()), now) then FRESH else old(State())
    {
      published := None;
      if HasTransmission(State(), now) {
        var duration := |buffer| * FRAME_LENGTH;
        if duration > MIN_RX_DURATION {
          published := Some(buffer);
        }
        Reset();
      }
    }
  }

  // ---- Single arrivals -----------------------------------------------------------------

  // A second delivery changes nothing in any state, exactly when the packet
  // cannot be mistaken for silence.
  lemma DeliveringTwiceIsOnce(p: Packet)
    ensures (forall s: RxState, t: Time, u: Time :: Received(Received(s, p, t), p, u) == Received(s, p, t))
       <==> !(p.originGUID == [] && p.packetID == 0)
  {
    if p.originGUID == [] && p.packetID == 0 {
      assert Received(Received(FRESH, p, 0), p, 1) != Received(FRESH, p, 0);
    }
  }

  // ---- Runs ------------------------------------------------------------------------------

  datatype Event = Arrival(packet: Packet, now: Time) | Idle(now: Time) | Cleared

  function After(s: RxState, e: Event): RxState {
    match e
    case Arrival(p, now) => Received(s, p, now)
    case Idle(now) => if HasTransmission(s, now) then FRESH else s
    case Cleared => FRESH
  }

  function Published(s: RxState, e: Event): seq<seq<Packet>> {
    match e
    case Idle(now) => if HasTransmission(s, now) && IsLongEnough(s) then [s.buffer] else []
    case _ => []
  }

  // A transmission ends 300 ms after the last packet that was accepted: checks up
  // to then change nothing, and the first one later clears the receiver and
  // publishes 26 packets or more.
  lemma SilenceEnds(s: RxState, p: Packet, heard: Time, now: Time)
    requires Accepts(s, p)
    ensures var s' := Received(s, p, heard);
      && (now <= heard + 300 ==> After(s', Idle(now)) == s' && Published(s', Idle(now)) == [])
      && (now > heard + 300 ==>
            After(s', Idle(now)) == FRESH
            && Published(s', Idle(now)) == if |s'.buffer| >= 26 then [s'.buffer] else [])
  {
    assert |Received(s, p, heard).buffer| > 0;
  }

  function StateAfter(run: seq<Event>): RxState {
    if run == [] then FRESH else After(StateAfter(Init(run)), Last(run))
  }

  function Transmissions(run: seq<Event>): seq<seq<Packet>> {
    if run == [] then []
    else Transmissions(Init(run)) + Published(StateAfter(Init(run)), Last(run))
  }

  // Everything that arrived since the receiver was last cleared.
  function Session(run: seq<Event>): seq<Packet> {
    if run == [] then []
    else
      match Last(run)
      case Arrival(p, _) => Session(Init(run)) + [p]
      case Idle(now) => if HasTransmission(StateAfter(Init(run)), now) then [] else Session(Init(run))
      case Cleared => []
  }

  predicate Identified(run: seq<Event>) {
    forall i :: 0 <= i < |run| && run[i].Arrival? ==> run[i].packet.originGUID != []
  }

  function FromOrigin(ps: seq<Packet>, origin: GUID): seq<Packet> {
    if ps == [] then []
    else FromOrigin(Init(ps), origin) + if Last(ps).originGUID == origin then [Last(ps)] else []
  }

  // The packets newer than all packets before them.
  function Maxima(ps: seq<Packet>): seq<Packet> {
    if ps == [] then []
    else
      var newer := forall i :: 0 <= i < |ps| - 1 ==> ps[i].packetID < Last(ps).packetID;
      Maxima(Init(ps)) + if newer then [Last(ps)] else []
  }

  function Take(ps: seq<Packet>, n: nat): seq<Packet> {
    if |ps| <= n then ps else ps[..n]
  }

  // The receiver listens to `origin` and has heard these packets from it: it
  // buffers the first of their running maxima and remembers the last.
  ghost predicate HasHeard(s: RxState, origin: GUID, heard: seq<Packet>) {
    && s.origin == origin != []
    && heard != [] && Maxima(heard) != []
    && s.buffer == Take(Maxima(heard), MAX_RX_PACKETS)
    && s.packetNumber == Last(Maxima(heard)).packetID
  }

  // What the receiver should hold after a session.
  ghost predicate Holds(s: RxState, session: seq<Packet>) {
    if session == [] then s == FRESH
    else HasHeard(s, session[0].originGUID, FromOrigin(session, session[0].originGUID))
  }
}
