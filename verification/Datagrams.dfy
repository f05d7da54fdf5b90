/**
 The receiver fed with datagrams, as they come from the network: those that do
 not decode, or carry no matching frequency, never reach it.
 */
module Datagrams {
  import opened Basics
  import opened Bytes
  import opened VoicePacket
  import opened PacketLaws
  import opened Receivers
  import opened ReceiverRuns

  // Which frequencies belong to the receiver's radio.
  type Tuning = Frequency -> bool

  datatype Wire = Datagram(b: seq<byte>, now: Time) | Check(now: Time) | Dropped

  predicate IsFor(p: Packet, isMine: Tuning) {
    exists i :: 0 <= i < |p.frequencies| && isMine(p.frequencies[i])
  }

  // What the receiver notices of a step.
  function Noticed(e: Wire, isMine: Tuning): seq<Event> {
    match e
    case Datagram(b, now) =>
      if Decoding(b).Ok? && IsFor(Decoding(b).value, isMine) then [Arrival(Decoding(b).value, now)] else []
    case Check(now) => [Idle(now)]
    case Dropped => [Cleared]
  }

  function Events(run: seq<Wire>, isMine: Tuning): seq<Event> {
    if run == [] then [] else Events(Init(run), isMine) + Noticed(Last(run), isMine)
  }

  // Every decoded packet has an origin of 22 bytes.
  lemma {:induction false} EventsAreIdentified(run: seq<Wire>, isMine: Tuning)
    ensures Identified(Events(run, isMine))
  {
    if run != [] {
      EventsAreIdentified(Init(run), isMine);
      match Last(run)
      case Datagram(b, _) =>
        if Decoding(b).Ok? {
          DecodedIsConsistent(b);
        }
      case _ =>
    }
  }

  // The step of the receiving loop for one datagram.
  method HandleDatagram(receiver: Receiver, b: seq<byte>, now: Time, isMine: Tuning, ghost run: seq<Wire>)
    requires receiver.State() == StateAfter(Events(run, isMine))
    modifies receiver
    ensures receiver.State() == StateAfter(Events(run + [Datagram(b, now)], isMine))
  {
    ghost var before, more := Events(run, isMine), Noticed(Datagram(b, now), isMine);
    assert Events(run + [Datagram(b, now)], isMine) == before + more by {
      assert Init(run + [Datagram(b, now)]) == run;
    }
    assert more == [] ==> before + more == before;
    var decoded := Decode(b);
    match decoded {
      case Err(_) =>
      case Ok(packet) =>
        DecodedIsConsistent(b);
        receiver.Deliver(packet, isMine, now);
        assert Init(before + [Arrival(packet, now)]) == before;
    }
  }

  // Whatever datagrams arrive: the buffer holds the first 750 strict running
  // maxima of the first speaker's IDs since the receiver was last cleared, and
  // everything published is 26 to 750 packets of one speaker in strictly
  // increasing order.
  lemma AnyDatagrams(run: seq<Wire>, isMine: Tuning)
    ensures Holds(StateAfter(Events(run, isMine)), Session(Events(run, isMine)))
    ensures forall t :: t in Transmissions(Events(run, isMine)) ==> GoodTransmission(t)
  {
    EventsAreIdentified(run, isMine);
    BufferIsRunningMaxima(Events(run, isMine));
    TransmissionsAreGood(Events(run, isMine));
  }
}
