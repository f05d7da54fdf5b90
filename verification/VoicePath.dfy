/**
 From audio to the receiver's buffer: framing, encoding, transport and receiving
 put together.
 */
module VoicePath {
  import opened Basics
  import opened Bytes
  import opened VoicePacket
  import opened PacketLaws
  import opened Receivers
  import opened ReceiverRuns
  import opened VoiceEncoder

  // ---- Transport ---------------------------------------------------------------------------

  // What the other side decodes from an encoded packet.
  function Transported(p: Packet): Result<Packet>
    requires Encodable(p)
  {
    Decoding(Encoding(p))
  }

  // The frequency lists that leave room for the largest Opus frame.
  predicate FitsDatagram(frequencies: seq<Frequency>) {
    HEADER_LENGTH + 1024 + |frequencies| * FREQUENCY_LENGTH + FIXED_LENGTH <= MAX_UINT16
  }

  lemma PacketsSurviveTransport(payloads: seq<OpusBytes>, start: uint64, frequencies: seq<Frequency>, guid: GUID)
    requires |guid| == GUID_LENGTH && FitsDatagram(frequencies)
    ensures forall k :: 0 <= k < |payloads| ==>
      var p := Packets(payloads, start, frequencies, guid)[k];
      && Encodable(p) && Transported(p) == Ok(p) && p.audioBytes == payloads[k] && p.frequencies == frequencies
      && p.unitID == 100_000_002 && p.hops == 0 && p.relayGUID == p.originGUID == guid
  {
    forall k | 0 <= k < |payloads|
      ensures var p := Packets(payloads, start, frequencies, guid)[k];
        Encodable(p) && Transported(p) == Ok(p) && p.audioBytes == payloads[k] && p.frequencies == frequencies
    {
      NewPacketRoundTrip(payloads[k], frequencies, UNIT_ID, Number(start, k), 0, guid, guid);
    }
  }

  // ---- Receiving in order --------------------------------------------------------------------

  function InOrder(ps: seq<Packet>, times: seq<Time>): (run: seq<Event>)
    requires |ps| == |times|
    ensures |run| == |ps|
    ensures forall k :: 0 <= k < |ps| ==> run[k] == Arrival(ps[k], times[k])
  {
    seq(|ps|, k requires 0 <= k < |ps| => Arrival(ps[k], times[k]))
  }

  lemma {:induction false} SessionOfInOrder(ps: seq<Packet>, times: seq<Time>)
    requires |ps| == |times|
    ensures Session(InOrder(ps, times)) == ps
  {
    if ps != [] {
      SessionOfInOrder(Init(ps), Init(times));
      assert Init(InOrder(ps, times)) == InOrder(Init(ps), Init(times));
      assert ps == Init(ps) + [Last(ps)];
    }
  }

  lemma {:induction false} FromOriginOfAll(ps: seq<Packet>, origin: GUID)
    requires AllFrom(ps, origin)
    ensures FromOrigin(ps, origin) == ps
  {
    if ps != [] {
      FromOriginOfAll(Init(ps), origin);
      assert ps == Init(ps) + [Last(ps)];
    }
  }

  // How many packets are numbered before the counter wraps.
  function BeforeWrap(start: uint64): nat {
    TWO_64 - start
  }

  ghost predicate Numbered(ps: seq<Packet>, start: uint64) {
    forall k :: 0 <= k < |ps| ==> ps[k].packetID == Number(start, k)
  }

  lemma NumberBeforeWrap(start: uint64, k: nat)
    ensures k < BeforeWrap(start) ==> Number(start, k) == start + k
    ensures Number(start, k) <= TWO_64 - 1
  {
  }

  // Before the wrap the last number is a new maximum; after it, none is.
  lemma LastIsMaximumIff(ps: seq<Packet>, start: uint64)
    requires ps != [] && Numbered(ps, start)
    ensures Maxima(ps) == Maxima(Init(ps)) + if |ps| <= BeforeWrap(start) then [Last(ps)] else []
  {
    var n := |ps| - 1;
    NumberBeforeWrap(start, n);
    assert ps[n].packetID == Number(start, n);
    if n < BeforeWrap(start) {
      forall i | 0 <= i < n ensures ps[i].packetID < Last(ps).packetID {
        NumberBeforeWrap(start, i);
      }
    } else {
      var top := BeforeWrap(start) - 1;
      NumberBeforeWrap(start, top);
      assert ps[top].packetID == TWO_64 - 1;
    }
  }

  lemma {:induction false} MaximaOfNumbered(ps: seq<Packet>, start: uint64)
    requires Numbered(ps, start)
    ensures Maxima(ps) == ps[..Min(|ps|, BeforeWrap(start))]
  {
    if ps != [] {
      MaximaOfNumbered(Init(ps), start);
      LastIsMaximumIff(ps, start);
      FrontOfFront(ps, BeforeWrap(start));
    }
  }

  lemma FrontOfFront(ps: seq<Packet>, n: nat)
    requires ps != []
    ensures Init(ps)[..Min(|ps| - 1, n)] + (if |ps| <= n then [Last(ps)] else []) == ps[..Min(|ps|, n)]
  {
  }

  lemma BufferOfNumbered(ps: seq<Packet>, start: uint64, origin: GUID, times: seq<Time>)
    requires |ps| == |times| && Numbered(ps, start) && AllFrom(ps, origin) && origin != []
    ensures StateAfter(InOrder(ps, times)).buffer == Take(ps[..Min(|ps|, BeforeWrap(start))], MAX_RX_PACKETS)
  {
    var run := InOrder(ps, times);
    SessionOfInOrder(ps, times);
    BufferIsRunningMaxima(run);
    if ps != [] {
      FromOriginOfAll(ps, origin);
      MaximaOfNumbered(ps, start);
    }
  }

  // ---- End to end --------------------------------------------------------------------------------

  function AudioOf(ps: seq<Packet>): (audio: seq<seq<byte>>)
    ensures |audio| == |ps|
    ensures forall k :: 0 <= k < |ps| ==> audio[k] == ps[k].audioBytes
  {
    seq(|ps|, k requires 0 <= k < |ps| => ps[k].audioBytes)
  }

  function FirstPayloads(payloads: seq<OpusBytes>, n: nat): seq<seq<byte>> {
    if |payloads| <= n then payloads else payloads[..n]
  }

  // The audio of what a fresh receiver buffers from numbered packets.
  lemma BufferedAudio(payloads: seq<OpusBytes>, sent: seq<Packet>, buffer: seq<Packet>, wrap: nat)
    requires |sent| == |payloads| && forall k :: 0 <= k < |sent| ==> sent[k].audioBytes == payloads[k]
    requires buffer == Take(sent[..Min(|sent|, wrap)], MAX_RX_PACKETS)
    ensures AudioOf(buffer) == FirstPayloads(payloads, MAX_RX_PACKETS) <==> Min(|payloads|, MAX_RX_PACKETS) <= wrap
  {
    assert |buffer| == Min(Min(|sent|, wrap), MAX_RX_PACKETS);
    assert |FirstPayloads(payloads, MAX_RX_PACKETS)| == Min(|payloads|, MAX_RX_PACKETS);
  }

  // Every packet of a transmission survives the datagram, and a fresh receiver
  // that hears them in order buffers exactly the encoded frames of the padded
  // audio, up to 750, unless the 64-bit packet counter wraps among those.
  lemma EndToEnd(audio: seq<Sample>, opus: Encoder, start: uint64, frequencies: seq<Frequency>, guid: GUID,
                 times: seq<Time>)
    requires |guid| == GUID_LENGTH && FitsDatagram(frequencies)
    requires |times| == |Payloads(opus, Frames(audio))|
    ensures var payloads := Payloads(opus, Frames(audio));
      var sent := Packets(payloads, start, frequencies, guid);
      && (forall k :: 0 <= k < |sent| ==> Encodable(sent[k]) && Transported(sent[k]) == Ok(sent[k]))
      && (AudioOf(StateAfter(InOrder(sent, times)).buffer) == FirstPayloads(payloads, MAX_RX_PACKETS)
          <==> Min(|payloads|, MAX_RX_PACKETS) <= BeforeWrap(start))
  {
    var payloads := Payloads(opus, Frames(audio));
    PayloadsEndToEnd(payloads, start, frequencies, guid, times);
  }

  lemma PayloadsEndToEnd(payloads: seq<OpusBytes>, start: uint64, frequencies: seq<Frequency>, guid: GUID, times: seq<Time>)
    requires |guid| == GUID_LENGTH && FitsDatagram(frequencies) && |times| == |payloads|
    ensures var sent := Packets(payloads, start, frequencies, guid);
      && (forall k :: 0 <= k < |sent| ==> Encodable(sent[k]) && Transported(sent[k]) == Ok(sent[k]))
      && (AudioOf(StateAfter(InOrder(sent, times)).buffer) == FirstPayloads(payloads, MAX_RX_PACKETS)
          <==> Min(|payloads|, MAX_RX_PACKETS) <= BeforeWrap(start))
  {
    var sent := Packets(payloads, start, frequencies, guid);
    PacketsSurviveTransport(payloads, start, frequencies, guid);
    BufferOfNumbered(sent, start, guid, times);
    BufferedAudio(payloads, sent, StateAfter(InOrder(sent, times)).buffer, BeforeWrap(start));
  }
}
