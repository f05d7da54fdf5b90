/**
 Transmitting audio: samples are cut into frames, the last one padded with
 silence; every frame that Opus can encode becomes one numbered packet.
 */
module VoiceEncoder {
  import opened Basics
  import opened Bytes
  import opened VoicePacket
  import opened Receivers

  type Sample = real
  type Frame = seq<Sample>

  const FRAME_SIZE: nat := 640
  const UNIT_ID: uint32 := 100_000_002
  const TWO_64: int := 0x1_0000_0000_0000_0000

  // Opus writes into a buffer of 1024 bytes.
  type OpusBytes = b: seq<byte> | |b| <= 1024

  // An encoder carries state from frame to frame: its output for the last of
  // the frames it was given, or None when it fails on it.
  type Encoder = seq<Frame> -> Option<OpusBytes>

  function Silence(n: nat): (s: Frame)
    ensures |s| == n && forall i :: 0 <= i < n ==> s[i] == 0.0
  {
    seq(n, i => 0.0)
  }

  // ---- Specification: whole frames of padded audio ----------------------------------------

  function FrameCount(audio: seq<Sample>): nat {
    (|audio| + FRAME_SIZE - 1) / FRAME_SIZE
  }

  function Padded(audio: seq<Sample>): (s: seq<Sample>)
    ensures |s| == FrameCount(audio) * FRAME_SIZE
  {
    audio + Silence(FrameCount(audio) * FRAME_SIZE - |audio|)
  }

  function FrameAt(audio: seq<Sample>, k: nat): Frame
    requires k < FrameCount(audio)
  {
    Padded(audio)[k * FRAME_SIZE..(k + 1) * FRAME_SIZE]
  }

  function Frames(audio: seq<Sample>): (fs: seq<Frame>)
    ensures |fs| == FrameCount(audio)
    ensures forall k :: 0 <= k < |fs| ==> fs[k] == FrameAt(audio, k)
  {
    seq(FrameCount(audio), k requires 0 <= k < FrameCount(audio) => FrameAt(audio, k))
  }

  // The frames carry the audio, sample by sample, and silence behind it, and there
  // is no frame of silence only.
  lemma FramesCarryTheAudio(audio: seq<Sample>)
    ensures forall k :: 0 <= k < |Frames(audio)| ==> |Frames(audio)[k]| == 640
    ensures |audio| <= 640 * |Frames(audio)| < |audio| + 640
    ensures forall k, i :: 0 <= k < |Frames(audio)| && 0 <= i < 640 ==>
      Frames(audio)[k][i] == if 640 * k + i < |audio| then audio[640 * k + i] else 0.0
  {
    forall k, i | 0 <= k < |Frames(audio)| && 0 <= i < 640
      ensures Frames(audio)[k][i] == if 640 * k + i < |audio| then audio[640 * k + i] else 0.0
    {
      SampleOfFrame(audio, k, i);
    }
  }

  lemma SampleOfFrame(audio: seq<Sample>, k: nat, i: nat)
    requires k < FrameCount(audio) && i < 640
    ensures 640 * k + i < |Padded(audio)| && FrameAt(audio, k)[i] == Padded(audio)[640 * k + i]
    ensures Padded(audio)[640 * k + i] == if 640 * k + i < |audio| then audio[640 * k + i] else 0.0
  {
    assert (k + 1) * 640 <= FrameCount(audio) * 640;
  }

  // What a fresh encoder makes of the frames, failures left out.
  function Payloads(opus: Encoder, frames: seq<Frame>): seq<OpusBytes> {
    if frames == [] then []
    else
      Payloads(opus, Init(frames))
      + match opus(frames)
        case Some(bytes) => [bytes]
        case None => []
  }

  predicate IsEncoded(opus: Encoder, frames: seq<Frame>, i: int)
    requires 0 <= i < |frames|
  {
    opus(frames[..i + 1]).Some?
  }

  // The frames that were encoded: `which` tells for each payload which frame it is.
  ghost predicate AreEncoded(opus: Encoder, frames: seq<Frame>, which: seq<nat>) {
    && (forall j, k :: 0 <= j < k < |which| ==> which[j] < which[k])
    && (forall k :: 0 <= k < |which| ==> which[k] < |frames|)
    && (forall i :: 0 <= i < |frames| ==> (i in which <==> IsEncoded(opus, frames, i)))
  }

  predicate IsOutput(opus: Encoder, frames: seq<Frame>, i: nat, bytes: OpusBytes) {
    i < |frames| && opus(frames[..i + 1]) == Some(bytes)
  }

  // The payloads are the encoder's output for every frame it does not fail on, in
  // order, each given with all frames before it.
  lemma {:induction false} PayloadsAreEncoded(opus: Encoder, frames: seq<Frame>) returns (which: seq<nat>)
    ensures AreEncoded(opus, frames, which) && |which| == |Payloads(opus, frames)|
    ensures forall k :: 0 <= k < |which| ==> IsOutput(opus, frames, which[k], Payloads(opus, frames)[k])
  {
    which := [];
    if frames != [] {
      var n := |frames| - 1;
      var before := PayloadsAreEncoded(opus, Init(frames));
      OneFrameMore(opus, frames, before);
      which := if opus(frames).Some? then before + [n] else before;
      forall k | 0 <= k < |which| ensures IsOutput(opus, frames, which[k], Payloads(opus, frames)[k]) {
        if k < |before| {
          assert IsOutput(opus, Init(frames), before[k], Payloads(opus, Init(frames))[k]);
          assert Init(frames)[..before[k] + 1] == frames[..before[k] + 1];
        } else {
          assert frames[..n + 1] == frames;
        }
      }
    }
  }

  lemma OneFrameMore(opus: Encoder, frames: seq<Frame>, before: seq<nat>)
    requires frames != [] && AreEncoded(opus, Init(frames), before)
    ensures AreEncoded(opus, frames, if opus(frames).Some? then before + [|frames| - 1] else before)
  {
    var n, which := |frames| - 1, if opus(frames).Some? then before + [|frames| - 1] else before;
    assert frames[..n + 1] == frames;
    assert forall k :: 0 <= k < |before| ==> before[k] in before;
    forall i | 0 <= i < |frames| ensures i in which <==> IsEncoded(opus, frames, i) {
      if i < n {
        assert Init(frames)[..i + 1] == frames[..i + 1];
        assert IsEncoded(opus, Init(frames), i) <==> i in before;
      }
    }
  }

  // The k-th packet number from `start` on: a 64-bit counter.
  function Number(start: uint64, k: nat): uint64 {
    (start + k) % TWO_64
  }

  function Packets(payloads: seq<OpusBytes>, start: uint64, frequencies: seq<Frequency>, guid: GUID): (ps: seq<Packet>)
    ensures |ps| == |payloads|
    ensures forall k :: 0 <= k < |ps| ==>
      ps[k] == NewPacket(payloads[k], frequencies, UNIT_ID, Number(start, k), 0, guid, guid)
  {
    seq(|payloads|, k requires 0 <= k < |payloads| =>
      NewPacket(payloads[k], frequencies, UNIT_ID, Number(start, k), 0, guid, guid))
  }

  // ---- The transmitting client --------------------------------------------------------------

  class Client {
    const guid: GUID
    const frequencies: seq<Frequency>
    var packetNumber: uint64

    constructor (guid: GUID, frequencies: seq<Frequency>)
      ensures this.guid == guid && this.frequencies == frequencies && packetNumber == 1
    {
      this.guid, this.frequencies, packetNumber := guid, frequencies, 1;
    }

    method Transmit(audio: seq<Sample>, opus: Encoder) returns (txPackets: seq<Packet>)
      modifies this
      ensures txPackets == Packets(Payloads(opus, Frames(audio)), old(packetNumber), frequencies, guid)
      ensures packetNumber == Number(old(packetNumber), |txPackets|)
    {
      txPackets := [];
      var i, encoded := 0, [];
      ghost var k: nat := 0;
      while i < |audio|
        invariant i == k * FRAME_SIZE && k <= FrameCount(audio)
        invariant encoded == Frames(audio)[..k]
        invariant txPackets == Packets(Payloads(opus, encoded), old(packetNumber), frequencies, guid)
        invariant packetNumber == Number(old(packetNumber), |txPackets|)
        decreases |audio| - i
      {
        var frameAudio := CutFrame(audio, i, k);
        FrameCounted(audio, k);
        txPackets := EncodeFrame(opus, encoded, frameAudio, txPackets, old(packetNumber));
        encoded := encoded + [frameAudio];
        i, k := i + FRAME_SIZE, k + 1;
      }
      AllFrames(audio, k);
    }

    // One frame: a packet and the next number if Opus can encode it.
    method EncodeFrame(opus: Encoder, encoded: seq<Frame>, frameAudio: Frame, packets: seq<Packet>, ghost start: uint64)
      returns (txPackets: seq<Packet>)
      requires packets == Packets(Payloads(opus, encoded), start, frequencies, guid)
      requires packetNumber == Number(start, |packets|)
      modifies this
      ensures txPackets == Packets(Payloads(opus, encoded + [frameAudio]), start, frequencies, guid)
      ensures packetNumber == Number(start, |txPackets|)
    {
      txPackets := packets;
      PayloadsStep(opus, encoded, frameAudio);
      match opus(encoded + [frameAudio]) {
        case Some(audioBytes) =>
          OnePacketMore(Payloads(opus, encoded), audioBytes, start, frequencies, guid);
          txPackets := txPackets + [NewPacket(audioBytes, frequencies, UNIT_ID, packetNumber, 0, guid, guid)];
          packetNumber := (packetNumber + 1) % TWO_64;
        case None =>
          assert Payloads(opus, encoded) + [] == Payloads(opus, encoded);
      }
    }

    // One transmission after the other; an encoder that cannot be made drops
    // its transmission.
    method TransmitAll(audio: seq<seq<Sample>>, opus: seq<Option<Encoder>>) returns (sent: seq<Packet>)
      requires |audio| == |opus|
      modifies this
      ensures sent == Sent(audio, opus, old(packetNumber), frequencies, guid)
      ensures packetNumber == Number(old(packetNumber), |sent|)
    {
      sent := [];
      for i := 0 to |audio|
        invariant sent == Sent(audio[..i], opus[..i], old(packetNumber), frequencies, guid)
        invariant packetNumber == Number(old(packetNumber), |sent|)
      {
        assert Init(audio[..i + 1]) == audio[..i] && Init(opus[..i + 1]) == opus[..i];
        if opus[i].Some? {
          var txPackets := Transmit(audio[i], opus[i].value);
          NumbersRunOn(old(packetNumber), |sent|, |txPackets|);
          sent := sent + txPackets;
        }
      }
      assert audio[..|audio|] == audio && opus[..|opus|] == opus;
    }
  }

  function Sent(audio: seq<seq<Sample>>, opus: seq<Option<Encoder>>, start: uint64,
                frequencies: seq<Frequency>, guid: GUID): seq<Packet>
    requires |audio| == |opus|
  {
    if audio == [] then []
    else
      var before := Sent(Init(audio), Init(opus), start, frequencies, guid);
      match Last(opus)
      case Some(encoder) =>
        before + Packets(Payloads(encoder, Frames(Last(audio))), Number(start, |before|), frequencies, guid)
      case None => before
  }

  // Packet numbers run on across transmissions, skipped frames and skipped
  // transmissions.
  lemma {:induction false} NumbersAreConsecutive(audio: seq<seq<Sample>>, opus: seq<Option<Encoder>>, start: uint64,
                                                 frequencies: seq<Frequency>, guid: GUID)
    requires |audio| == |opus|
    ensures forall k :: 0 <= k < |Sent(audio, opus, start, frequencies, guid)| ==>
      Sent(audio, opus, start, frequencies, guid)[k].packetID == Number(start, k)
  {
    if audio != [] {
      NumbersAreConsecutive(Init(audio), Init(opus), start, frequencies, guid);
      var before := Sent(Init(audio), Init(opus), start, frequencies, guid);
      var sent := Sent(audio, opus, start, frequencies, guid);
      NumbersRunOnFor(start, |before|, |sent| - |before|);
      forall k | 0 <= k < |sent| ensures sent[k].packetID == Number(start, k) {
        if k >= |before| {
          assert sent[k].packetID == Number(Number(start, |before|), k - |before|);
        }
      }
    }
  }

  // ---- Lemmas for the loops -------------------------------------------------------------------

  // The frame cut at 640 k, padded if it is the last, is the k-th whole frame.
  method CutFrame(audio: seq<Sample>, i: nat, ghost k: nat) returns (frameAudio: Frame)
    requires i == k * FRAME_SIZE < |audio|
    ensures k < FrameCount(audio) && frameAudio == FrameAt(audio, k)
  {
    WholeOrLast(audio, k);
    if i + FRAME_SIZE < |audio| {
      frameAudio := audio[i..i + FRAME_SIZE];
    } else {
      frameAudio := audio[i..];
    }
    if |frameAudio| < FRAME_SIZE {
      frameAudio := frameAudio + Silence(FRAME_SIZE - |frameAudio|);
    }
    assert frameAudio == Padded(audio)[i..i + FRAME_SIZE];
  }

  lemma WholeOrLast(audio: seq<Sample>, k: nat)
    requires k * FRAME_SIZE < |audio|
    ensures k < FrameCount(audio) && (k + 1) * FRAME_SIZE == k * FRAME_SIZE + FRAME_SIZE
    ensures (k + 1) * FRAME_SIZE <= FrameCount(audio) * FRAME_SIZE
    ensures |audio| <= k * FRAME_SIZE + FRAME_SIZE ==> FrameCount(audio) == k + 1
  {
  }

  lemma FrameCounted(audio: seq<Sample>, k: nat)
    requires k < FrameCount(audio)
    ensures Frames(audio)[..k] + [FrameAt(audio, k)] == Frames(audio)[..k + 1]
  {
  }

  lemma PayloadsStep(opus: Encoder, frames: seq<Frame>, f: Frame)
    ensures Payloads(opus, frames + [f])
         == Payloads(opus, frames) + if opus(frames + [f]).Some? then [opus(frames + [f]).value] else []
  {
    assert Init(frames + [f]) == frames;
  }

  lemma AllFrames(audio: seq<Sample>, k: nat)
    requires k <= FrameCount(audio) && k * FRAME_SIZE >= |audio|
    ensures Frames(audio)[..k] == Frames(audio)
  {
    assert FrameCount(audio) * 640 < |audio| + 640;
    assert k == FrameCount(audio);
  }

  lemma NumbersRunOn(start: uint64, n: nat, k: nat)
    ensures Number(Number(start, n), k) == Number(start, n + k)
  {
    var q := (start + n) / TWO_64;
    assert start + n == q * TWO_64 + Number(start, n);
  }

  lemma NumbersRunOnFor(start: uint64, n: nat, m: nat)
    ensures forall k :: 0 <= k <= m ==> Number(Number(start, n), k) == Number(start, n + k)
  {
    forall k | 0 <= k <= m ensures Number(Number(start, n), k) == Number(start, n + k) {
      NumbersRunOn(start, n, k);
    }
  }

  lemma OnePacketMore(payloads: seq<OpusBytes>, bytes: OpusBytes, start: uint64, frequencies: seq<Frequency>, guid: GUID)
    ensures Packets(payloads + [bytes], start, frequencies, guid)
         == Packets(payloads, start, frequencies, guid)
          + [NewPacket(bytes, frequencies, UNIT_ID, Number(start, |payloads|), 0, guid, guid)]
    ensures Number(start, |payloads| + 1) == (Number(start, |payloads|) + 1) % TWO_64
  {
    NumbersRunOn(start, |payloads|, 1);
  }
}
