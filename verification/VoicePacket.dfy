/**
 The SRS voice packet and its datagram encoding: a header, the audio, the
 frequencies and a fixed segment that is filled from its second byte on.
 Frequencies are carried as the raw bits of a 64-bit float.
 */
module VoicePacket {
  import opened Basics
  import opened Bytes

  const HEADER_LENGTH: nat := 6
  const FIXED_LENGTH: nat := 58
  const FREQUENCY_LENGTH: nat := 10
  const GUID_LENGTH: nat := 22
  const MAX_UINT16: nat := 65535

  datatype Frequency = Frequency(bits: uint64, modulation: byte, encryption: byte)

  datatype Packet = Packet(
    packetLength: uint16,
    audioSegmentLength: uint16,
    frequenciesSegmentLength: uint16,
    audioBytes: seq<byte>,
    frequencies: seq<Frequency>,
    unitID: uint32,
    packetID: uint64,
    hops: byte,
    relayGUID: seq<byte>,
    originGUID: seq<byte>)

  // Over-long audio and frequency lists are cut; the packet length wraps.
  function NewPacket(audioBytes: seq<byte>, frequencies: seq<Frequency>, unitID: uint32, packetID: uint64,
                     hops: byte, relay: seq<byte>, origin: seq<byte>): Packet {
    var audio := if |audioBytes| > MAX_UINT16 then audioBytes[..MAX_UINT16] else audioBytes;
    var f := |frequencies| * FREQUENCY_LENGTH;
    var freqs := if f > MAX_UINT16 then frequencies[..MAX_UINT16 / FREQUENCY_LENGTH] else frequencies;
    var frequenciesSegmentLength := Min(f, MAX_UINT16);
    Packet(
      Uint16(HEADER_LENGTH + |audio| + frequenciesSegmentLength + FIXED_LENGTH),
      |audio|, frequenciesSegmentLength, audio, freqs, unitID, packetID, hops, relay, origin)
  }

  // ---- Encoding -----------------------------------------------------------------------

  // The slices Encode takes are within its buffer exactly then; otherwise it panics.
  predicate Encodable(p: Packet) {
    && p.packetLength >= FIXED_LENGTH - 1
    && HEADER_LENGTH + |p.audioBytes| <= p.packetLength
    && (p.frequencies != [] ==>
          HEADER_LENGTH + p.audioSegmentLength + |p.frequencies| * FREQUENCY_LENGTH <= p.packetLength)
  }

  function FrequencyBytes(f: Frequency): (s: seq<byte>)
    ensures |s| == FREQUENCY_LENGTH
  {
    Put(f.bits, 8) + [f.modulation, f.encryption]
  }

  function WriteFrequencies(b: seq<byte>, offset: nat, frequencies: seq<Frequency>): (r: seq<byte>)
    requires offset + |frequencies| * FREQUENCY_LENGTH <= |b|
    ensures |r| == |b|
  {
    if frequencies == [] then b
    else
      var n := |frequencies| - 1;
      Overwrite(WriteFrequencies(b, offset, frequencies[..n]), offset + n * FREQUENCY_LENGTH, FrequencyBytes(frequencies[n]))
  }

  // copy() into a field of GUID_LENGTH bytes.
  function GuidBytes(guid: seq<byte>): seq<byte> {
    guid[..Min(|guid|, GUID_LENGTH)]
  }

  function WriteHeader(b: seq<byte>, p: Packet): (r: seq<byte>)
    requires |b| >= HEADER_LENGTH
    ensures |r| == |b|
  {
    Overwrite(Overwrite(Overwrite(b, 0, Put(p.packetLength, 2)), 2, Put(p.audioSegmentLength, 2)),
              4, Put(p.frequenciesSegmentLength, 2))
  }

  function WriteFixed(b: seq<byte>, p: Packet): (r: seq<byte>)
    requires |b| >= FIXED_LENGTH - 1
    ensures |r| == |b|
  {
    var ptr := |b| - FIXED_LENGTH + 1;
    var b1 := Overwrite(b, ptr, Put(p.unitID, 4));
    var b2 := Overwrite(b1, ptr + 4, Put(p.packetID, 8));
    var b3 := Overwrite(b2, ptr + 12, [p.hops]);
    var b4 := Overwrite(b3, ptr + 13, GuidBytes(p.relayGUID));
    Overwrite(b4, ptr + 35, GuidBytes(p.originGUID))
  }

  function WriteSegments(b: seq<byte>, p: Packet): (r: seq<byte>)
    requires Encodable(p) && |b| == p.packetLength
    ensures |r| == |b|
  {
    var header := WriteHeader(b, p);
    var audio := Overwrite(header, HEADER_LENGTH, p.audioBytes);
    var frequencies :=
      if p.frequencies == [] then audio
      else WriteFrequencies(audio, HEADER_LENGTH + p.audioSegmentLength, p.frequencies);
    WriteFixed(frequencies, p)
  }

  // The bytes of a packet: zeros, overwritten segment by segment.
  function Encoding(p: Packet): (b: seq<byte>)
    requires Encodable(p)
    ensures |b| == p.packetLength
  {
    WriteSegments(Zeros(p.packetLength), p)
  }

  method Encode(p: Packet) returns (b: array<byte>)
    requires Encodable(p)
    ensures b[..] == Encoding(p)
  {
    b := new byte[p.packetLength](_ => 0);
    ghost var zeros := b[..];
    assert zeros == Zeros(p.packetLength);
    EncodeSegments(b, p);
  }

  method EncodeSegments(b: array<byte>, p: Packet)
    requires Encodable(p) && b.Length == p.packetLength
    modifies b
    ensures b[..] == WriteSegments(old(b[..]), p)
  {
    ghost var zeros := b[..];
    EncodeHeader(b, p);
    ghost var header := b[..];
    assert header == WriteHeader(zeros, p);
    Write(b, HEADER_LENGTH, p.audioBytes);
    ghost var audio := b[..];
    assert audio == Overwrite(header, HEADER_LENGTH, p.audioBytes);
    EncodeFrequencies(b, p);
    ghost var frequencies := b[..];
    EncodeFixed(b, p);
    assert b[..] == WriteFixed(frequencies, p);
  }

  method EncodeHeader(b: array<byte>, p: Packet)
    requires b.Length >= HEADER_LENGTH
    modifies b
    ensures b[..] == WriteHeader(old(b[..]), p)
  {
    Write(b, 0, Put(p.packetLength, 2));
    Write(b, 2, Put(p.audioSegmentLength, 2));
    Write(b, 4, Put(p.frequenciesSegmentLength, 2));
  }

  // 16-bit offset arithmetic, as the program does it.
  method EncodeFixed(b: array<byte>, p: Packet)
    requires FIXED_LENGTH - 1 <= b.Length == p.packetLength
    modifies b
    ensures b[..] == WriteFixed(old(b[..]), p)
  {
    var fixedSegmentPtr := Uint16(p.packetLength - FIXED_LENGTH + 1);
    var unitIDPtr := fixedSegmentPtr;
    var packetIDPtr := Uint16(unitIDPtr + 4);
    var hopsPtr := Uint16(packetIDPtr + 8);
    var relayIDPtr := Uint16(hopsPtr + 1);
    var originIDPtr := Uint16(relayIDPtr + GUID_LENGTH);
    ghost var ptr := b.Length - FIXED_LENGTH + 1;
    assert unitIDPtr == ptr && packetIDPtr == ptr + 4 && hopsPtr == ptr + 12;
    assert relayIDPtr == ptr + 13 && originIDPtr == ptr + 35;
    Write(b, unitIDPtr, Put(p.unitID, 4));
    Write(b, packetIDPtr, Put(p.packetID, 8));
    Write(b, hopsPtr, [p.hops]);
    Write(b, relayIDPtr, GuidBytes(p.relayGUID));
    Write(b, originIDPtr, GuidBytes(p.originGUID));
  }

  method EncodeFrequencies(b: array<byte>, p: Packet)
    requires Encodable(p) && b.Length == p.packetLength
    modifies b
    ensures b[..] == if p.frequencies == [] then old(b[..])
                     else WriteFrequencies(old(b[..]), HEADER_LENGTH + p.audioSegmentLength, p.frequencies)
  {
    for i := 0 to |p.frequencies|
      invariant p.frequencies == [] ==> b[..] == old(b[..])
      invariant p.frequencies != [] ==>
        b[..] == WriteFrequencies(old(b[..]), HEADER_LENGTH + p.audioSegmentLength, p.frequencies[..i])
    {
      var offset := HEADER_LENGTH + p.audioSegmentLength + i * FREQUENCY_LENGTH;
      assert p.frequencies[..i + 1][..i] == p.frequencies[..i];
      Write(b, offset, FrequencyBytes(p.frequencies[i]));
    }
    assert p.frequencies[..|p.frequencies|] == p.frequencies;
  }

  // ---- Decoding -----------------------------------------------------------------------

  datatype DecodeError = TooShort | LengthMismatch | SegmentMismatch | RaggedFrequencies

  datatype Result<+T> = Ok(value: T) | Err(error: DecodeError)

  function FrequencyAt(s: seq<byte>): Frequency
    requires |s| >= FREQUENCY_LENGTH
  {
    Frequency(Get64(s[..8]), s[8], s[9])
  }

  function Frequencies(s: seq<byte>): seq<Frequency> {
    if |s| < FREQUENCY_LENGTH then []
    else [FrequencyAt(s)] + Frequencies(s[FREQUENCY_LENGTH..])
  }

  // The fields of the fixed segment, less its unused first byte.
  datatype Fixed = Fixed(unitID: uint32, packetID: uint64, hops: byte, relayGUID: seq<byte>, originGUID: seq<byte>)

  function FixedAt(s: seq<byte>): Fixed
    requires |s| == FIXED_LENGTH - 1
  {
    Fixed(Get32(s[..4]), Get64(s[4..12]), s[12], s[13..35], s[35..57])
  }

  predicate Accepted(b: seq<byte>) {
    && |b| >= HEADER_LENGTH
    && Get16(b[0..2]) == |b| == HEADER_LENGTH + Get16(b[2..4]) + Get16(b[4..6]) + FIXED_LENGTH
    && Get16(b[4..6]) % FREQUENCY_LENGTH == 0
  }

  // The packet read from an accepted datagram, in exact arithmetic.
  function Reading(b: seq<byte>): Packet
    requires Accepted(b)
  {
    var audio, frequencies := Get16(b[2..4]), Get16(b[4..6]);
    var fixed := FixedAt(b[|b| - FIXED_LENGTH + 1..]);
    Packet(
      |b|, audio, frequencies,
      b[HEADER_LENGTH..HEADER_LENGTH + audio],
      Frequencies(b[HEADER_LENGTH + audio..HEADER_LENGTH + audio + frequencies]),
      fixed.unitID, fixed.packetID, fixed.hops, fixed.relayGUID, fixed.originGUID)
  }

  function Decoding(b: seq<byte>): Result<Packet> {
    if |b| < HEADER_LENGTH then Err(TooShort)
    else if Get16(b[0..2]) != |b| then Err(LengthMismatch)
    else if HEADER_LENGTH + Get16(b[2..4]) + Get16(b[4..6]) + FIXED_LENGTH != |b| then Err(SegmentMismatch)
    else if Get16(b[4..6]) % FREQUENCY_LENGTH != 0 then Err(RaggedFrequencies)
    else Ok(Reading(b))
  }

  // Every slice taken after the length checks is in bounds, so a datagram of
  // six bytes or more never reaches the recovery handler.
  method Decode(b: seq<byte>) returns (r: Result<Packet>)
    ensures r == Decoding(b)
  {
    if |b| < HEADER_LENGTH {
      return Err(TooShort);
    }
    var packetLength := Get16(b[0..2]);
    var audioSegmentLength := Get16(b[2..4]);
    var frequenciesSegmentLength := Get16(b[4..6]);
    if packetLength != |b| {
      return Err(LengthMismatch);
    }
    var segmentsLength := HEADER_LENGTH + audioSegmentLength + frequenciesSegmentLength + FIXED_LENGTH;
    if segmentsLength != packetLength {
      return Err(SegmentMismatch);
    }
    if frequenciesSegmentLength % FREQUENCY_LENGTH != 0 {
      return Err(RaggedFrequencies);
    }
    var packet := DecodeSegments(b, packetLength, audioSegmentLength, frequenciesSegmentLength);
    r := Ok(packet);
  }

  method DecodeSegments(b: seq<byte>, packetLength: uint16, audioSegmentLength: uint16, frequenciesSegmentLength: uint16)
    returns (packet: Packet)
    requires Accepted(b) && packetLength == |b|
    requires audioSegmentLength == Get16(b[2..4]) && frequenciesSegmentLength == Get16(b[4..6])
    ensures packet == Reading(b)
  {
    var fixed := DecodeFixed(b, packetLength);
    var audioBytes := b[HEADER_LENGTH..HEADER_LENGTH + audioSegmentLength];
    var frequenciesSegmentPtr := Uint16(6 + audioSegmentLength);
    var frequenciesSegment := b[frequenciesSegmentPtr..frequenciesSegmentPtr + frequenciesSegmentLength];
    var frequencies := DecodeFrequencies(frequenciesSegment);
    packet := Packet(packetLength, audioSegmentLength, frequenciesSegmentLength, audioBytes, frequencies,
                     fixed.unitID, fixed.packetID, fixed.hops, fixed.relayGUID, fixed.originGUID);
  }

  lemma FixedSlices(b: seq<byte>)
    requires FIXED_LENGTH <= |b|
    ensures var n, s := |b|, b[|b| - FIXED_LENGTH + 1..];
      && s[..4] == b[n - 57..n - 53] && s[4..12] == b[n - 53..n - 45] && s[12] == b[n - 45]
      && s[13..35] == b[n - 44..n - 22] && s[35..57] == b[n - 22..n]
  {
  }

  // The fixed segment is read at 16-bit offsets, backwards from the end.
  method DecodeFixed(b: seq<byte>, packetLength: uint16) returns (fixed: Fixed)
    requires HEADER_LENGTH + FIXED_LENGTH <= |b| == packetLength
    ensures fixed == FixedAt(b[|b| - FIXED_LENGTH + 1..])
  {
    var originIDPtr := Uint16(packetLength - GUID_LENGTH);
    var relayIDPtr := Uint16(originIDPtr - GUID_LENGTH);
    var hopsPtr := Uint16(relayIDPtr - 1);
    var packetIDPtr := Uint16(hopsPtr - 8);
    var unitIDPtr := Uint16(packetIDPtr - 4);
    ghost var ptr := |b| - FIXED_LENGTH + 1;
    assert unitIDPtr == ptr && packetIDPtr == ptr + 4 && hopsPtr == ptr + 12;
    assert relayIDPtr == ptr + 13 && originIDPtr == ptr + 35;
    FixedSlices(b);
    fixed := Fixed(
      Get32(b[unitIDPtr..packetIDPtr]),
      Get64(b[packetIDPtr..hopsPtr]),
      b[hopsPtr],
      b[relayIDPtr..Uint16(relayIDPtr + GUID_LENGTH)],
      b[originIDPtr..Uint16(originIDPtr + GUID_LENGTH)]);
  }

  lemma FrequencyInSegment(segment: seq<byte>, i: nat)
    requires i + FREQUENCY_LENGTH <= |segment|
    ensures FrequencyAt(segment[i..])
         == Frequency(Get64(segment[i..i + 8]), segment[i + 8], segment[i + 9])
    ensures Frequencies(segment[i..]) == [FrequencyAt(segment[i..])] + Frequencies(segment[i + FREQUENCY_LENGTH..])
  {
    assert segment[i..][..8] == segment[i..i + 8];
    assert segment[i..][FREQUENCY_LENGTH..] == segment[i + FREQUENCY_LENGTH..];
  }

  method DecodeFrequencies(segment: seq<byte>) returns (frequencies: seq<Frequency>)
    requires |segment| % FREQUENCY_LENGTH == 0
    ensures frequencies == Frequencies(segment)
  {
    frequencies := [];
    var i := 0;
    while i < |segment|
      invariant 0 <= i <= |segment| && (|segment| - i) % FREQUENCY_LENGTH == 0
      invariant frequencies + Frequencies(segment[i..]) == Frequencies(segment)
    {
      var modulationPtr := i + 8;
      var encryptionPtr := modulationPtr + 1;
      FrequencyInSegment(segment, i);
      var frequency := Frequency(Get64(segment[i..modulationPtr]), segment[modulationPtr], segment[encryptionPtr]);
      frequencies := frequencies + [frequency];
      i := i + FREQUENCY_LENGTH;
    }
  }
}
