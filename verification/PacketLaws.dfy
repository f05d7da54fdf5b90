/**
 Encoding and decoding of voice packets undo each other, up to the one byte of
 the fixed segment that Encode never fills.
 */
module PacketLaws {
  import opened Bytes
  import opened VoicePacket

  // The lengths a packet announces are those of its segments.
  predicate Consistent(p: Packet) {
    && p.audioSegmentLength == |p.audioBytes|
    && p.frequenciesSegmentLength == |p.frequencies| * FREQUENCY_LENGTH
    && p.packetLength == HEADER_LENGTH + p.audioSegmentLength + p.frequenciesSegmentLength + FIXED_LENGTH
    && |p.relayGUID| == |p.originGUID| == GUID_LENGTH
  }

  // ---- The layout of a consistent packet -------------------------------------------------

  function HeaderBytes(p: Packet): (s: seq<byte>)
    ensures |s| == HEADER_LENGTH
  {
    Put(p.packetLength, 2) + Put(p.audioSegmentLength, 2) + Put(p.frequenciesSegmentLength, 2)
  }

  function FrequenciesBytes(fs: seq<Frequency>): (s: seq<byte>)
    ensures |s| == |fs| * FREQUENCY_LENGTH
  {
    if fs == [] then [] else FrequencyBytes(fs[0]) + FrequenciesBytes(fs[1..])
  }

  function FixedBytes(p: Packet): seq<byte> {
    Put(p.unitID, 4) + Put(p.packetID, 8) + [p.hops] + p.relayGUID + p.originGUID
  }

  function Layout(p: Packet): seq<byte> {
    HeaderBytes(p) + p.audioBytes + FrequenciesBytes(p.frequencies) + [0] + FixedBytes(p)
  }

  lemma {:induction false} FrequenciesBytesAppend(fs: seq<Frequency>, f: Frequency)
    ensures FrequenciesBytes(fs + [f]) == FrequenciesBytes(fs) + FrequencyBytes(f)
  {
    if fs == [] {
      assert ([] + [f])[1..] == [];
      assert fs + [f] == [f];
    } else {
      assert (fs + [f])[1..] == fs[1..] + [f];
      FrequenciesBytesAppend(fs[1..], f);
    }
  }

  lemma {:induction false} FrequenciesAreWrittenNext(done: seq<byte>, fs: seq<Frequency>, n: nat)
    requires |fs| * FREQUENCY_LENGTH <= n
    ensures WriteFrequencies(done + Zeros(n), |done|, fs)
         == done + FrequenciesBytes(fs) + Zeros(n - |fs| * FREQUENCY_LENGTH)
  {
    if fs == [] {
      assert done + FrequenciesBytes(fs) == done;
    } else {
      var k := |fs| - 1;
      FrequenciesAreWrittenNext(done, fs[..k], n);
      FrequenciesBytesAppend(fs[..k], fs[k]);
      assert fs == fs[..k] + [fs[k]];
      var written := done + FrequenciesBytes(fs[..k]);
      WriteNext(written, FrequencyBytes(fs[k]), n - k * FREQUENCY_LENGTH);
      assert written + FrequencyBytes(fs[k]) == done + FrequenciesBytes(fs);
    }
  }

  lemma HeaderIsWritten(p: Packet, n: nat)
    requires n >= HEADER_LENGTH
    ensures WriteHeader(Zeros(n), p) == HeaderBytes(p) + Zeros(n - HEADER_LENGTH)
  {
    var a, b, c := Put(p.packetLength, 2), Put(p.audioSegmentLength, 2), Put(p.frequenciesSegmentLength, 2);
    assert Zeros(n) == [] + Zeros(n) && [] + a == a;
    WriteNext([], a, n);
    WriteNext(a, b, n - 2);
    WriteNext(a + b, c, n - 4);
  }

  lemma FixedIsWritten(p: Packet, done: seq<byte>)
    requires |p.relayGUID| == |p.originGUID| == GUID_LENGTH
    ensures WriteFixed(done + Zeros(FIXED_LENGTH), p) == done + [0] + FixedBytes(p)
  {
    var d0 := done + [0];
    var d1 := d0 + Put(p.unitID, 4);
    var d2 := d1 + Put(p.packetID, 8);
    var d3 := d2 + [p.hops];
    var d4 := d3 + p.relayGUID;
    assert done + Zeros(58) == d0 + Zeros(57);
    WriteNext(d0, Put(p.unitID, 4), 57);
    WriteNext(d1, Put(p.packetID, 8), 53);
    WriteNext(d2, [p.hops], 45);
    WriteNext(d3, p.relayGUID, 44);
    WriteNext(d4, p.originGUID, 22);
    assert GuidBytes(p.relayGUID) == p.relayGUID && GuidBytes(p.originGUID) == p.originGUID;
    assert d4 + p.originGUID + Zeros(0) == done + [0] + FixedBytes(p);
  }

  lemma EncodingIsLayout(p: Packet)
    requires Consistent(p)
    ensures Encodable(p) && Encoding(p) == Layout(p)
  {
    var n := p.packetLength - HEADER_LENGTH;
    var h, a, f := HeaderBytes(p), p.audioBytes, FrequenciesBytes(p.frequencies);
    HeaderIsWritten(p, p.packetLength);
    WriteNext(h, a, n);
    if p.frequencies == [] {
      assert h + a + f == h + a;
    } else {
      FrequenciesAreWrittenNext(h + a, p.frequencies, n - |a|);
    }
    FixedIsWritten(p, h + a + f);
  }

  // ---- Reading the layout back --------------------------------------------------------------

  lemma Middle(a: seq<byte>, m: seq<byte>, z: seq<byte>, s: seq<byte>)
    requires s == a + m + z
    ensures |a| + |m| <= |s| && s[|a|..|a| + |m|] == m
  {
  }

  lemma FrequencyReadsBack(f: Frequency, s: seq<byte>)
    ensures FrequencyAt(FrequencyBytes(f) + s) == f
    ensures (FrequencyBytes(f) + s)[FREQUENCY_LENGTH..] == s
  {
    var b := FrequencyBytes(f) + s;
    assert b[..8] == Put(f.bits, 8);
    Widths();
    GetOfPut(f.bits, 8);
  }

  lemma {:induction false} FrequenciesReadBack(fs: seq<Frequency>)
    ensures Frequencies(FrequenciesBytes(fs)) == fs
  {
    if fs != [] {
      FrequencyReadsBack(fs[0], FrequenciesBytes(fs[1..]));
      FrequenciesReadBack(fs[1..]);
    }
  }

  lemma FixedReadsBack(p: Packet)
    requires |p.relayGUID| == |p.originGUID| == GUID_LENGTH
    ensures |FixedBytes(p)| == FIXED_LENGTH - 1
    ensures FixedAt(FixedBytes(p)) == Fixed(p.unitID, p.packetID, p.hops, p.relayGUID, p.originGUID)
  {
    var s := FixedBytes(p);
    assert s[..4] == Put(p.unitID, 4);
    assert s[4..12] == Put(p.packetID, 8);
    assert s[13..35] == p.relayGUID && s[35..57] == p.originGUID;
    Widths();
    GetOfPut(p.unitID, 4);
    GetOfPut(p.packetID, 8);
  }

  lemma HeaderReadsBack(p: Packet, rest: seq<byte>)
    ensures var b := HeaderBytes(p) + rest;
      && Get16(b[0..2]) == p.packetLength
      && Get16(b[2..4]) == p.audioSegmentLength
      && Get16(b[4..6]) == p.frequenciesSegmentLength
  {
    var b := HeaderBytes(p) + rest;
    assert b[0..2] == Put(p.packetLength, 2);
    assert b[2..4] == Put(p.audioSegmentLength, 2);
    assert b[4..6] == Put(p.frequenciesSegmentLength, 2);
    Widths();
    GetOfPut(p.packetLength, 2);
    GetOfPut(p.audioSegmentLength, 2);
    GetOfPut(p.frequenciesSegmentLength, 2);
  }

  lemma LayoutHeader(p: Packet)
    requires Consistent(p)
    ensures |Layout(p)| == p.packetLength && Accepted(Layout(p))
    ensures Get16(Layout(p)[2..4]) == |p.audioBytes|
    ensures Get16(Layout(p)[4..6]) == |p.frequencies| * FREQUENCY_LENGTH
  {
    var rest := p.audioBytes + FrequenciesBytes(p.frequencies) + [0] + FixedBytes(p);
    HeaderReadsBack(p, rest);
    assert Layout(p) == HeaderBytes(p) + rest;
  }

  lemma LayoutSegments(p: Packet)
    requires Consistent(p)
    ensures |Layout(p)| == p.packetLength
    ensures var audio, end := HEADER_LENGTH + |p.audioBytes|, |Layout(p)| - FIXED_LENGTH;
      && Layout(p)[HEADER_LENGTH..audio] == p.audioBytes
      && Layout(p)[audio..end] == FrequenciesBytes(p.frequencies)
      && Layout(p)[end + 1..] == FixedBytes(p)
  {
    var h, a, f := HeaderBytes(p), p.audioBytes, FrequenciesBytes(p.frequencies);
    var b, z := Layout(p), [0] + FixedBytes(p);
    assert b == h + a + (f + z) && b == (h + a) + f + z;
    Middle(h, a, f + z, b);
    Middle(h + a, f, z, b);
  }

  lemma LayoutReadsBack(p: Packet)
    requires Consistent(p)
    ensures Decoding(Layout(p)) == Ok(p)
  {
    LayoutHeader(p);
    LayoutSegments(p);
    FixedReadsBack(p);
    FrequenciesReadBack(p.frequencies);
  }

  // ---- Main results ----------------------------------------------------------------------------

  lemma ConsistentRoundTrip(p: Packet)
    requires Consistent(p)
    ensures Encodable(p) && Decoding(Encoding(p)) == Ok(p)
  {
    EncodingIsLayout(p);
    LayoutReadsBack(p);
  }

  lemma {:induction false} FrequencyCount(s: seq<byte>)
    requires |s| % FREQUENCY_LENGTH == 0
    ensures |Frequencies(s)| * FREQUENCY_LENGTH == |s|
  {
    if |s| >= FREQUENCY_LENGTH {
      FrequencyCount(s[FREQUENCY_LENGTH..]);
    }
  }

  // Whatever is decoded is consistent.
  lemma DecodedIsConsistent(b: seq<byte>)
    requires Decoding(b).Ok?
    ensures Accepted(b) && Consistent(Decoding(b).value)
  {
    var audio, frequencies := Get16(b[2..4]), Get16(b[4..6]);
    FrequencyCount(b[HEADER_LENGTH + audio..HEADER_LENGTH + audio + frequencies]);
  }

  // A new packet survives encoding and decoding with every field as given
  // exactly when it fits a datagram and both GUIDs have their full length.
  lemma NewPacketRoundTrip(audio: seq<byte>, freqs: seq<Frequency>, unitID: uint32, packetID: uint64,
                           hops: byte, relay: seq<byte>, origin: seq<byte>)
    ensures var p := NewPacket(audio, freqs, unitID, packetID, hops, relay, origin);
      (Encodable(p) && Decoding(Encoding(p)) == Ok(p) && p.audioBytes == audio && p.frequencies == freqs)
      <==>
      && HEADER_LENGTH + |audio| + |freqs| * FREQUENCY_LENGTH + FIXED_LENGTH <= MAX_UINT16
      && |relay| == |origin| == GUID_LENGTH
  {
    var p := NewPacket(audio, freqs, unitID, packetID, hops, relay, origin);
    if HEADER_LENGTH + |audio| + |freqs| * FREQUENCY_LENGTH + FIXED_LENGTH <= MAX_UINT16
       && |relay| == |origin| == GUID_LENGTH {
      ConsistentRoundTrip(p);
    }
    if Encodable(p) && Decoding(Encoding(p)) == Ok(p) {
      DecodedIsConsistent(Encoding(p));
    }
  }

  lemma {:induction false} FrequenciesWriteBack(s: seq<byte>)
    requires |s| % FREQUENCY_LENGTH == 0
    ensures FrequenciesBytes(Frequencies(s)) == s
  {
    if |s| >= FREQUENCY_LENGTH {
      FrequenciesWriteBack(s[FREQUENCY_LENGTH..]);
      FrequencyWritesBack(s);
      assert Frequencies(s)[1..] == Frequencies(s[FREQUENCY_LENGTH..]);
    }
  }

  lemma FrequencyWritesBack(s: seq<byte>)
    requires |s| >= FREQUENCY_LENGTH
    ensures FrequencyBytes(FrequencyAt(s)) + s[FREQUENCY_LENGTH..] == s
  {
    PutOfGet(s[..8]);
  }

  lemma FixedWritesBack(s: seq<byte>, p: Packet)
    requires |s| == FIXED_LENGTH - 1
    requires Fixed(p.unitID, p.packetID, p.hops, p.relayGUID, p.originGUID) == FixedAt(s)
    ensures FixedBytes(p) == s
  {
    PutOfGet(s[..4]);
    PutOfGet(s[4..12]);
    assert s == s[..4] + s[4..12] + [s[12]] + s[13..35] + s[35..57];
  }

  // Re-encoding an accepted datagram changes at most the padding byte, which
  // it clears.
  lemma ReencodingClearsPadding(b: seq<byte>)
    requires Decoding(b).Ok?
    ensures Encodable(Decoding(b).value)
    ensures |b| >= FIXED_LENGTH && Encoding(Decoding(b).value) == b[|b| - FIXED_LENGTH := 0]
  {
    var p := Decoding(b).value;
    DecodedIsConsistent(b);
    EncodingIsLayout(p);
    LayoutOfReading(b);
  }

  lemma HeaderWritesBack(b: seq<byte>)
    requires Accepted(b)
    ensures HeaderBytes(Reading(b)) == b[..6]
  {
    PutOfGet(b[0..2]);
    PutOfGet(b[2..4]);
    PutOfGet(b[4..6]);
    assert b[..6] == b[0..2] + b[2..4] + b[4..6];
  }

  lemma Pieces(b: seq<byte>, audio: nat, end: nat)
    requires 6 <= audio <= end < |b|
    ensures b[..6] + b[6..audio] + b[audio..end] + [0] + b[end + 1..] == b[end := 0]
  {
  }

  lemma LayoutOfReading(b: seq<byte>)
    requires Accepted(b)
    ensures Layout(Reading(b)) == b[|b| - FIXED_LENGTH := 0]
  {
    var audio, end := HEADER_LENGTH + Get16(b[2..4]), |b| - FIXED_LENGTH;
    HeaderWritesBack(b);
    FrequenciesWriteBack(b[audio..end]);
    FixedWritesBack(b[end + 1..], Reading(b));
    Pieces(b, audio, end);
  }

  // Two datagrams read as the same packet only if they agree everywhere else.
  lemma DecodingIsNearlyInjective(b: seq<byte>, c: seq<byte>)
    requires Decoding(b).Ok? && Decoding(b) == Decoding(c)
    ensures |b| == |c| && forall i :: 0 <= i < |b| && i != |b| - FIXED_LENGTH ==> b[i] == c[i]
  {
    ReencodingClearsPadding(b);
    ReencodingClearsPadding(c);
    var cleared := Encoding(Decoding(b).value);
    forall i | 0 <= i < |b| && i != |b| - FIXED_LENGTH ensures b[i] == c[i] {
      assert cleared[i] == b[i] && cleared[i] == c[i];
    }
  }
}
