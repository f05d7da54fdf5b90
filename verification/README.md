# Verified model of the SkyEye GCI bot

SkyEye is a bot that listens to pilots on a simulated radio, keeps a radar picture from telemetry and
answers and warns over the radio. This project models the parts of it that decide something: how
contacts become groups and how faded ones are reported, how merges and threats are called and to whom, how
voice travels as packets, and how bearings, altitudes and aspects are computed, spoken and read. Each part is
written in the form the program has: objects that change are classes whose methods are proved against
specification functions, computed values are functions, and what the program is meant to guarantee is
proved as lemmas about those functions, over all inputs and all runs.

Where a wanted property is false of the code, the model keeps the code as it is, and a lemma says exactly
when the property holds.

## Layout

| files | part of the program |
|---|---|
| Basics, Reals, Sorting, Words | vocabulary: options, rounding, sorting by a total order, words and numerals |
| Bearings, Aspect, Altitude, Stacks | circular arithmetic, aspect, altitude rounding and stacks |
| TokenStream, BearingParser, Composer | reading and speaking bearings and numbers |
| Callsigns, Collation, CollationShape, CollationMeaning | strict callsigns, and collated receiver lists, what they look like and how they are heard |
| Bytes, VoicePacket, PacketLaws, WireFormat | the voice packet codec and its bytes |
| Receiver, ReceiverRuns, Datagrams | receiving packets, and datagrams |
| VoiceEncoder, VoicePath, VoiceSessions | transmitting, and transmitting and receiving put together |
| Trackfiles, Encyclopedia, Grouping, Enumeration, GroupMembers | contacts, groups as reachability, and who is in them |
| ContactDatabase, RadarScope, RadarRuns | the contact database, updates, expiry and fades, and their runs |
| MergeTracker, MergeSweep, Merges, MergeRuns | merge state, its sweep, the groups the radar hands to it, and runs of both |
| Calls | composing calls, and who hears them |
| Cooldowns, Broadcasts | cooldowns, and merged and threat calls |
| ThreatOrder | the order of the groups in a picture |

Distances, altitudes, angles and speeds are exact reals. Times are integers, in milliseconds. Integers
that wrap in the program (16-bit lengths and offsets, the 64-bit packet counter) wrap in the model.

## Where the code and its comments differ

- The comments on aspects give bands with edges at 30 to 40, 70 to 80 and 110 to 120 degrees
  (pkg/brevity/aspect.go:14-22); the code switches at 35, 75 and 115, and to which side an edge belongs depends
  on whether the difference wraps. The model follows the code.
- The comment on Stacks says intervals of at least 10,000 feet (pkg/brevity/group.go:25); a layer at 100 ft
  may lie 9,900 ft below one at 10,000 ft (`AltitudeStacks.TopsAreSpaced`).
- The packet comments place the unit ID from byte L-58 on (pkg/simpleradio/voice/packet.go:63), the code from
  L-57 on; byte L-58 is unused, and the model follows the code (`PacketLaws.ReencodingClearsPadding`).
- A callsign with a zero-padded number is accepted by the strict parser but dropped by the collation
  (`CollationMeaning.PaddedReceiverIsLost`). Neither caller (pkg/controller/threat.go:119,
  pkg/controller/merged.go:219) can pass one: callsign parsing ends by setting all digits apart
  (pkg/callsigns/callsign.go:104), and names of that shape are canonical (`CollationMeaning.SpacedIsCanonical`).
- Merged calls are collated against the callsigns of one coalition (pkg/controller/callsigns.go:89-98), but the radar
  lists contacts of all other coalitions than the hostile one (pkg/radar/merged.go:60), so a neutral contact is
  notified and may go unheard (`Calls.NotifiedIsHeardIff`, `Broadcasts.NeutralIsMergedButUnheard`).
- The radar lists friendlies strictly under 5 NM (pkg/radar/merged.go:70) while a merge ends strictly above it
  (pkg/controller/merged.go:195). At exactly 5 NM a merged pair therefore stays merged only if every group of
  the hostile lists the friendly for another member (`MergeSweeps.ListsMatterAtTheExitOnly`).
- The first update of an unknown contact creates its trackfile and drops the frame it came with
  (pkg/radar/radar.go:250-257); the model does the same.
- The comment on the fade collector speaks of 10 seconds (pkg/radar/faded.go:19); the code waits 15 or 5.

## Model

| member | source | states |
|---|---|---|
| Bearings.Normalize | pkg/bearings/normalization.go:10-21 | The loop and modulus yield the unique representative of the angle in (0, 360], for every finite real |
| Bearings.NormalizedIsTheRepresentative | pkg/bearings/normalization.go:10-21 | The normalised value is the only one in (0, 360] that differs from the input by whole turns |
| Bearings.ReciprocalDirection | pkg/bearings/magnetic.go:51-54 | The reciprocal points half a turn away, and the reciprocal of a reciprocal points where the bearing did |
| Bearings.RoundedIsNearest | pkg/bearings/magnetic.go:36-39 | Rounded degrees are the nearest whole number, halves up |
| Bearings.AngularDistanceIsLeast | pkg/bearings/distance.go:9-20 | The circular distance is a lower bound of the difference of any two angles in these directions, and is attained |
| AspectAngles.BranchesAgree | pkg/brevity/aspect.go:26-57 | Both branches compute the same angle: the absolute difference of reciprocal bearing and track, 0 read as 360 |
| AspectAngles.AspectIsAlwaysKnown | pkg/brevity/aspect.go:26-57 | The unknown aspect is never returned |
| AspectAngles.AspectIsBandedDistance | pkg/brevity/aspect.go:26-57 | The aspect is the banded circular distance if and only if the divergence is not 245, 285 or 325 degrees |
| AspectAngles.AspectIsInvariantOffTheEdges | pkg/brevity/aspect.go:26-57 | Rotating or mirroring both inputs never changes the aspect, if and only if the target is not on a band edge (35, 75, 115) |
| Altitudes.NormalizeIsNear | pkg/spatial/spatial.go:118-130 | The rounded altitude is within half a rounding step of the absolute altitude |
| Altitudes.NormalizeFixesSpeakable | pkg/spatial/spatial.go:118-130 | An altitude is its own normal form if and only if it is a multiple of 100 ft up to 1,000 ft or a multiple of 1,000 ft |
| Altitudes.NormalizeIsIdempotent | pkg/spatial/spatial.go:118-130 | Normalising twice is normalising once |
| AltitudeStacks.Stacks | pkg/brevity/altitude.go:21-56 | The method that normalises and sorts its argument in place and buckets it returns the specified layers and leaves the specified array |
| AltitudeStacks.NormalizeAll | pkg/brevity/altitude.go:22-25 | The first loop overwrites every altitude with its normal form |
| AltitudeStacks.BuildStacks | pkg/brevity/altitude.go:37-55 | The index loop, from the highest altitude down, builds the layers of the greedy specification |
| AltitudeStacks.StacksConserve | pkg/brevity/altitude.go:21-56 | The counts add up to the number of altitudes that do not normalise to zero |
| AltitudeStacks.StacksPartition | pkg/brevity/altitude.go:21-56 | Every non-zero altitude lies in exactly one layer (top - 9,900, top], and each layer counts exactly the altitudes in it |
| AltitudeStacks.FirstTopIsHighest | pkg/brevity/altitude.go:37-55 | There is no layer exactly when all altitudes are zero; otherwise the first top is the maximum |
| AltitudeStacks.StacksAreFewest | pkg/brevity/altitude.go:21-56 | No family of windows of the same depth that covers every non-zero altitude is smaller |
| AltitudeStacks.StacksIgnoreOrder | pkg/brevity/altitude.go:21-56 | The result depends only on the multiset of altitudes |
| AltitudeStacks.TopsAreSpaced | pkg/brevity/group.go:25-27 | Consecutive tops are 10,000 ft or more apart if and only if they are not 10,000 and 100 |
| AltitudeStacks.RestackingIsAFixedPoint | pkg/brevity/braa.go:40-76 | A BRAA built from the tops of a group has the same tops in order, one contact each, and the altitude of the group |
| Callsigns.ParseOfPrint | pkg/controller/callsigns.go:44-86 | A well-formed strict callsign is read back from its printed form |
| Callsigns.ParsedIsWellFormed | pkg/controller/callsigns.go:48-86 | Whatever parses has a digit-free codeword of whole words and two numbers in range, so it prints and parses again |
| Collation.CollateCallsigns | pkg/controller/callsigns.go:107-206 | The in-place method sorts both slices and returns the specified collation |
| Collation.ParseEveryone | pkg/controller/callsigns.go:118-123 | Collects the strict callsigns of everyone, in order |
| Collation.FillTrie | pkg/controller/callsigns.go:138-158 | The nested maps hold exactly the parsed callsigns, each marked by whether its printed form is a receiver |
| Collation.WalkFlight | pkg/controller/callsigns.go:168-192 | One flight: a flight call when all of two or more positions are receivers, else one full form and short forms after it |
| Collation.WalkTrie | pkg/controller/callsigns.go:165-194 | All flights of all codewords in order |
| Collation.AppendLoose | pkg/controller/callsigns.go:196-203 | Appends exactly the receivers that do not parse |
| CollationShape.CollationIsShaped | pkg/controller/callsigns.go:107-206 | For all inputs of two or more receivers, what the entries refer to is in strict order of codeword, flight and position, with loose names last; a flight call for every whole flight, every other strict receiver once by itself, in short exactly when directly behind another of its flight |
| CollationShape.FlightCallIff | pkg/controller/callsigns.go:168-176 | A flight call is made if and only if at least two rostered callsigns are of the flight and the printed form of each is a receiver |
| CollationMeaning.CollationIsHeardAs | pkg/controller/callsigns.go:107-206 | For all inputs of two or more receivers, how often each pilot is heard: a strict one once if on the roster and printed among the receivers, a loose one as often as given |
| CollationMeaning.ShortListIsHeardAs | pkg/controller/callsigns.go:108-111 | Up to one receiver is passed through and heard as itself |
| CollationMeaning.NobodyElseIsNamed | pkg/controller/callsigns.go:107-206 | On all inputs, nobody is heard who is not a receiver |
| CollationMeaning.EveryReceiverIsHeardIff | pkg/controller/callsigns.go:107-206 | Every receiver is heard if and only if there is at most one, or every strict receiver is on the roster and its printed form is among the receivers |
| CollationMeaning.PaddedReceiverIsLost | pkg/controller/callsigns.go:154-157 | A receiver written with a zero-padded flight number parses, but is looked up in printed form and is not heard unless that is a receiver too |
| CollationMeaning.SpacedIsCanonical | pkg/callsigns/callsign.go:77-110 | Names with single spaces and every digit a word of its own, as callsign parsing leaves them, are canonical: they print as they were written |
| CollationMeaning.CollationPreservesMeaning | pkg/controller/callsigns.go:107-206 | For canonical, distinct receivers among everyone, the collated call is heard as the receivers, each exactly once and nobody else |
| CollationMeaning.SpokenFormsAreDistinct | pkg/controller/callsigns.go:176-188 | As text, two different flight, full or short forms never coincide |
| CollationMeaning.LooseNamesMaySoundShort | pkg/controller/callsigns.go:176-203 | For every short form there is a loose name that reads the same, so that two calls of the same words are heard differently |
| Calls.GetFriendlyCallsigns | pkg/controller/callsigns.go:89-98 | The callsigns of exactly the contacts of the coalition that have one, in order |
| Calls.AddFriendlyToBroadcast | pkg/controller/broadcast.go:11-31 | Adds the callsign of a contact that may be addressed and has one, unless it is there |
| Calls.CreateMergedCall | pkg/controller/merged.go:212-221 | The call is the collation of the callsigns of the notified contacts against those of the coalition |
| Calls.NamedByCall | pkg/controller/broadcast.go:11-31 | A call names, once each, exactly the callsigns of the contacts that are on frequency or need not be |
| Calls.NotifiedIsHeardIff | pkg/controller/merged.go:212-221 | A notified contact hears a merged call if and only if one contact at most is named in it, or its callsign is not strict, or a live contact of the coalition of the bot has that callsign |
| Calls.FriendliesHearMergedCalls | pkg/controller/merged.go:212-221 | Every notified contact of the coalition of the bot hears it |
| Calls.HeardIsNotified | pkg/controller/merged.go:212-221 | Whoever is heard in a merged call is a notified contact |
| TokenStream.Stream.constructor | internal/parser/token/stream.go:20-30 | What remains to be read are the space-separated words of the text |
| TokenStream.Stream.Text | internal/parser/token/stream.go:115-121 | Shows the first remaining word, whole or partial |
| TokenStream.Stream.Advance | internal/parser/token/stream.go:56-63 | Drops exactly the word that was shown and tells whether more remains |
| TokenStream.Stream.SetPartialToken | internal/parser/token/stream.go:125-127 | Replaces the shown word by a non-empty remainder of it |
| BearingParser.ParseBearing | pkg/parser/spatial.go:68-107 | The nested loops over the stream compute the specified scan: result, bearing and what is left on the stream |
| BearingParser.ScanClean | pkg/parser/spatial.go:68-107 | From any number of digits already read, the scan completes three from the digit stream wherever word boundaries fall, or consumes everything |
| BearingParser.ParsesFirstThreeDigits | pkg/parser/spatial.go:68-107 | On words that are digit-free or all digits, parsing succeeds if and only if three digits remain, yields the number the first three write, and leaves exactly what follows the third |
| BearingParser.LeftoverIsExactIff | pkg/parser/spatial.go:68-107 | On any words, what is left is what follows the third digit read, if and only if the word that completes three begins with the digits it is read for |
| BearingParser.MixedWordIsReadTwice | pkg/parser/spatial.go:82-101 | A word with a letter among its digits: its last digit is left to be read again |
| Composer.PronounceIntReadsBack | pkg/composer/format.go:24-35 | Every integer is pronounced as the digits of its magnitude, behind the word "minus" if it is negative, and reading the digits gives the magnitude back |
| Composer.BearingFields | pkg/composer/format.go:11-22 | A spoken bearing is exactly three one-digit words that write its rounded degrees |
| Composer.ParserUndoesPrinter | pkg/composer/format.go:11-22 | Parsing any digit-free words, a spoken bearing and any further words returns the rounded bearing, 0 as 360, and leaves the further words |
| VoicePacket.Encode | pkg/simpleradio/voice/packet.go:149-184 | The method writes the specified bytes at its 16-bit offsets, and every slice it takes is in bounds |
| VoicePacket.Decode | pkg/simpleradio/voice/packet.go:204-277 | Accepts exactly the datagrams whose lengths agree, reads the specified packet, and needs no recovery on six or more bytes |
| VoicePacket.DecodeFixed | pkg/simpleradio/voice/packet.go:228-248 | The offsets computed backwards with 16-bit arithmetic never wrap and read the last 57 bytes in order |
| VoicePacket.DecodeFrequencies | pkg/simpleradio/voice/packet.go:261-273 | The loop reads one frequency for every ten bytes |
| PacketLaws.EncodingIsLayout | pkg/simpleradio/voice/packet.go:149-184 | For a consistent packet the overwritten buffer is header, audio, frequencies, one zero byte and the fixed fields, end to end |
| PacketLaws.NewPacketRoundTrip | pkg/simpleradio/voice/packet.go:121-184 | A new packet is encodable and decodes to itself with all its audio and frequencies if and only if it fits 65,535 bytes and both GUIDs have 22 |
| PacketLaws.DecodedIsConsistent | pkg/simpleradio/voice/packet.go:204-277 | Every decoded packet has length fields that agree with its contents |
| PacketLaws.ReencodingClearsPadding | pkg/simpleradio/voice/packet.go:149-277 | Re-encoding any accepted datagram gives it back except for the byte 58 from the end, which becomes 0 |
| PacketLaws.DecodingIsNearlyInjective | pkg/simpleradio/voice/packet.go:204-277 | Two datagrams that decode alike agree in length and at every other index |
| WireFormat.EncodedFields | pkg/simpleradio/voice/packet.go:149-184 | Where every field of an encoded packet lies, by byte offset, with numbers little-endian and byte L-58 zero |
| WireFormat.AcceptedIff | pkg/simpleradio/voice/packet.go:204-227 | A datagram is accepted if and only if it has the announced length, its segments make it up, and its frequencies come in tens of bytes; each error exactly when its check is the first to fail |
| Receivers.Receiver.Receive | pkg/simpleradio/receive.go:35-59 | The state after a packet, whether accepted, buffered or ignored |
| Receivers.Receiver.Reset | pkg/simpleradio/receive.go:78-85 | The state is that of a fresh receiver |
| Receivers.Receiver.Deliver | pkg/simpleradio/receive.go:128-139 | However many of the frequencies of a packet match, it is received once, or not at all when none does |
| Receivers.Receiver.Tick | pkg/simpleradio/receive.go:140-161 | Publishes the buffer exactly when the transmission is complete and longer than a second, and clears it when complete |
| Receivers.DeliveringTwiceIsOnce | pkg/simpleradio/receive.go:35-59 | A second delivery changes nothing in any state, if and only if the packet does not have both an empty origin and number 0 |
| Receivers.SilenceEnds | pkg/simpleradio/receive.go:56-67 | After an accepted packet, no check within 300 ms changes anything, and every later one clears the receiver and publishes 26 packets or more |
| ReceiverRuns.BufferIsRunningMaxima | pkg/simpleradio/receive.go:35-85 | Over every run with non-empty origins, the buffer is the first 750 strict running maxima of the IDs of whoever spoke first since the last reset |
| ReceiverRuns.TransmissionsAreGood | pkg/simpleradio/receive.go:128-161 | Over every run, each published transmission has 26 to 750 packets of one origin with strictly increasing IDs |
| ReceiverRuns.PublishedArrivalsAreDistinct | pkg/simpleradio/receive.go:128-161 | Over every run, all published and buffered packets are distinct arrivals in the order of arrival |
| Datagrams.HandleDatagram | pkg/simpleradio/receive.go:107-139 | Decoding a datagram and delivering its packet is one step of the run of what the receiver notices, whether it decodes and matches or not |
| Datagrams.AnyDatagrams | pkg/simpleradio/receive.go:107-161 | Over every run of datagrams, checks and resets, whatever their bytes: the buffer is the running maxima, and each transmission has 26 to 750 packets of one origin with strictly increasing IDs |
| VoiceEncoder.CutFrame | pkg/simpleradio/voice.go:78-89 | The slice cut and padded at 640 k is the k-th frame of the zero-padded audio |
| VoiceEncoder.FramesCarryTheAudio | pkg/simpleradio/voice.go:76-89 | The frames are of 640 samples, carry the audio sample by sample with silence behind it, and are as few as can be |
| VoiceEncoder.PayloadsAreEncoded | pkg/simpleradio/voice.go:90-94 | The payloads are what the encoder makes of every frame it does not fail on, in order |
| VoiceEncoder.Client.EncodeFrame | pkg/simpleradio/voice.go:90-107 | A frame adds a packet and takes a number if it can be encoded, and changes nothing otherwise |
| VoiceEncoder.Client.Transmit | pkg/simpleradio/voice.go:75-108 | The framing loop sends the encoded whole frames of the padded audio, numbered on from the counter |
| VoiceEncoder.Client.TransmitAll | pkg/simpleradio/voice.go:66-109 | The same over any list of transmissions, those without an encoder dropped |
| VoiceEncoder.NumbersAreConsecutive | pkg/simpleradio/voice.go:101-106 | Packet numbers run on, modulo 2^64, across transmissions and skipped frames |
| VoicePath.PacketsSurviveTransport | pkg/simpleradio/voice.go:75-108 | Every packet sent decodes to itself on the other side, with its payload, the frequencies, unit 100000002, no hops and the GUID of the client |
| VoicePath.MaximaOfNumbered | pkg/simpleradio/receive.go:38-45 | Of packets numbered by the 64-bit counter, the strict running maxima are exactly those before the wrap |
| VoicePath.EndToEnd | pkg/simpleradio/voice.go:75-108 | Framing, encoding, decoding and receiving in order: the receiver buffers exactly the payloads of the padded frames, up to 750, if and only if the counter does not wrap among them |
| VoiceSessions.SessionsEndToEnd | pkg/simpleradio/voice.go:66-109 | Any number of transmissions sent, their datagrams caught in order with datagrams of no concern in between and checks never more than 300 ms after the last one until the final check is: the receiver publishes one by one exactly the frames of those longer than a second, up to 750 each, if and only if the packet counter does not wrap among the wanted packets of one |
| VoiceSessions.PacedIsQuiet | pkg/simpleradio/receive.go:56-67 | Times alone decide: while checks come no more than 300 ms after the last numbered packet in order, none finds a complete transmission |
| VoiceSessions.AllAreCaught | pkg/simpleradio/voice.go:66-109 | Every packet sent survives the datagram, and is for a receiver if and only if that is tuned to one of the frequencies of the client |
| MergeTrackers.MergeTracker.Merge | pkg/controller/merged.go:28-37 | Adds exactly one pair |
| MergeTrackers.MergeTracker.FriendliesMergedWith | pkg/controller/merged.go:51-64 | The union of the friendlies of the given hostiles |
| MergeTrackers.MergeTracker.Separate | pkg/controller/merged.go:67-78 | Removes exactly one pair and leaves no empty set behind |
| MergeTrackers.MergeTracker.Remove | pkg/controller/merged.go:81-95 | Forgets the hostile of this ID, or else removes the ID from all sets of friendlies, dropping the emptied ones |
| MergeTrackers.MergeTracker.Keep | pkg/controller/merged.go:98-106 | Keeps exactly the pairs of the listed hostiles |
| MergeTrackers.RemoveForgetsIff | pkg/controller/merged.go:81-95 | After removal the ID is nowhere, if and only if it was not both a hostile and a friendly of another hostile |
| MergeSweeps.Sweeper.UpdateMergesForContact | pkg/controller/merged.go:181-210 | A pair is merged afterwards by the 3 and 5 NM rule, the answer is whether that is new, and no other pair changes |
| MergeSweeps.Sweeper.UpdateMergesForHostile | pkg/controller/merged.go:156-175 | The same for one hostile against a list; unlisted friendlies leave, and exactly the new merges are returned |
| MergeSweeps.Sweeper.UpdateMergesForGroup | pkg/controller/merged.go:147-177 | The same for a group; every new pair is reported once with its hostile |
| MergeSweeps.Sweeper.Sweep | pkg/controller/merged.go:115-126 | After a sweep a pair is merged if and only if its hostile is live and in a group, its friendly is in the list of every group of the hostile, and they are below 3 NM or were merged and not above 5 NM; exactly the new pairs are reported, each once, though groups may share hostiles |
| MergeSweeps.ListsMatterAtTheExitOnly | pkg/controller/merged.go:149-177 | Which of several groups list a friendly matters only at exactly 5 NM |
| MergeSweeps.HysteresisOfStep | pkg/brevity/merged.go:13-18 | What a sweep makes of a pair, exactly: it enters if and only if it is listed with known positions below 3 NM, and leaves if and only if the hostile is gone or without position, or the friendly is not listed with it, or without position, or above 5 NM, or at 5 NM and not listed by all groups; other steps separate only what they forget |
| MergeSweeps.ReportedAgainOnlyAfterSeparation | pkg/controller/merged.go:115-210 | In any run of sweeps, removals and restarts, between two reports of a pair lies a step that separates it for one of those reasons, and the second report finds it below 3 NM |
| RadarMerges.Merges | pkg/radar/merged.go:16-51 | The groups of hostile contacts that are no helicopters, each with exactly the positioned contacts of other coalitions under 5 NM of a member; every such contact that is near somebody is in one |
| RadarMerges.MergesForContact | pkg/radar/merged.go:54-75 | Adds exactly the positioned contacts of other coalitions under 5 NM |
| RadarMerges.MergesAreCoherent | pkg/radar/merged.go:16-75 | What the radar finds meets all that the sweep requires, groups that share hostiles included |
| RadarMerges.SweptByDistance | pkg/controller/merged.go:115-210 | After a sweep of what the radar finds, a valid hostile that is no helicopter and a positioned contact of another coalition are merged if and only if they are below 3 NM, or were merged and are below 5 NM, or were and are at exactly 5 NM and every group of the hostile lists the contact |
| RadarMerges.MergedAreOpposed | pkg/controller/merged.go:115-210 | Whatever is merged after such a sweep is a live valid hostile and a live positioned contact of another coalition |
| RadarMerges.OpposedAircraftMerge | pkg/controller/merged.go:181-210 | For a bot of either side, an airborne contact of the other side that is no known helicopter is merged with every positioned contact of another coalition below 3 NM, with none above 5, and in between as before |
| RadarMerges.HelicoptersDoNotMerge | pkg/radar/merged.go:33-36 | Where every contact has one wing tag and one role tag, no helicopter of the other side is merged |
| MergeRuns.MergedAgainOnlyAfterParting | pkg/controller/merged.go:115-210 | Over any run of sweeps of what the radar finds, removals and restarts, each report of a pair finds two live opposed contacts below 3 NM, and between two reports lies a step at which one was removed, the mission restarted, the hostile could not seed a group, the other was gone, not opposed or without position, or they were above 5 NM, or at it and not listed by all groups |
| Cooldowns.CooldownTracker.ExtendCooldown | pkg/controller/threat.go:31-35 | Sets the expiry of one contact to the current time plus the cooldown |
| Cooldowns.CooldownTracker.IsOnCooldown | pkg/controller/threat.go:37-47 | True exactly when there is an expiry in the future |
| Cooldowns.CooldownLasts | pkg/controller/threat.go:31-47 | In any run, what a call puts on cooldown stays there for the cooldown unless forgotten |
| Cooldowns.CooldownsEnd | pkg/controller/threat.go:31-47 | In any run from the start, who is on cooldown was in a call whose cooldown is not over and has not been forgotten since |
| Cooldowns.CallsAreSpaced | pkg/controller/threat.go:78-127 | In any run, a call whose contacts were all in an earlier call comes at least the cooldown later |
| Broadcasts.RecentlyNotified | pkg/controller/threat.go:78-84 | Whether all hostiles were on cooldown, each when it was looked at |
| Broadcasts.ThreatReceiversExactly | pkg/controller/threat.go:95-112 | A threat call names, once each, exactly the callsigns of the listed friendlies that are live and merged with no hostile of the group |
| Broadcasts.BroadcastThreat | pkg/controller/threat.go:71-127 | A call, collated from its receivers, goes out unless all hostiles are on cooldown or nobody is to be told; cooldowns are extended only then |
| Broadcasts.ThreatCallIsHeard | pkg/controller/threat.go:95-119 | Receivers of the coalition of the bot all hear a threat call |
| Broadcasts.NotifyNewMerges | pkg/controller/merged.go:127-135 | Each newly merged friendly is notified or was on cooldown, and the notices are a run of calls |
| Broadcasts.BroadcastMerges | pkg/controller/merged.go:115-145 | One whole broadcast, from the contacts of the radar to the calls: the call of a group is the merged call for the contacts notified with it, each of which just merged with a hostile of that group, and whoever has just merged is notified or was on cooldown |
| Broadcasts.NeutralIsMergedButUnheard | pkg/controller/callsigns.go:89-98 | A neutral contact below 3 NM is merged and may be notified, but in a call for several it is not heard under a strict callsign that no contact of the coalition has |
| Broadcasts.NoticesAreSpaced | pkg/controller/controller.go:108-109 | In any run of merged calls a friendly is notified at most once in 30 seconds |
| Broadcasts.RunsJoin | pkg/controller/merged.go:115-145 | Consecutive broadcasts of one tracker form one run, so the spacing holds across them |
| ContactDatabases.ContactDatabase.Set | pkg/radar/contacts.go:87-93 | Sets the contact and the index entry of its name |
| ContactDatabases.ContactDatabase.Delete | pkg/radar/contacts.go:96-107 | Deletes the contact and the index entry of its name, and tells whether it was there |
| ContactDatabases.GetByCallsignAndCoalition | pkg/radar/contacts.go:35-74 | An exact match wins, else the similarity search decides; a contact that is found is live, of the coalition and so called |
| ContactDatabases.SetKeepsSoundIff | pkg/radar/contacts.go:87-93 | Setting keeps index entries pointing at live contacts of that name, if and only if it does not rename an indexed contact |
| ContactDatabases.InsertKeepsInverseIff | pkg/radar/contacts.go:87-93 | A new contact keeps the index the exact inverse of the contacts, if and only if no live contact of the coalition has its name |
| ContactDatabases.DeleteKeepsInverse | pkg/radar/contacts.go:96-107 | Deletion keeps the exact inverse |
| RadarScopes.Radar.HandleUpdate | pkg/radar/radar.go:242-258 | A live contact gets the frame, an unknown one an empty trackfile |
| RadarScopes.Radar.HandleGarbageCollection | pkg/radar/radar.go:261-296 | Exactly the contacts not seen for a minute are removed, and none while fades are pending |
| RadarScopes.Radar.HandleStarted | pkg/radar/started.go:10-29 | Contacts, pending and completed fades are forgotten |
| RadarScopes.Radar.FadeReceived | pkg/radar/faded.go:38-57 | A fade of a live contact is queued and extends the deadline, by 15 s at first and 5 s later |
| RadarScopes.Radar.Tick | pkg/radar/faded.go:58-81 | A due batch is handled and records older than five minutes are dropped |
| RadarScopes.Radar.CollectFadedGroups | pkg/radar/faded.go:86-132 | Each group is that of a faded live contact not handled before, no seed is in an earlier group, and every such contact is in a group |
| RadarScopes.Radar.HandleFaded | pkg/radar/faded.go:135-150 | No ID of the batch is left in the database, and what is reported are its groups as they were before |
| RadarRuns.IndexedContactsAreLive | pkg/radar/contacts.go:35-74 | Over every run of updates, fades, expiries and restarts, an index entry points to a live contact of that name, so the lookup never misses |
| RadarRuns.StepKeepsInverseIff | pkg/radar/radar.go:242-296 | A step leaves the index the exact inverse of the contacts, if and only if it does not bring in a second live contact of one name |
| RadarRuns.IsIndexedIff | pkg/radar/contacts.go:87-118 | Over every run, a live contact is found under its name if and only if no namesake has come in or been removed since the event that brought it in |
| RadarRuns.IndexIsInverseIff | pkg/radar/contacts.go:87-118 | Over every run, the index is the exact inverse of the contacts if and only if that holds of every live contact |
| RadarRuns.IndexIsInverseAfter | pkg/radar/contacts.go:87-118 | In particular it is when no two live contacts of a coalition ever shared a name |
| RadarRuns.PastDuplicateLeavesNoIndex | pkg/radar/contacts.go:96-107 | Unique names now are not enough: after two namesakes, one of which fades, the other is live and not indexed |
| RadarRuns.HandledAgainOnlyMuchLater | pkg/radar/faded.go:69-103 | Over every run, an ID is handled a second time only more than five minutes later or after a restart |
| RadarRuns.ForgottenAfterFiveMinutes | pkg/radar/faded.go:69-80 | A clean-up more than five minutes after an ID was handled lets it be handled again |
| Trackfiles.LastKnownIsNewest | pkg/trackfiles/trackfile.go:83-113 | In whatever order frames arrive, the last known one is the newest, the last of those if several are; at most four are kept and labels stay |
| RadarRuns.TrackIsHistory | pkg/radar/radar.go:242-258 | Over every run, a live contact has the history of the frames it got since it was brought in |
| RadarRuns.SurvivesExpiryIff | pkg/radar/radar.go:261-296 | Over every run, an expiry removes a contact if and only if the newest of those frames is more than a minute old |
| Grouping.AddNearbyAircraftToGroup | pkg/radar/grouping.go:63-116 | The recursion terminates; what it adds is reachable from the member it starts at, and all links of that member and of what was added are members |
| Grouping.FindGroupForAircraft | pkg/radar/grouping.go:46-61 | The group is the seed first, then exactly what chains of links reach, each once; a seed without position is alone |
| Grouping.SearchIsReachability | pkg/radar/grouping.go:63-116 | A list that is explored and reached is exactly the reachable set |
| GroupMembers.MembersExactly | pkg/radar/grouping.go:63-116 | In terms of positions, coalitions and tags: the members are the seed and exactly the airborne live contacts with its kind of wings that have another member of their coalition below 5 NM whose role tag they carry |
| GroupMembers.GroupIsOfOneKind | pkg/radar/grouping.go:63-116 | With one wing tag and one role tag on every live contact, all members of a group have those of the seed |
| GroupMembers.AirborneIffGrouped | pkg/radar/radar.go:298-313 | Of the live contacts of a coalition, exactly those with a position and above 10 m or 50 kn are in an enumerated group |
| Enumeration.EnumerateGroups | pkg/radar/grouping.go:15-43 | Every valid contact of the coalition is in a group; each group is that of such a contact; no seed is in an earlier group; and the groups are what visiting the contacts in this order yields |
| Enumeration.MembersAreCandidates | pkg/radar/grouping.go:15-43 | Every member of every group is live, valid and of the coalition |
| Enumeration.GroupsAreDisjointIff | pkg/radar/grouping.go:15-43 | In whatever order the contacts are visited no contact is in two groups, if and only if whatever a valid contact of the coalition reaches reaches it back |
| Enumeration.PlainlyTaggedAreMutual | pkg/radar/grouping.go:63-116 | It does when every live contact is known, with one wing tag and one role tag |
| Enumeration.UnknownAircraftMakesGroupsOverlap | pkg/radar/grouping.go:87-99 | Without that groups may overlap: an unknown aircraft takes a fighter along that would not take it |
| ThreatOrder.ThreatRadius | pkg/radar/group.go:283-296 | The highest threat radius of the contacts |
| ThreatOrder.RadiusByRole | pkg/encyclopedia/aircraft.go:111-123 | Without a radius of its own a contact has none if unarmed, 3 NM as a helicopter, 15 as attack aircraft, and 25 otherwise, known or not |
| ThreatOrder.IsFighter | pkg/radar/group.go:262-272 | Whether any contact is a known fighter |
| ThreatOrder.Rank | pkg/radar/picture.go:54-88 | What the comparison sees of a group: helicopters by the first contact, fighters by any, the largest threat radius |
| ThreatOrder.CompareIsAntisymmetric | pkg/radar/picture.go:54-116 | Swapping the arguments negates the sign of the comparison, zero threat radius included |
| ThreatOrder.CompareIsNotTransitive | pkg/radar/picture.go:89-106 | The 3 NM tolerances allow three groups each of which is the higher threat of the next |
| ThreatOrder.CompareRespectsTiers | pkg/radar/picture.go:58-88 | A strictly higher tier (wing type, inside threat radius, fighter) always wins |
| ThreatOrder.NearerIsHigher | pkg/radar/picture.go:89-106 | Of groups of one tier and threat radius, the one nearer by more than 3 NM is the higher threat |
| ThreatOrder.HigherAltitudeIsHigher | pkg/radar/picture.go:108-115 | At one distance and radius the altitude decides, the higher first |
| ThreatOrder.DeeperIsHigher | pkg/radar/picture.go:89-97 | Inside their radii, the group with the smaller square of distance over radius, by more than 3, is the higher threat whatever the distances |
| ThreatOrder.SmallerRadiusIsHigher | pkg/radar/picture.go:118-123 | Outside their radii, the group with the radius smaller by more than 3 NM is the higher threat, be it nearer or not |
| ThreatOrder.CloseCallsByDistance | pkg/radar/picture.go:99-115 | When those are within 3 of each other, or a radius is zero, the one nearer by more than 3 NM wins, and else the one higher up |
| ThreatOrder.NeighboursAreNearest | pkg/radar/picture.go:41-43 | In a list without an inverted neighbour pair, no group is directly followed by one of its tier and radius more than 3 NM nearer, or as near and higher up |
| ThreatOrder.TiersAreMonotone | pkg/radar/picture.go:41-51 | In a list without an inverted neighbour pair tiers never improve |
| ThreatOrder.TopOfPicture | pkg/radar/picture.go:41-51 | The first three of such a list leave out no group of a higher tier than one they hold |
| ThreatOrder.InsertionSortLeavesNoInversion | pkg/radar/picture.go:41-43 | Any groups can be arranged without an inverted neighbour pair, in spite of the missing transitivity |

## Left out

- Floating-point rounding, infinities and unit conversion: quantities are exact reals; the one undefined value, a distance weighted by a zero threat radius, is modelled as missing. Frequencies are raw 64-bit values.
- Distance between points, ground speed, the aircraft table, callsign clean-up, edit-distance search, radio frequency matching and who is on frequency are parameters, and results hold for whatever they return; where a result needs a law of one (a symmetric distance, a search that returns a listed key, callsigns with all digits set apart) it requires it.
- The Opus encoder is a function of the frames it was given so far, which may fail on any of them.
- Reading number words is a parameter that must return the value of a single digit character and may return anything else for other characters. Only ASCII digits are digits; characters and bytes coincide for them.
- Goroutines, locks and channels: each locked operation is one step, and the clock never runs backwards.
- The library sort is known by its contract. For the picture, whose comparison is not transitive, results are about lists without an inverted neighbour pair, and `ThreatOrder.InsertionSortLeavesNoInversion` shows that one exists; which one the library produces is not modelled.
- Trackfiles, groups and packets are values: that the database, groups and callers share them by reference, and that a decoded packet shares bytes with its datagram, is not captured.
- Collation.CollateCallsigns: takes two different slices; passing one slice as both is not modelled. Entries of a call are tagged with their form, since as text a loose name may look like a short form (`CollationMeaning.LooseNamesMaySoundShort`).
- CollationMeaning.CollationPreservesMeaning: needs canonical names and no repeats; what is heard of all other lists is given by `CollationMeaning.CollationIsHeardAs` and `CollationMeaning.EveryReceiverIsHeardIff`.
- VoicePacket.Encode: requires a packet for which the slices it takes are in bounds; the program panics on others.
- VoicePacket.Decode: datagrams shorter than six bytes give one error, without the text of the recovered panic.
- BearingParser.ParsesFirstThreeDigits: is about words that are digit-free or all digits; for words that mix them, `BearingParser.LeftoverIsExactIff` says when what is left is right.
- ReceiverRuns.BufferIsRunningMaxima: requires non-empty origins, which every decoded packet has (`Datagrams.AnyDatagrams`).
- MergeSweeps.Sweeper.Sweep: requires that groups which share a hostile list the same friendlies under 5 NM of it, and that a hostile which is gone from the radar is nowhere taken for a friendly; what the radar finds meets both (`RadarMerges.MergesAreCoherent`).
- RadarMerges.Merges: finding the groups and sweeping them see the same contacts; an update between the two is not modelled there, but is in `MergeSweeps.Sweeper.Sweep`, which takes any live trackfiles.
- VoiceSessions.SessionsEndToEnd: datagrams of other senders that match the radio of the receiver do not come in between, and none of the client is lost or overtaken.
- Broadcasts.BroadcastMerges: notices follow the whole sweep instead of alternating with it group by group; the two touch different trackers, so only the clock readings lie closer together. All calls are composed from the same contacts.
- Radar operations that only read (nearest group, bullseye, BRAA geometry, group setters and text), and stream backtracking.
- The coalition filter on received voice, and the SRS handshake.
- Networking, configuration, speech recognition and synthesis, Discord, telemetry parsing, phrasing of replies and logging.
