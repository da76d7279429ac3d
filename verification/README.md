# uvgRTP in Dafny

A model of the parts of uvgRTP where state, arithmetic or protocol runs are hard to get right by
reading, with proofs of what they promise. Every file is one module; `dafny verify dfyconfig.toml`
checks them all.

- **RTCP** (RFC 3550). `RtcpTracker` follows one source through probation, wrap-around, dropout and
  re-sync, and counts its losses. `RtcpSession` keeps the table of sources and their report
  intervals. `RtcpPackets` writes packets, `RtcpReports` assembles the compound packet of a report,
  and `RtcpReader` walks a received one.
- **ZRTP** (RFC 6189). `ZrtpKeys` holds messages, hash chains, contention and key derivation, with
  hash, HMAC, Diffie-Hellman and cipher as uninterpreted functions. `ZrtpProtocol` is the handshake
  as steps of two sides over a network that loses, duplicates, delays and reorders messages but
  never forges one. `ZrtpProgress` shows that it can be completed, `ZrtpAlone` what one side can
  rely on when the network delivers anything, and `ZrtpEndpoint` is one side with the methods of
  the source.
- **V3C** (ISO/IEC 23090-5). `V3cFormat` writes sizes, headers, units and groups of frames,
  `V3cParser` reads a file, `V3cLoops` tells when its loops end, with `Orbits` for loops in general,
  and `V3cReceiver` groups received NAL units.
- **The rest.** `Ring` is the ring between the two reception threads as interleaved steps, `Inet`
  the text parser for addresses (RFC 4291 section 2.2), `RtpQueue` RTP packets and transactions,
  `H264` STAP-A packets (RFC 6184 section 5.7.1) and `Clock` the difference of NTP timestamps.
  `Bytes` and `Wrappers` are shared.

Octets are integers below 256 and fixed-width arithmetic is written out (`Wrap32`, `% 0x1_0000`,
a recursive bitwise `Or`). Functions give the meaning of what the source computes, and the methods
that update arrays and fields are proved against them.

Where the code differs from what its documentation or the standards suggest, the model follows the
code:

- With `RCE_SRTP` the size of a report takes in 14 octets of trailer, which its header refuses, so
  that `generate_report` never sends one (`RtcpReports.WriteHead`).
- `set_sdes_items` drops items of kind 0 only before the first CNAME; one after it cuts the chunk
  short for the receiver (`RtcpReports.Reporter.SetSdesItems`, `RtcpReader.ReadsChunkExactly`,
  `RtcpReader.ZeroKindIsLost`).
- The count of participants never goes down, so that 31 sources can join in the life of a session
  (`RtcpSession.FullSessionAdmitsNoOne`). After that a report from anyone else makes most handlers
  follow a null entry (`RtcpSession.FullSessionBreaks`, `RtcpSession.ThirtySecondBreaks`).
- Timers also run for sources that are not in the table, and free a null entry when they run out
  (`RtcpSession.StrangersTimeOut`, `RtcpSession.UnknownByeBreaks`).
- A source first heard of by RTCP skips probation and starts at number 0, so that its losses begin
  with all numbers below its first (`RtcpTracker.AnnouncedLossCountsFromZero`), and its record of
  bad numbers starts at 0, so that packet 0 can restart it (`RtcpTracker.RestartsUnrefused`).
- A file with sizes of eight octets can take `mmap_v3c_file` back to a position it has been at, and
  it then never returns (`V3cLoops.EndsExactly`, `V3cLoops.HangsOnUnits`, `V3cLoops.HangsOnNals`).
- The V3C receiver numbers its groups modulo 256, of which headers carry four bits
  (`V3cReceiver.NumberSurvives`).
- A re-sync keeps cycles and received packets (`RtcpTracker.ResyncKeepsCounters`).
- The mask for lost packets is `0xfffffd` (`RtcpReader.LossSurvives`), and the fraction is wrong
  from 2^24 losses in an interval on (`RtcpSession.FractionIsLossRatio`).
- BYE counts its sources modulo 32, reports lose a bit of each loss, and APP packets all but five
  bits of the subtype (`RtcpReader.ExactRoundTrip`, `RtcpReader.ByeOfThirtyTwo`). The item count of
  SDES is the number of receivers.
- hvi values are compared as little-endian numbers (`ZrtpKeys.LosesByTopOctet`), and the responder
  derives its own salt with the length of the other side's (`ZrtpKeys.SrtpKeysMirror`). A tie is
  never resolved, but roles agree all the same (`ZrtpProtocol.TiesAreNotResolved`).
- A Confirm2 that does not open is kept, and no later one is looked at
  (`ZrtpAlone.UnopenedConfirmIsFinal`).
- AVD headers lose bits of attribute, partition and map index (`V3cFormat.HeaderIsExact`).
- `inet_pton6` takes groups with any number of leading zeros (`Inet.AddressesAreRead`).
- The ring has no test for being full and may lose a notification (`Ring.RoomIsExact`,
  `Ring.NotificationLost`).

## Model

| member | source | states |
|---|---|---|
| RtcpTracker.TracksTrueMaximum | src/rtcp.cc:930-990 | For every run whose true (unbounded) sequence numbers stay in the window −100 < t − M < 3000 of the running maximum M, cycles·65536 + max_seq moves exactly as M does, modulo 2^32, every packet is counted, and nothing is left to a re-sync |
| RtcpTracker.WindowIsExact | src/rtcp.cc:962-987 | Within one revolution of the 16-bit number, a packet takes the far branch if and only if it is outside that window |
| RtcpTracker.ProbationEndsExactly | src/rtcp.cc:943-961 | A new source is valid after any run of packets if and only if, from the third packet on, one followed its predecessor directly; 65535 followed by 0 does not qualify; until then only the first packet is counted |
| RtcpTracker.BadSeqRecordsLastRefused | src/rtcp.cc:970-984 | Over every run of any source, whether it started with an RTP packet or joined by RTCP: bad_seq is one past the packet refused last, or the marker for none after a restart, or, before either, what the source started with: the marker, and 0 for one that joined by RTCP |
| RtcpTracker.ResyncsExactly | src/rtcp.cc:970-984 | After any run of a source that started with an RTP packet, a far packet restarts it if and only if its record was last touched by refusing its predecessor modulo 65536 |
| RtcpTracker.AnnouncedResyncsExactly | src/rtcp.cc:962-987 | After any run of a source that joined by RTCP, a far packet restarts it if and only if its record was last touched by refusing its predecessor, or was never touched and the packet is number 0 |
| RtcpTracker.RestartsUnrefused | src/rtcp.cc:962-987 | Such a source accepts packets 2999 and 5000, and is then restarted by packet 0, though nothing has been refused |
| RtcpTracker.ResyncKeepsCounters | src/rtcp.cc:915-928 | A restart keeps the cycle and packet counters of the previous life, so that the expected count starts from cycles·65536 + 1 |
| RtcpTracker.RefusedLeaveNoTrace | src/rtcp.cc:970-984 | Over every run of any source in which no packet restarts it, the entry is in all fields but bad_seq the one that the accepted packets alone lead to, none of which touches the record |
| RtcpTracker.FarPacketsAreDropped | src/rtcp.cc:962-987 | Over every run in which each packet is in the window around the highest number in the window so far, or off by less than a revolution without following the last such packet directly: those far off change nothing but bad_seq |
| RtcpTracker.TracksAmongFarPackets | src/rtcp.cc:962-987 | So cycles·65536 + max_seq follows the highest number in the window, and only packets in the window are counted, whatever far packets come between |
| RtcpTracker.ValidatedSource | src/rtcp.cc:852-893 | At the end of probation two packets are counted, and one is expected |
| RtcpTracker.DistinctHasNoSurplus | src/rtcp.cc:1024-1035 | If no packet repeats a true number or comes from before the base, every packet counted fills a gap |
| RtcpTracker.LossAfterBase | src/rtcp.cc:1024-1035 | From a just validated source on, expected is M − base + 1 and lost is max(0, expected − received) |
| RtcpTracker.LossCountsGaps | src/rtcp.cc:1024-1035 | From the first packet of a source through the end of probation and any run in the window, lost_pkts is max(0, missing − surplus − 1): the number of true numbers never received, less the duplicates, less the packet counted before probation |
| RtcpTracker.LossCountsGapsAmongFarPackets | src/rtcp.cc:1024-1035 | The same over runs with such far packets: lost_pkts counts the gaps between the packets in the window alone |
| RtcpTracker.FirstOfAnnounced | src/rtcp.cc:410-439 | The first RTP packet of a source that joined by RTCP is refused from number 3000 up to 65436, counts as an old one above that, and below 3000 makes as many losses as its number says |
| RtcpTracker.AnnouncedLossCountsFromZero | src/rtcp.cc:410-439 | A source that joins by an RTCP packet starts without probation at number 0: over any run in the window, its loss is that of all true numbers from 0 on, so every number before its first packet counts as lost |
| RtcpSession.FractionIsLossRatio | src/rtcp.cc:1900-1930 | The fraction lost equals min(255, floor(256·lost/expected)) if and only if fewer than 2^24 packets were lost in the interval |
| RtcpSession.IntervalsTelescope | src/rtcp.cc:1900-1930 | Over any mix of packets and reports, the intervals' expected, received and lost counts sum to the change of the totals, modulo 2^32 |
| RtcpSession.ReportsAddUp | src/rtcp.cc:1900-1930 | For any new source whose run ends in a report, whatever re-syncs and wraps it went through: interval expected counts sum to total expected, and interval losses to expected minus received, modulo 2^32 |
| RtcpSession.SumsAreExact | src/rtcp.cc:1900-1930 | Over any mix of packets and reports, the interval sums equal the change of the totals, without wrapping, if and only if no report finds a total below the one reported before |
| RtcpSession.ReportsAddUpExactly | src/rtcp.cc:1900-1930 | From the end of probation at true number b, over any packets in the window and reports with counts below 2^31 that end in a report: the intervals' expected counts sum to M − b + 1, the received ones to the packets counted, and the losses to the gaps less the surplus and the packet counted before probation, exactly |
| RtcpSession.SourcesAreIndependent | src/rtcp.cc:1060-1100 | Whatever sources send over RTP and RTCP, however they come, go and time out, and whenever reports are sent, as long as no null entry is followed: a source is in the table if and only if it is a member (it asked while fewer than 31 had, and has neither left nor timed out since), its entry is what its packets and the reports alone make of it since it joined, a timer runs for it if and only if it is armed, and num_receivers_ is the number of askings up to 31 |
| RtcpSession.MissingOnlyWhenFull | src/rtcp.cc:410-439 | A source that has been heard of since it last left or timed out is missing from the table only because 31 had joined |
| RtcpSession.FullSessionAdmitsNoOne | src/rtcp.cc:410-439 | Leaving frees no slot: once 31 sources have joined, none joins again |
| RtcpSession.FullSessionBreaks | src/rtcp.cc:1335-1437 | After any run, an SR, RR, SDES or APP packet makes its handler follow a null entry if and only if 31 sources have joined in the run, the sender is no member, and the handler looks the sender up again: an SR always, the others without a hook |
| RtcpSession.StrangersTimeOut | src/rtcp.cc:2116-2128 | After any run, a timer that runs out makes the source free a null entry if and only if it runs for someone who is no member |
| RtcpSession.RunBreaksExactly | src/rtcp.cc:1335-1437 | A run from the empty session follows a null entry if and only if one of its events is such a packet or such a timeout |
| RtcpSession.ThirtySecondBreaks | src/rtcp.cc:410-439 | Once any 31 distinct sources have sent a packet each, an SR from a 32nd follows a null entry, and so does the timeout after its first RTP packet |
| RtcpSession.UnknownByeBreaks | src/rtcp.cc:1205-1212 | In a session no one has joined, a BYE arms a timer, which frees a null entry when it runs out |
| RtcpSession.EnumerationSize | src/rtcp.cc:1798-1805 | An enumeration of the table has as many entries as the table |
| RtcpSession.ReportsOnHeard | src/rtcp.cc:1892-1948 | The blocks of a report are those of exactly the sources heard since their last report, each once, and each with the figures of its source (RtcpSession.BlocksAreExact) |
| RtcpSession.HeardSinceReport | src/rtcp.cc:1897-1946 | Over any packets and reports, a source has a block in the next report if and only if a packet of it has been counted since the last report, or since it joined |
| RtcpSession.ReportsOnlySettle | src/rtcp.cc:1892-1948 | Reports change nothing of a source but what the next interval starts from and the mark that it has been heard |
| RtcpSession.BlocksAreExact | src/rtcp.cc:1892-1948 | After any run of the session, for any source that became valid at true number b and went through packets in the window and reports, with counts below 2^31: there is a block about it if and only if a packet has come since the last report; lost is max(0, missing − surplus − 1); cycles·65536 + max_seq is the highest true number modulo 2^32; and with e numbers newly expected and r packets newly counted, e − r < 2^24, the fraction is 0 if r ≥ e and else min(255, floor(256·(e − r)/e)) |
| RtcpSession.PassedOnExactly | src/rtcp.cc:1060-1100 | After any run of the session, a packet is passed on to other handlers if and only if it is the first of a source that is let in, or of a member that is or becomes valid with it and not one that was valid and finds it far off and no restart; packets during probation are kept back, all others refused |
| RtcpSession.Rtcp.AddParticipant | src/rtcp.cc:410-439 | Adds a zeroed entry and counts it, or refuses the 32nd |
| RtcpSession.Rtcp.InitParticipantSeq | src/rtcp.cc:915-928 | Sets base, maximum and bad sequence number of an entry, and nothing else |
| RtcpSession.Rtcp.UpdateParticipantSeq | src/rtcp.cc:930-990 | The updates in place give the entry and the result of the tracker, and change no other entry |
| RtcpSession.Rtcp.UpdateSessionStatistics | src/rtcp.cc:1011-1058 | Counts the packet of an entry, and changes no other |
| RtcpSession.Rtcp.InitNewParticipant | src/rtcp.cc:852-893 | A first packet sets the timer of its source, and makes the new entry of the tracker unless 31 have joined |
| RtcpSession.Rtcp.RecvPacketHandlerCommon | src/rtcp.cc:1060-1100 | One received packet is one step of the session whose runs the lemmas are about, with the same result code |
| RtcpSession.Rtcp.AdmitAnnounced | src/rtcp.cc:1335-1437 | What an RTCP packet does to the table is a step of the same runs: an unknown sender joins without probation if there is room, and the result tells whether the entry used after that exists |
| RtcpSession.Rtcp.UpdateTimeout | src/rtcp.cc:1205-1212 | Each packet of a compound sets the timer of the SSRC that heads the compound, whether or not it is in the table |
| RtcpSession.Rtcp.RemoveTimeoutSsrc | src/rtcp.cc:2116-2128 | A timeout removes the source and its timer; the result tells whether there was an entry to free |
| RtcpSession.Rtcp.HandleBye | src/rtcp.cc:1517-1550 | Removes exactly the sources named, with their timers, passes over those not in the table, and takes back no count |
| RtcpSession.Rtcp.CollectReports | src/rtcp.cc:1892-1948 | Yields the blocks of the sources heard and settles the interval of exactly these sources |
| RtcpPackets.GetSdesPacketSize | src/rtcp_packets.cc:33-49 | The predicted size is the size written, including one to four zero octets, and a multiple of four |
| RtcpPackets.LossWordBits | src/rtcp_packets.cc:103-115 | The word of a report block holds the fraction, or-ed with the loss bits above the 24th, over the low 24 bits of the loss |
| RtcpPackets.ConstructRtcpHeader | src/rtcp_packets.cc:56-83 | For any size, second field and type: accepts exactly the sizes up to 65535 that are a multiple of four, and writes version, the second field uncut, type and the length in words less one, which is 65535 for a size of 0 |
| RtcpPackets.FirstOctetOrs | src/rtcp_packets.cc:71-75 | The first octet is the version bit or-ed with the whole second field, so a field of 32 or more spoils padding and version |
| RtcpPackets.ConstructSenderInfo | src/rtcp_packets.cc:91-101 | Appends the five words of the sender information |
| RtcpPackets.ConstructReportBlock | src/rtcp_packets.cc:103-115 | Appends the six words of a report block |
| RtcpPackets.ConstructAppPacket | src/rtcp_packets.cc:117-125 | Appends name and payload |
| RtcpPackets.ConstructSdesChunk | src/rtcp_packets.cc:127-155 | Appends SSRC, items and the zero octets that end the chunk, and tells whether one of the items is a CNAME |
| RtcpPackets.ConstructByePacket | src/rtcp_packets.cc:157-165 | Appends the SSRCs |
| RtcpReports.WriteHead | src/rtcp.cc:1842-1890 | Succeeds if and only if SRTP is off: its trailer of 14 octets makes the size no multiple of four |
| RtcpReports.WriteApps | src/rtcp.cc:1968-1999 | Writes the APP packets due up to the first one the header refuses, which is taken off its queue as well, and tells how many were taken |
| RtcpReports.TriedIsExact | src/rtcp.cc:1968-1999 | All packets due are taken if all are accepted; else the last one taken is the first that is refused |
| RtcpReports.OneIsDue | src/rtcp.cc:1981-1995 | One packet is due under each name that has packets waiting, and it is the oldest |
| RtcpReports.AppsGoInOrder | src/rtcp.cc:1968-1999 | Over any number of reports, with packets queued at any time between them: the packets taken under each name, followed by those still waiting, are the ones queued under it, in order, once each; a report that is sent carries what it takes |
| RtcpReports.SizeOfReadyAppPackets | src/rtcp.cc:1711-1724 | The predicted size of the APP packets due is their size |
| RtcpReports.PlannedBytes | src/rtcp.cc:1736-1776 | The octets of a planned report are those of its parts, one after the other |
| RtcpReports.PlannedAccepted | src/rtcp.cc:1840-2017 | Every packet of a report has a size its header can state if and only if those of variable size have |
| RtcpReports.KeptKinds | src/rtcp.cc:355-393 | What set_sdes_items keeps has no item of the invalid kind 0 if and only if none follows the first CNAME |
| RtcpReports.Reporter.SetSdesItems | src/rtcp.cc:355-393 | Our SDES items name us after every call, and are free of the kind 0 that the reader takes for the end of a chunk if and only if no item of kind 0 follows the first CNAME given |
| RtcpReports.Reporter.GenerateReport | src/rtcp.cc:1778-2023 | A report is sent if and only if there is someone to report on, SRTP is off, our items name us and every size fits its header; the frame, sized in advance, is then exactly the packets planned. Sent or failed half way, every source is settled unless SRTP is on, the APP packets tried are off their queues, and the BYE is forgotten once it has been tried |
| RtcpReports.Reporter.AllocateFrame | src/rtcp.cc:1736-1776 | The frame has the size of the compound packet, and there are fewer than 32 report blocks |
| RtcpReports.Reporter.FinishReport | src/rtcp.cc:1951-2017 | SDES, APP and BYE fill the frame to its last octet, or nothing of it is sent; which APP packets are taken and whether the BYE is forgotten depends on the first packet refused |
| RtcpReader.LossSurvives | src/rtcp.cc:1302-1326 | The loss figures of a block survive if and only if the loss fits 24 bits and has bit 1 clear, the mask being 0xfffffd |
| RtcpReader.MaskIsAnd | src/rtcp.cc:1302-1326 | The loss that arrives is the word bitwise and 0xfffffd |
| RtcpReader.ReadsChunk | src/rtcp.cc:1453-1483 | An SDES chunk with items of kinds other than 0 is read back, and the parser lands exactly on its end |
| RtcpReader.ReadsChunkExactly | src/rtcp.cc:1453-1483 | A chunk that has been written is read back as itself if and only if none of its items is of kind 0 |
| RtcpReader.ReadsUpToZero | src/rtcp.cc:1459-1478 | Of a chunk with an item of kind 0, the items before the first such are read, and none of those after |
| RtcpReader.ZeroKindIsLost | src/rtcp.cc:355-393 | For any CNAME and any item of kind 0 after it, set_sdes_items keeps both, and the reader finds only the CNAME in the chunk written |
| RtcpReader.WalkIsExact | src/rtcp.cc:1165-1265 | For any octets: the walk succeeds with given packets if and only if the octets are these packets one after the other, each with a valid header and body, and without a remainder |
| RtcpReader.WalkEndsExactly | src/rtcp.cc:1165-1265 | For any octets: what is delivered is exactly the packets up to the first that cannot be read, and the result says what is wrong with that one: fewer octets than a header, a wrong version, padding or an unknown type, a length beyond the datagram, or a body read past the buffer |
| RtcpReader.CompoundRoundTrip | src/rtcp.cc:1165-1265 | For every list of packets that can be written, whatever follows them in the receive buffer, the walk delivers one frame for each, with losses as the mask leaves them and each BYE cut to its count modulo 32, and ends with nothing remaining, if and only if no SDES item is of kind 0 |
| RtcpReader.ExactRoundTrip | src/rtcp.cc:1165-1265 | It delivers these packets with all they were given to carry if and only if no SDES item is of kind 0, every loss is below 2^24 with bit 1 clear, every APP subtype is below 32 and every BYE is about fewer than 32 sources |
| RtcpReader.ByeOfThirtyTwo | src/rtcp.cc:2003-2017 | A BYE for any 32 sources can be written, and is read as a BYE for none |
| RtcpReader.SentReportIsRead | src/rtcp.cc:1165-1265 | A report that can be sent is walked back to the frames of its packets if and only if no SDES item has kind 0, and to its packets with all they were given to carry if and only if, besides, losses and subtypes fit and the BYE is about fewer than 32 sources |
| RtcpReader.ReportTellsTrue | src/rtcp.cc:1892-1948 | From the packets of a source to what the receiver of our report reads: there is a block about the source if and only if a packet of it has come since the last report, with the highest true number modulo 2^32, the missing packets as the mask leaves them, and, below 2^24 losses, the share missing of the numbers newly expected |
| RtcpReader.WalkKinds | src/rtcp.cc:1440-1515 | Whatever octets arrive, no frame delivered holds an SDES item of kind 0 |
| RtcpReader.ReadReports | src/rtcp.cc:1302-1326 | The loop reads the blocks announced, up to the end of the packet |
| RtcpReader.ReadSdesItems | src/rtcp.cc:1459-1478 | The loop ends on any input, at a zero octet or before the packet end |
| RtcpReader.HandleSdesPacket | src/rtcp.cc:1440-1515 | The loop over chunks ends on any input and yields the chunks found |
| RtcpReader.HandleByePacket | src/rtcp.cc:1517-1550 | Reads the SSRCs counted by the header. The source does not test the length; None stands for a read past the receive buffer |
| RtcpReader.HandlePacket | src/rtcp.cc:1220-1262 | Each packet type is read by its handler |
| RtcpReader.HandleIncomingPacket | src/rtcp.cc:1127-1277 | The walk over the octets of a received compound packet: the packets delivered before an error, and the result code of each exit of the walk; None of a handler, a read past the buffer, is the status Undefined |
| Ring.DeliversInOrder | src/reception_flow.cc:443-646 | In every interleaving of the two threads that keeps room, the handlers are given the received datagrams in order, once each and unaltered, and a drain that ends has handed over everything published |
| Ring.RoomIsExact | src/reception_flow.cc:463-481 | Wherever the processor is when a fill begins: once one more datagram has been published, every way the processor drains delivers all received if and only if there was room and the processor was not about to fall asleep |
| Ring.Invariant | src/reception_flow.cc:443-646 | Every reachable state keeps what is pending in its slots, the slot being handled, and the indices in step with the counts |
| Ring.NotificationLost | src/reception_flow.cc:483-505 | Once a datagram has been published into a ring with room and notified, the processor alone can fall asleep on it, needing no spurious wake-up for that, if and only if it had found nothing to do and had not begun to wait |
| Ring.ErrorEndsReception | src/reception_flow.cc:424-511 | A read that fails stops the receiving thread: whatever steps follow, nothing more is received or published |
| Ring.NextIndex | src/reception_flow.cc:665-680 | The next location after k slots is k modulo the size |
| Ring.ReceptionFlow.constructor | src/reception_flow.cc:73-90 | A new ring starts where every run starts, if the buffer holds a payload; a smaller one makes a ring without slots |
| Ring.ReceptionFlow.Receive | src/reception_flow.cc:463-481 | The receiving loop is the run of receiver steps for its datagrams, and ends at an empty one or when none is left |
| Ring.ReceptionFlow.ProcessOne | src/reception_flow.cc:513-656 | A round of the processing loop hands over the next pending datagram and frees its slot |
| Ring.ReceptionFlow.ProcessPackets | src/reception_flow.cc:513-656 | The processing loop ends, and has then handed over everything pending, in order |
| ZrtpKeys.AreWeInitiator | src/zrtp.cc:366-381 | True exactly if our value, read as a little-endian number of 16 octets in multistream mode and 32 otherwise, is not smaller than theirs |
| ZrtpKeys.ContentionIsDecided | src/zrtp.cc:366-381 | Exactly one side wins if and only if the values differ in the octets compared |
| ZrtpKeys.LosesByTopOctet | src/zrtp.cc:366-381 | A side gives way if and only if, at the highest of the octets compared in which the values differ, the other value is the larger |
| ZrtpKeys.HviBinds | src/zrtp.cc:812-832 | As long as the hash does not collide on the two, values of a Diffie-Hellman session are the same if and only if they cover the same DHPart2 message and Hello; in multistream mode, if and only if the nonces are the same |
| ZrtpKeys.HonestValidates | src/zrtp.cc:300-354 | The messages of a side that follows the protocol validate against the H0 it reveals |
| ZrtpKeys.ConfirmOpens | src/zrtp/confirm.cc:75-120 | A Confirm message opens under the same keys, and reveals H0 |
| ZrtpKeys.SrtpKeysMirror | src/zrtp.cc:909-940 | Sides that agree on the secret hold mirrored SRTP keys if and only if the lengths asked for match; the responder derives both salts with one of its two lengths |
| ZrtpKeys.KdfInputInjective | src/zrtp.cc:115-148 | Derivations that differ in label, ZIDs, total hash or length feed different octets to the HMAC |
| ZrtpKeys.SrtpKeysAreSeparate | src/zrtp.cc:909-940 | As long as the HMAC tells what it is given for these sessions apart by its first k octets, and no key is shorter: two of the keys and salts that sessions with one secret yield, in either role, are the same if and only if they are for the same session, the same sender, both keys or both salts, and equally long |
| ZrtpKeys.SrtpKeysDiffer | src/zrtp.cc:909-940 | So our key, our salt, their key and their salt are pairwise distinct, in both roles |
| ZrtpKeys.OutputIs | src/zrtp.cc:909-940 | Each key and salt is the one derived under the label of the side that sends under it |
| ZrtpKeys.DerivedKeysAreSeparate | src/zrtp.cc:150-242 | Of the six keys derived after an exchange, two of sessions with one secret are the same if and only if they are for the same use in the same session |
| ZrtpKeys.DhSecretBinds | src/zrtp.cc:166-242 | As long as the hash does not collide on the two, sessions share a secret if and only if they have Diffie-Hellman result, ZIDs in order and total hash in common |
| ZrtpKeys.MultSecretBinds | src/zrtp.cc:244-284 | In multistream mode, if and only if they have ZIDs in order and total hash in common |
| ZrtpProtocol.RolesAgree | src/zrtp.cc:475-544 | In every run over a network that loses, duplicates, delays and reorders: if both sides return RTP_OK from init_session, one is the initiator and the other the responder, even if the hvi values are equal |
| ZrtpProtocol.TiesAreNotResolved | src/zrtp.cc:519-534 | Two sides that have both sent a Commit leave the contention only if the values differ |
| ZrtpProtocol.SecretsAgree | src/zrtp.cc:166-284 | In every run, Diffie-Hellman or multistream: sides that have generated their secrets hold the same total_hash, s0, keys and order of ZIDs |
| ZrtpProtocol.SrtpKeysAgree | src/zrtp.cc:909-940 | In every run the SRTP keys of the two sides mirror each other if and only if the lengths match |
| ZrtpProtocol.TotalHashBinds | src/zrtp.cc:166-284 | Two sides with messages of the same sizes come to one total hash if and only if they have seen the same Hello, Commit, DHPart1 and DHPart2, as long as the hash does not collide on these |
| ZrtpProtocol.DirectionsDiffer | src/zrtp.cc:909-940 | In every run the two sides hold one key for each direction, and the directions have different keys |
| ZrtpProtocol.CompletionCorresponds | src/zrtp.cc:644-746 | In every run: when the initiator returns RTP_OK, the responder has received Confirm2, validated the session and sent Conf2ACK |
| ZrtpProtocol.HonestPeersAreNotRefused | src/zrtp.cc:595-746 | In every run: no side parses a message it has not received, and none finds a wrong code or hash |
| ZrtpProtocol.DhPreparesMult | src/zrtp.cc:873-907 | A completed Diffie-Hellman session leaves both sides in the state that the theorems about multistream sessions start from |
| ZrtpProtocol.Invariant | src/zrtp.cc:475-746 | What each side has sent, latched, gathered and derived, and what its progress tells about the other side, in every reachable state |
| ZrtpProgress.HandshakeCompletes | src/zrtp.cc:782-907 | From every start, in both modes, there is a run after which both sides have completed the handshake |
| ZrtpProgress.ContentionCompletes | src/zrtp.cc:475-544 | There is one also in which both sides send a Commit, whenever the values in them differ; the side with the larger one is called a |
| ZrtpAlone.EverythingIsEarned | src/zrtp.cc:383-746 | Over every run of one side on a network that may deliver anything, forged or not: it leaves the greeting only with a Hello and a HelloACK; when an initiator has opened Confirm1, or either side is done, it holds a Confirm message with the right code under the session's keys, and the H0 in it authenticates, by the hash chain, every message it goes by; an initiator is done only with a Conf2ACK |
| ZrtpAlone.FirstStays | src/zrtp.cc:942-1218 | In every such run the first message of each type is the one that stays latched |
| ZrtpAlone.UnopenedConfirmIsFinal | src/zrtp.cc:644-696 | If the first Confirm2 does not open, then whatever comes after it, the responder neither completes the handshake nor refuses it, but goes on until its time is up |
| ZrtpEndpoint.Endpoint.PacketHandler | src/zrtp.cc:942-1218 | The first message of each type is latched and later ones are dropped |
| ZrtpEndpoint.Endpoint.DeriveKey | src/zrtp.cc:115-148 | A key is the truncated HMAC of counter, label, both ZIDs in the order of the roles, total_hash and length |
| ZrtpEndpoint.Endpoint.GenerateSharedSecretsDh | src/zrtp.cc:166-242 | The hash updates, in the order of the role, make the agreed transcript, secret and keys |
| ZrtpEndpoint.Endpoint.GenerateSharedSecretsMsm | src/zrtp.cc:244-284 | The same for multistream mode, which leaves the Confirm keys as they are |
| ZrtpEndpoint.Endpoint.ValidateSession | src/zrtp.cc:300-354 | True exactly if every message kept is authentic under the hash chain built from H0 |
| ZrtpEndpoint.Endpoint.EnterSession | src/zrtp.cc:475-496 | A Commit latched at entry makes a responder; without one the contention begins |
| ZrtpEndpoint.Endpoint.PollCommit | src/zrtp.cc:519-532 | A Commit found in the loop makes a responder exactly if the contention is lost |
| ZrtpEndpoint.Endpoint.BeginInitiator | src/zrtp.cc:595-606 | DHPart1 is parsed and the secrets generated, or in multistream mode the session finalized; a message that is not there is the outcome Crashed |
| ZrtpEndpoint.Endpoint.PollDhPart2 | src/zrtp.cc:546-571 | DHPart2 is parsed and the secrets generated |
| ZrtpEndpoint.Endpoint.FinalizeInitiator | src/zrtp.cc:698-719 | Confirm1 is opened and the session validated, or refused; without a Confirm1 the outcome is Crashed |
| ZrtpEndpoint.Endpoint.FinalizeResponder | src/zrtp.cc:653-675 | A Confirm2 that does not open changes nothing; else the session is validated and acknowledged, or refused |
| ZrtpEndpoint.Endpoint.AwaitAck | src/zrtp.cc:719-726 | The initiator is done once Conf2ACK is latched |
| ZrtpEndpoint.Endpoint.GetSrtpKeys | src/zrtp.cc:909-940 | Fails exactly for a zero length or before a completed handshake; else yields the keys of the role |
| V3cFormat.SizeFits | examples/v3c/v3c_util.cc:44-56 | A size written in n octets is read back if and only if it is below 256^n |
| V3cFormat.SizeRoundTrip | examples/v3c/v3c_util.cc:44-56 | It is read back modulo 256^n |
| V3cFormat.CombineBytes | examples/v3c/v3c_util.cc:44-50 | The shifted and or-ed octets are the big-endian number |
| V3cFormat.ConvertSizeBigEndian | examples/v3c/v3c_util.cc:52-56 | Fills the octets of the array with the big-endian number, and no others |
| V3cFormat.HeaderRoundTrip | examples/v3c/v3c_util.cc:195-281 | Reading a unit header just written gives its fields, cut down to the bits they have; in AVD headers the high bits of map and partition index end up in the partition index |
| V3cFormat.HeaderIsExact | examples/v3c/v3c_util.cc:409-442 | A header survives if and only if parameter set id < 16, atlas id < 64, map index < 16, attribute index < 64 and partition index < 8, as far as its type has them |
| V3cFormat.UnitSizeIsRight | examples/v3c/v3c_util.cc:636-670 | The size of a unit is that of the octets written for it if and only if its ptr is the sum of its NAL sizes |
| V3cFormat.GofSizeIsRight | examples/v3c/v3c_util.cc:588-634 | get_gof_size is the number of octets reconstruct_v3c_gof writes |
| V3cFormat.CreateV3cUnit | examples/v3c/v3c_util.cc:395-470 | Appends the size, header, precision octet and NAL units of a unit to the buffer |
| V3cFormat.ReconstructV3cGof | examples/v3c/v3c_util.cc:472-519 | Appends the parameter set and the four units of a group, and returns the announced size |
| V3cParser.MmapV3cFile | examples/v3c/v3c_util.cc:58-193 | With 64-bit positions that wrap around: what is known of the file once neither loop has gone round more often than given — the units found, by type, a read beyond the file, or that a loop is still running |
| V3cLoops.EndsExactly | examples/v3c/v3c_util.cc:75-193 | For any octets: mmap_v3c_file never returns if and only if the loop over units, or that over the NAL units of a unit it gets to, comes back to a position; else neither loop takes more rounds than the file has octets, and more do not change the result |
| V3cLoops.NalLoopIsExact | examples/v3c/v3c_util.cc:134-163 | The loop over NAL units runs for ever if and only if it comes back to a position; else it is over after as many rounds as the file has octets |
| V3cLoops.NarrowSizesEnd | examples/v3c/v3c_util.cc:70-125 | mmap_v3c_file returns on every file of up to 2^63 octets whose first octet, and the precision octet of every atlas unit it gets to, are below 0xe0 |
| V3cLoops.HangsOnUnits | examples/v3c/v3c_util.cc:80-110 | On the 10 octets e0 ffffffff fffffff8 00 it never returns: the unit size 2^64 − 8 leads back to itself |
| V3cLoops.HangsOnNals | examples/v3c/v3c_util.cc:134-163 | On the 15 octets 00 0d 08000000 e0 ffffffff fffffff8, one atlas unit, it never returns from the loop over NAL units |
| V3cParser.ReadsItems | examples/v3c/v3c_util.cc:58-193 | Over any list of units of any type with a header, also those that are not received (CAD and PVD), whose sizes fit, in a file of less than 2^64 octets: the loops end and the parser finds exactly these units, up to the end of the file |
| V3cParser.ListsAreByType | examples/v3c/v3c_util.cc:163-193 | Every unit is in the list of its type and in no other, in the order of the file; those of unknown types are in none |
| V3cParser.PrintThenParse | examples/v3c/v3c_util.cc:472-519 | For any number of groups whose sizes fit and whose parameter sets are not empty and begin with an octet of unit type 0, in less than 2^64 octets: parsing the concatenated outputs ends, and recovers the same groups, units and NAL octets in order, with the header fields cut down to the bits they have (V3cFormat.HeaderRoundTrip) |
| V3cReceiver.UnitList.CopyRtpPayload | examples/v3c/v3c_util.cc:536-577 | One payload is copied into the last unit, or a new one if that is full, which becomes ready when it is full |
| V3cReceiver.UnitList.Finalize | examples/v3c/v3c_util.cc:580-586 | On a timeout the last unit becomes ready as it is, and no other changes |
| V3cReceiver.GroupsNals | examples/v3c/v3c_util.cc:536-577 | For every list of payloads and max_size ≥ 1: every unit but the last is full and ready, the last is ready if and only if it is full, every ptr is the sum of the NAL sizes, headers are numbered, and the units hold the payloads in order |
| V3cReceiver.PayloadsAreKept | examples/v3c/v3c_util.cc:536-577 | No payload is lost if and only if max_size is positive or there is at most one payload |
| V3cReceiver.ReceivedThenParsed | examples/v3c/v3c_util.cc:521-586 | End to end: if the first n groups are ready and fit, the last one perhaps by a timeout, the file they are written to is parsed to n groups: payload i·max + j is NAL unit j of unit i, stream by stream; every unit has max NAL units unless a timeout ended it; and headers carry the group number as far as their bits allow |
| V3cReceiver.ReadyNals | examples/v3c/v3c_util.cc:536-586 | A unit that is ready holds its share of the payloads in order, its number and the right ptr; the share is max, or what is left for a unit ended by finalize_gof |
| V3cReceiver.NumberSurvives | examples/v3c/v3c_util.cc:409-442 | The numbered header of group i is read back unchanged if and only if i mod 256 is below 16 |
| V3cReceiver.NumberOctets | examples/v3c/v3c_util.cc:409-442 | Of the header of group i nothing is set but the type and the low four bits of the number |
| Inet.AddressesAreRead | src/mingw_inet.cc:55-147 | A text is accepted with given octets if and only if it is the text of an address with these octets: groups of hexadecimal digits up to ffff (with any number of leading zeros), at most one double colon standing for at least one zero octet, perhaps a dotted quad at the end, sixteen octets in all |
| Inet.PrintedAddressIsRead | src/mingw_inet.cc:55-147 | Any sixteen octets, printed as eight groups of four digits from 0123456789abcdef or 0123456789ABCDEF with colons between, are read back |
| Inet.HexDigitsAreAll | src/mingw_inet.cc:57-80 | No character is a digit of a group but those in these two strings |
| Inet.PrintedQuadIsRead | src/mingw_inet.cc:10-53 | Any four octets, printed in decimal with digits from 0123456789, without leading zeros and with dots between, are read back |
| Inet.QuadsAreRead | src/mingw_inet.cc:10-53 | A dotted quad is accepted if and only if it has four decimal numbers up to 255 without leading zeros, and yields them |
| Inet.AddressIsRead | src/mingw_inet.cc:55-147 | Every address is accepted and yields its octets: prefix, zeros, suffix |
| Inet.AddressIsExplained | src/mingw_inet.cc:55-147 | Every accepted text is the text of an address |
| Inet.InetPton4 | src/mingw_inet.cc:10-53 | The loop over characters reads what the grammar of quads says |
| Inet.InetPton6 | src/mingw_inet.cc:55-147 | The loop over characters, with its array, gap and current token, reads what the grammar of addresses says |
| Inet.Shift | src/mingw_inet.cc:124-138 | The overlapping shift in place loses no octet: what followed the gap ends the array, with zeros between |
| RtpQueue.PacketRoundTrip | src/rtp.cc:246-341 | Parsing a packet with a filled header gives every field and the payload, whatever it is |
| RtpQueue.FullRoundTrip | src/rtp.cc:246-341 | With up to 15 CSRC entries, perhaps an extension of whole words, and perhaps a padding after a payload that is not empty, parsing the octets put together gives back exactly these parts |
| RtpQueue.HeadIsRead | src/rtp.cc:318-336 | After any such head, the octets that follow are payload; of a padded packet the last octet says how many to cut, and it is refused if and only if that is none of them, or all of them or more |
| RtpQueue.AcceptedExactly | src/rtp.cc:246-341 | A packet is delivered with given parts if and only if it is these parts put together |
| RtpQueue.TransactionSurvives | src/frame_queue.cc:205-301 | For any messages, packet i parses to message i with consecutive sequence numbers modulo 65536, one timestamp, SSRC and payload type; without requests, only the last packet is marked, and only if there are several |
| RtpQueue.Rtp.FillHeader | src/rtp.cc:146-192 | The common header, with the timestamp of the user, the last one or that of the clock |
| RtpQueue.Rtp.IncSequence | src/rtp.cc:124-131 | The sequence number wraps at 65536 |
| RtpQueue.FrameQueue.InitTransaction | src/frame_queue.cc:50-106 | A transaction starts empty with the next sequence number and a fixed timestamp |
| RtpQueue.FrameQueue.EnqueueMessage | src/frame_queue.cc:205-233 | Adds the message with its marker, and refuses an empty one; Overflow stands for message 5001, whose header the source writes beyond its array |
| RtpQueue.FrameQueue.EnqueueBuffers | src/frame_queue.cc:240-289 | Adds one message whose payload is the concatenation of the buffers, whether they are sent from where they are or copied; Overflow stands for message 5001 |
| RtpQueue.FrameQueue.MarkLast | src/frame_queue.cc:299-301 | The marker set in the header array reaches the last of several packets, and no other |
| RtpQueue.FrameQueue.FlushQueue | src/frame_queue.cc:291-379 | What is sent is, packet by packet, the headers and payloads of the messages enqueued; nothing is sent of an empty transaction |
| H264.Aggregator.MaximalNri | src/formats/h264.cc:115-120 | The maximum over all queued units; None stands for a unit without octets, whose first octet the source reads all the same |
| H264.Aggregator.FinalizeAggregationPkt | src/formats/h264.cc:107-151 | Refuses fewer than two units; else the header has the maximal NRI of all units, and the units that fit 16 bits follow with their sizes; Undefined stands for a unit without octets |
| H264.StapRoundTrip | src/formats/h264.cc:123-143 | Reading the built packet gives, in order, exactly the queued units of at most 65535 octets |
| H264.NalHeaderSurvives | src/formats/h264.cc:169-172 | The two headers of a fragmentation unit give the NAL header back |
| Clock.DiffIsClose | src/clock.cc:10-31 | For older ≤ newer, the uncapped result is more than −1.001 and less than 0.001 milliseconds from the exact difference, despite the wrapping subtractions |
| Clock.DiffIsMonotone | src/clock.cc:10-31 | The result grows with the newer timestamp, and is 2^32 − 1 exactly from that many milliseconds on |
| Clock.BackwardsWithinSecond | src/clock.cc:10-31 | Timestamps in the wrong order within one second give zero if they share their microsecond, and 2^32 − 1 otherwise |

## Left out

- RtcpTracker.WindowIsExact: holds within one revolution of the 16-bit number, because beyond it a
  sequence number says nothing about the distance.
- RtcpSession.SourcesAreIndependent: is about runs in which no null entry is followed, because the
  source has no behaviour after that; `RtcpSession.RunBreaksExactly` tells when one is.
- RtcpSession.Rtcp.UpdateSessionStatistics: leaves out jitter, transit times and received octets,
  which are floating point and clock readings or plain sums.
- RtcpSession.Rtcp.InitNewParticipant: leaves out the initial timestamps and the count of senders.
- RtcpSession.Rtcp.RemoveTimeoutSsrc: leaves out when a timer runs out, which is floating point and
  clock readings; any timer may run out at any time.
- RtcpSession.Rtcp.CollectReports: takes jitter, last SR and the delay since it as parameters.
- RtcpReader.HandleIncomingPacket: leaves out SRTCP decryption, hooks and where frames are stored;
  what packets do to participants and timers are the methods of `RtcpSession.Rtcp`.
- ZrtpEndpoint.Endpoint.PacketHandler: leaves out the tests of length, magic cookie and CRC, and is
  about messages that pass them.
- V3cLoops.EndsExactly: takes memory to be unbounded; a loop that never ends adds to a list each
  round, so that in the end an allocation fails.
- V3cParser.MmapV3cFile: runs at most the rounds given, because the loops of the source may never
  end; `V3cLoops.EndsExactly` tells when they do. The octet of a NAL unit's type, which is read only
  for the log, is not read, so that an empty NAL unit may end the file.
- Sockets, polling, threads, sleeps, timers, the RTCP interval and wall clock reads: inputs of the
  methods or nondeterministic steps.
- Jitter, jiffies and frame pacing: floating point and timing; jitter and report times enter a
  report block as given values.
- RTCP user hooks, APP packets from hooks, and RTCP feedback packets, whose types the receive check
  rejects before their handler.
- `size_of_compound_packet` wrapping at 2^32: sizes are unbounded integers.
- The order of the participant map is a parameter of the report (any enumeration). The queues of
  APP packets stand in the order of their names, and a name not used yet has an empty one.
- Sender and member counters, bandwidth and average packet size.
- SRTP protection and authentication tags, so also the octets appended to packets for them.
- Cryptographic strength and CRC checks: the primitives are uninterpreted. Lemmas that need a hash
  or an HMAC to tell inputs apart ask it for the inputs they are about. In `ZrtpProtocol` only what
  the other side has sent is delivered; in `ZrtpAlone` anything is.
- Latched ZRTP messages are values; in the source they point into receive buffers, which later
  datagrams may overwrite.
- Time limits of the ZRTP loops: a loop may send at any time and end at any time. That a Confirm2
  which cannot be parsed keeps the responder in its loop is modelled, and nothing is claimed about
  how long a handshake takes.
- The sequence number, SSRC and CRC of ZRTP packets, and retained secrets, beyond being part of a
  message's head.
- Growing or replacing the reception ring while it is in use, and the memory order of its indices,
  which are sequentially consistent.
- The dispatch of a datagram to the handlers of a stream.
- The counters of `bitstream_info`, log output, and what `mmap_v3c_file` reads beyond the end of a
  file, which is the outcome Overrun.
- Payloads that arrive between `finalize_gof` and the end of the V3C receiver.
- Freeing NAL buffers after they are written, so also writing one group twice.
- `reconstruct_v3c_gof` for CAD and PVD units, for which `get_v3c_unit_size` knows no size.
- An RTP extension that runs beyond its packet is an outcome of its own; the source reads on.
- The queued sizes that `finalize_aggregation_pkt` turns to network byte order in place; the queue
  is cleared after it.
- Dividing frames into fragmentation units and reassembling them (`h26x`), and H.265, H.266 and
  Atlas formats.
