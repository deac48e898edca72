# Verified models of the RS-LiDAR control and point-cloud code

This project models the stateful core of the RS-LiDAR ROS 2 package in Dafny and proves what
that core is for. It covers five parts.

**TCP control framing.** Helios and Mems lidars share one framing (`FrameStream`): a packed
16-byte header of flag, length, command and header checksum, then the payload. Airy and Ruby4
share another (`AiryStream`): `FF FF`, a direction byte, a big-endian length, the body, `FE`
and a 16-bit byte sum. Both receivers are incremental parsers over whatever chunks TCP hands
them. The classes `HeliosComm.HeliosCom` and `AiryComm.AiryCom` hold the real loops, erasing
from the receive buffer in place. Each is proved equal to a pure decoder, with a ghost log of
the frames it dispatches, and the theorems are about the decoders: chunk independence, round
trips, refinement of an exhaustive scan, prefix safety, exactness on clean streams.

**Commands and acknowledgements.** One thread builds a request, clears a flag, sends and polls
the flag. The reader thread parses and raises flags. `HeliosComm` proves that a polled flag
rests on a genuine acknowledgement received since, and exactly when not. `UpdateProtocol` is a state machine
of host thread, reader thread, link and lidar, with acknowledgements travelling as bytes, and
proves firmware transfer over all interleavings. `EventLog` covers the reassembly of
multi-packet logs from a buffer that all replies share, and `RegisterConfig` the batching of register files.

**Checksums.** `Checksum` relates the two C++ forms of the 16-bit checksum to the Internet
checksum of RFC 1071 (sections 1 and 4.1), with the exact conditions under which they agree.

**De-skewing.** `Deskew` follows the node that rewrites each row of a cloud by the sensor
motion between two clock times, in exact real arithmetic over rotation matrices, up to what the
callback publishes in terms of the cloud's stamp.

**Buffers and layout.** `Pipeline` is the two-thread recycling of clouds, `CloudLayout` the
conversion from firing order to ROS row order.

`Bytes` holds the byte orders. Integers are unbounded unless a width matters; then the wrap is
written out (`U16`, `U32`, `% 0x1_0000`). Polling and waiting become lists of what arrives in
each sleep. A send hands the packet to a first-in-first-out link in one step.

## Where the code departs from what it is for

The model follows the code in all of these, and each has a proved statement.

- `HeliosCom::rebootLidar` raises the flag it then polls, so a connected reboot reports success
  before a byte is read (`HeliosComm.TcpCom.RebootLidar`).
- The acknowledgement of a configuration update selects its flag through an entry of
  `m_updateIdx` that is never set. Acknowledgements are sound in all runs if and only if that
  entry does not select the request's flag (`HeliosComm.SoundExactly`); if it does, one
  configuration acknowledgement deceives an idle host (`HeliosComm.ConfigAckDeceives`).
- Airy update packets use the command indices 5, 7, 8 and 9, but the handler of update replies
  raises flags for 1, 3 and 4 only. A reply that repeats the index of the request is never
  noticed; on Ruby4 it always is (`UpdateProtocol.EchoedAcks`).
- An update transfers the file, in frames of the sizes they declare, if and only if the file is
  shorter than 4 GiB (`UpdateProtocol.PlanTransfersFile`). From there on the 32-bit length loses
  its top: if the size is a multiple of 1024 whole blocks are missing, and if not, the last
  packet takes all the rest into one frame whose 16-bit length is wrong
  (`UpdateProtocol.PlanCarriesFile`, `UpdateProtocol.PacketAccepted`).
- An Airy channel can be blocked for good: nothing is dispatched or dropped any more, whatever
  is read. This happens exactly from kept bytes that fix the length of a frame start below 3 or
  above 2000, such as `FF FF 01 00 02`, or already `FF FF 01 08`
  (`AiryStream.BlockedExactly`, `AiryStream.BlockingHeaders`).
- The Airy register write with a start address never has the size it declares
  (`AiryComm.WriteRegFrom`), and channel angles have it only up to 6553 channels
  (`AiryComm.SetChannelAngle`).
- A register list is accepted with up to 60 entries but only its first entry is sent
  (`AiryComm.WriteRegList`, `AiryComm.ReadRegList`).
- `readEventLog` can lose packets in three ways. A packet that is overwritten before a poll copies
  it is lost while the read still succeeds (`EventLog.LostPacket`). A packet dispatched between
  the copy and the clearing of the flag is cleared away; if it is the last one the read times out
  (`EventLog.ClearedPacket`). Replies to other commands share the reply buffer and can turn a
  packet into a last one (`EventLog.ZeroAngleReply`). A command's replies leave all logs alone
  if and only if they copy nothing, set no length and do not raise the log's flag
  (`EventLog.HarmlessExactly`); among such replies a log is read whole if and only if the polls do
  not run out, the last packet is not cleared away, and no lost packet has text
  (`EventLog.LogExact`).
- In `fixRegsCfg` a comma takes the place of an argument, so a failed send of 459 registers
  goes unnoticed (`RegisterConfig.FixRegsCfg`, `RegisterConfig.Stops`).
- The array checksum of a flash image is that of RFC 1071 exactly while its 32-bit sum does not
  wrap (`Checksum.ArrayCheckSumExact`). 131,074 bytes is the largest size at which it never does
  (`Checksum.SafeSizes`).
- The node's comments call its interpolation between knots exact to well under a voxel. A row's
  time is exact if and only if the row is in a full knot interval or on a knot
  (`Deskew.ExactTimes`). In a last interval that is cut short by the end of the cloud the other
  rows are early by less than a quarter of a knot spacing (`Deskew.PartialIntervalLag`); the
  last of five rows with a knot every three is one (`Deskew.RowBehind`). If the sensor moves
  uniformly, the points of exactly those rows are displaced (`Deskew.ExactRows`).

## Model

| member | source | states |
|---|---|---|
| `FrameStream.ChunkIndependence` | lib/rs_ctrl_driver/src/tcp_com.cpp:326-357 | for any bytes and any split into reads, the Helios/Mems parser dispatches the same frames and keeps the same bytes as one call on the whole stream |
| `FrameStream.DecodeAppend` | lib/rs_ctrl_driver/src/helios_com.cpp:98-329 | a later read continues exactly where the earlier call stopped |
| `FrameStream.ResyncRefinesScan` | lib/rs_ctrl_driver/src/helios_com.cpp:109-130 | although a bad header checksum drops four bytes at once, the parser dispatches on every stream exactly the frames of a byte-by-byte scan |
| `FrameStream.StopsAtFirstHeader` | lib/rs_ctrl_driver/src/mems_com.cpp:94-115 | the parser stops at the smallest offset with flag and matching header checksum: no dropped offset starts a header, whatever follows |
| `FrameStream.FlagHasNoBorder` | lib/rs_ctrl_driver/helios.h:13-30 | two occurrences of the flag cannot overlap, the reason why resynchronising is safe |
| `FrameStream.NextOfEncoded` | lib/rs_ctrl_driver/src/helios_com.cpp:62-75 | an encoded frame with anything behind it is taken as that frame, whole |
| `FrameStream.HeadWords` | lib/rs_ctrl_driver/src/helios_com.cpp:62-75 | flag, length, command and header checksum stand at offsets 0, 4, 8 and 12 |
| `FrameStream.ReadRegisterFrame` | lib/rs_ctrl_driver/src/helios_com.cpp:62-75 | a whole frame byte by byte |
| `FrameStream.NextOfIncomplete` | lib/rs_ctrl_driver/src/helios_com.cpp:134-137 | any proper front of an encoded frame makes the parser wait |
| `FrameStream.RoundTrip` | lib/rs_ctrl_driver/src/helios_com.cpp:62-137 | parsing any list of encoded frames followed by part of one more dispatches that list and keeps that part |
| `FrameStream.RoundTripOverReads` | lib/rs_ctrl_driver/src/tcp_com.cpp:345-347 | the same for every way of cutting the stream into reads |
| `FrameStream.DispatchedFramesOccur` | lib/rs_ctrl_driver/src/helios_com.cpp:120-140 | every dispatched frame lies in the stream as a complete frame with its checksummed header |
| `HeliosComm.HeliosCom.ParseRecvTcpData` | lib/rs_ctrl_driver/src/helios_com.cpp:98-329 | the in-place loop ends, leaves the decoder's residue, dispatches the decoder's frames, and changes flags, reply buffer and length as those frames say |
| `HeliosComm.ReplyLeft` | lib/rs_ctrl_driver/src/helios_com.cpp:140-318 | what each acknowledgement leaves in the reply buffer, command by command: the payload, its first byte, the whole frame or nothing, with every byte behind the copy kept; and for which four commands the length is noted |
| `HeliosComm.PayloadStays` | lib/rs_ctrl_driver/src/helios_com.cpp:140-318 | after any frames the buffer begins with the payload of the last copying acknowledgement |
| `HeliosComm.RaisedExactly` | lib/rs_ctrl_driver/src/helios_com.cpp:140-318 | a flag is up after any frames if and only if it was up or its own acknowledgement, named by number, was among them |
| `HeliosComm.DispatchMore` | lib/rs_ctrl_driver/src/helios_com.cpp:140-318 | dispatching two lists of frames in turn is dispatching their concatenation |
| `HeliosComm.AckStates` | lib/rs_ctrl_driver/src/helios_com.cpp:140-318 | a command raises a flag if and only if it answers a request with a clearing builder, or is the reboot acknowledgement; and it is that builder's flag |
| `HeliosComm.AckCommand` | lib/rs_ctrl_driver/src/helios_com.cpp:333-360 | the flag a request clears is raised by the command request + 0x100 and by no other |
| `HeliosComm.RunDecodes` | lib/rs_ctrl_driver/src/helios_com.cpp:98-329 | in every interleaving of builders and reads, the frames dispatched are those of the bytes received |
| `HeliosComm.RaisedInRun` | lib/rs_ctrl_driver/src/helios_com.cpp:140-318 | a flag that comes up in a run was raised by a frame dispatched in that run |
| `HeliosComm.AckSoundness` | lib/rs_ctrl_driver/src/helios_com.cpp:140-318 | after a builder cleared its flag, the flag is seen raised only if a complete, header-checked frame with that request's acknowledgement lies in the bytes received since |
| `HeliosComm.SoundExactly` | lib/rs_ctrl_driver/src/helios_com.cpp:79-89 | from all hosts and in all runs a flag raised after its builder rests on a genuine acknowledgement, if and only if the entry that is never set does not select that flag |
| `HeliosComm.ConfigAckDeceives` | lib/rs_ctrl_driver/src/helios_com.cpp:79-89 | otherwise a configuration acknowledgement alone raises the flag of an idle host |
| `HeliosComm.ReadMayBeCut` | lib/rs_ctrl_driver/src/tcp_com.cpp:345-347 | a read has the effect of its two parts read in turn, so what another thread sees between two frames of a read it also sees between two reads |
| `HeliosComm.TcpCom.OnRead` | lib/rs_ctrl_driver/src/tcp_com.cpp:345-347 | one read is one parser step on kept bytes and chunk |
| `HeliosComm.TcpCom.SendData` | lib/rs_ctrl_driver/src/tcp_com.cpp:804-836 | returns true at the first poll that sees the flag and false after the last; not without a connection |
| `HeliosComm.TcpCom.Command` | lib/rs_ctrl_driver/src/tcp_com.cpp:361-376 | a command that reports success was answered by an acknowledgement of that request, dispatched after the builder ran; and a read command finds the payload of its last acknowledgement in the reply buffer unless another copying frame followed |
| `HeliosComm.TcpCom.RebootLidar` | lib/rs_ctrl_driver/src/helios_com.cpp:1058-1068 | a reboot reports success if and only if connected, with no byte read |
| `AiryStream.JudeRecvPackCrc` | lib/rs_ctrl_driver/src/airy_com.cpp:52-97 | the loop decides the 16-bit sum over direction byte to end byte, against the word at the declared place |
| `AiryStream.ByteSumLaws` | lib/rs_ctrl_driver/src/airy_com.cpp:52-97 | the byte sum of nothing, of one byte and of two parts |
| `AiryStream.SingleFrame` | lib/rs_ctrl_driver/src/airy_com.cpp:553-600 | a frame by itself, for every body and sum: dispatched if and only if the body has 3 to 2000 bytes and the sum is right, dropped with a wrong sum, otherwise kept |
| `AiryStream.EagerAppend` | lib/rs_ctrl_driver/src/airy_com.cpp:545-637 | the eager reference decoder is independent of chunking |
| `AiryStream.ParseThenEager` | lib/rs_ctrl_driver/src/airy_com.cpp:575-594 | truncating the size to 16 bits and ending at a bad sum only delay: eager decoding of what a call keeps completes its frames to the eager ones |
| `AiryStream.DispatchedThenPending` | lib/rs_ctrl_driver/src/airy_com.cpp:545-637 | for any bytes and reads, frames dispatched so far plus those still decodable from the kept bytes are the eager frames of the stream |
| `AiryStream.PrefixSafety` | lib/rs_ctrl_driver/src/ruby4_com.cpp:471-563 | the frames dispatched so far are a prefix of the eager reference's on the concatenation |
| `AiryStream.BlockedExactly` | lib/rs_ctrl_driver/src/airy_com.cpp:579-584 | kept bytes block the channel over all later reads if and only if they settle a frame start whose length is below 3 or above 2000; all others can be continued by reads that make bytes be dropped |
| `AiryStream.BlockedKeeps` | lib/rs_ctrl_driver/src/airy_com.cpp:579-584 | behind such a header no frame is ever dispatched and every byte is kept |
| `AiryStream.ExpectedIsMaximal` | lib/rs_ctrl_driver/src/airy_com.cpp:545-637 | the reference for clean streams is right: the completed frames are the longest list of leading frames within the bytes received |
| `AiryStream.ParseClean` | lib/rs_ctrl_driver/src/airy_com.cpp:545-637 | one call on the front of a stream of valid frames dispatches exactly the completed ones |
| `AiryStream.RestIsShort` | lib/rs_ctrl_driver/src/airy_com.cpp:579-584 | less than one frame, so fewer than 2008 bytes, is kept |
| `AiryStream.CleanStreamExact` | lib/rs_ctrl_driver/src/tcp_com.cpp:328-347 | with reads of at most 1248 bytes: exactly the completed frames are dispatched after each call, the residue is under 2008 bytes and no buffer exceeds 3255 |
| `AiryComm.AiryCom.ParseRecvTcpData` | lib/rs_ctrl_driver/src/airy_com.cpp:545-637 | the in-place loop ends, leaves the decoder's residue, dispatches its frames and raises the update flags they name |
| `AiryComm.RaiseAllExactly` | lib/rs_ctrl_driver/src/airy_com.cpp:243-324 | an update flag is up after any frames if and only if it was up or one of them is a firmware reply for index 1, 3 or 4 with response code 0 and the flag's tag |
| `AiryComm.RefusalRaisesNothing` | lib/rs_ctrl_driver/src/ruby4_com.cpp:197-272 | a refusal with response code 1 raises no flag |
| `AiryComm.FrameTailPack` | lib/rs_ctrl_driver/src/airy_com.cpp:29-48 | the loop appends the end byte and the big-endian 16-bit sum |
| `AiryComm.PackedAccepted` | lib/rs_ctrl_driver/src/airy_com.cpp:13-97 | every packed frame has the size it declares plus eight and passes the receiver's sum check, with any bytes behind it |
| `AiryComm.PackedLayout` | lib/rs_ctrl_driver/src/airy_com.cpp:13-48 | what a receiver reads off a host frame: start bytes, direction, length, class, index, payload, end byte, sum |
| `AiryComm.RegClassExactly` | lib/rs_ctrl_driver/src/airy_com.cpp:640-669 | a register range is accepted, as class 0x60 or 0x50, if and only if it has at most 60 registers and all of them and the address behind lie on that board |
| `AiryComm.WriteLayout` | lib/rs_ctrl_driver/src/airy_com.cpp:673-730 | index 2, address, a count of 1 and the value at their offsets |
| `AiryComm.ReadLayout` | lib/rs_ctrl_driver/src/airy_com.cpp:831-883 | index 1, address and a count of 1 at their offsets |
| `AiryComm.WriteRegList` | lib/rs_ctrl_driver/src/airy_com.cpp:673-730 | when it succeeds, exactly; the frame carries the first register only and is well formed |
| `AiryComm.ReadRegList` | lib/rs_ctrl_driver/src/airy_com.cpp:831-883 | when it succeeds, exactly; the frame asks for the first register only and is well formed |
| `AiryComm.WriteRegFrom` | lib/rs_ctrl_driver/src/airy_com.cpp:732-782 | the frame that is built: its content; it never has its declared size, and from two registers on the sum check rejects it. The source then ends without a return statement, so its own answer is undefined; the model's stands for the frame |
| `AiryComm.WriteFromLayout` | lib/rs_ctrl_driver/src/airy_com.cpp:732-782 | index 2, start address, a big-endian count, and value i at offset 13 + 4i |
| `AiryComm.WriteCalibrateReflectData` | lib/rs_ctrl_driver/src/airy_com.cpp:785-829 | succeeds for 1 to 224 pairs, with a well-formed frame of all pairs in order |
| `AiryComm.CalibrationLayout` | lib/rs_ctrl_driver/src/airy_com.cpp:785-829 | class 0x50, index 8, the count, and address and value of pair i at offset 9 + 8i |
| `AiryComm.SetChannelAngle` | lib/rs_ctrl_driver/src/airy_com.cpp:1131-1160 | the frame has its declared size if and only if there are at most 6553 channels, and is then well formed with all channels in order |
| `AiryComm.ChannelLayout` | lib/rs_ctrl_driver/src/airy_com.cpp:1131-1160 | class 0xE0, index 1, the count, and number and both angles of channel i + 1 at offset 9 + 10i |
| `UpdateProtocol.Update` | lib/rs_ctrl_driver/src/tcp_com.cpp:662-741 | the packets sent are the plan up to the first one not acknowledged; success if and only if all are acknowledged |
| `UpdateProtocol.UpdateIsAttempt` | lib/rs_ctrl_driver/src/tcp_com.cpp:662-741 | the loop's contract fixes answer and packets for every list of outcomes |
| `UpdateProtocol.BodiesOfPlan` | lib/rs_ctrl_driver/src/tcp_com.cpp:679-716 | the packets up to block k together carry the file up to the end of block k, without gap or overlap |
| `UpdateProtocol.PlanCarriesFile` | lib/rs_ctrl_driver/src/tcp_com.cpp:665-716 | the data bodies concatenate to the file if and only if it is shorter than 4 GiB or no multiple of 1024 |
| `UpdateProtocol.PlanTransfersFile` | lib/rs_ctrl_driver/src/tcp_com.cpp:665-716 | the data bodies are the file and every packet makes a frame of the size it declares, if and only if the file is shorter than 4 GiB |
| `UpdateProtocol.FrameLayout` | lib/rs_ctrl_driver/src/airy_com.cpp:1294-1399 | what a receiver reads off an update frame: class 0x30, index, tag, the length, block number or sum in four bytes, then the file bytes and nothing else |
| `UpdateProtocol.PlanOnWire` | lib/rs_ctrl_driver/src/tcp_com.cpp:662-735 | below 4 GiB: a request with the length, a data frame numbered from 1 for each started 1024 bytes with exactly those bytes, and the byte sum |
| `UpdateProtocol.FramesCarryFile` | lib/rs_ctrl_driver/src/tcp_com.cpp:679-716 | the bytes taken out of the data frames, one after the other, are the file |
| `UpdateProtocol.IndexOnWire` | lib/rs_ctrl_driver/src/ruby4_com.cpp:1166-1245 | the command index that is sent, for each update type |
| `UpdateProtocol.ReadDispatches` | lib/rs_ctrl_driver/src/airy_com.cpp:545-637 | one read of the wire dispatches exactly the frames in flight that it completes, and keeps buffer and wire the concatenation of the others |
| `UpdateProtocol.ReadMayBeCut` | lib/rs_ctrl_driver/src/tcp_com.cpp:345-347 | a read is the same step as its two parts read in turn, so a poll between two frames of one read is among the interleavings |
| `UpdateProtocol.RaiseInFlight` | lib/rs_ctrl_driver/src/airy_com.cpp:243-324 | dispatching them raises the current flag exactly when its acknowledgement is among them |
| `UpdateProtocol.ReadPreserves` | lib/rs_ctrl_driver/src/tcp_com.cpp:326-357 | the reader thread keeps the protocol invariant |
| `UpdateProtocol.EmitPreserves` | lib/rs_ctrl_driver/src/ruby4_com.cpp:197-272 | the lidar keeps it, acknowledging each received packet at most once, among any other frames |
| `UpdateProtocol.HostPreserves` | lib/rs_ctrl_driver/src/tcp_com.cpp:804-836 | the host keeps it when building, writing, polling and giving up |
| `UpdateProtocol.StopAndWait` | lib/rs_ctrl_driver/src/tcp_com.cpp:662-741 | in every interleaving the lidar has received the front of the plan in order, no packet is handed over before all earlier ones were received and acknowledged, and success means the whole plan was |
| `UpdateProtocol.EveryPacketAnswered` | lib/rs_ctrl_driver/src/tcp_com.cpp:662-741 | in every run, for each packet passed, a reply with response code 0 and its tag was dispatched after it was built and before the next one was; success means that for all |
| `UpdateProtocol.RunIsUpdate` | lib/rs_ctrl_driver/src/tcp_com.cpp:662-741 | with the outcomes a run's polls came to, the host has handed over a front of what the loop sends, and when it is done exactly that, with the loop's answer |
| `UpdateProtocol.EveryUpdateIsRun` | lib/rs_ctrl_driver/src/tcp_com.cpp:662-741 | and for every list of outcomes there is a run with them that ends with the packets and the answer of the loop |
| `UpdateProtocol.UpdateDelivers` | lib/rs_ctrl_driver/src/tcp_com.cpp:662-741 | a successful update delivered length and byte sum, and the file itself in well-sized frames if and only if it is shorter than 4 GiB |
| `UpdateProtocol.UpdateCanSucceed` | lib/rs_ctrl_driver/src/tcp_com.cpp:662-741 | a lidar that answers each packet brings any update to success, whatever flags earlier commands left |
| `UpdateProtocol.PacketAccepted` | lib/rs_ctrl_driver/src/airy_com.cpp:1294-1399 | an update packet's frame has its declared size if and only if the payload fits the length field, and then passes the sum check with any bytes behind it |
| `UpdateProtocol.EchoedAcks` | lib/rs_ctrl_driver/src/airy_com.cpp:243-324 | a Ruby4 reply that repeats the request's index raises the packet's flag; an Airy one never does |
| `EventLog.GetEventLogData` | lib/rs_ctrl_driver/src/helios_com.cpp:1120-1145 | hands out what the shared reply buffer holds at the copy, and clears the flag, with any frames dispatched before the test, between test and copy, and between copy and clearing |
| `EventLog.ReadEventLog` | lib/rs_ctrl_driver/src/tcp_com.cpp:1345-1409 | the nested polling loops end and return what the specification says, for any frames of any commands dispatched at any of those points |
| `EventLog.ReadIsReadPackets` | lib/rs_ctrl_driver/src/helios_com.cpp:140-318 | among log packets and harmless frames, flag, length and shared buffer behave like the latest packet alone |
| `EventLog.OneFate` | lib/rs_ctrl_driver/src/helios_com.cpp:1120-1145 | every packet is kept, overwritten or cleared away, exactly once |
| `EventLog.ReadOutcome` | lib/rs_ctrl_driver/src/tcp_com.cpp:1362-1405 | a whole log gives the texts of the kept packets if the polls do not run out and the last packet is not cleared away, and a timeout otherwise |
| `EventLog.FirstWait` | lib/rs_ctrl_driver/src/tcp_com.cpp:804-836 | the first packet is waited for through 500 idle polls, and not through 501 |
| `EventLog.NextWait` | lib/rs_ctrl_driver/src/tcp_com.cpp:1362-1405 | the next packet is waited for through 99 idle polls, and not through 100 |
| `EventLog.LogExact` | lib/rs_ctrl_driver/src/tcp_com.cpp:1345-1409 | for a whole log among harmless frames: success if and only if the polls do not run out and the last packet is not cleared away; completeness if and only if moreover no overwritten or cleared packet has text |
| `EventLog.HarmlessExactly` | lib/rs_ctrl_driver/src/helios_com.cpp:140-318 | the replies of another command leave the reading of every log undisturbed if and only if they copy nothing, set no length and do not raise the log's flag |
| `EventLog.LogReassembly` | lib/rs_ctrl_driver/src/tcp_com.cpp:1345-1409 | packets 1 to n among harmless frames, each taken before the next arrives, give the concatenation of their texts without headers |
| `EventLog.LostPacket` | lib/rs_ctrl_driver/src/helios_com.cpp:1120-1145 | two packets before one poll: the first is lost although the read succeeds |
| `EventLog.ClearedPacket` | lib/rs_ctrl_driver/src/helios_com.cpp:1126-1138 | a last packet between copy and clearing: nothing is overwritten and the read times out |
| `EventLog.ZeroAngleReply` | lib/rs_ctrl_driver/src/helios_com.cpp:202-207 | a zero-angle reply behind the first of two packets: the read succeeds with the first text only |
| `RegisterConfig.SectionBatched` | lib/rs_ctrl_driver/src/tcp_com.cpp:1954-2006 | the packets of a section partition its registers in order: ceil(total/100) of them with total, number and count, all full but the last; one empty packet for an empty section |
| `RegisterConfig.BatchShape` | lib/rs_ctrl_driver/src/tcp_com.cpp:2048-2099 | packet i holds registers 100i up to 100(i+1) or the end |
| `RegisterConfig.BatchesCarryAll` | lib/rs_ctrl_driver/src/tcp_com.cpp:2135-2183 | no register is lost, repeated or reordered |
| `RegisterConfig.PacketLayout` | lib/rs_ctrl_driver/src/tcp_com.cpp:1969-1986 | what a receiver reads off the bytes: the kind's code, total, number, count, and address and value of every register at its offset |
| `RegisterConfig.Sender.OnHead` | lib/rs_ctrl_driver/src/tcp_com.cpp:1749-1954 | a section head sets the total, starts an empty packet, and announces an empty section |
| `RegisterConfig.Sender.OnItem` | lib/rs_ctrl_driver/src/tcp_com.cpp:1954-2046 | a register joins the packet; at 100 registers or the announced total the packet goes out with total, number and count, and the counters restart |
| `RegisterConfig.Sender.ItemLine` | lib/rs_ctrl_driver/src/tcp_com.cpp:2048-2133 | a register line of a well-formed file sends the next packet of the plan or nothing, with at most 808 bytes in the buffer |
| `RegisterConfig.FixRegsCfg` | lib/rs_ctrl_driver/src/tcp_com.cpp:1749-2238 | the packets sent are the plan up to the first failure that is noticed; success if and only if there is none; a failed send of 459 registers is not noticed |
| `RegisterConfig.OverlookedKind` | lib/rs_ctrl_driver/src/tcp_com.cpp:1954-2046 | read off the bytes: a failure is overlooked exactly for packets of kind 0x13 with registers |
| `Checksum.FoldLoop` | lib/rs_ctrl_driver/src/mems_com.cpp:45-51 | the fold loop ends and computes the repeated end-around carry |
| `Checksum.WordLoop` | lib/rs_ctrl_driver/src/mems_com.cpp:29-45 | the loop computes the sum of the little-endian words mod 2^32, an odd tail padded with zero |
| `Checksum.ComputeArrayCheckSum` | lib/rs_ctrl_driver/src/mems_com.cpp:29-52 | the whole array form |
| `Checksum.FoldIsOnesSum` | lib/rs_ctrl_driver/src/helios_com.cpp:37-60 | deferred carries are sound: folding the integer sum gives the one's-complement sum of RFC 1071 |
| `Checksum.OddTail` | lib/rs_ctrl_driver/src/mems_com.cpp:41-44 | an odd last byte counts for itself |
| `Checksum.Rfc1071Example` | lib/rs_ctrl_driver/src/helios_com.cpp:37-60 | the numerical example of RFC 1071, section 3 |
| `Checksum.ArrayCheckSumExact` | lib/rs_ctrl_driver/src/mems_com.cpp:602 | for every array a C int can measure, the result is the RFC 1071 checksum if and only if the 32-bit sum did not wrap |
| `Checksum.ArrayCheckSumDrift` | lib/rs_ctrl_driver/src/mems_com.cpp:602 | mod 65535 the folded value is the true sum minus the number of wraps, for all lengths |
| `Checksum.NoWrapUpTo131074` | lib/rs_ctrl_driver/src/mems_com.cpp:29-52 | up to 131,074 bytes the result is always the RFC 1071 checksum |
| `Checksum.WrapFrom131075` | lib/rs_ctrl_driver/src/mems_com.cpp:29-52 | for every size from 131,075 bytes on, the array of FF has a wrong checksum |
| `Checksum.SafeSizes` | lib/rs_ctrl_driver/src/mems_com.cpp:29-52 | the checksum is that of RFC 1071 for all arrays of a size if and only if the size is at most 131,074 bytes |
| `Checksum.HeaderFormVersusArrayForm` | lib/rs_ctrl_driver/src/helios_com.cpp:21-60 | the header form equals the array form on the twelve header bytes, except exactly when one fold leaves a carry: then it is larger by one |
| `Checksum.HeaderFormIsRfc1071` | lib/rs_ctrl_driver/src/mems_com.cpp:13-27 | with a command up to 0x150 and a length below 2^31 the header checksum is that of RFC 1071, for both flags |
| `Deskew.InverseUndoes` | node/rslidar_deskew_node.cpp:173-176 | the inverse of a rigid transform undoes it on both sides |
| `Deskew.KnotsBracket` | node/rslidar_deskew_node.cpp:238-246 | every row lies between knot k0 and an existing knot k0 + 1, so the clamp never binds, at a fraction in [0, 1) |
| `Deskew.KnotsCover` | node/rslidar_deskew_node.cpp:184 | there is a knot every `step` rows up to the first one that is not a row any more, and no further |
| `Deskew.FullIntervalExact` | node/rslidar_deskew_node.cpp:198-200 | in a full knot interval the interpolated time is the row's capture time |
| `Deskew.ExactTimes` | node/rslidar_deskew_node.cpp:198-246 | for every sweep and row it is, if and only if the row is in a full interval or on a knot, or the sweep takes no time |
| `Deskew.RowBehind` | node/rslidar_deskew_node.cpp:198-246 | a concrete row that is behind |
| `Deskew.PartialIntervalLag` | node/rslidar_deskew_node.cpp:198-200 | in a partial last interval it is never late and early by less than sweep * step / (4 * height) |
| `Deskew.KnotRowExact` | node/rslidar_deskew_node.cpp:238-246 | any rigid motion: on every knot row a static world point comes out where the sensor at the reference time sees it |
| `Deskew.UniformMotion` | node/rslidar_deskew_node.cpp:173-256 | constant orientation and velocity, every row: it comes out there, displaced by exactly velocity times the time error |
| `Deskew.UniformMotionExact` | node/rslidar_deskew_node.cpp:173-256 | hence exactly, in every full interval |
| `Deskew.ExactRows` | node/rslidar_deskew_node.cpp:173-256 | for every world point, exactly if and only if the velocity is zero, the row is in a full interval or on a knot, or the sweep takes no time |
| `Deskew.TurningMotion` | node/rslidar_deskew_node.cpp:217-247 | for a sensor that turns in any way slerp follows and moves uniformly, the motion of every row is the true motion, rotation and translation, from the reference time to the row's interpolated time |
| `Deskew.TurningExact` | node/rslidar_deskew_node.cpp:217-256 | so static world points come out exactly on full-interval rows and knot rows also while the sensor turns |
| `Deskew.Stationary` | node/rslidar_deskew_node.cpp:173-256 | a stationary sensor leaves every point where it is |
| `Deskew.DeskewNode.constructor` | node/rslidar_deskew_node.cpp:81-131 | at least one row a knot; any other word than "last" means "first" |
| `Deskew.DeskewNode.OnCloud` | node/rslidar_deskew_node.cpp:134-261 | which clouds pass unchanged and how the three counters move; otherwise every finite point gets the motion of its row |
| `Deskew.CallbackTimes` | node/rslidar_deskew_node.cpp:157-200 | in the node's parameters and the stamp: when each row was captured, for "first" and "last", where the sweep ends, and which times tf must know |
| `Deskew.CallbackSees` | node/rslidar_deskew_node.cpp:134-261 | a point that showed a static world point at its row's capture time is published where the sensor at the cloud's stamp sees it, for a turning and moving sensor, on full-interval rows and knot rows |
| `Deskew.CallbackSeesExactly` | node/rslidar_deskew_node.cpp:134-261 | with constant orientation that holds for exactly these rows, unless the sensor stands still or the sweep takes no time |
| `Deskew.LookUpKnots` | node/rslidar_deskew_node.cpp:181-229 | succeeds if and only if every knot time is covered, with the transform to the reference frame at each |
| `Deskew.MoveRows` | node/rslidar_deskew_node.cpp:231-256 | the nested loops give each point of row r the motion of row r and nothing else |
| `Deskew.MotionOfRow` | node/rslidar_deskew_node.cpp:234-246 | bracketing, clamp and blending give the motion of the row |
| `Deskew.DeskewedKeeps` | node/rslidar_deskew_node.cpp:248-256 | only coordinates of finite points change, and for a stationary sensor nothing does |
| `Deskew.DeskewedSees` | node/rslidar_deskew_node.cpp:134-261 | in the published cloud a static world point stands where the sensor at the reference time sees it, if and only if one of those conditions holds |
| `Pipeline.ExactlyOneOwner` | src/source/source_driver.hpp:228-301 | in every interleaving each cloud is in exactly one of free queue, decoder's hand, pending queue and processor's hand |
| `Pipeline.InOrderWithoutLoss` | src/source/source.hpp:144-150 | each destination has received a prefix of the puts, with the contents of the moment of the put, and all of them once nothing is pending |
| `Pipeline.PutsWhatWasFilled` | src/source/source_driver.hpp:254-257 | what the decoder wrote last is what it puts, whatever the processing thread does meanwhile |
| `Pipeline.MadeIsHighWater` | src/source/source_driver.hpp:228-237 | the number of clouds ever allocated is the high-water mark of clouds in use |
| `Pipeline.StopTakesAtMostOne` | src/source/source_driver.hpp:189-200 | after `stop` the processing thread takes at most one more cloud, and only if it was already waiting |
| `Pipeline.InvariantHolds` | src/source/source_driver.hpp:228-301 | ownership, order and count are kept by every run |
| `Pipeline.SourceDriver.GetPointCloud` | src/source/source_driver.hpp:228-237 | recycles the oldest free cloud, untouched, or makes a new one, as the state machine's step |
| `Pipeline.SourceDriver.PutPointCloud` | src/source/source_driver.hpp:254-257 | queues the cloud behind the pending ones, as the step |
| `Pipeline.SourceDriver.SendPointCloud` | src/source/source.hpp:144-150 | every destination gets the cloud once, as that many send steps |
| `Pipeline.SourceDriver.ProcessOnce` | src/source/source_driver.hpp:288-301 | one turn of the loop: nothing when ending or idle, otherwise the oldest pending cloud reaches every destination and is recycled, as a run of the state machine |
| `CloudLayout.ToRosMsg` | src/source/source_pointcloud_ros.hpp:301-412 | row mode writes the row layout; column mode copies in order with width and height exchanged |
| `CloudLayout.FillRows` | src/source/source_pointcloud_ros.hpp:349-382 | the nested loops with one advancing cursor fill every cell from its place |
| `CloudLayout.Transposed` | src/source/source_pointcloud_ros.hpp:301-310 | the point of ring i, firing j stands at row i, column j in row mode and at row j, column i in column mode |
| `CloudLayout.RowFormula` | src/source/source_pointcloud_ros.hpp:349-382 | output place i * width + j holds input point i + j * height |
| `CloudLayout.RowIndexBijective` | src/source/source_pointcloud_ros.hpp:349-356 | the reindexing is a bijection of the positions |
| `CloudLayout.RowIndexUndone` | src/source/source_pointcloud_ros.hpp:349-356 | it is undone by the same map with the dimensions exchanged |
| `CloudLayout.RowsUndone` | src/source/source_pointcloud_ros.hpp:349-382 | laying the rows out again with the dimensions exchanged gives the input back |
| `CloudLayout.RowsPermute` | src/source/source_pointcloud_ros.hpp:349-382 | row mode keeps the multiset of points |

## Left out

- Sockets, Boost Asio, deadline timers, connecting and disconnecting, and the broadcast reboot.
- ROS publishers and subscriptions, parameters, YAML, launch files; the time stamp of a message.
- Rounding: coordinates and times are reals, and tf2 times are not cut to nanoseconds. Rotation interpolation is any function that leaves equal rotations alone.
- The de-skew path that takes knot times from per-point time stamps; the time then depends on device data.
- `Deskew.DeskewNode.OnCloud`: takes what tf answers for each time as a function, so a transform that expires between two lookups of one cloud is not modelled.
- The 32-bit wrap of the knot count for clouds with nearly 2^32 rows.
- `HeliosComm.HeliosCom.ParseRecvTcpData`: the reply buffer starts with its 4096 bytes, and a payload longer than that grows it instead of overrunning it; a one-byte copy from an empty payload copies nothing; the update type and status that some branches record, and the cast of erase lengths from 2^31 bytes on to a signed integer, are not modelled.
- `HeliosComm.TcpCom.SendData`: the reader thread takes its turns during the sleeps of the polling thread, in whole reads; by `HeliosComm.ReadMayBeCut` a look at a flag in the middle of a read is one between two shorter reads. A read that falls between the test of a flag and the sleep counts to the sleep.
- `AiryComm.AiryCom.ParseRecvTcpData`: the copy of each frame into the reply buffer is not modelled, only the flags of the firmware update are.
- The dispatch table of Mems lidars; the framing theorems hold for its flag.
- The handlers of Airy and Ruby4 frames other than firmware update, and the progress status that handler records.
- An acknowledgement of an earlier identical request that is still on its way: the protocols carry no request number, so runs start with nothing in flight.
- `UpdateProtocol.StopAndWait`: the link to the lidar carries packets, not bytes, as the receiving side is not part of the repository; how a packet is framed is stated by `UpdateProtocol.PacketAccepted`. The way back carries bytes.
- `EventLog.ReadEventLog`: the dispatch of one frame, and the copy out of the reply buffer, are one step each, so a copy of half-written bytes is not modelled; behind a packet shorter than its four-byte header, where the source reads past the end, the model stops.
- The readers of monitor log, configuration file and daemon log, which repeat the same loops, and the Airy and Ruby4 log readers, which do not clear their flag.
- `EventLog.LogExact`: log packets of a length outside 4 to 4096 bytes are excluded.
- `RegisterConfig.FixRegsCfg`: starts from the meaning of the lines; splitting text lines, files whose sections are not contiguous or whose counts are wrong, and the Airy frame around each packet are not modelled.
- `AiryComm.SetChannelAngle`: at most 65535 channels; beyond that the 16-bit loop counter of the source never reaches the end.
- `AiryComm.WriteRegFrom`: the source ends without a return statement; the model returns the frame it has built.
- `AiryComm.WriteCalibrateReflectData`: the values must be at least as many as the addresses, as the source reads them without a check.
- The command index of the reflectivity calibration is 8: the name before it in the header's enumeration is swallowed by a comment.
- The pipeline for inertial data, which repeats the one for clouds, and the threads that poll temperature and device information.
- `Pipeline.ExactlyOneOwner`: the queues of the driver library are taken as unbounded and first-in-first-out, and the decoder as one thread that gets, fills and puts.
- `CloudLayout.ToRosMsg`: row mode asks for at least width * height points and column mode for at most as many, since the source indexes or writes without a check; the fields of a point are one value.
- Register, network and parameter commands that only build one fixed frame, and the range-checking wrappers around them.
