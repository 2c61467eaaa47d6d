# The QTM real-time client, verified

A Dafny model of the receive side of the Qualisys real-time client, from the bytes on a TCP connection up to the
negotiated session, with the text it sends. It has four layers, each with a specification of its own, and the main
results cross them.

1. **Connection and session** (`Network`, `Versions`, `Session`, `Delivery`, `Runs`, `Answers`, `Handshake`, `Greeting`,
   `Protocol`, `History`). A connection is a sequence of bytes, each with its own arrival time, a clock that moves while a read waits,
   and an end (closed or failed). `Conn.Read` hands over any non-empty part of what has arrived. `Sessions` is the state
   machine on values; the class `Protocol` is the client with its buffer, version, state and connection, and every method
   of it is proved equal to the state machine. What the client then achieves is proved about the state machine.
2. **Packets and frames** (`PacketValue`, `Packet`, `Frame`, `DataPacket`, `Components`). Values and decoding functions on
   one side, objects that decode themselves in place on the other.
3. **The cursor** (`Cursor`). The bounds-checked reader that remembers its first error.
4. **The nineteen component parsers** (`Layouts`, `Markers`, `Bodies`, `Samples`, `Sensors`, `Timecodes`, `Canonical`, `Offsets`). Each
   layout is one format: an encoder, a decoder that stops at the first short read, and a law that says the decoder answers
   a value exactly when its encoding stands there. The classes read through the cursor and are proved equal to the decoder
   on every input, count guards included.

`Codec` and `Wire` hold what the layers share: formats, lists, records of 32-bit words, byte orders. `Texts`,
`StreamText` and `Wording` cover what the client sends and expects.

Verify everything with `dafny verify dfyconfig.toml`.

## What the model found

The receive buffer grows after the header has been read into it (`protocol.go:408-411`), and the header is not copied into
the new buffer, but the whole packet, header included, is decoded from it afterwards (`protocol.go:429`). A packet with a
payload that is larger than the buffer's capacity is therefore decoded with a header of zeros: it comes back as an error
packet of size 0 whose text is the payload. The comments promise the packet itself. The model follows the code, and
`Delivery.GivenIsDeserved` gives the exact condition: the reply is the one the packet deserves if and only if the packet
has no payload or fits the current capacity. `Delivery.FirstMisread` names the smallest such packet for a new client. The
stream stays aligned all the same, and the second packet of that size is decoded correctly. An event lost in this way changes no state
(`Delivery.EventLost`), and one that stands before a reply ends the wait for it (`Answers.TooLargeEndsWait`).

Other exact facts the theorems carry: a deadline that passes after one to seven header bytes gives a no-more-data reply
with a nil error although those bytes are gone (`Delivery.HeaderCutReply`); a packet that is all header is handed over
undecoded, so an event without payload changes no state and an error without payload is no error; component payloads are
little-endian in either byte order; the analog guard's product wraps at 64 bits, which never refuses a decodable payload
(`Samples.ProductGuard`) but is the true product only below 2^64 (`Samples.ProductExact`) and bounds nothing when the
sample count is zero (`CanonicalForms.ChannelsWithoutSamples`).

## Model

| member | source | states |
|---|---|---|
| Cursors.Cursor.Fail | pkg/packets/cursor.go:39-43 | only the first error is recorded, and the position stays |
| Cursors.Cursor.Remaining | pkg/packets/cursor.go:51-56 | nothing remains once the reader has failed |
| Cursors.Cursor.Need | pkg/packets/cursor.go:60-72 | the next n bytes, or failure for good when they overrun; never a range outside the data |
| Cursors.Cursor.Uint8 | pkg/packets/cursor.go:74-80 | the byte at the position, 0 after failure |
| Cursors.Cursor.Uint16 | pkg/packets/cursor.go:82-88 | the little-endian half word at the position, 0 after failure |
| Cursors.Cursor.Uint32 | pkg/packets/cursor.go:90-96 | the little-endian word at the position, 0 after failure |
| Cursors.Cursor.Float32 | pkg/packets/cursor.go:106-112 | the bit pattern of the float at the position, 0 after failure |
| Cursors.Cursor.ReadPoint | pkg/packets/cursor.go:115-117 | three consecutive floats; one that the data ends before is 0, and so are those after it |
| Cursors.Cursor.Bytes | pkg/packets/cursor.go:124-132 | the next n bytes in a new array, nil exactly on failure |
| Cursors.Cursor.CheckCount | pkg/packets/cursor.go:142-152 | accepts exactly when count records of the least size fit what remains, so what is allocated for an accepted count never exceeds the data |
| Codec.GuardExact | pkg/packets/cursor.go:139-152 | a count that the guard refuses could not have been decoded: the unguarded parser fails too |
| Codec.RoundTrip | pkg/packets/cursor.go:8-30 | a lawful format reads back what it wrote, ignores what follows, and stops at the end of the encoding |
| Codec.Canonical | pkg/packets/cursor.go:8-30 | whatever a lawful format accepts begins with the encoding of the answer, and the reader stops at that encoding's length |
| Layouts.MarkerLaw | pkg/packets/markers3d.go:33-65 | the four marker strides each decode exactly their own encodings |
| Layouts.CameraLaw | pkg/packets/markers2d.go:40-75 | a camera with its five-byte header and markers decodes exactly from its encoding |
| Layouts.MatrixLaw | pkg/packets/objects.go:33-62 | position, nine rotation words and the optional residual |
| Layouts.EulerLaw | pkg/packets/objects.go:103-132 | position, three angles and the optional residual |
| Layouts.AnalogDeviceLaw | pkg/packets/analog.go:55-78 | device header, channels by samples |
| Layouts.AnalogSingleDeviceLaw | pkg/packets/analog.go:88-112 | device header, one sample for each channel |
| Layouts.ForcePlateLaw | pkg/packets/force.go:53-83 | plate header and samples of nine words |
| Layouts.SinglePlateLaw | pkg/packets/force.go:89-110 | plate id and one sample |
| Layouts.SampleHeaderLaw | pkg/packets/gazevector.go:39-70 | the sample number is on the wire exactly when the sample count is not zero |
| Layouts.GazeVectorLaw | pkg/packets/gazevector.go:39-70 | a gaze vector with its optional field decodes exactly from its encoding |
| Layouts.EyeTrackerLaw | pkg/packets/eyetracker.go:33-64 | the same for an eye tracker |
| Layouts.ImageBlockLaw | pkg/packets/image.go:50-84 | image header and exactly the counted bytes |
| Layouts.SkeletonLaw | pkg/packets/skeleton.go:43-70 | skeletons by segments |
| Layouts.TimecodeLaw | pkg/packets/timecode.go:123-151 | entries of three words |
| Markers.Component3D.Unmarshal | pkg/packets/markers3d.go:33-65 | on any bytes: nil error exactly when the pure parser succeeds, and then its value; an empty payload changes nothing |
| Markers.Component2D.Unmarshal | pkg/packets/markers2d.go:40-75 | the same for cameras |
| Bodies.Component6D.Unmarshal | pkg/packets/objects.go:33-62 | the same for rotation matrices |
| Bodies.Component6DEuler.Unmarshal | pkg/packets/objects.go:103-132 | the same for Euler angles |
| Samples.ComponentAnalog.Unmarshal | pkg/packets/analog.go:44-80 | the same for multi-sample analog data, product guard included |
| Samples.ComponentAnalog.UnmarshalSingle | pkg/packets/analog.go:88-112 | the same for single-sample analog data |
| Samples.CheckProduct | pkg/packets/analog.go:61-65 | refuses only devices whose true size exceeds what remains, and checks nothing after a failure |
| Samples.ProductGuard | pkg/packets/analog.go:61-65 | a wrapped product that is too large means the true one is too large |
| Samples.ProductExact | pkg/packets/analog.go:61-61 | the 64-bit product is the true one if and only if that is below 2^64; an example that wraps to 0 |
| Samples.ComponentForce.Unmarshal | pkg/packets/force.go:53-83 | the pure parser's answer for force plates |
| Samples.ComponentForce.UnmarshalSingle | pkg/packets/force.go:89-110 | the same for single samples |
| Sensors.ComponentGazeVector.Unmarshal | pkg/packets/gazevector.go:39-70 | the same for gaze vectors |
| Sensors.ComponentEyeTracker.Unmarshal | pkg/packets/eyetracker.go:33-64 | the same for eye trackers |
| Sensors.ComponentSkeleton.Unmarshal | pkg/packets/skeleton.go:43-70 | the same for skeletons |
| Sensors.ComponentTimecode.Unmarshal | pkg/packets/timecode.go:123-151 | the same for timecodes |
| Sensors.ComponentImage.Unmarshal | pkg/packets/image.go:50-84 | the same for images; every image content is a new array, and the recorded size is its length |
| Timecodes.EncodeDecode | pkg/packets/timecode.go:21-47 | every timecode in range comes back from its packed bits |
| Timecodes.DecodeEncode | pkg/packets/timecode.go:21-47 | packing what was unpacked restores every bit its kind uses |
| Timecodes.SameEntry | pkg/packets/timecode.go:21-74 | two entries decode alike if and only if their used bits agree |
| Timecodes.DurationExact | pkg/packets/timecode.go:66-70 | the duration is right if and only if the tick count is at most 92233720368547758 |
| Timecodes.SecondsAndNanoseconds | pkg/packets/timecode.go:76-81 | the printed seconds and nanoseconds are the only split of the time, at any tick count |
| Components.BodyRoundTrip | packet.go:97-139 | a well-formed value of any of the nineteen kinds, or of an unknown kind, comes back from its encoding, whatever follows it |
| CanonicalForms.BodyCanonical | pkg/packets/gazevector.go:39-70 | a non-empty payload accepted by any kind but multi-sample analog and timecode begins with the encoding of the answer, and reading stops at that encoding's length |
| CanonicalForms.AnalogCanonical | pkg/packets/analog.go:44-80 | the same for analog data up to the sample count of devices without channels, the stopping place included |
| CanonicalForms.TimecodeCanonical | pkg/packets/timecode.go:123-151 | the same for timecodes up to the unused bits, the stopping place included |
| CanonicalForms.AnalogSamplesAt | pkg/packets/analog.go:55-78 | sample s of channel c stands 4 * (c * sampleCount + s) bytes into its device's data, each device starts where the ones before it end |
| CanonicalForms.ChannelsWithoutSamples | pkg/packets/analog.go:61-69 | twenty bytes decode to a device of any number of empty channels |
| Offsets.MarkerOffsets | pkg/packets/markers3d.go:33-93 | types 1, 9, 2 and 10, by number: accepted exactly when all markers are there, each 12, 16, 16 or 20 bytes long, with the ID after the point in types 2 and 10 only and the residual last in types 9 and 10 only |
| Offsets.MatrixOffsets | pkg/packets/objects.go:33-74 | types 5 and 11: point, nine rotation words, residual in type 11 only, 48 or 52 bytes each |
| Offsets.EulerOffsets | pkg/packets/objects.go:103-144 | types 6 and 12: point, three angles, residual in type 12 only, 24 or 28 bytes each |
| Offsets.CameraOffsets | pkg/packets/markers2d.go:40-87 | types 7 and 8: accepted exactly when all cameras are whole; where each camera and each of its markers stands |
| Offsets.AnalogOffsets | pkg/packets/analog.go:44-80 | type 3: accepted exactly when all devices are whole; where each device field and each sample stands |
| Offsets.SingleOffsets | pkg/packets/analog.go:88-112 | type 13: the same, one sample a channel and no sample number |
| Offsets.PlateOffsets | pkg/packets/force.go:53-83 | type 4: plates with ID, count, number and samples of 36 bytes |
| Offsets.SinglePlateOffsets | pkg/packets/force.go:89-110 | type 15: 40 bytes each, no number |
| Offsets.ImageOffsets | pkg/packets/image.go:50-84 | type 14: where each image's fields and content stand |
| Offsets.GazeOffsets | pkg/packets/gazevector.go:39-70 | type 16: the sample number only when there are samples, samples of 24 bytes |
| Offsets.EyeOffsets | pkg/packets/eyetracker.go:33-64 | type 19: the same with samples of 8 bytes |
| Offsets.SkeletonOffsets | pkg/packets/skeleton.go:43-70 | type 18: segments of 32 bytes |
| Offsets.TimecodeOffsets | pkg/packets/timecode.go:17-151 | type 17: entries of 12 bytes, and which bits each time field takes for kinds 0, 1 and 2 |
| Offsets.EmptyPayload | pkg/packets/markers3d.go:34-36 | empty payloads of the types with rates are components with nothing in them |
| Offsets.EmptyCount | pkg/packets/analog.go:45-47 | so are those of the other known types |
| Offsets.UnknownPayload | packet.go:192-196 | types that are not between 1 and 19 keep their bytes |
| Wire.Weights | pkg/packets/cursor.go:82-104 | what each byte of a number counts in either byte order |
| Frames.WalkCuts | packet.go:173-202 | decoding while walking is cutting into slices first and decoding each slice after, for any way of decoding a slice |
| Frames.FrameSlices | packet.go:173-202 | an accepted frame is its header and contiguous slices, as many as the header counts, at most (length - 16) / 8, each component decoded from its own slice alone |
| Frames.FrameRoundTrip | packet.go:158-204 | any frame of known and unknown components comes back from its encoding in either byte order, and bytes after it change nothing |
| Offsets.FrameOffsets | packet.go:158-204 | timestamp, number and count at bytes 0, 8 and 12; accepted exactly when every component from byte 16 on has a size of at least eight, is inside and decodes; each component with its own type and bytes |
| DataPackets.GetComponentObject | packet.go:97-139 | an object of the right kind exactly for the nineteen known types |
| DataPackets.UnknownComponent.Unmarshal | packet.go:216-220 | an unknown component keeps a copy of exactly its bytes |
| DataPackets.UnmarshalObject | packet.go:197-199 | each object decodes as the pure decoder of its type does, into new arrays only |
| DataPackets.ReadComponent | packet.go:175-201 | one turn of the walk: bounds, size and type checks, at least eight bytes of progress |
| DataPackets.DataPacket.UnmarshalBinary | packet.go:158-204 | succeeds exactly when the frame decodes, with its value; the packet owns new objects only |
| DataPackets.DataPacket.Component | packet.go:282-289 | the first component of a known type, nil exactly when there is none |
| DataPackets.DataPacket.UnknownComponentData | packet.go:298-305 | the bytes of the first undecodable component of the type, nil exactly when there is none |
| DataPackets.DataPacket.UnknownComponentTypes | packet.go:309-317 | the types of all undecodable components in order |
| DataPackets.UnknownKindsExact | packet.go:309-317 | that list holds the types not between 1 and 19, in frame order and each as often as it occurs |
| PacketValues.TrimBetween | packet.go:433-435 | what stands between runs of NULs comes back, NULs inside included |
| PacketValues.TrimSplit | packet.go:433-435 | the answer neither starts nor ends with a NUL, and only NULs are cut off |
| Packets.FilePacket.UnmarshalBinary | file.go:35-40 | the file is a new copy of the payload, its size modulo 2^32 |
| Packets.Packet.UnmarshalBinary | packet.go:438-470 | dispatch by type: succeeds exactly when the value decoder does, with its value, and everything new in the packet is freshly allocated |
| PacketValues.PacketFields | packet.go:438-470 | by type number: what each packet decodes to, with every other field blank; a file of type 5 or 8 is the whole payload with its length |
| Delivery.DeservedFields | protocol.go:428-446 | the reply by type number: an error packet is an error, all others that decode are not |
| Delivery.FileDelivered | protocol.go:368-446 | a file that fits is received as exactly its bytes |
| Network.Conn.Read | protocol.go:377-380 | some part of what has arrived, at least a byte, or the reason there is none; no byte lost |
| Network.ReadFull | protocol.go:377-389 | however reads are cut, the outcome is that of waiting for the bytes one by one |
| Network.TakeConserves | protocol.go:377-389 | a wait loses, doubles and reorders no byte however it ends, time does not run back, and a timeout has reached its deadline |
| Network.TakeBound | protocol.go:337-343 | a wait with a deadline is over by then |
| Versions.RenderInjective | commands.go:64-64 | two versions never render alike |
| Versions.ReplyNamesOneVersion | commands.go:66-69 | under case folding, one reply confirms at most one version |
| Versions.ReplyConfirms | commands.go:66-69 | the reply for a version confirms it |
| Versions.FoldsCase | commands.go:650-653 | an ASCII reply is accepted exactly when it differs from an expected text at most in the case of letters |
| Versions.LadderExact | protocol.go:218-230 | the ladder holds the request and every supported version below it, nothing else and nothing twice |
| Versions.LadderDescends | protocol.go:218-230 | it descends strictly if and only if the requested major version is at least 1 or nothing else is tried |
| Sessions.ReceiveProgress | protocol.go:366-446 | a receive with a nil error has taken at least eight bytes or has run into its deadline |
| Delivery.Delivered | protocol.go:368-446 | a packet that no deadline cuts is consumed whole, decodable or not |
| Delivery.Alignment | protocol.go:380-426 | whatever the timing, a receive takes the whole packet, or less than a header with a reply that names no packet, or at least the header with an error that says the stream is lost |
| Delivery.HeaderCutReply | protocol.go:380-383 | a deadline after k header bytes gives no-more-data and nil, and exactly k bytes are gone |
| Delivery.HeaderRefused | protocol.go:393-400 | a size below eight or above the limit is refused with exactly the header gone |
| Delivery.HeaderEnds | protocol.go:380-388 | a stream that ends before a header is closed, inside one the read failed |
| Delivery.BodyEnds | protocol.go:420-426 | a stream that ends inside a body is a truncated packet, a failing connection a failed read |
| Delivery.GivenIsDeserved | protocol.go:402-430 | a packet is answered as it deserves if and only if it has no payload or fits the buffer; otherwise as an error packet |
| Delivery.FirstMisread | protocol.go:402-430 | receiving a packet of 4097 bytes, a new client gets an error packet and a client that has grown gets the packet; no smaller packet is misread |
| Delivery.PollStep | protocol.go:368-446 | a poll that no deadline cuts inside a packet takes exactly the next packet, or nothing with a no-more-data reply |
| Delivery.PacedWhole | protocol.go:377-380 | when the bytes of each header come together and each body within the read timeout, no timing of polls cuts a packet |
| Delivery.PollDelivers | protocol.go:356-446 | for any encoded packets one after the other, cut into reads in any way, with no deadline inside a packet: the replies are exactly theirs in order, and the client has taken exactly those packets off the stream, changed by them and nothing else; polls without deadline always bring one |
| Delivery.PollHears | protocol.go:433-440 | then the packets decoded are exactly those delivered with a payload and decodable, and when each event fits the buffer as it is by then, lastEvent and state are the last event on the wire and the last one that is no camera-settings change |
| Delivery.HeardEvent | protocol.go:428-440 | a packet is decoded as an event exactly when it is one with a payload that fits the buffer, and with its own code |
| Delivery.EventLost | protocol.go:402-440 | an event larger than the buffer changes neither lastEvent nor state |
| Delivery.FrameDeserved | packet.go:158-204 | the packet of an encoded frame deserves a reply with exactly that frame |
| Delivery.FrameDelivered | protocol.go:368-446 | and is received so, in either byte order, when the buffer has room for it |
| Runs.SettleSized | protocol.go:408-411 | capacity stays the maximum of 4096 and the largest admitted size, and never decreases |
| Runs.ReceiveSound | protocol.go:368-446 | a receive keeps the invariant and the version |
| Runs.SkipIsReceiving | protocol.go:456-482 | skipping events is receiving some number of times, and the last reply is the answer |
| Runs.SendAndWaitSound | commands.go:642-659 | nil means that the last packet heard answers with one of the expected texts |
| Runs.SetVersionSound | commands.go:63-73 | the version changes exactly on nil, and then a reply heard during this call confirms it |
| Runs.NegotiateSound | protocol.go:267-285 | nil exactly when the connection stays open, with a version of the list confirmed during the negotiation |
| Runs.ConnectSound | protocol.go:240-286 | nil exactly when the connection stays open, with a version of the ladder confirmed by a reply on the new connection |
| Runs.RunSound | protocol.go:240-306 | over every run of connect, disconnect, set-version, send, receive and ask: closed means version 0.0, any other version was confirmed since the connection was dialed, lastEvent and state fold the packets decoded, the buffer respects the limit |
| Runs.SkipBound | protocol.go:456-469 | waiting for a reply ends within one read timeout of its deadline |
| Runs.ReplyBound | protocol.go:456-482 | with positive timeouts it is over within the timeout plus one read timeout |
| Runs.CommandBound | commands.go:642-659 | a command is over within five seconds and one read timeout |
| Answers.SkipAnswered | protocol.go:456-482 | behind any number of events and no-more-data packets, in any pieces: with the reply's header there before the deadline it is handed over, consuming exactly the packets up to it; with the deadline earlier, and not inside a header, the wait times out at a packet boundary |
| Answers.TooLargeEndsWait | protocol.go:402-480 | an event or any other packet larger than the buffer is not skipped: the wait ends with an error reply |
| Answers.GivenType | protocol.go:470-480 | a packet that fits keeps its type when decoded, so exactly events and no-more-data are skipped; one that does not fit is an error |
| Answers.AwaitAnswered | parameters.go:98-111 | the same for the loops that wait for one kind of packet among others |
| Answers.StopsByType | parameters.go:98-111 | asking for the state waits for type 6, asking for settings for type 2 or 0; a failed receive ends either |
| Handshake.CommandAnswered | commands.go:642-659 | a command whose reply is there within five seconds succeeds exactly when the reply is no error and one of the expected texts |
| Handshake.VersionAnswered | commands.go:63-73 | a version command answered in time, in any pieces and behind any skipped packets, sets the version exactly when the answer confirms it and fits the buffer, and leaves the stream behind the answer |
| Handshake.NegotiateAnswered | protocol.go:267-285 | the first accepted version is kept, with exactly the commands up to it sent |
| Handshake.ConnectSettles | protocol.go:240-286 | against a server that answers each command once and in time: the first accepted version on the ladder, no version command after it, and the unsupported-version error exactly when none is accepted |
| Handshake.BestVersion | protocol.go:211-286 | for a requested major version of at least 1 that is the greatest candidate the server accepts |
| Greetings.ServerGreets | protocol.go:240-286 | such servers exist for any exchanges that fit the buffer: the handshake theorems are not empty |
| Greetings.FirstTry | protocol.go:240-286 | a new client gets the version it wants from a server that confirms it |
| Wording.SetVersionAsks | commands.go:63-73 | setting a version sends one command, "Version", a space and the two decimal numerals with a dot, and succeeds exactly on a reply that is "Version set to " and the same numerals, whatever the case |
| Wording.StateAsks | commands.go:109-116 | "GetLastEvent" is sent exactly for versions 1.m with m at most 9, "GetState" for all others |
| Wording.ConnectRefused | protocol.go:256-265 | a first packet that is an error or not the welcome text ends connecting with nothing sent and nothing open |
| Wording.ConnectUndialed | protocol.go:250-253 | without a connection nothing is sent and nothing is open |
| Texts.TextFramed | commands.go:18-32 | a text is framed as the packet of the text and a NUL |
| Texts.TextRoundTrip | commands.go:18-32 | a text sent decodes to itself if and only if it neither starts nor ends with a NUL, otherwise to the trimmed text |
| Texts.RequestArrives | commands.go:283-324 | what arrives of a stream command without spaces says what was asked for, if and only if the last channel list does not end with a NUL |
| Protocols.Protocol.constructor | protocol.go:181-201 | a new client is the state machine's start, with its settings |
| Protocols.Protocol.ReceiveTimeout | protocol.go:368-446 | reply, connection, buffer and memory are those of the state machine, and the packet is made of new objects only |
| Protocols.Protocol.ReceiveBody | protocol.go:413-446 | the part after the header |
| Protocols.Protocol.Remember | protocol.go:433-440 | which events change lastEvent and which change state |
| Protocols.Protocol.ReceiveSkippingEvents | protocol.go:456-482 | the loop is the state machine's skipping, and it ends |
| Protocols.Protocol.SendString | commands.go:18-32 | exactly the framed text is written, or nothing with an error |
| Protocols.Protocol.StreamFrames | commands.go:283-324 | sends the command text of a valid request, and nothing for an invalid one |
| Protocols.Protocol.SendAndWaitForResponse | commands.go:642-659 | nil exactly when the reply matches one of the expected texts |
| Protocols.Protocol.SetVersion | commands.go:63-73 | the state machine's step |
| Protocols.Protocol.GetState | commands.go:109-128 | the first event after the command, and the state machine's step |
| Protocols.Protocol.GetParameters | parameters.go:94-111 | the first XML reply after the command, and the state machine's step |
| Protocols.Protocol.Disconnect | protocol.go:294-306 | closes and resets the version, or does nothing when closed |
| Protocols.Protocol.VersionCandidates | protocol.go:218-230 | the loop builds the ladder |
| Protocols.Protocol.Connect | protocol.go:240-286 | the state machine's step, over a connection just dialed or none |
| Protocols.Protocol.NegotiateVersion | protocol.go:267-285 | the loop over the candidates |
| History.Listen | pkg/packets/cursor.go:119-132 | after any number of receives through the one buffer, every packet handed out still is what it was |
| StreamTexts.NamesDiffer | commands.go:157-199 | no two components share a name |
| StreamTexts.CallSpelt | commands.go:157-324 | a call is valid exactly for rates 0 to 2 and a non-empty list of types 1 to 19, and then its text is spelt out by number: the rate, the UDP endpoint, each name, the channel list for types 3 and 13 only and "global" for type 18 only |
| StreamTexts.ComponentString | commands.go:202-222 | the names in order with the options that apply by type number, or an error for an unknown component |
| StreamTexts.StreamFrames | commands.go:283-324 | the builder writes the text spelt out by number, and refuses exactly invalid rates, unknown components and empty lists |
| StreamTexts.CommandReads | commands.go:283-324 | a tokenising parser recovers rate, value, UDP endpoint, components and applicable options if and only if address and channel lists hold no space |
| StreamTexts.CommandInjective | commands.go:283-324 | two requests without spaces never share a text |
| StreamTexts.CallReads | commands.go:283-324 | for any call with a space-free address and channel list, the text written reads back as what the call asked for |
| StreamTexts.SpaceConfuses | commands.go:209-213 | with a space in a channel list two requests do share one |

## Left out

- Sockets, dialing, address resolution and the UDP socket: a dialed connection, or none, is a parameter of `Connect`.
- Failures of setting a read deadline: the model's deadlines are always accepted.
- `ReceiveUDP`: one datagram goes through the packet decoder that is modelled; there is no reassembly and no event state.
- The `discover` package, the settings XML package, the generated string tables and the `String` methods.
- One-line command wrappers (`Trig`, `Stop`, `Load` and others): instances of `SendAndWaitForResponse`. `Calibrate` repeats the waiting loop of `GetParameters` for one more kind of event.
- `StripParametersElement`, `SetParameters` and the names in a `GetParameters` request: plain string work; the request text is a parameter.
- The meaning of floats, and the quotient in `NormalizedSubFrame`: a float is its bit pattern.
- Error texts: an error is only its kind.
- The checks of port and address length in `StreamFramesUDP`, before the modelled `streamFrames`.
- Concurrency: the client is documented as not safe for it.
- Settings given as option functions: they are parameters of the constructor.
- Network.Conn.Read: time passes only while a read waits, and the arrival times do not depend on what the client sends; a peer that stays silent for ever appears as an end of stream at some time, so waits without deadline end.
- Protocols.Protocol.GetState: the source reads the clock again between the loop test and the receive, so a wait there can be non-positive and block; the model's clock does not move between the two, and no bound on the elapsed time is claimed.
- Protocols.Protocol.GetParameters: the same.
- Answers.SkipAnswered: a deadline that falls inside a header is the subject of `Delivery.HeaderCutReply`, and a body that misses the read timeout that of `Delivery.Alignment`.
- Answers.AwaitAnswered: the same.
- Cursors.Cursor.Fail: all errors of the reader wrap one sentinel, and texts are left out, so which of two errors is kept does not show.
- DataPackets.DataPacket.UnmarshalBinary: after a failed decode nothing is said about the components appended so far.
- Runs.SendAndWaitSound: one direction, for what was heard; the exact condition on the reply is that of `Protocols.Protocol.SendAndWaitForResponse`.
- Packets.Packet.UnmarshalBinary: after a failed decode nothing is said about the receiver; the client drops it and hands out a new packet.
- Versions.ReplyNamesOneVersion: case folding is modelled for ASCII expected texts, as all of them are; the two non-ASCII letters that fold to ASCII ones are included.
- The length of the receive buffer slice: only its capacity matters to the code, and only that is modelled.
