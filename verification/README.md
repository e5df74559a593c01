# opennotr in Dafny

A model of the parts of opennotr whose behaviour is hardest to see from one function, with proofs.
`dafny verify dfyconfig.toml` checks everything.

**The log codec** (`Wire`, `WireGrammar`, `LogMessages`, `LogTheorems`, `LogCodec`, `LogClasses`).
`internal/logs/alils/log.pb.go` writes and reads four nested messages by hand-expanded loops. `Wire` and
`LogMessages` say what bytes a message has and what a byte string decodes to; `LogClasses` has the four
types as objects whose `Size`, `MarshalTo`, `Marshal` and `Unmarshal` run the loops over arrays and indices
and are proved to compute just that. `LogShape` writes out the bytes, the required fields and what is refused.
`LogTheorems` has the results: the round trip with its exact condition, the normal form of everything accepted,
and concatenation as merge. `WireGrammar` describes what the skipper accepts as trees, and shows that it accepts
neither more nor less.

**The UDP tunnel** (`Checksum`, `Packet`, `Framing`, `UdpForward`, `UdpSessions`). The receive loop, one
forwarder per stream and the recycler are steps on a shared state, so a property of all runs holds for every
interleaving of the goroutines. `Framing` has the client's side, with streams that hand out their bytes in any
pieces; `Packet` and `Checksum` have the replies, which are proved acceptable to an independent receiver.

**The loggers** (`AnsiColor`, `AnsiWriter`, `FileLog`, `AsyncLog`, `TimeHeader`). The escape filter against
a reference on parsed input; rotation over a map of files, with failures; the asynchronous logger with its
flush and close handshake as a step system; the time stamp and its order.

**The server** (`Plugin`, `Server`, `Dhcp`). Every connection runs `onConn` with its own stack of deferred
calls, and all of them share addresses, routes and sessions. A run is any interleaving of their steps.

Places where the code does less than one might expect are stated with their exact condition:
`Plugin.IdentifyExact` (protocol names that extend one another), `Plugin.DeletedConsistent` (`DelProxy` of an
item that is not routed), `Dhcp.PoolExact` (the address 127.255.255.255), `Framing.HeaderExact` and
`Framing.ForwardExact` (a header whose two length bytes come apart, and a reply too long for a packet, on which
`sendUDPViaRaw` panics), `FileLog.MonthLater` (the daily check looks at the day of the month alone), and
`AnsiColor.CutExact` with `CutAfterEmpty` and `CutBeforeEmpty` (an escape sequence cut in two). `Framing.FrameExact` gives the bound on a datagram, and `LogTheorems.RoundTripExact` the messages
that survive the wire.

## Model

| member | source | states |
|---|---|---|
| Wire.VarintRoundTrip | internal/logs/alils/log.pb.go:346-354 | what encodeVarintLog writes for a 64-bit value is read back by the decoder's varint loop, whatever follows |
| Wire.CanonicalIsShortest | internal/logs/alils/log.pb.go:437-446 | re-encoding a varint that was read takes no more bytes than it was read from |
| Wire.SkipLocal | internal/logs/alils/log.pb.go:940-1038 | a skip that ends inside the input depends on the skipped bytes alone |
| Wire.SkipIgnoresSuffix | internal/logs/alils/log.pb.go:940-1038 | the skipped prefix with any suffix is skipped the same way |
| WireGrammar.VarintExact | internal/logs/alils/log.pb.go:950-963 | the varint loop accepts exactly the prefixes of varint shape and yields their value |
| WireGrammar.SkipAcceptsNode | internal/logs/alils/log.pb.go:964-1036 | every well-formed field, with groups nested to any depth, is skipped whole, whatever follows |
| WireGrammar.SkipYieldsNode | internal/logs/alils/log.pb.go:964-1036 | whatever is skipped inside the input, if it does not begin with an end-group tag, is one well-formed field, groups up to their own end marker |
| WireGrammar.SkipExact | internal/logs/alils/log.pb.go:940-1038 | where no end-group tag comes first, the skipper stops inside the input exactly after a well-formed field |
| LogMessages.ScanFieldLocal | internal/logs/alils/log.pb.go:860-931 | a field scanned by Unmarshal depends on its own bytes only |
| LogMessages.FoldConcat | internal/logs/alils/log.pb.go:860-933 | after an accepted prefix an Unmarshal loop goes on with the rest from the state it reached |
| LogTheorems.UnknownExact | internal/logs/alils/log.pb.go:917-931 | collected unknown bytes are exactly the concatenations of well-formed fields with undeclared numbers |
| LogTheorems.RoundTripContent | internal/logs/alils/log.pb.go:203-239 | Unmarshal of what Marshal writes gives the LogContent back |
| LogTheorems.RoundTripLog | internal/logs/alils/log.pb.go:162-201 | the same for a Log with its contents |
| LogTheorems.RoundTripGroup | internal/logs/alils/log.pb.go:241-292 | the same for a LogGroup with its logs and optional fields |
| LogTheorems.RoundTripList | internal/logs/alils/log.pb.go:294-326 | the same through all four nesting levels |
| LogTheorems.RoundTripExact | internal/logs/alils/log.pb.go:294-326 | a LogGroupList survives the wire if and only if its required fields are set and its unknown bytes are whole undeclared fields, at every level |
| LogTheorems.NormalFormContent | internal/logs/alils/log.pb.go:561-682 | any accepted input decodes to a message that marshals, to no more bytes, and decodes to itself |
| LogTheorems.NormalFormLog | internal/logs/alils/log.pb.go:452-560 | the same for a Log |
| LogTheorems.NormalFormGroup | internal/logs/alils/log.pb.go:683-856 | the same for a LogGroup |
| LogTheorems.NormalFormList | internal/logs/alils/log.pb.go:857-938 | the same for a LogGroupList: non-minimal varints, repeated, reordered and unknown fields included |
| LogTheorems.MergeGroup | internal/logs/alils/log.pb.go:683-856 | after an accepted input, a second call into the same receiver gives the result, or the error, of one call over both inputs |
| LogTheorems.MergeList | internal/logs/alils/log.pb.go:857-938 | the same for a LogGroupList |
| LogTheorems.DecodeGroupJoins | internal/logs/alils/log.pb.go:683-856 | decoding into a receiver merges what a fresh message would get: repeated fields append, optional ones are replaced, unknown bytes append |
| LogTheorems.DecodeListJoins | internal/logs/alils/log.pb.go:857-938 | the same for a LogGroupList |
| LogTheorems.ConcatIsMergeContent | internal/logs/alils/log.pb.go:561-682 | concatenating accepted inputs merges the messages |
| LogTheorems.ConcatIsMergeLog | internal/logs/alils/log.pb.go:452-560 | the same for a Log |
| LogTheorems.ConcatIsMergeGroup | internal/logs/alils/log.pb.go:683-856 | the same for a LogGroup |
| LogTheorems.ConcatIsMergeList | internal/logs/alils/log.pb.go:857-938 | the same for a LogGroupList |
| LogShape.VarintBytes | internal/logs/alils/log.pb.go:346-354 | a varint has its low seven bits first: the bytes for values below 16384 |
| LogShape.ContentBytes | internal/logs/alils/log.pb.go:214-239 | the bytes of a LogContent, tags 0x0a and 0x12 written out |
| LogShape.LogBytes | internal/logs/alils/log.pb.go:173-201 | the bytes of a Log: Time under tag 0x08, its contents one after the other under 0x12 |
| LogShape.GroupBytes | internal/logs/alils/log.pb.go:252-292 | the bytes of a LogGroup: logs under 0x0a, Reserved, Topic and Source under 0x12, 0x1a and 0x22 |
| LogShape.ListBytes | internal/logs/alils/log.pb.go:305-326 | the bytes of a LogGroupList: groups under 0x0a |
| LogShape.ContentFails | internal/logs/alils/log.pb.go:214-239 | a LogContent is written if and only if Key and Value are set; the first that is not is the error |
| LogShape.LogFails | internal/logs/alils/log.pb.go:173-201 | a Log is written if and only if Time and all fields of its contents are set; which error is reported |
| LogShape.GroupFails | internal/logs/alils/log.pb.go:252-292 | a LogGroup is written if and only if all its logs are |
| LogShape.ListFails | internal/logs/alils/log.pb.go:305-326 | a LogGroupList is written if and only if every required field at every level is set |
| LogShape.TagReads | internal/logs/alils/log.pb.go:864-883 | any 64-bit tag splits into the low three bits and the next 32 bits; an end-group type, zero and negative numbers are refused |
| LogShape.LengthReads | internal/logs/alils/log.pb.go:888-906 | a length from 2^63 on is refused |
| LogShape.WrongWireTypes | internal/logs/alils/log.pb.go:884-887 | every declared field of every message is refused with any wire type but its own |
| LogCodec.DecodeVarint | internal/logs/alils/log.pb.go:864-877 | the inline loop gives the varint's value cut to the word it is collected in, or its error |
| LogCodec.SkipLog | internal/logs/alils/log.pb.go:940-1038 | the index-driven skipper computes the skip the grammar describes, and terminates |
| LogCodec.SkipGroupLog | internal/logs/alils/log.pb.go:999-1027 | its loop over a group ends after the matching end marker |
| LogCodec.DecodeUnknown | internal/logs/alils/log.pb.go:917-931 | an undeclared field is kept whole, tag included |
| LogCodec.DecodeField | internal/logs/alils/log.pb.go:860-931 | one turn of an Unmarshal loop finds the field at its index, with the loop's error conditions |
| LogCodec.EncodeVarintLog | internal/logs/alils/log.pb.go:346-354 | stores the canonical varint at the offset, touches nothing else, returns the end |
| LogCodec.SovLog | internal/logs/alils/log.pb.go:437-446 | the size of a varint is the number of bytes encodeVarintLog stores |
| LogClasses.LogContent.Size | internal/logs/alils/log.pb.go:376-392 | the number of bytes the message takes on the wire |
| LogClasses.LogContent.MarshalTo | internal/logs/alils/log.pb.go:214-239 | every store is within those bytes, which then hold the encoding; a missing field is reported |
| LogClasses.LogContent.Marshal | internal/logs/alils/log.pb.go:203-212 | the buffer of Size bytes is filled exactly |
| LogClasses.LogContent.Unmarshal | internal/logs/alils/log.pb.go:561-682 | the receiver becomes the decoded message, with the decoder's errors |
| LogClasses.Log.Size | internal/logs/alils/log.pb.go:357-374 | as for LogContent, contents included |
| LogClasses.Log.MarshalTo | internal/logs/alils/log.pb.go:173-201 | as for LogContent; the first incomplete content decides the error |
| LogClasses.Log.PutContent | internal/logs/alils/log.pb.go:184-195 | the length written before a content is the number of bytes the content then takes |
| LogClasses.Log.Marshal | internal/logs/alils/log.pb.go:162-171 | the buffer of Size bytes is filled exactly |
| LogClasses.Log.Unmarshal | internal/logs/alils/log.pb.go:452-560 | the receiver becomes the decoded message, with the decoder's errors |
| LogClasses.LogGroup.Size | internal/logs/alils/log.pb.go:394-420 | as for Log |
| LogClasses.LogGroup.MarshalTo | internal/logs/alils/log.pb.go:252-292 | as for Log |
| LogClasses.LogGroup.Marshal | internal/logs/alils/log.pb.go:241-250 | as for Log |
| LogClasses.LogGroup.Unmarshal | internal/logs/alils/log.pb.go:683-856 | as for Log |
| LogClasses.LogGroupList.Size | internal/logs/alils/log.pb.go:422-435 | as for Log |
| LogClasses.LogGroupList.MarshalTo | internal/logs/alils/log.pb.go:305-326 | as for Log |
| LogClasses.LogGroupList.PutGroup | internal/logs/alils/log.pb.go:310-321 | the length written before a group is the number of bytes the group then takes |
| LogClasses.LogGroupList.Marshal | internal/logs/alils/log.pb.go:294-303 | as for Log |
| LogClasses.LogGroupList.Unmarshal | internal/logs/alils/log.pb.go:857-938 | as for Log |
| Checksum.ChecksumAdd | opennotrd/core/net.go:13-24 | the sum of big-endian words in 32 bits, which up to 65535 bytes never wraps |
| Checksum.WordsConcat | opennotrd/core/net.go:13-24 | the sum is additive when the split is at an even offset |
| Checksum.WordsOfTwo | opennotrd/core/net.go:13-24 | words are big-endian, and a last odd byte is a high byte |
| Checksum.ChecksumWrapper | opennotrd/core/net.go:26-38 | folding terminates; the result is the complement of the folded sum, never zero |
| Checksum.FoldedExact | opennotrd/core/net.go:27-30 | the folded sum is the one 16-bit number congruent to the sum modulo 65535 that is zero only for a zero sum |
| Checksum.ZeroSumExact | opennotrd/core/net.go:26-42 | the folded sum of a buffer is zero if and only if every byte is |
| Checksum.FoldedIsOnesSum | opennotrd/core/net.go:13-30 | deferring the carries computes the one's-complement sum of RFC 1071, section 1 |
| Checksum.CheckSum | opennotrd/core/net.go:40-42 | the checksum of a buffer of up to 65535 bytes |
| Checksum.Rfc1071Example | opennotrd/core/net.go:26-42 | the example of section 3 of RFC 1071 comes out |
| Checksum.ComplementVerifies | opennotrd/core/net.go:26-38 | with this checksum in place a receiver's sum is all ones, also where zero is sent as 0xffff |
| Checksum.OnlyComplementVerifies | opennotrd/core/net.go:26-38 | any other checksum is noticed, up to the two names of zero |
| Packet.ComplementPacketReceived | opennotrd/core/net.go:44-74 | a packet with these two checksums passes the RFC 791 and RFC 768 checks and yields addresses and payload |
| Packet.PacketBytes | opennotrd/core/net.go:51-74 | every byte of the headers: versions, lengths, addresses, ports and checksums in their places, big-endian |
| Packet.FillDraft | opennotrd/core/net.go:51-61 | the buffer over which the UDP checksum is taken, with the fields of the pseudo header in place |
| Packet.FillHeaders | opennotrd/core/net.go:64-74 | the finished packet, its IP checksum taken over the IP header without it |
| Packet.RoomExact | opennotrd/core/net.go:45-53 | the wrapped length leaves room for the headers if and only if the wrapped payload length is at most 65507 |
| Packet.FillPacket | opennotrd/core/net.go:53-74 | the stores into a buffer of the right size make a packet that an independent receiver accepts, and gets addresses and payload from |
| Packet.Assemble | opennotrd/core/net.go:44-74 | for any source, destination and payload a packet is assembled if and only if the payload length modulo 65536 is at most 65507 (otherwise an index is out of range), and the receiver gets the payload if and only if it has at most 65507 bytes |
| Framing.Encode | opennotrd/core/net.go:81-86 | a reader of the frame gets the length modulo 65536 and the data, and the frame reads back as its datagram if and only if that is shorter than 65536 bytes |
| Framing.FramesRoundTrip | opennotr/client.go:182-203 | any list of datagrams is recovered from its frames in order, whatever incomplete frame follows |
| Framing.FrameExact | opennotr/client.go:226-231 | a frame reads back as its datagram if and only if that is shorter than 65536 bytes |
| Framing.DeliverLoop | opennotr/client.go:182-203 | over any chunking, what reaches the local connection is the frames of the stream, in order |
| Framing.HeaderExact | opennotr/client.go:108-124 | the proxy header is parsed off if and only if its two length bytes arrive together |
| Framing.ReadHeader | opennotr/client.go:108-124 | the body of the header and the rest of the stream, or failure, as the first chunk has it |
| Framing.ServeStream | opennotr/client.go:108-203 | header and datagrams of a flow come out as they went in, over any chunking of what follows the first two bytes |
| Framing.WholeHeadersReply | opennotrd/core/udpforward.go:209-236 | as long as every header read of forwardUDP gets two bytes, what it replies is the client's frames, in order, up to the first over 65507 bytes, and the process dies if and only if there is one |
| Framing.HeadersWholeExact | opennotrd/core/udpforward.go:209-236 | every header read gets its two bytes if and only if no piece of the stream ends one byte into a frame |
| Framing.ForwardExact | opennotrd/core/udpforward.go:209-236 | over any chunking of a client's frames, all are replied in order if and only if none is over 65507 bytes and no piece ends one byte into a frame |
| Framing.OversizedFrameCrashes | opennotrd/core/udpforward.go:223-233 | a frame of 65508 to 65535 bytes, whatever follows, is not replied and ends the process |
| Framing.ForwardLoop | opennotrd/core/udpforward.go:209-236 | the loop hands on packets from which a receiver gets exactly those replies with the flow's addresses, and panics exactly where the model says so |
| UdpForward.StepKeeps | opennotrd/core/udpforward.go:126-259 | every step of every goroutine and of the clients, the panic included, keeps the invariant of table, streams, forwarders and replies |
| UdpForward.ClientReceivesFlow | opennotrd/core/udpforward.go:126-198 | in every reachable state the client reads from an unfailed stream the header of one flow, then datagrams of that flow in arrival order, and nothing else |
| UdpForward.NeverTwice | opennotrd/core/udpforward.go:126-198 | no datagram is on two streams or twice on one |
| UdpForward.NothingLostSilently | opennotrd/core/udpforward.go:126-198 | every datagram Serve is done with is on a stream or was given up with an error |
| UdpForward.StreamsInOrder | opennotrd/core/udpforward.go:126-198 | when a flow has had several streams, everything on an earlier one arrived before everything on a later one |
| UdpForward.RepliesAddressed | opennotrd/core/udpforward.go:201-245 | every reply fits a packet and goes from the flow's original destination to its original source |
| UdpForward.RepliesInOrder | opennotrd/core/udpforward.go:201-245 | in every reachable state without a short header read on a stream, the replies from it and what is still to be read are the frames its client sent, in order |
| UdpForward.RepliesAreLoop | opennotrd/core/udpforward.go:209-236 | in every reachable state, short header reads included, what the read loop makes of all pieces of a stream is what has been replied and what it makes of those not yet read |
| UdpForward.TableChanges | opennotrd/core/udpforward.go:150-257 | what each step does to the table, with the new entries written out: a session found or replied to is active now, a leaving forwarder removes its key, nothing else changes it |
| UdpForward.RecycleSparesUsed | opennotrd/core/udpforward.go:150-257 | in every reachable state the last activity in the table is the last time the session was made, found or replied to; the recycler removes none used within the timeout, and leaves none that was not |
| UdpForward.ClosedWithForwarder | opennotrd/core/udpforward.go:174-207 | in every reachable state a stream is closed if and only if its header went out and its forwarder is gone |
| UdpForward.FirstDatagram | opennotrd/core/udpforward.go:133-198 | the first datagram of a flow, from any state, opens a stream with its header and itself, enters the session and starts the forwarder |
| UdpForward.NextDatagram | opennotrd/core/udpforward.go:150-198 | a later one is appended to the stream of the table, and the session is active now |
| UdpForward.FrameOutcome | opennotrd/core/udpforward.go:223-236 | a client frame of up to 65507 bytes is sent on with the addresses of its flow, a longer one ends every goroutine |
| UdpForward.ServeGoesOn | opennotrd/core/udpforward.go:126-198 | in every reachable state Serve has a step to do, or is reading |
| UdpForward.CrashCause | opennotrd/core/udpforward.go:209-236 | a run that ends in the panic of sendUDPViaRaw ends where the loop of forwardUDP panics on all pieces of some stream, and its client has sent a frame over 65507 bytes or had a short header read |
| UdpForward.InsertNeverOverwrites | opennotrd/core/udpforward.go:150-172 | the insert after relocking never replaces an entry |
| UdpSessions.SessionTable.LookUp | opennotrd/core/udpforward.go:150-154 | finds the session of the key and sets its last activity to now; its stream, all other entries and the keys stay |
| UdpSessions.SessionTable.Insert | opennotrd/core/udpforward.go:169-172 | the step system's insert, on objects |
| UdpSessions.SessionTable.Delete | opennotrd/core/udpforward.go:204-206 | the step system's delete |
| UdpSessions.SessionTable.Recycle | opennotrd/core/udpforward.go:247-259 | deleting while walking the map, in any order and with the clock going on, removes every session that had timed out at the start, none that had not at the end, and changes no other |
| AnsiColor.PackUnpack | internal/logs/color_windows.go:239-258 | unpacking a console attribute loses nothing |
| AnsiColor.ConvertWinAttr | internal/logs/color_windows.go:249-258 | the packed word unpacks to the same parts if and only if no light colour is among them |
| AnsiColor.ChangeColor | internal/logs/color_windows.go:260-309 | the loop over the parameters computes the fold of their codes over the unpacked attribute, which the console is then asked to set |
| AnsiColor.SequenceSets | internal/logs/color_windows.go:134-309 | every bit of the console word after any sequence: red, green and blue in front are the bits of the digit of the last foreground code, the same behind, each untouched by the codes of the other; intensities and underscore by their last switch |
| AnsiColor.RedAndGreen | internal/logs/color_windows.go:134-172 | 31 and 41 are red, 32 and 42 green |
| AnsiColor.ApplyCodesConcat | internal/logs/color_windows.go:270-304 | codes are applied one after the other |
| AnsiColor.CodesLight | internal/logs/color_windows.go:270-304 | after any codes a light foreground or background is in effect exactly when the last code that sets it is a light one |
| AnsiColor.ResetRestores | internal/logs/color_windows.go:260-309 | a reset restores the initial colours and intensities whatever came before |
| AnsiColor.CutExact | internal/logs/color_windows.go:260-309 | a sequence cut in two, with a first half that is not empty, gives the same attribute for every second half that is not empty, if and only if neither the last foreground code of the first half is 90 to 97 nor its last background code 100 to 107 |
| AnsiColor.EmptyResets | internal/logs/color_windows.go:263-267 | a sequence without parameters gives the initial colours and intensities |
| AnsiColor.CutAfterEmpty | internal/logs/color_windows.go:263-309 | with an empty first half both give the same attribute for every second half if and only if the attribute before is already the reset one |
| AnsiColor.CutBeforeEmpty | internal/logs/color_windows.go:263-309 | with an empty second half both give the same attribute if and only if the first half leaves the reset one |
| AnsiColor.EmptyHalfDiffers | internal/logs/color_windows.go:263-309 | `ESC[1;m` brightens a console on which `ESC[1m` and `ESC[m` change nothing |
| AnsiWriter.FeedIsReference | internal/logs/color_windows.go:363-428 | byte by byte the filter drops or keeps each sequence and folds its codes as the recursive reference does |
| AnsiWriter.ParameterBytes | internal/logs/color_windows.go:359-361 | the ten digits and the semicolon are parameters, nothing else is |
| AnsiWriter.SequenceOutcome | internal/logs/color_windows.go:311-330 | which sequence is passed on, dropped or sets the attribute, by final byte, console and mode |
| AnsiWriter.ReferenceConcat | internal/logs/color_windows.go:363-428 | text and sequences are handled one after the other |
| AnsiWriter.AnsiColorWriter.FlushTo | internal/logs/color_windows.go:332-357 | both buffers go to the writer or nowhere, and are empty |
| AnsiWriter.AnsiColorWriter.Write | internal/logs/color_windows.go:363-428 | the index juggling of one call has the effect of feeding its bytes, and reports them all written |
| AnsiWriter.AnsiColorWriter.WriteWhole | internal/logs/color_windows.go:363-428 | one call with text and sequences gives the reference's output and console attribute |
| AnsiWriter.AnsiColorWriter.WriteByBytes | internal/logs/color_windows.go:363-428 | one call per byte gives the same |
| FileLog.LinesConcat | internal/logs/file.go:206-231 | line counts add up over appended content |
| FileLog.LinesCount | internal/logs/file.go:206-231 | a line ends with byte 10 |
| FileLog.CountLines | internal/logs/file.go:206-231 | counting in reads of 32k counts the newlines of the file |
| FileLog.FileLogWriter.constructor | internal/logs/file.go:63-83 | a writer with its configuration, nothing opened yet |
| FileLog.FileLogWriter.Init | internal/logs/file.go:85-113 | opens what the directory holds or reports the error; a file within the limits starts a log within the limits |
| FileLog.FileLogWriter.StartLogger | internal/logs/file.go:103-113 | size and lines of the file just opened are counted afresh |
| FileLog.FileLogWriter.FindName | internal/logs/file.go:247-259 | the smallest free number of the date, or none found |
| FileLog.FileLogWriter.DoRotate | internal/logs/file.go:235-288 | the current file moves whole to a name that was free; without a free number nothing changes; no other file is replaced |
| FileLog.FileLogWriter.RotateIfNeeded | internal/logs/file.go:115-143 | another day of the month than that of the opening, or lines or bytes at their limit, make a new file named for the date, or an error; on the same day below both limits nothing changes; after it a new line fits the limits |
| FileLog.FileLogWriter.Append | internal/logs/file.go:145-152 | a line is appended and counted, or nothing changes; limits are kept |
| FileLog.FileLogWriter.WriteMsg | internal/logs/file.go:123-153 | on the same day of the month below both limits the line ends the current file; on another day or at a limit it begins a new one, or an error is reported; with one writer at a time limits hold for every file; messages above the level change nothing |
| FileLog.FileLogWriter.LogAll | internal/logs/file.go:123-204 | over any run of messages and day changes one at a time, as long as no rotation reports an error: every file stays within the limits on lines and size; and without limits the files hold the messages in groups that end where the day of the month changes |
| FileLog.FiledOneDay | internal/logs/file.go:115-143 | in those groups every file has only lines of the day of the month it was opened on, and none of two neighbours of one day |
| FileLog.MonthLater | internal/logs/file.go:115-120 | messages of two dates with the same day of the month are not separated |
| FileLog.FileLogWriter.RunAll | internal/logs/file.go:123-204 | over any sequence of writes and rotations, failing or not, the rotated files and the current one hold the initial content and every accepted line, in order |
| AsyncLog.StepConserves | internal/logs/log.go:325-348 | every step keeps: messages sent are those written, in flight and in the channel, in order; outputs agree |
| AsyncLog.StepKeepsHandshake | internal/logs/log.go:442-466 | every step keeps the protocol of signal channel and wait group |
| AsyncLog.OutputsArePrefixes | internal/logs/log.go:235-242 | every output holds a prefix of the messages sent, each once and in channel order |
| AsyncLog.FlushIsComplete | internal/logs/log.go:442-450 | when Flush has returned, every output has all messages sent before the call, flushed |
| AsyncLog.CloseIsComplete | internal/logs/log.go:453-466 | adapters are destroyed only when they have, flushed, all messages sent before Close |
| AsyncLog.FlushWaits | internal/logs/log.go:442-449 | in any run, when a call of Flush has returned, every output has, flushed, all messages sent before the call began |
| AsyncLog.CloseWaits | internal/logs/log.go:450-466 | in any run, when the adapters are destroyed, every output has, flushed, all messages sent before Close began |
| AsyncLog.CallGoesOn | internal/logs/log.go:325-466 | in every reachable state a call of Flush or Close that has not returned has a step to be done for it |
| AsyncLog.MessagesGoOn | internal/logs/log.go:325-348 | while messages wait the consumer has a step to do |
| AsyncLog.HandshakeHolds | internal/logs/log.go:325-348 | the wait group stays between 0 and 1, and no two signals are under way |
| TimeHeader.ItoaPrints | internal/logs/logger.go:76-90 | decimal digits of the number, padded to the width and never more when it fits |
| TimeHeader.ItoaFits | internal/logs/logger.go:76-90 | how many bytes are assembled, for any number and width |
| TimeHeader.AppendItoa | internal/logs/logger.go:76-90 | the loop stays in its six-byte array if and only if the number is below a million and the width at most six |
| TimeHeader.FormatTimeHeader | internal/logs/logger.go:92-111 | the header and the day, for every year below a million |
| TimeHeader.HeaderReads | internal/logs/logger.go:92-111 | from year 0 to 9999 the header has 27 bytes, and each field is read back from its place |
| TimeHeader.HeaderLength | internal/logs/logger.go:92-111 | it has 27 bytes if and only if the year has at most four digits |
| TimeHeader.HeaderOrder | internal/logs/logger.go:92-111 | headers sort as text exactly as their times do on the calendar, to the microsecond |
| Plugin.IdentifyExact | opennotrd/plugin/plugin.go:53-55 | the keys of the requests for a set of protocols tell all protocols, ports and domains apart if and only if no protocol name extends another: goes on where the other, the address and some port leave off |
| Plugin.CollideExact | opennotrd/plugin/plugin.go:53-55 | two protocols have a key in common, for some ports and domains, if and only if one name extends the other |
| Plugin.PlainNamesDistinguish | opennotrd/plugin/plugin.go:53-55 | names without a colon never extend one another, so their keys tell requests apart |
| Plugin.IdentifyAmbiguous | opennotrd/plugin/plugin.go:53-55 | every protocol name is extended by some other, with which it has a key in common |
| Plugin.DeletedConsistent | opennotrd/plugin/plugin.go:135-146 | the manager's calls to its plugins and its routes stay paired if and only if the deleted item is routed, or has neither route nor plugin |
| Plugin.DeleteUndoesAdd | opennotrd/plugin/plugin.go:113-146 | DelProxy after AddProxy gives the routes back, and calls StopProxy for the item RunProxy was called for |
| Plugin.PluginManager.AddProxy | opennotrd/plugin/plugin.go:113-133 | a route is added exactly when the key is free, the protocol registered and the proxy runs |
| Plugin.PluginManager.DelProxy | opennotrd/plugin/plugin.go:135-146 | removes the key, and only it |
| Server.RandomDomainExact | opennotrd/core/server.go:179-189 | different clock values give different names |
| Server.RandomDomainReads | opennotrd/core/server.go:179-189 | a name is the clock value in base 35, lowest digit first, in the digits 1-9 and a-z |
| Server.MakeRandomDomain | opennotrd/core/server.go:179-189 | the loop computes the base-35 digits, lowest first |
| Server.StepKeeps | opennotrd/core/server.go:69-176 | every step of every connection keeps the ownership invariant |
| Server.RoutesAreOwned | opennotrd/core/server.go:120-144 | in every reachable state the routes are the disjoint union of the keys held by connections; a finished one holds none |
| Server.ProxiesInStep | opennotrd/plugin/plugin.go:113-146 | in every reachable state the manager's calls to its plugins pair up by key, and the items started and not stopped are the routes: no RunProxy for a key already started, no StopProxy for an item not started under its key |
| Server.VipsNeverRepeat | opennotrd/core/server.go:95-99 | no address is given out twice, and a session found under an address belongs to the client that got it |
| Server.StepTouchesOwn | opennotrd/core/server.go:69-176 | a step of one connection leaves the routes and sessions of all others alone |
| Server.RegisterFree | opennotrd/core/session.go:34-36 | AddSession never replaces a session |
| Server.LeaveRemovesOwn | opennotrd/core/server.go:69-176 | from every return the deferred calls remove exactly the connection's own routes and session |
| Server.ReplyIsComplete | opennotrd/core/server.go:120-156 | a client that gets its reply has exactly the routes it asked for, and the reply has one entry for each |
| Server.RoutesAsRequested | opennotrd/core/server.go:120-144 | its routes written out: protocol, 0.0.0.0 and the public port, the client's address and the local port, its domain |
| Server.ReplyEntries | opennotrd/core/server.go:137-150 | each entry of the reply has the protocol of its route and the ports the plugin answered for it |
| Server.AuthorizedOnly | opennotrd/core/server.go:74-84 | in every reachable state a client between authorization and leaving, or with an address, a route or a session, has sent the server's key, and is recorded under its domain or one made from the clock |
| Server.KeyDecides | opennotrd/core/server.go:81-90 | with the server's key a client goes on; with any other it only leaves, and never has an address, a route or a session |
| Server.ReturnsLeave | opennotrd/core/server.go:69-176 | every early return and a hang-up run the deferred calls, which take away what the client has and nothing else |
| Server.NeverStuck | opennotrd/core/server.go:69-176 | in every reachable state a connection that has not finished has a step to do |
| Dhcp.ToIPInjective | opennotrd/core/dhcp.go:81-83 | different numbers, negative ones included, print as different addresses |
| Dhcp.ToIPReads | opennotrd/core/dhcp.go:81-83 | a reader of four numbers below 256, the highest first, gets back the 32 bits of any number |
| Dhcp.BeginText | opennotrd/core/dhcp.go:62-83 | the range begins with the text a.b.c.d of the address given |
| Dhcp.EndOfBlock | opennotrd/core/dhcp.go:62-78 | the OR with the host mask ends the range at the last address of the block the given address lies in |
| Dhcp.OrMask | opennotrd/core/dhcp.go:75 | the mask, with its wrap-around in int32, is all ones in the host bits, and OR sets exactly these |
| Dhcp.EndWithoutPrefix | opennotrd/core/dhcp.go:75 | without a prefix the range ends at -1 |
| Dhcp.PoolExact | opennotrd/core/dhcp.go:23-27 | the loop collects the addresses it is meant to if and only if the given address is not 127.255.255.255, where begin+1 wraps |
| Dhcp.PoolCount | opennotrd/core/dhcp.go:23-27 | the pool has max(0, end - begin - 1) addresses |
| Dhcp.PoolWithinPrefix | opennotrd/core/dhcp.go:23-27 | its addresses share the prefix; the gateway and the last address are not among them |
| Dhcp.PoolText | opennotrd/core/dhcp.go:17-27 | the pool is exactly the dotted forms of the numbers after the given one and before the last of its block |
| Dhcp.PoolReads | opennotrd/core/dhcp.go:17-27 | every text of the pool reads as an address with the first bits of the given one, after it and before the last |
| Dhcp.PoolOfLastByte | opennotrd/core/dhcp.go:17-27 | for a prefix of 24 bits or more the pool is a.b.c.n for the n between |
| Dhcp.DHCP.constructor | opennotrd/core/dhcp.go:17-35 | the loop collects the range, nothing is leased, and the gateway is the text of the address given |
| Dhcp.DHCP.SelectIP | opennotrd/core/dhcp.go:41-52 | hands out some free address, never a leased one; fails exactly when none is free |
| Dhcp.DHCP.ReleaseIP | opennotrd/core/dhcp.go:54-60 | free and leased still partition the pool if and only if the address is of the pool |
| Dhcp.DHCP.Lease | opennotrd/core/dhcp.go:41-60 | over any sequence of selections and releases of leased addresses no address is leased twice at once, and free and leased ones make up the pool |

## Left out

- LogCodec.DecodeField: index sums such as `iNdEx + msglen` are over mathematical integers. For a declared length so close to 2^63 that the sum of the original overflows, the model reports an unexpected end where the original panics or reports an invalid length; no accepted input has such a length.
- LogCodec.SkipLog: the same for `iNdEx += length`.
- LogCodec.SkipGroupLog: the same for `start + next`.
- LogCodec.DecodeUnknown: the same for `iNdEx + skippy`.
- LogCodec.DecodeVarint: the `|=` of groups that do not overlap is written as an addition.
- LogClasses.LogContent.Unmarshal: what the receiver holds after an error is not stated; index overflow as above.
- LogClasses.Log.Unmarshal: what the receiver holds after an error is not stated, and child pointers are never nil; index overflow as above.
- LogClasses.LogGroup.Unmarshal: as for Log.
- LogClasses.LogGroupList.Unmarshal: as for Log.
- LogTheorems.RoundTripList: encodings of 2^63 bytes or more, which no Go slice can hold, are excluded.
- Packet.Assemble: the system call.
- Framing.ReadHeader: the JSON of a proxy header is an opaque byte string, and that it may fail to parse is left out.
- UdpForward.ClientReceivesFlow: nothing is said of the bytes on a stream after a failed write; `Serve` keeps the entry and may go on writing to it.
- UdpForward.StepKeeps: a forwarder reads header and body of a frame in one step, and may leave its loop at any time (end of stream, error or deadline); the lookup of the client's session by address is a choice between opening and giving up.
- AnsiColor.ChangeColor: whether setting the attribute succeeds is looked at in `AnsiWriter` alone, as a property of the console.
- AnsiWriter.AnsiColorWriter.FlushTo: errors of the underlying writer.
- AnsiWriter.AnsiColorWriter.Write: errors of the underlying writer; inputs are text without ESC and whole sequences `ESC [ parameters final`, handed over whole or byte by byte; other chunkings, runs of ESC, and a chunk that makes the original slice with a negative index are not modelled.
- FileLog.FileLogWriter.StartLogger: failures of Stat and of counting the lines of the file just opened.
- FileLog.FileLogWriter.Append: a write succeeds as a whole or not at all.
- FileLog.FileLogWriter.WriteMsg: as for Append; limits are proved for writers one at a time and single-line messages, concurrent writers can overshoot them.
- FileLog.FileLogWriter.RunAll: as for Append; files removed by others and `deleteOldLog` are not modelled.
- AsyncLog.FlushIsComplete: one call of Flush or Close at a time, in asynchronous mode; loggers are not added or removed during the run, and messages sent after the drain of Close are not followed.
- TimeHeader.HeaderOrder: time zones; the calendar fields are taken as given.
- Server.LeaveRemovesOwn: that a listener is really closed after StopProxy (its signal is sent without waiting) and panics in `publicIP` are not modelled.
- Server.ProxiesInStep: what is paired are the manager's calls, by key. What a plugin does with them is not modelled: the TCP and UDP plugins ignore a StopProxy of an item they do not run, and the HTTP one deletes by domain and protocol, so that two ports of a domain share an upstream.
- Plugin.DeletedConsistent: as for ProxiesInStep.
- Server.VipsNeverRepeat: addresses are never given back, as in the code; a server out of addresses refuses every client.
- Dhcp.PoolExact: the parsing of the CIDR text; a prefix length is taken to be at most 32. An IPv4-mapped CIDR such as `::ffff:10.0.0.1/120` passes `To4()` with a length of 120, and opennotrd/core/dhcp.go:75 then shifts by a negative count and panics.
- Sockets, tproxy options, smux, etcd, JSON, YAML and HTTP: pure I/O or libraries.
- The TCP proxy of client and server: two copies between connections.
- `sozLog`, `encodeFixed32Log`, `encodeFixed64Log`, getters and `String`: unused or single expressions.
- The console, SMTP, Slack and Aliyun REST loggers, colour constants: easy or pure I/O.
