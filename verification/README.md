# rustmate, verified

rustmate is a bounded traffic-analysis pipeline: packets are routed to shard
workers, flows are reassembled into streams, streams are stored, scanned for
patterns and cut into protocol messages, and a view of all of it is kept for
live clients. Every part works piece by piece and within bounds. This project
models those parts and proves that the incremental, bounded or concurrent form
agrees with a simple whole-input form.

| files | subject |
|---|---|
| `Http1Framer`, `Http1DirectionState`, `Http1Run`, `Http1Splits`, `Http1Resync` | the HTTP/1 framer of one direction, what every run of it keeps, that packet boundaries do not matter, and what becomes of bytes between messages |
| `WireFrames`, `RecordFramer`, `RecordDirectionState`, `RecordRoundTrip` | TLS records and WebSocket frames, the framer that cuts them, and written ones read back |
| `ChunkedBody`, `ChunkedRoundTrip` | two decoders of the chunked coding against one encoder |
| `StreamStates`, `ProtocolMessages` | the tables of framers, many streams fed through them in any order, and the analyzer that hands each chunk to the framers it is for |
| `DnsName` | DNS names with compression pointers |
| `WebSocketMessages`, `WebSocketRoundTrip` | fragmented WebSocket messages put together again |
| `UrlDecoding` | URL decoding |
| `ContentDirection`, `ContentRecord`, `ContentStore`, `StreamContent` | the stored bytes of all streams |
| `PatternScan`, `PatternEngine`, `PatternRun` | literal patterns found as the bytes come in, and whole runs of store and engine |
| `StreamPlacement`, `OffloadNetwork`, `NetworkInvariant`, `NetworkProgress`, `NetworkDelivery`, `NetworkShutdown`, `NetworkSplits` | coordinator, shard workers, offload workers and the queues between them |
| `ShardTopology`, `ShardOwners`, `ShardMetrics`, `ShardRouter`, `ShardAffinity`, `ShardCoordinator` | which shard a packet goes to, and the load accounts |
| `RoutedFlows` | the router and the network of workers together |
| `StreamView`, `StreamPages`, `LiveDelta` | the stream view, its pages, and the log of live deltas |
| `Bytes`, `MapSums`, `OldestFirst` | shared vocabulary, and the bounded tables that forget the oldest entry first |

What the program updates in place is a class here, and its loops are loops. Each
method is proved against a function of the fields it changes, and the properties
are lemmas about those functions; the stream store, the pattern engine and the
stream view state their invariants on the class. The network of threads is a
transition system: a state, the steps each thread can take, and what each does.

Conventions. Counters that saturate at the top of `u64` or `usize` are unbounded
numbers, so every result assumes that no counter gets there. TCP sequence
numbers stay modulo 2^32 (section 3.4 of RFC 9293). `usize` has 64 bits.

## Where the program does not do what one would expect

- A chunked HTTP/1 message that is cut right between the CR and the LF after a
  chunk's data is reported as a parse error, although more bytes would complete
  it (`src/stream_message.rs:2780-2788`). `Http1Splits.SplitInvariance` proves
  that this, and input that outgrows the buffer, are the only ways to get a
  different result; `Http1Splits.CutInsideChunkNewlineFails` gives the failing family.
- A line break without a CR is not seen by the scanners when a CRLF comes anywhere behind
  it (`src/stream_message.rs:2793-2817`). So a message whose head ends in bare line feeds is
  emitted in a push of its own, and not when another message comes with it
  (`Http1Resync.BareHeadsDependOnTheCut`); and the scanner refuses chunked bodies that
  the transform's decoder decodes (`ChunkedRoundTrip.DecodersDisagreeOnBareLf`).
- With the `inline` policy a flow can be split between an offload worker and its
  shard, because the least-recently-used table of placements forgets.
  `StreamPlacement.EvictionSplitsAFlow` is such a case, `StreamPlacement.SplitExactly`
  says exactly when it happens: when a chunk that comes after as many other flows as
  the table holds finds room though the flow's first chunk found none, or none
  though that one found room. `StreamPlacement.NeverSplitExactly` says which orders
  of chunks are safe however full the queues are, and `NetworkSplits.NetworkSplitsExactly`
  that the others are split by some complete run of the network.
- A TCP flow of which a packet comes after its owner entry was evicted can go on at
  another shard (`ShardAffinity.EvictionMovesAFlow`). The order of the packets' flows
  alone says when that is: `ShardAffinity.StaysPutExactly` proves that a flow stays on
  one shard for all packet sizes and hashes if and only if it does not come back so.
  An eviction after its last packet makes no difference.
- After the first unit that cannot be parsed the TLS and WebSocket framers throw
  the rest of their buffer away, good units included (`RecordFramer.GoodAfterBad`,
  `RecordFramer.FrameAfterBadOpcode`); `RecordFramer.SplitInvariance` says exactly when.
- WebSocket frames that come in the chunk that completes their flow's upgrade are not
  framed (`src/stream_message.rs:606-641`, `ProtocolMessages.FrameInTheUpgradesChunk`);
  `ProtocolMessages.WebSocketAfterUpgrade` says exactly when the frames start right
  after the upgrade. As the request already upgrades the flow, the head of its answer
  is taken for a frame and reported as an error (`ProtocolMessages.AnswerIsNoFrame`).
- A client that polls the live deltas with a cursor past the latest one, as after a
  restart of the server, is never told of the deltas that are pushed up to that
  cursor, and does not get them either (`src/api.rs:1310-1336`,
  `LiveDeltas.RestartIsNotNoticed`). `LiveDeltas.SkippedExactly` says which these are,
  and that there are some if and only if the cursor is past the latest delta and
  something is pushed.

## Model

| member | source | states |
|---|---|---|
| ChunkedBody.FindChunkedBodyEnd | src/stream_message.rs:2721-2791 | the scan loop returns what the recursive scan says of the body, error cases included |
| ChunkedBody.HeaderEnd | src/stream_message.rs:2793-2804 | a found head ends inside the input and before its separator |
| ChunkedBody.LineEnd | src/stream_message.rs:2806-2817 | a found line ends inside the input and before its line break |
| ChunkedBody.NextLine | src/stream_transform.rs:891-904 | the decoder's line ends inside the input and before its line break |
| ChunkedBody.AppendLimited | src/stream_transform.rs:809-813 | below the limit, the result is the concatenation cut to the limit |
| ChunkedBody.DecodeChunkedBody | src/stream_transform.rs:824-889 | the decode loop returns what the recursive decoder says, partial and truncated cases included |
| ChunkedRoundTrip.HexRoundTrip | src/stream_transform.rs:906-914 | printing a size in hexadecimal and reading it gives the size back |
| ChunkedRoundTrip.EverySizeHasALine | src/stream_transform.rs:906-914 | every size can be written as a size line |
| ChunkedRoundTrip.SizeIsRead | src/stream_transform.rs:906-914 | a size is read with or without one plus before it, and refused from 2^64 on |
| ChunkedRoundTrip.ScannerReadsSize | src/stream_message.rs:2729-2744 | any size line, with upper or lower case digits and any extension, is read as its size by the scanner |
| ChunkedRoundTrip.DecoderReadsSize | src/stream_transform.rs:906-927 | the same size line is read as the same size by the decoder |
| ChunkedRoundTrip.FieldsAreATrailer | src/stream_message.rs:2762-2772 | any field lines with CRLF line ends make a trailer that the scanner recognises |
| ChunkedRoundTrip.ScanEncoded | src/stream_message.rs:2721-2791 | on an encoded body, with or without trailer fields, followed by anything, the scanner reports its exact wire length, chunk count, decoded length and trailer length |
| ChunkedRoundTrip.ScanCut | src/stream_message.rs:2721-2791 | on every proper prefix of an encoded body, also within its trailer, the scanner asks for more, except between the CR and LF after chunk data, where it gives up |
| ChunkedRoundTrip.DecodeEncoded | src/stream_transform.rs:824-889 | on an encoded body followed by anything, the decoder returns the first bytes of the joined chunks up to the limit, says exactly when the limit stopped it and how many chunks it took, and below the limit reports the last chunk and what follows it |
| ChunkedRoundTrip.DecodeCut | src/stream_transform.rs:824-889 | on every proper prefix of an encoded body the decoder returns the data in it up to the limit, calls it partial exactly when a chunk or the last line is cut, and fails exactly when the cut is between the CR and LF after chunk data that the limit lets it reach |
| ChunkedRoundTrip.DecodeLooseStep | src/stream_transform.rs:891-904 | a chunk whose line breaks are CRLF or a bare LF, in any mix, is decoded as the same chunk |
| ChunkedRoundTrip.DecodersDisagreeOnBareLf | src/stream_message.rs:2806-2817 | a family of bodies with a bare LF that the decoder decodes in full and the scanner refuses |
| ChunkedRoundTrip.DecodersInvertEncoder | src/stream_transform.rs:824-889 | both decoders invert the one encoder, with every count and flag, and so agree with each other |
| Http1Framer.FixContextIsRedundant | src/stream_message.rs:2336-2349 | correcting the context of a message that consumed its head and body changes nothing |
| Http1Framer.FixContextCorrects | src/stream_message.rs:2336-2349 | whatever else the context says is put right |
| Http1Framer.ParseTurn | src/stream_message.rs:2202-2334 | each turn of the parse loop that goes on leaves a shorter buffer |
| Http1Parser.Http1DirectionState.Push | src/stream_message.rs:2127-2169 | state and messages after a push are those of the framer's function |
| Http1Parser.Http1DirectionState.AppendInput | src/stream_message.rs:2171-2200 | new input is appended, or starts a buffer at the first byte that looks like HTTP |
| Http1Parser.Http1DirectionState.ParseBuffer | src/stream_message.rs:2202-2334 | the loop over the buffer ends and does what the recursive parser does |
| Http1Parser.Http1DirectionState.TakeMessage | src/stream_message.rs:2243-2332 | with a whole head: a message, a pending body, a parse error or a wait for more |
| Http1Parser.Http1DirectionState.ResyncOrClear | src/stream_message.rs:2388-2394 | skips to the next byte that looks like HTTP, or drops all |
| Http1Parser.Http1DirectionState.DrainFront | src/stream_message.rs:2396-2403 | drops exactly so many bytes and moves the buffer's start along |
| Http1Parser.Http1DirectionState.ParseError | src/stream_message.rs:2351-2386 | an error message takes the next ordinal |
| Http1Run.RunInvariant | src/stream_message.rs:2127-2409 | over any pushes: the buffer ends where the arrived bytes end, a pending body means an empty buffer and accounts for what remains, ordinals count from zero, complete messages are a head and a body on disjoint increasing ranges, and an error covers buffered bytes behind the complete messages before it |
| Http1Run.PushKeeps | src/stream_message.rs:2127-2169 | one push keeps the run invariant from any state that has it |
| Http1Splits.WholeMessageTurn | src/stream_message.rs:2202-2334 | a buffer that starts with a well-formed message yields exactly that message and is drained of it |
| Http1Splits.FramingIsAnnounced | src/stream_message.rs:2553-2577 | a body is framed in chunks exactly when the transfer coding names them in letters of any case, whatever the length; otherwise by exactly the Content-Length, and without one there is none |
| Http1Splits.InfoIsBuilt | src/stream_message.rs:2521-2551 | what a message says of its body is the exact wire and decoded sizes, counts and codings of the body that was written |
| Http1Splits.LooksLikeIs | src/stream_message.rs:2827-2834 | bytes look like HTTP exactly when they start with one of ten words, or are the start of one |
| Http1Splits.PendingCompletes | src/stream_message.rs:2412-2453 | the pending path emits the very message that the whole-message path builds |
| Http1Splits.PushCanonical | src/stream_message.rs:2127-2169 | one push takes the state for the first n bytes of a stream to the state for n more, if and only if it fits and is not cut inside a chunk newline |
| Http1Splits.SplitInvariance | src/stream_message.rs:2127-2409 | a run over any pieces emits exactly the messages of the stream's prefix and leaves the same state, if and only if every piece fits and none ends inside a chunk newline; otherwise it reports an error |
| Http1Splits.CutsDoNotMatter | src/stream_message.rs:2127-2409 | two good ways to cut the same bytes give the same messages and states that cannot be told apart |
| Http1Splits.CutInsideChunkNewlineFails | src/stream_message.rs:2780-2788 | every chunked message, whole without error, is an error when cut before the LF after its first chunk |
| Http1Splits.PlainRunsAreGood | src/stream_message.rs:2202-2334 | without chunked bodies every cut is good when the stream, or each piece plus a head, is within the buffer limit |
| Http1Resync.JunkIsPassedOver | src/stream_message.rs:2202-2213 | bytes that nowhere look like HTTP, before, between or after well-formed messages, are passed over: exactly the messages around them are emitted, at their places |
| Http1Resync.BareHeadAlone | src/stream_message.rs:2793-2804 | a message whose head ends in two bare line feeds is emitted when it comes on its own |
| Http1Resync.BareHeadsDependOnTheCut | src/stream_message.rs:2793-2804 | before any well-formed message in the same push it is not, so for such messages the cut matters |
| WireFrames.XorUndoesItself | src/stream_message.rs:1378-1381 | exclusive or with the same number twice gives the number back |
| WireFrames.UnmaskUndoesItself | src/stream_message.rs:1378-1381 | masking a payload twice with one mask gives it back |
| WebSocketRoundTrip.XorBit | src/stream_message.rs:1378-1381 | each bit of the exclusive or says whether the two bits differ |
| WebSocketRoundTrip.UnmaskIsExclusive | src/stream_message.rs:1378-1381 | unmasking combines byte i of the payload with byte i mod 4 of the key, in each of the eight bits |
| WireFrames.ParseWebSocketFrame | src/stream_message.rs:1207-1299 | a complete frame lies within the bytes, after a non-empty header |
| WireFrames.ParseTlsRecord | src/stream_message.rs:1395-1432 | a complete record lies within the bytes, after a non-empty header |
| WireFrames.ParseIsStable | src/stream_message.rs:1207-1432 | what either parser decides about some bytes it decides about all longer ones |
| RecordRoundTrip.UnitIsRead | src/stream_message.rs:1207-1432 | a TLS record or WebSocket frame that was written is read back with every field, its close code and its payload unmasked, whatever follows it |
| WebSocketRoundTrip.FramerReadsFrame | src/stream_message.rs:1207-1299 | of all frames that can be written, the framer reads those with a known opcode and unfragmented short control frames, and refuses the others |
| RecordRoundTrip.UnitThereExactly | src/stream_message.rs:1207-1432 | a parser finds a unit exactly when a written unit stands at the front |
| RecordRoundTrip.ReadRecordIsWritten | src/stream_message.rs:1395-1432 | writing out a record that was read gives its bytes |
| RecordRoundTrip.ReadFrameIsWritten | src/stream_message.rs:1207-1299 | writing out a frame that was read, with its mask, gives its bytes |
| RecordRoundTrip.StartIsIncomplete | src/stream_message.rs:1207-1432 | the start of a unit is neither a unit nor refused |
| RecordParser.RecordDirectionState.Push | src/stream_message.rs:965-1025 | the push of the WebSocket framer does what the function says |
| RecordParser.RecordDirectionState.CutFrames | src/stream_message.rs:1079-1139 | its loop, the same in the TLS framer, cuts units until the rest is incomplete, invalid or empty |
| RecordFramer.UnitsGoOn | src/stream_message.rs:965-1191 | the units of a longer input are those of the shorter one and then those of its rest with the new bytes |
| RecordFramer.PushIs | src/stream_message.rs:965-1191 | one push emits exactly the units it completes, with the ordinals and ranges of the whole input, or says what is wrong |
| RecordFramer.SplitInvariance | src/stream_message.rs:965-1191 | for all bytes and all cuts: messages and state are those of the whole input; an error comes if and only if the input is broken or a piece does not fit, and after all the good units it covers exactly what was buffered behind them, with the reason |
| RecordFramer.UnitsOfConcatenation | src/stream_message.rs:965-1191 | valid units followed by an incomplete tail are cut into exactly those units and the tail |
| RecordRoundTrip.WrittenUnitsAreEmitted | src/stream_message.rs:965-1191 | any written units and the start of one more, cut into any pieces that fit, come out as one message for each, with every range and field as written, and the start is kept |
| RecordFramer.GoodAfterBad | src/stream_message.rs:965-1191 | a good unit behind a bad one in the same push is thrown away, and is cut when it comes in a push of its own |
| RecordFramer.FrameAfterBadOpcode | src/stream_message.rs:1207-1299 | a concrete WebSocket input of which the second frame is lost |
| StreamStates.FeedIsOwn | src/stream_message.rs:780-855 | no chunk is dropped, a stream's chunk goes to its own framer, no other framer changes, and only the oldest is forgotten, when a new one needs its place |
| StreamStates.StateTable.Ensure | src/stream_message.rs:780-797 | the eviction loop always makes room, so a stream's state is always found |
| StreamStates.StateTable.FeedTo | src/stream_message.rs:622-634 | feeding one chunk to its stream's framer does what the function says |
| StreamStates.StreamsAreIndependent | src/stream_message.rs:606-641 | however the chunks of many streams are interleaved, a stream of which no chunk comes after its state was evicted emits exactly what its own chunks alone would give |
| StreamStates.InterleavedHttp1 | src/stream_message.rs:606-641 | so a well-formed HTTP/1 stream, interleaved and cut in any good way, yields exactly its messages |
| StreamStates.InterleavedRecords | src/stream_message.rs:651-723 | and the chunks handed to a TLS or WebSocket framer yield exactly their units; which chunks are handed to it is said by ProtocolMessages |
| ProtocolMessages.ProtocolMessageAnalyzer.EmitMessages | src/stream_message.rs:606-649 | a chunk goes to the TLS framer if its stream has one or it looks like TLS, to the WebSocket framer if its flow is upgraded, and to the HTTP/1 framer |
| ProtocolMessages.ProtocolMessageAnalyzer.ActivateFor | src/stream_message.rs:857-875 | the flow is upgraded once if any message upgrades it |
| ProtocolMessages.FramersAreSeparate | src/stream_message.rs:606-723 | the framers of each kind do on the chunks handed to them what they would do without the others |
| ProtocolMessages.HandedExactly | src/stream_message.rs:614-616 | a chunk is handed to the WebSocket framer if and only if its flow is queued by upgrades that earlier chunks completed, never its own |
| ProtocolMessages.HandedAfterUpgrade | src/stream_message.rs:606-641 | with room for all upgraded flows, a stream is handed over from the chunk after its flow's first upgrade on |
| ProtocolMessages.WebSocketAfterUpgrade | src/stream_message.rs:606-681 | its WebSocket messages are the units of those chunks, and they go on from the end of the upgrade if and only if the upgrade's chunk ends there |
| ProtocolMessages.FrameInTheUpgradesChunk | src/stream_message.rs:606-641 | any frame in one chunk with the upgrade is lost, and in a chunk of its own it is not |
| ProtocolMessages.AnswerIsNoFrame | src/stream_message.rs:651-681 | the answer to a request that upgraded its flow is taken for a frame, reported as an error and thrown away with its chunk |
| ProtocolMessages.TlsIsHanded | src/stream_message.rs:683-723 | with room for all streams, a stream that starts like TLS is handed to its framer from its first byte on, however it is cut |
| ProtocolMessages.TlsMessages | src/stream_message.rs:683-723 | so its TLS messages are its units, however it is cut and interleaved |
| ProtocolMessages.LooksLikeTlsExactly | src/stream_message.rs:2857-2868 | bytes look like TLS exactly when a written record can start with their content type and, once it is there, their version |
| OldestFirst.InstallNew | src/stream_message.rs:780-797 | a new entry is always installed, at the cost of the oldest exactly when the table is full |
| OldestFirst.EvictFirstKeeps | src/stream_message.rs:782-788 | evicting the front of the queue removes exactly one entry and keeps map and queue in step |
| OldestFirst.FewKeysStay | src/shard.rs:364-393 | with room for all keys none is dropped from a queue that forgets the oldest first |
| DnsName.ReadDnsName | src/stream_message.rs:1917-1963 | the loop ends, reads only inside the message, and returns what recursive reading with at most 16 jumps returns |
| DnsName.ShapesAreUnique | src/stream_message.rs:1917-1963 | at most one layout of labels, pointers and root spells a name at a position |
| DnsName.ReadSucceedsExactlyOnNames | src/stream_message.rs:1917-1963 | reading succeeds exactly when a layout with at most 16 pointers exists, with its labels and the offset past the first pointer or the root |
| DnsName.TooManyPointers | src/stream_message.rs:1935-1942 | a name that has a layout is refused as a loop exactly when it has more than 16 pointers |
| DnsName.EncodedNameIsRead | src/stream_message.rs:1917-1963 | encoded labels are read back wherever they stand, followed by what the root or the pointer leads to |
| DnsName.PlainNameRoundTrip | src/stream_message.rs:1917-1963 | an uncompressed name written anywhere in a message is read back |
| DnsName.CutNameIsTruncated | src/stream_message.rs:1922-1959 | of a name cut off at the end of the message the reader says whether it is cut within a label or between two |
| DnsName.PointerIsRead | src/stream_message.rs:1926-1942 | a pointer written in two bytes, the higher six bits first, leads to the name at its target, and reading ends behind the pointer |
| DnsName.CompressedNameRoundTrip | src/stream_message.rs:1917-1963 | labels followed by a pointer to a name written before read as the labels followed by that name, and reading ends behind the pointer |
| WebSocketMessages.WebSocketParser.Next | src/stream_transform.rs:680-733 | the parser returns the frame at its offset, unmasked, and moves past it, or says what is cut short |
| WebSocketMessages.WebSocketParser.ReadArray | src/stream_transform.rs:743-752 | reads so many bytes or none |
| WebSocketMessages.Transform | src/stream_transform.rs:547-644 | the reassembly loop does what the recursive run over frames does |
| WebSocketMessages.OutputIsLimited | src/stream_transform.rs:547-644 | whatever the input, no more than the limit is written |
| WebSocketRoundTrip.BigEndianRoundTrip | src/stream_transform.rs:735-741 | a length written in two or eight bytes is read back |
| WebSocketRoundTrip.FrameIsRead | src/stream_transform.rs:680-733 | any written frame, masked bit by bit or not and with any length form, is read back wherever it stands |
| WebSocketRoundTrip.CutFrameIsRefused | src/stream_transform.rs:680-733 | of a frame cut off at the end of the input the parser says whether its first bytes, its length or mask, or its payload are cut |
| WebSocketRoundTrip.ParsersAgree | src/stream_transform.rs:680-733 | the framer's parser and the transform's parser see the same frames, ends, flags and payloads, where the framer accepts them at all |
| WebSocketRoundTrip.ControlsArePassed | src/stream_transform.rs:559-562 | control frames anywhere change nothing but their count |
| WebSocketRoundTrip.MessageIsDelivered | src/stream_transform.rs:559-623 | any fragmentation of a message with control frames in between delivers its whole payload |
| WebSocketRoundTrip.TransformRecoversMessages | src/stream_transform.rs:547-644 | from the wire bytes of any messages, with any masks, the transform recovers their payloads in order and counts them and the control frames, or returns their first bytes when the limit is reached, and is a no-op when nothing was compressed |
| WebSocketRoundTrip.WrongFramesAreRefused | src/stream_transform.rs:563-640 | after any messages, a continuation without a message, an interrupted message, an unfinished one and one that cannot be decompressed are refused, each for its reason |
| UrlDecoding.UrlDecode | src/stream_transform.rs:383-439 | the decoding loop does what the recursive decoder does; without a change it is a no-op |
| UrlDecoding.DecodeFrom | src/stream_transform.rs:383-439 | the output is never longer than the input |
| UrlDecoding.EncodedIsDecoded | src/stream_transform.rs:383-439 | any encoding of any bytes, with plus signs and escapes in digits of any case, decodes to those bytes; percent signs that begin no escape are kept and counted |
| UrlDecoding.EveryInputIsEncoded | src/stream_transform.rs:383-439 | every input is such an encoding |
| UrlDecoding.DecodesToMeanings | src/stream_transform.rs:383-439 | so on any input the outcome is the bytes its pieces stand for and the number of stray percent signs, or a no-op when there is no plus sign and no escape |
| ChunkedBody.HexValueIs | src/stream_transform.rs:1044-1051 | the sixteen digits have their values in either case, and no other byte has one |
| UrlDecoding.NothingToDecode | src/stream_transform.rs:383-439 | the decoder declares a no-op exactly when there is no plus sign and no valid escape, and then nothing was changed |
| ContentDirection.StoreRefines | src/stream_content.rs:530-568 | storing a slice, merged or as a new segment, stores its bytes and sequence numbers after what was there |
| ContentDirection.AppendRefines | src/stream_content.rs:519-571 | an append extends the history and what is stored by exactly its bytes |
| ContentDirection.SlicesAreCounted | src/stream_content.rs:545-565 | every slice is reported once and either merges or becomes a segment |
| ContentDirection.TrimRefines | src/stream_content.rs:599-627 | a trim drops the oldest bytes and leaves a tail of the same history |
| ContentDirection.EveryRunIsATail | src/stream_content.rs:518-722 | after any appends and trims the segments, non-empty, contiguous and within the segment limit, are the last stored bytes of all that was appended, each with its true sequence number |
| ContentDirection.AdvanceSteps | src/stream_content.rs:536-539 | each byte has the sequence number after the one before it, and zero comes after the last |
| ContentDirection.EveryRunIsPacked | src/stream_content.rs:573-597 | over any appends and trims, no two stored segments next to each other could have been one, the first excepted |
| ContentDirection.JoinedIsTheTail | src/stream_content.rs:629-635 | put together the segments are the tail of the history |
| ContentDirection.WindowsAreTheRetainedPart | src/stream_content.rs:652-711 | a window request gets the kept part of what it asks for as one window, or nothing |
| ContentDirection.WindowsHoldWhatIsAsked | src/stream_content.rs:652-711 | of any segments, contiguous or not, the windows hold exactly the bytes asked for at their places, in runs as long as they can be |
| ContentDirection.RangesTile | src/stream_content.rs:557-565 | the ranges an append reports lie end to end over exactly the new bytes with their sequence numbers |
| ContentStore.DirectionContent.Append | src/stream_content.rs:519-571 | the slicing loop does what the recursive append does; ranges and merges are reported |
| ContentStore.DirectionContent.TryMergeLast | src/stream_content.rs:573-597 | extends the last segment exactly when the sequence goes on and the sum fits |
| ContentStore.DirectionContent.TrimOldest | src/stream_content.rs:599-627 | the trimming loop, and what it says it trimmed |
| ContentStore.DirectionContent.Windows | src/stream_content.rs:652-711 | the gathering loop over any segments |
| ContentStore.DirectionContent.StoredContent | src/stream_content.rs:629-635 | the bytes of all segments joined |
| ContentRecords.TrimToLimitKeeps | src/stream_content.rs:416-431 | trimming both directions to one limit drops exactly the excess, marks the stream truncated exactly then, and leaves both directions tails |
| ContentRecords.OldestGoesFirst | src/stream_content.rs:416-445 | the direction whose first segment is older pays first, and the other only when that is used up |
| ContentRecords.OldestDirectionIs | src/stream_content.rs:433-445 | the direction to trim has segments, and the first of them is no younger than the other direction's, by time, then by place, then by direction |
| ContentRecords.ObserveAllKeeps | src/stream_content.rs:360-414 | an observation's counters match what was stored and trimmed, and the limit holds after it |
| ContentRecords.NothingToObserve | src/stream_content.rs:391-393 | an observation without bytes changes nothing |
| ContentStore.ContentRecord.TrimToLimit | src/stream_content.rs:416-431 | the trimming loop ends and does what the function says |
| ContentStore.ContentRecord.OldestDirection | src/stream_content.rs:433-445 | the direction to trim first |
| ContentStore.ContentRecord.ObservePayload | src/stream_content.rs:382-414 | one payload appended and the record trimmed |
| ContentStore.ContentRecord.ObserveChunks | src/stream_content.rs:360-380 | all chunks of an observation, with their updates merged |
| StreamContents.NormalizedIsBounded | src/stream_content.rs:32-47 | a normalised configuration orders segment, stream and total limits, and normalising twice changes nothing |
| StreamContents.StreamContent.ObserveFlow | src/stream_content.rs:147-228 | from any valid store: the idle streams go when it is time and only then, a new flow gets a stream, the flow's stream gets exactly its record's update, others go only for want of room or because the total exceeds its bound, and observed bytes are stored or dropped |
| StreamContents.StreamContent.EnsureStream | src/stream_content.rs:271-289 | with room the new stream is added and nothing else changes; with a full table the idle streams go first, and exactly one that no other was seen before goes only if it is still full |
| StreamContents.StreamContent.EvictIdle | src/stream_content.rs:298-311 | removes exactly the streams idle for longer than the timeout |
| StreamContents.StreamContent.EnforceGlobalLimit | src/stream_content.rs:313-320 | ends with the total within its limit, never evicts the current stream, evicts in order of last use, and no more than it must: with the last one evicted the total would exceed the limit |
| StreamContents.StreamContent.IsTookIn | src/stream_content.rs:147-228 | a stream other than the flow's is untouched or gone, and with room and within the bound none is gone |
| StreamContents.StreamContent.LimitedKeeps | src/stream_content.rs:313-320 | within the bound nothing is evicted |
| StreamContents.StreamContent.EvictOldest | src/stream_content.rs:322-334 | removes one least recently seen stream other than the excepted one, or none if there is none |
| StreamContents.StreamContent.RemoveStream | src/stream_content.rs:336-347 | a removed stream's bytes become dropped bytes |
| StreamContents.StoredWithout | src/stream_content.rs:336-347 | the total is the sum over streams, counted in any order |
| PatternScan.NoLiteralIsLonger | src/pattern.rs:129-134 | no literal is longer than the length the lookbehind is made from |
| PatternScan.RangeFinds | src/pattern.rs:261-326 | scanning the windows of a new range finds exactly the occurrences in the whole history that end in the range and start where bytes are still kept |
| PatternScan.UpdateFinds | src/pattern.rs:261-299 | over the ranges of one update each such occurrence is found once |
| PatternScan.ObservationReports | src/stream_content.rs:360-414 | the ranges an observation reports tile what it added to each direction |
| PatternScan.EveryOccurrenceOnce | src/pattern.rs:261-405 | over any run of observations, a match is found once if it occurs in all the direction carried and its start was still kept when its end came in, and never otherwise |
| PatternScan.WholeStreamScan | src/pattern.rs:261-405 | for a stream that fits its limit, scanning piece by piece finds what one scan of the whole stream finds, each once |
| ContentRecords.NothingIsTrimmed | src/stream_content.rs:416-431 | while the limit has room for all that comes nothing is trimmed |
| PatternEngines.WantedIsFound | src/pattern.rs:261-299 | the engine asks for a match exactly when the scans of its direction find it |
| PatternEngines.AllGrantedBelowCaps | src/pattern.rs:407-424 | as long as both caps leave room nobody who asks is refused |
| PatternEngines.PatternEngine.ScanUpdate | src/pattern.rs:261-299 | each wanted match asks for its event once, and gets it exactly while both caps leave room; events handed out plus dropped ones are those that asked |
| PatternEngines.PatternEngine.ScanWindow | src/pattern.rs:307-354 | the candidates of a window that touch new bytes, each once |
| PatternEngines.PatternEngine.EmitMatchIfNew | src/pattern.rs:356-405 | a match asks only if it touches the new range and has not asked before |
| PatternEngines.PatternEngine.ReserveMatch | src/pattern.rs:407-424 | an event is granted exactly while the total and the stream's events are below their caps |
| PatternEngines.PatternEngine.FindOverlapping | src/pattern.rs:318-327 | the overlapping search finds all occurrences, each once |
| PatternRuns.EveryOccurrenceAsksOnce | src/pattern.rs:261-405 | over any run over any streams, evicted and started anew, the engine asks for an event once for each life of a stream in which a match occurs and its start was still kept when its end came in, and never otherwise |
| PatternRuns.ScanPacket | src/pipeline.rs:763-770 | a packet is stored and what is new of it scanned; the store starts the stream anew exactly when it has no record of it or evicts it as idle |
| PatternRuns.ScanRun | src/pipeline.rs:763-770 | over a whole run of store and engine the matches that ask are exactly those, each gets its event in turn unless a cap is reached, and events handed out plus dropped ones are all that asked |
| StreamPlacement.PlacementTells | src/sharded_pipeline.rs:268-287 | what the placement table says of a flow tells which outcomes its chunks have had so far |
| StreamPlacement.TableIsRecent | src/sharded_pipeline.rs:268-287 | under inline, a flow is missing from the table exactly when it is new or as many other flows as the table holds came by since its last chunk |
| StreamPlacement.OneProcessor | src/sharded_pipeline.rs:1131-1210 | all chunks of a flow that are not dropped are submitted, or all are kept, in order: always under block and drop, and under inline if and only if each chunk that comes after as many other flows as the table holds finds room exactly if the flow's first chunk did |
| StreamPlacement.SplitExactly | src/sharded_pipeline.rs:1516-1577 | under inline, a flow has both submitted and kept chunks exactly when some chunk that comes that late disagrees with the first one about room |
| StreamPlacement.NeverSplitExactly | src/sharded_pipeline.rs:1516-1577 | under inline, a flow stays on one side however full the queues are, if and only if no chunk of it comes that late |
| StreamPlacement.FewFlowsNeverLate | src/sharded_pipeline.rs:268-287 | no chunk comes late while no more flows come by than the table holds |
| StreamPlacement.KeptAgrees | src/sharded_pipeline.rs:268-287 | a flow whose placement was never evicted is never split |
| StreamPlacement.EvictionSplitsAFlow | src/sharded_pipeline.rs:1516-1577 | a concrete run under inline in which an evicted flow is split |
| StreamPlacement.FewFlowsAreKept | src/sharded_pipeline.rs:268-287 | no placement is evicted while no more flows came by than the table holds |
| StreamPlacement.DecisionFits | src/sharded_pipeline.rs:1131-1210 | which outcomes a policy, a placement and a full queue leave open |
| OffloadNetwork.SameTargetExactly | src/shard.rs:990-992 | a flow is offloaded to an offload worker, and two flows to the same one exactly when their hashes are congruent |
| NetworkInvariant.StepKeeps | src/sharded_pipeline.rs:718-1128 | every step of every thread keeps the invariant: stops come last, reports are counted once, and phases follow each other |
| NetworkInvariant.RunKeeps | src/sharded_pipeline.rs:718-1447 | every reachable state has the invariant |
| NetworkInvariant.OffloadsRunWhileWorkersDo | src/sharded_pipeline.rs:845-858 | no offload worker is stopped while a shard worker is unfinished |
| NetworkProgress.NodeMoves | src/sharded_pipeline.rs:1162-1181 | with room in the output every node with work moves, or the offload worker it waits for does |
| NetworkProgress.NeverStuck | src/sharded_pipeline.rs:718-962 | in every reachable state before the end some thread is bound to move: no deadlock |
| NetworkProgress.StepWeighs | src/sharded_pipeline.rs:1321-1447 | every step but a live snapshot uses up some of a finite weight |
| NetworkProgress.RunsEnd | src/sharded_pipeline.rs:782-1128 | a run has no more steps than its input weighs and its snapshots allow |
| NetworkProgress.StuckMeansDone | src/sharded_pipeline.rs:782-867 | a run that cannot go on has shut down completely |
| NetworkDelivery.NothingLostStep | src/sharded_pipeline.rs:1811-1821 | at every step, what a node has sent is what was received from it and what is on its way, in order |
| NetworkDelivery.BooksStep | src/sharded_pipeline.rs:1449-1646 | at every step, each node's chunks are handled, in work or queued, its events sent or unflushed, and its counters count its decisions |
| NetworkDelivery.FlowStep | src/sharded_pipeline.rs:1131-1160 | at every step, a flow's offload worker has got exactly what the flow's owner submitted, in order, and no other has got any |
| NetworkDelivery.MissingStep | src/sharded_pipeline.rs:1579-1611 | at every step, submitted chunks and bytes are those that arrived at offload workers |
| NetworkShutdown.NothingIsLost | src/sharded_pipeline.rs:782-867 | at the end every event any node made has been received in order, and its report last |
| NetworkShutdown.AllIsProcessed | src/sharded_pipeline.rs:1036-1082 | at the end processed chunks and bytes equal submitted ones, and everything routed was handled |
| NetworkShutdown.CompleteRun | src/sharded_pipeline.rs:782-867 | over every complete run from any input: nothing any node made is lost, each worker handled exactly what was routed to it and counted all of it, and processed equals submitted |
| NetworkShutdown.OneNodePerFlow | src/sharded_pipeline.rs:1516-1577 | over every complete run, a flow's undropped chunks were worked on by one node in the order they were routed: always under block and drop, under inline exactly when its late chunks find room as the first one did, and so always when none is late |
| NetworkSplits.Completes | src/sharded_pipeline.rs:718-867 | from every state that a run can reach the network can go on until it has shut down |
| NetworkSplits.LateIsSplitByARun | src/sharded_pipeline.rs:1131-1210 | under inline, an order of chunks in which one comes late is split by a complete run of a network whose queue fills up just then |
| NetworkSplits.NetworkSplitsExactly | src/sharded_pipeline.rs:1131-1210 | under inline, no complete run of any network splits a flow among the chunks routed to a worker, if and only if none of them comes late |
| RoutedFlows.RoutingOwns | src/shard.rs:136-233 | a TCP flow that does not come back after its entry was evicted is fed to one shard alone, from its first packet on |
| RoutedFlows.RoutedFlowOnOneNode | src/sharded_pipeline.rs:451-546 | from the first packet routed to the end of shutdown, such a flow's undropped chunks were worked on by one node in order, under inline exactly when its late chunks find room as the first one did |
| RoutedFlows.FewFlowsOnOneNode | src/sharded_pipeline.rs:451-546 | with room for all flows in the owner table and the placement tables, so is every TCP flow under every policy |
| NetworkShutdown.CountersAddUp | src/sharded_pipeline.rs:1579-1611 | at any time submitted, inline and dropped chunks add up to those routed so far |
| ShardTopology.MaskIsModulo | src/shard.rs:467-497 | masking with a power of two less one is the remainder by it |
| ShardTopology.ShardIsTheRemainder | src/shard.rs:490-506 | whichever way it is computed, the shard is the remainder by the count and exists |
| ShardOwners.RememberNew | src/shard.rs:364-393 | a new owner is always installed, at the cost of the oldest entry exactly when the table is full |
| ShardOwners.EveryStepKeeps | src/shard.rs:337-408 | map and queue keep the same distinct keys within the maximum, and a remembered owner can be looked up |
| ShardOwners.FlowOwnerTable.RememberOwner | src/shard.rs:364-393 | the eviction loop and the insertion |
| ShardOwners.FlowOwnerTable.ObservePacket | src/shard.rs:395-401 | counts a packet of a known flow and ignores others |
| ShardOwners.FlowOwnerTable.Stripe | src/shard.rs:403-407 | marks a known flow as striped |
| ShardMetrics.RouteConserves | src/shard.rs:604-690 | totals stay the sums over shards, kinds and reasons split them, and each flow's totals stay the sums of its distinct shards |
| ShardMetrics.FlowIsTracked | src/shard.rs:645-666 | a routed flow is always tracked afterwards with this packet added; no other changes, and only the oldest is forgotten, when a new one needs its place |
| ShardMetrics.RouteTracks | src/shard.rs:604-666 | any route keeps tracked flows and their queue in step, and tracks its own flow |
| ShardMetrics.AddPartAdds | src/shard.rs:832-848 | a packet adds one to exactly one shard's part of its flow |
| ShardMetrics.SkewIsBetween | src/shard.rs:1212-1221 | for any loads with something in them the skew is between 1000 and 1000 for each shard |
| ShardMetrics.SkewIsRatio | src/shard.rs:1212-1221 | the skew is a thousand times the largest load by the mean load, rounded down |
| ShardMetrics.MetricsSkew | src/shard.rs:692-729 | so are the packet and byte skews of every snapshot |
| ShardRouter.CandidatesAreGood | src/shard.rs:282-303 | stripe candidates are distinct shards that exist, with the owner among them, no more than allowed |
| ShardRouter.CandidatesAreHashed | src/shard.rs:282-303 | after the owner they are the shards that the first salts lead to, in that order: as many as allowed, or all that four salts for each shard give |
| ShardRouter.StripedGoesToTheLightest | src/shard.rs:254-280 | the chosen shard is a candidate than which none is lighter |
| ShardRouter.BestIs | src/shard.rs:254-280 | the choice is the owner if no candidate beats it, and else the first candidate that no other beats, by bytes, packets and then the tie hash |
| ShardRouter.NewFlowGoesToTheLighter | src/shard.rs:235-252 | a new flow goes to the lighter of its two shards, the first on a tie |
| ShardRouter.RoutedIsCounted | src/shard.rs:191-233 | the owner entry counts its flow's packets and bytes, and striping starts exactly at a UDP packet that finds it past a threshold |
| ShardRouter.RoutedIsOk | src/shard.rs:191-233 | an unstriped packet goes to its owner, only large UDP flows are striped, and other flows' entries are untouched or evicted |
| ShardRouter.PacketKeeps | src/shard.rs:136-189 | any packet keeps the router's tables, tracked flows and accounts in order and goes to a shard that exists |
| ShardRouter.PacketIsTracked | src/shard.rs:604-666 | in every state a run can reach, a flow's packet is counted for its flow on the shard it goes to |
| ShardRouter.CountersTell | src/shard.rs:604-690 | over any run, the counters of each shard and of all together are exactly how many packets and bytes went there, of each kind and for each reason |
| ShardRouter.FlowlessGoesTo | src/shard.rs:136-189 | a packet without a flow goes to the shard of its sequence number or to the first, as the fallback says; in dump mode and with one shard every packet goes to the first; owners are untouched and the sequence grows by one |
| ShardRouter.FallbackTakesTurns | src/shard.rs:446-459 | over any run, under round robin a packet without a flow goes to the shard of its place in the run |
| ShardRouter.EachShardOnce | src/shard.rs:446-459 | of as many such packets as there are shards each shard gets exactly one |
| ShardAffinity.QueueIs | src/shard.rs:337-408 | the queue of owners depends on the order of the packets' flows alone, not on sizes, hashes or loads |
| ShardAffinity.OwnerIsConstant | src/shard.rs:136-233 | over any run in which the flow does not come back after its entry was evicted, every packet of it, the installing one included, names one owner; TCP packets all go there |
| ShardAffinity.StripingGoesOn | src/shard.rs:191-233 | striping once begun goes on for a flow that does not come back |
| ShardAffinity.FewFlowsStayOwned | src/shard.rs:364-393 | no owner is evicted, so no flow comes back, while there are no more flows than the table has room for |
| ShardAffinity.NewRouterKeepsOwners | src/shard.rs:111-122 | so no flow comes back in a run of a new router over no more flows than that |
| ShardAffinity.EvictionMovesAFlow | src/shard.rs:235-252 | a family of runs in which an evicted TCP flow goes on at another shard |
| ShardAffinity.ComingBackMoves | src/shard.rs:235-252 | for every order of packets in which a TCP flow comes back there are packet sizes with which it moves, under any hashes that give it two evenly loaded shards |
| ShardAffinity.StaysPutExactly | src/shard.rs:136-252 | a new TCP flow stays on one shard whatever the sizes and hashes, if and only if it does not come back after its entry was evicted |
| ShardAffinity.NewFlowsStayPutExactly | src/shard.rs:111-252 | so it is for every flow of a new router |
| ShardRouter.StripedSpread | src/shard.rs:254-280 | a packet striped over all shards keeps the byte spread within any bound that is at least its size |
| ShardRouter.SpreadIsBounded | src/shard.rs:254-310 | over any run of striped packets the spread stays within the larger of the first spread and the largest packet |
| ShardCoordinators.ShardCoordinator.RoutePacket | src/shard.rs:136-189 | the coordinator does what the routing function says |
| ShardCoordinators.ShardCoordinator.RouteFlow | src/shard.rs:191-224 | owner looked up or installed, striping decided, packet counted |
| ShardCoordinators.ShardCoordinator.ChooseShardForStripedFlow | src/shard.rs:254-280 | the selection loop |
| ShardCoordinators.ShardCoordinator.ElephantStripeCandidates | src/shard.rs:282-303 | the candidate loop ends |
| ShardCoordinators.ShardLoadMetrics.ObserveRoute | src/shard.rs:604-643 | totals, shard and flow are counted |
| ShardCoordinators.ShardLoadMetrics.Observed | src/shard.rs:832-848 | the shard's part is found by search or appended |
| StreamViews.WithMatchOk | src/stream_view.rs:463-491 | after any matches an entry has counted all, knows all their patterns and keeps the latest K |
| StreamViews.StreamViewState.UpsertStream | src/stream_view.rs:442-461 | an update keeps a stream's matches; a new stream takes the oldest one's place exactly when the view is full; all indexes stay true |
| StreamViews.StreamViewState.ObserveMatch | src/stream_view.rs:463-491 | a match is an orphan or is counted, indexed and kept among the latest of all its stream has seen; stored plus dropped grows by one |
| StreamViews.StreamViewState.EvictOldest | src/stream_view.rs:511-517 | the front of the order leaves the map and every index |
| StreamViews.StreamViewState.RemoveStream | src/stream_view.rs:519-546 | a removed stream is in no index, set or count any more |
| StreamViews.StreamViewState.Unindex | src/stream_view.rs:533-544 | the stream leaves the sets of its patterns and empty sets leave the index |
| StreamViews.StreamViewState.SetFavorite | src/stream_view.rs:348-359 | only known streams can be favourites |
| StreamViews.StreamViewState.SetHidden | src/stream_view.rs:361-372 | only known streams can be hidden |
| StreamViews.StreamViewState.QueryPage | src/stream_view.rs:290-331 | a page of the streams the query is for |
| StreamViews.StreamViewState.PagesListOnce | src/stream_view.rs:290-331 | following a query's cursors on an unchanged view lists exactly the streams asked for, once each: shown or wanted though hidden, favourite, with some match, with some match of the pattern among all they ever had |
| StreamPages.Query | src/stream_view.rs:299-331 | the paging loop does what the recursive scan does |
| StreamPages.PageIs | src/stream_view.rs:299-331 | a page is full and followed by exactly the rest, or is all that is left |
| StreamPages.RowLimitIs | src/stream_view.rs:299-299 | a page has as many rows as asked for and allowed, but at least one |
| StreamPages.CursorsListAll | src/stream_view.rs:290-331 | the pages together are all chosen streams in order, whatever the page size |
| LiveDeltas.LiveDeltaLog.PushPayload | src/api.rs:1299-1308 | the push and its shrinking loop |
| LiveDeltas.PushHolds | src/api.rs:1299-1308 | the log holds the last payloads ever pushed, numbered from one, as many as fit |
| LiveDeltas.RespondIs | src/api.rs:1310-1336 | for every cursor, a response goes on right after the cursor or after what is gone, and `missed` is set exactly when the client is further behind than the log holds; past the latest it says nothing |
| LiveDeltas.ClientSeesAll | src/api.rs:1289-1336 | over any pushes and polls a client goes on, from where it started, to get every delta once and in order, or is told that it missed it |
| LiveDeltas.EveryClientSeesAll | src/api.rs:1289-1336 | so does every new client of a new log |
| LiveDeltas.SkippedExactly | src/api.rs:1310-1336 | a client that starts with any cursor is never told of exactly the deltas pushed up to that cursor; there are none if and only if the cursor is not past the latest delta or nothing is pushed |
| LiveDeltas.RestartIsNotNoticed | src/api.rs:1310-1336 | a concrete log and cursor for which a delta goes by unseen and unreported |

## Left out

- HTTP/1 head text: parsing a head into a start line and headers is a parameter, so results hold for every head parser.
- HTTP/1 messages: stream and message ids, direction and preview fields are constants of a parser and are not modelled.
- HTTP/1 error reasons: a size line that is not UTF-8 and one that is not a number give one error.
- Http1Splits.SplitInvariance: size lines and chunk data end in CRLF, heads and trailer fields in a CRLF blank line with no bare LF blank line before it; for bare LF line ends it is false (Http1Resync.BareHeadsDependOnTheCut).
- TLS handshake fields, DNS records and messages, text previews: functions of bytes that the framers hand over.
- DNS labels are byte strings; joining them with dots and lossy UTF-8 decoding are left out.
- Inflating: decompression is a parameter of the WebSocket transform; gzip, base64 and the planning of transforms are not part of this model.
- ProtocolMessages.ProtocolMessageAnalyzer.EmitMessages: which HTTP/1 messages upgrade their flow is a parameter; DNS datagrams and the events' fields are left out.
- ContentStore.ContentRecord.OldestDirection: the segments' times are numbers; the clock is not modelled.
- StreamContents.StreamContent.ObserveFlow: records are values in the store's map, and the TCP reassembly that orders chunks is not part of this model.
- PatternEngines.PatternEngine.FindOverlapping: regular expressions, and the automaton behind the search of literals, which is specified by the set of all occurrences; the order of events within a window is not stated.
- Timers, batch sizes and flush intervals: a flush or a live snapshot is a step that may happen whenever its thread could do it.
- NetworkShutdown.OneNodePerFlow: that the chunks of a flow are routed to one shard is a condition, which RoutedFlows.RoutingOwns meets for TCP flows that do not come back after their owner entry was evicted.
- NetworkProgress.NeverStuck: no worker fails; after a panic the coordinator may wait for ever.
- Content slice requests to workers, blocked-chunk counters, sinks and published metrics of the pipeline.
- Hashes, including the one that picks an offload worker, are parameters; that both directions of a connection give one flow key is assumed.
- Packet headers: the reason why a packet has no flow is an input of the router.
- ShardMetrics.MetricsSkew: the busiest shard's number and the hottest flow of a shard are not characterised.
- StreamViews.StreamViewState.QueryPage: a row is its stream's id, hide rules and the remaining filters are parameters; services and profiles are left out.
- Live API: locks, notification and waiting polls around the delta log.
