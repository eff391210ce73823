# Verified models of the daemon's protocol and state code

A Dafny model of six parts of the repository, each in the form of its source,
with the properties that the parts are for:

- **libtelnet** (`Bytes`, `QMethod`, `TwoParty`, `LastCall`, `OptionTable`, `Environ`,
  `EnvironRoundTrip`, `EnvironEscaped`, `TelnetParser`, `Telnet`, `TelnetChunks`,
  `TelnetWire`, `TelnetEndToEnd`, `TelnetMalformed`, `TelnetEndpoint`, `TelnetPair`,
  `TelnetOutcome`, `TelnetOverflow`, `HandlerTold`). `Telnet` is the object with
  its receive loop, slices, recursion, growing buffer and packed option table. It is proved against a
  byte-at-a-time transducer (`TelnetParser`), from which chunk independence and
  the round trips follow. `TwoParty` runs two negotiators against each other
  over FIFO channels, all options at once (section 7 of RFC 1143); `LastCall`
  says which value they agree on. `TelnetEndpoint` shows that the engine is such
  a negotiator, `TelnetPair` and `TelnetOutcome` carry this to runs of two whole
  engines on byte channels, and `TelnetOverflow` shows that the 63 options they
  allow are the exact limit. `HandlerTold` says when the handler is told what
  about an option, and when the last thing it was told still holds;
  `TelnetMalformed` what it is told of sub-negotiations that do not end as they
  should. `Environ` is the in-place decoder of section 2 of RFC 1572.
- **oscpack** (`OscFormat`, `OscWire`, `OscDocument`, `OscOutbound`, `OscReceived`,
  `OscBundles`, `OscTermination`, `OscRoundTrip`, `OscRefused`, `OscEndToEnd`). The encoder works in one array: arguments
  upward, tags downward, open elements chained through their size slots. Its
  abstract state is a document, the tree told so far. The decoder validates once
  and then walks unchecked. The format is Open Sound Control 1.0, sections "OSC
  Packets", "OSC Messages" and "OSC Bundles". `uint32` has 4 bytes, as with the
  macro `x86_64` in OscTypes.h:52-62; `unsigned long` and pointers have 8, so
  rounding a length up never wraps, while the 32-bit sum that advances over a
  bundle element does. Floats are bit patterns, the host is little-endian and
  `char` is signed. What memory holds behind a packet is a parameter of the
  reading methods (`Memory`), and no result depends on it.
- **The patch** (`Lists`, `PatchLog`, `PatchGroups`, `PatchDamage`,
  `Patch`). Both indexes, the
  JSON arrays and the slave lists of groups are views of one ordered list of
  distinct links.
- **The JSON node tree** (`JsonTree`). Every ancestor caches its descendants'
  data; operations are proved on the whole set of nodes as a value, and the
  methods on the objects refine them.
- **The XBee send queue and scheduler** (`XBeeQueue`, `XBee`) and **the frame
  splitter** (`Separated`, `XBeeFrames`, `XBee`).

Where the code does not meet a property, the model keeps the code and gives the
exact condition: DO behind an outstanding DONT (libtelnet.c:414-417), three
receptions that are reported as something else (WONT in WANTNO_OP as DO, DONT in
WANTNO as WONT, DONT in WANTNO_OP as WILL; 414-417, 467-476), escaped environment
lists that end in ESC (542), the option-85 marker at a chunk boundary (1042), the 8-bit table length (325), the
blob checks that are never thrown (OscReceivedElements.cpp:630-636), the size
word on which the loop over a bundle never ends (703), addresses starting with
`#`, stored arrays that repeat a name (model.cpp:385), groups that are cut while
their entry still stands (patch.cpp:213-244), environment strings that are not
escaped, values and children stored under a child's name, `setBool` from text
(model.cpp:120-134), names with dots.

## Model

| member | source | states |
|---|---|---|
| TwoParty.Agreement | Software/lib/libtelnet/libtelnet.c:366-483 | after any interleaving, at both ends, of WILL/WONT/DO/DONT calls and deliveries over FIFO channels in which DO is never queued behind an outstanding DONT, whenever nothing is in flight the `us` state of one end equals the `him` state of the other, and both are NO or YES, for each of the 256 options |
| TwoParty.NoProtocolError | Software/lib/libtelnet/libtelnet.c:383-483 | in such runs no delivery reaches an "answered by" error branch |
| TwoParty.NoNegotiationLoop | Software/lib/libtelnet/libtelnet.c:366-483 | after any run, disciplined or not, every sequence of deliveries without new calls is no longer than a rank computed from option states and messages in flight |
| TwoParty.DeliveryLowersRank | Software/lib/libtelnet/libtelnet.c:366-483 | each single delivery strictly lowers that rank |
| TwoParty.SettlesInAgreement | Software/lib/libtelnet/libtelnet.c:366-483 | from every disciplined run, deliveries alone reach empty channels with all options agreeing on both sides |
| TwoParty.OutcomeIsDecided | Software/lib/libtelnet/libtelnet.c:366-483 | after any calls whatever, draining the channels ends in agreement on an option if and only if the state before draining was sound: delivery order never decides the outcome |
| TwoParty.DoIsSafeExactlyWithoutOutstandingDont | Software/lib/libtelnet/libtelnet.c:414-417 | a DO call after a disciplined run, followed by draining, ends in agreement if and only if the caller's `him` state was not WANTNO |
| TwoParty.DoBehindDontSettlesApart | Software/lib/libtelnet/libtelnet.c:414-417 | the concrete run in which WONT in WANTNO with the opposite bit sends nothing: one end is off, the other waits for ever with empty channels |
| TwoParty.RunKeepsSettling | Software/lib/libtelnet/libtelnet.c:1208-1272 | no run leaves the finite set of half-session states of the invariant, whatever the calls |
| TwoParty.StepProjects | Software/lib/libtelnet/libtelnet.c:366-483 | every step of the full system, all options and both directions, is one step or a stutter of each per-option half-session |
| LastCall.LastCallDecides | Software/lib/libtelnet/libtelnet.c:366-483 | which value the ends agree on: from any moment at which an option is off and nothing about it is in flight, if one end alone makes calls about one direction of it (DO never behind an outstanding DONT), then whenever nothing is in flight that direction is on, at both ends, if and only if the last call was WILL or DO and the other end supports the option |
| LastCall.RunIsDriven | Software/lib/libtelnet/libtelnet.c:1208-1272 | in every state of such a run, messages in flight included, the option states and messages are those of the last wish and the other end's support |
| TelnetEndpoint.DeliveryIsReception | Software/lib/libtelnet/libtelnet.c:339-484 | parsing the three bytes of a negotiation message and updating the packed table is one delivery of the two-party system: same new option map, same answer on the wire |
| TelnetEndpoint.CallIsRequest | Software/lib/libtelnet/libtelnet.c:1191-1273 | a local request on the packed table is one call of the two-party system, with the same bytes on the wire |
| TelnetPair.EnginesAgree | Software/lib/libtelnet/libtelnet.c:339-484 | two whole engines on byte channels, any calls on at most 63 options without DO behind an outstanding DONT, the bytes arriving in pieces of any size: whenever both channels are empty the two packed tables agree on each of the 256 options, on or off |
| TelnetPair.EnginesFallSilent | Software/lib/libtelnet/libtelnet.c:366-483 | after any run of two engines whose calls name at most 63 options, careful or not, there is a bound on the bytes that can still be received without new calls, whatever the order and the pieces |
| TelnetPair.ByteFollows | Software/lib/libtelnet/libtelnet.c:946-1122 | while at most 63 options are in use, one byte heard by an engine is nothing, or exactly one delivery, for the two-party system |
| TelnetPair.PlayIsGood | Software/lib/libtelnet/libtelnet.c:946-1273 | every run of two engines whose calls name at most 63 options follows a run of the two-party system |
| TelnetPair.Negotiate | Software/lib/libtelnet/libtelnet.c:1125-1273 | the same for two telnet objects: if nothing is in flight at the end their tables agree |
| TelnetPair.PlayOut | Software/lib/libtelnet/libtelnet.c:1125-1273 | two objects and two byte channels after any moves are the two engines after those moves |
| TelnetOutcome.EnginesObeyLastRequest | Software/lib/libtelnet/libtelnet.c:339-484 | the same for two whole engines on byte channels, on at most 63 options: in both packed tables the direction is on if and only if the last request was WILL or DO and the other engine's table of supported options allows it |
| TelnetOutcome.PlayIsSteered | Software/lib/libtelnet/libtelnet.c:946-1273 | every run of two engines in which one end alone asks about an option follows such a run of the two-party system |
| TelnetOverflow.AgreeExactlyUpTo63 | Software/lib/libtelnet/libtelnet.c:296-326 | the 63 is exact for agreement: for a set K of options, engines that are carefully asked about options of K agree whenever both channels are empty, whatever they support, if and only if K has at most 63 members |
| TelnetOverflow.ForgottenApart | Software/lib/libtelnet/libtelnet.c:296-326 | 63 options are turned on, a 64th is asked for and refused: with empty channels one end has forgotten all options that the other still takes to be on |
| TelnetOverflow.ForgettingIsPlayed | Software/lib/libtelnet/libtelnet.c:946-1273 | the run that leads there, message by message |
| TelnetOverflow.SilentExactlyUpTo63 | Software/lib/libtelnet/libtelnet.c:296-326 | the 63 is exact for silence: engines that are asked about options of K always fall silent if and only if K has at most 63 members |
| TelnetOverflow.SixtyFourNeverFallSilent | Software/lib/libtelnet/libtelnet.c:366-483 | one end asks for each of 64 options with WILL and each end allows what the other asks: as many bytes as one likes can still be received without a further request, since every 64th store empties a table and each message then draws an answer |
| TelnetOverflow.BurstIsGranted | Software/lib/libtelnet/libtelnet.c:339-484 | an engine with an empty table answers each of up to 64 different offers or demands that it supports |
| TelnetOverflow.FillingWraps | Software/lib/libtelnet/libtelnet.c:296-326 | storing 64 different options in an empty table leaves it empty |
| HandlerTold.ToldExactly | Software/lib/libtelnet/libtelnet.c:366-483 | for every option state and every command received, when the handler is told what: WILL and WONT of the other side coming on or going off, DO and DONT of this one, and the three cases in which the code reports something else |
| HandlerTold.AnsweredExactly | Software/lib/libtelnet/libtelnet.c:366-483 | and when which command is sent back: a new request is granted or refused by the support table, one that is no longer wanted is taken back, an end is confirmed, and of WONT and DONT in WANTNO_OP only the second is answered |
| HandlerTold.NothingNewIsIgnored | Software/lib/libtelnet/libtelnet.c:366-483 | a request for what is already so is neither answered nor reported and changes nothing |
| HandlerTold.WarnedExactly | Software/lib/libtelnet/libtelnet.c:383-447 | the "answered by" warning is raised exactly when consent arrives where a refusal was outstanding |
| HandlerTold.AnswerComesFirst | Software/lib/libtelnet/libtelnet.c:339-484 | the answer goes out before the handler is told of the change, and the warning comes last |
| HandlerTold.ToldRightThroughoutExactly | Software/lib/libtelnet/libtelnet.c:339-484 | over any run of receptions and local requests, what the handler was last told about each side of an option agrees with its state at every moment if and only if none of the three irregular receptions happens |
| HandlerTold.HandlerKnows | Software/lib/libtelnet/libtelnet.c:339-484 | a whole engine asked and told about at most 63 options, in any order: while none of the three is received about an option, what its handler was last told about it is what its packed table says |
| HandlerTold.OtherBytesTellNothing | Software/lib/libtelnet/libtelnet.c:946-1122 | no other byte than the last of a negotiation message tells the handler anything about an option |
| OptionTable.TableRefinesMap | Software/lib/libtelnet/libtelnet.c:277-326 | after any run of stores with at most 63 growths every lookup gives the last pair stored for that option, or (NO, NO), although each growth adds three entries that alias option 0 |
| OptionTable.RefinementEndsAtWrap | Software/lib/libtelnet/libtelnet.c:296-326 | at the 64th growth the 8-bit length wraps and the table still agrees with the map if and only if everything stored is (NO, NO) |
| OptionTable.WrapIsReached | Software/lib/libtelnet/libtelnet.c:296-326 | turning on options 1 to 64 gets there: after 63 all are remembered, after 64 none |
| OptionTable.GrowthsBoundedByOptions | Software/lib/libtelnet/libtelnet.c:296-326 | a run that stores at most 63 different options grows at most that often, and finds each of them again |
| OptionTable.StoreThenLookup | Software/lib/libtelnet/libtelnet.c:277-326 | a store changes the answer for its own option and for no other |
| OptionTable.Pack | Software/lib/libtelnet/libtelnet.c:54-56 | packing is undone by unpacking for all 36 pairs |
| Telnet.SearchTelopts | Software/lib/libtelnet/libtelnet.c:252-274 | the search loop decides by the first row for the option |
| TelnetParser.SupportIsInFirstRow | Software/lib/libtelnet/libtelnet.c:252-274 | our side of an option is supported if and only if its first row says WILL, the other side if and only if it says DO; without a row neither is |
| Telnet.Telnet.GetOption | Software/lib/libtelnet/libtelnet.c:277-293 | the search loop returns what the table value says |
| Telnet.Telnet.SetOption | Software/lib/libtelnet/libtelnet.c:296-326 | overwrites in place or appends, exactly as the table value prescribes, and keeps the object valid |
| Telnet.Telnet.NegotiateReceived | Software/lib/libtelnet/libtelnet.c:339-484 | new option state, answer and events of the reaction, in order; proxy mode only reports (what the reaction is: HandlerTold) |
| Telnet.Telnet.NegotiateLocally | Software/lib/libtelnet/libtelnet.c:1191-1273 | new option state and the command sent for each wish; proxy mode sends unconditionally; other commands do nothing |
| Telnet.Telnet.BufferByte | Software/lib/libtelnet/libtelnet.c:908-944 | appends while fewer than 16384 bytes are held, growing through the size table without losing content; otherwise warns and keeps the buffer |
| Telnet.Telnet.Subnegotiate | Software/lib/libtelnet/libtelnet.c:812-855 | raises the events of the sub-negotiation, decoding environment lists in place, and reports the abort |
| Telnet.Telnet.OnDataByte | Software/lib/libtelnet/libtelnet.c:953-966 | a byte in state DATA either extends the pending slice or passes it on |
| Telnet.Telnet.OnSbDataIac | Software/lib/libtelnet/libtelnet.c:1052-1108 | the end of a sub-negotiation in all three cases, with the recursive reception of the rest after an accepted environment list |
| Telnet.Telnet.Process | Software/lib/libtelnet/libtelnet.c:946-1122 | the slicing loop with its mutual recursion ends in the state, and with adjacent data merged raises the events, of the byte-at-a-time transducer; it terminates by (size, state is SB_DATA_IAC) and never raises an empty DATA event |
| Telnet.Telnet.Recv | Software/lib/libtelnet/libtelnet.c:1125-1180 | the same for one call of telnet_recv |
| TelnetParser.RunAppend | Software/lib/libtelnet/libtelnet.c:946-1122 | the transducer over a concatenation is the transducer over its parts in turn |
| TelnetChunks.ReceiveAll | Software/lib/libtelnet/libtelnet.c:1125-1180 | a session of receptions is the transducer run chunk by chunk |
| TelnetChunks.ChunkIndependence | Software/lib/libtelnet/libtelnet.c:1031-1049 | every split of a stream gives the same state and events, all DATA events being real slices, if and only if no WILL byte occurs inside an option-85 sub-negotiation of that stream |
| TelnetChunks.SplitsAreFaithful | Software/lib/libtelnet/libtelnet.c:946-1122 | one such split, without a marker, means what the unsplit stream means |
| TelnetChunks.CutAfterMarkerIsWild | Software/lib/libtelnet/libtelnet.c:1035-1043 | a cut right behind the option-85 marker makes the code raise a DATA event whose size wraps below zero |
| TelnetChunks.MarkerExists | Software/lib/libtelnet/libtelnet.c:1035-1043 | the five-byte MCCPv1 sequence is such a stream: received whole it passes on nothing, cut behind the marker it raises the wrapped event and passes SE on as data |
| TelnetWire.SendData | Software/lib/libtelnet/libtelnet.c:1276-1298 | the run-and-escape loop puts exactly the escaped bytes on the wire and causes no other event |
| TelnetWire.SendRaw | Software/lib/libtelnet/libtelnet.c:1183-1188 | a fixed sequence goes out as it is |
| TelnetWire.SendSubnegotiation | Software/lib/libtelnet/libtelnet.c:1311-1322 | header, escaped payload, trailer |
| TelnetWire.SendEnviron | Software/lib/libtelnet/libtelnet.c:1487-1500 | the piecewise environment sender emits one well-formed sub-negotiation |
| TelnetWire.RoundTrip | Software/lib/libtelnet/libtelnet.c:1183-1322 | any sequence of sends of text, plain commands and sub-negotiations that fit, and of negotiations if the receiver is in proxy mode, received from state DATA, yields that sequence of events and ends in DATA |
| TelnetEndToEnd.SplitRoundTrip | Software/lib/libtelnet/libtelnet.c:946-1180 | however the bytes of such a sequence are split into telnet_recv calls, the receiver raises that sequence of events and returns to DATA |
| TelnetEndToEnd.Converse | Software/lib/libtelnet/libtelnet.c:1125-1322 | the same for a sending and a receiving engine as objects: loops, escaping, slices, buffers and recursion included |
| TelnetEndToEnd.SendAll | Software/lib/libtelnet/libtelnet.c:1183-1322 | a sequence of library calls puts exactly its encoding on the wire: negotiations in proxy mode, everything else in either mode |
| TelnetWire.SubSurvivesExactlyIfItFits | Software/lib/libtelnet/libtelnet.c:908-944 | a sub-negotiation arrives unchanged if and only if it has at most 16384 bytes and is not an option-85 payload containing WILL |
| TelnetWire.EnvironSurvivesExactlyIfPlain | Software/lib/libtelnet/libtelnet.c:1487-1500 | a sent NEW-ENVIRON list that fits is reported to the receiving handler unchanged if and only if its names and values avoid the bytes the decoder interprets |
| TelnetMalformed.SubIsReported | Software/lib/libtelnet/libtelnet.c:812-855 | whatever the payload, a sub-negotiation that fits is reported first, as sent and once; for an option without a decoder nothing else is |
| TelnetMalformed.SpecialIsReported | Software/lib/libtelnet/libtelnet.c:812-855 | for ZMP, TTYPE and MSSP, what the decoder reports of that option and payload comes behind it, in order |
| TelnetMalformed.EnvironIsJudged | Software/lib/libtelnet/libtelnet.c:498-548 | an environment payload that is empty, has a bad command, no entries, no variable type or an ESC at the end: what is reported or warned of |
| TelnetMalformed.OverflowIsReported | Software/lib/libtelnet/libtelnet.c:908-944 | the 16385th byte of a sub-negotiation draws one warning, the buffer is dropped, and what follows is reported as data |
| TelnetMalformed.SubCutShort | Software/lib/libtelnet/libtelnet.c:1052-1108 | a command inside a sub-negotiation draws a warning, ends it, reports what there was, and is then taken as that command, or lost behind an accepted environment list |
| TelnetMalformed.CommandIsLostExactly | Software/lib/libtelnet/libtelnet.c:1083-1108 | when it is lost, in terms of the option and the payload |
| TelnetMalformed.MarkerSwallowsOne | Software/lib/libtelnet/libtelnet.c:1035-1043 | behind the option-85 marker one byte is swallowed, unless it is IAC: then the handler gets data of a size that has wrapped |
| Environ.DecodeInPlace | Software/lib/libtelnet/libtelnet.c:498-637 | both passes over the array give the meaning of the received bytes: the error cases, or all variables with kind, name and value, though the buffer is overwritten while it is read |
| Environ.CopyText | Software/lib/libtelnet/libtelnet.c:576-619 | the name and value loops: the write position stays strictly behind the read position, the text is stored and terminated, unread bytes are intact |
| Environ.ParseEntries | Software/lib/libtelnet/libtelnet.c:569-624 | the parsing loop fills exactly the announced number of entries, readable through their pointers |
| Environ.CountEntries | Software/lib/libtelnet/libtelnet.c:550-559 | the counting loop counts unescaped VAR and USERVAR bytes |
| Environ.CountIsEntries | Software/lib/libtelnet/libtelnet.c:550-624 | that count equals the number of entries parsed, and each entry starts at VAR or USERVAR |
| EnvironRoundTrip.ListSurvivesExactlyIfPlain | Software/lib/libtelnet/libtelnet.c:1493-1500 | an encoded list decodes to itself if and only if no name holds VALUE, ESC or USERVAR and no value holds ESC or USERVAR: the sender never escapes them |
| EnvironRoundTrip.TextSurvivesExactlyIfPlain | Software/lib/libtelnet/libtelnet.c:576-619 | the same for one text |
| EnvironEscaped.EscapedListIsReadExactlyUnlessItEndsInEsc | Software/lib/libtelnet/libtelnet.c:542-624 | a list whose texts are escaped as section 2 of RFC 1572 asks is read as exactly what it says, whatever bytes it holds, except that a list whose last text ends in ESC is refused with "ends with ESC" |
| EnvironEscaped.GuardedTextIsRead | Software/lib/libtelnet/libtelnet.c:576-619 | an escaped text of any bytes is read back, and reading stops right behind it |
| EnvironEscaped.NulHidesTheRest | Software/lib/libtelnet/libtelnet.c:576-619 | the handler sees C strings: an escaped NUL hides what stands behind it |
| OscOutbound.OutboundPacketStream.constructor | Software/lib/oscpack/osc/OscOutboundPacketStream.cpp:139-149 | an empty, valid stream over the given buffer |
| OscOutbound.OutboundPacketStream.Clear | Software/lib/oscpack/osc/OscOutboundPacketStream.cpp:243-250 | back to the empty document |
| OscOutbound.OutboundPacketStream.Size | Software/lib/oscpack/osc/OscOutboundPacketStream.cpp:259-269 | the size the document would have if finished now, never above the capacity |
| OscOutbound.OutboundPacketStream.BeginElement | Software/lib/oscpack/osc/OscOutboundPacketStream.cpp:158-176 | the new size slot receives the offset of the enclosing one |
| OscOutbound.OutboundPacketStream.EndElement | Software/lib/oscpack/osc/OscOutboundPacketStream.cpp:179-203 | the slot gives up its offset, which becomes the slot pointer, and receives the big-endian length |
| OscOutbound.OutboundPacketStream.BeginBundle | Software/lib/oscpack/osc/OscOutboundPacketStream.cpp:296-312 | the document gains an open bundle; throws exactly when a message is open or the result would not fit |
| OscOutbound.OutboundPacketStream.EndBundle | Software/lib/oscpack/osc/OscOutboundPacketStream.cpp:315-327 | the innermost bundle becomes a finished element of its container, or the exact error |
| OscOutbound.OutboundPacketStream.BeginMessage | Software/lib/oscpack/osc/OscOutboundPacketStream.cpp:330-356 | the document gains an open message, or the exact error |
| OscOutbound.OutboundPacketStream.AddArgument | Software/lib/oscpack/osc/OscOutboundPacketStream.cpp:412-635 | the open message gains the argument, bytes upward and tag downward, exactly when the result fits |
| OscOutbound.OutboundPacketStream.EndMessage | Software/lib/oscpack/osc/OscOutboundPacketStream.cpp:359-409 | the message becomes a finished element and Size() does not change |
| OscOutbound.OutboundPacketStream.Compact | Software/lib/oscpack/osc/OscOutboundPacketStream.cpp:366-398 | after compaction the buffer holds, in place, the encoded message: comma, tags in insertion order, zero padding, argument bytes unchanged |
| OscOutbound.MessageCompacted | Software/lib/oscpack/osc/OscOutboundPacketStream.cpp:366-398 | the same as a fact about byte strings |
| OscOutbound.HoldsInside | Software/lib/oscpack/osc/OscOutboundPacketStream.cpp:212-269 | while a message is open the downward tags stay above the upward arguments, with room for the finished tag string |
| OscOutbound.OutboundPacketStream.OpenElementsFormChain | Software/lib/oscpack/osc/OscOutboundPacketStream.cpp:158-203 | in every reachable state the offsets found by following the open size slots strictly decrease to 0 and visit exactly the open elements |
| OscDocument.OpenSlotsFormChain | Software/lib/oscpack/osc/OscOutboundPacketStream.cpp:158-203 | the same for any buffer that holds the document |
| OscDocument.LayoutOfAddElement | Software/lib/oscpack/osc/OscOutboundPacketStream.cpp:179-203 | closing an element leaves its exact big-endian length in front of its bytes and restores the container's slot |
| OscOutbound.PutString | Software/lib/oscpack/osc/OscOutboundPacketStream.cpp:576-594 | string, terminator and padding; nothing else in the buffer changes |
| OscOutbound.PutBlob | Software/lib/oscpack/osc/OscOutboundPacketStream.cpp:616-635 | length word, data and padding; nothing else changes |
| OscOutbound.MoveUp | Software/lib/oscpack/osc/OscOutboundPacketStream.cpp:376-378 | the overlapping move of the arguments |
| OscFormat.RoundUp4Received | Software/lib/oscpack/osc/OscReceivedElements.cpp:80-87 | the decoder's RoundUp4 equals the encoder's on every length |
| OscWire.FlagsOnTheWire | Software/lib/oscpack/osc/OscOutboundPacketStream.cpp:412-441 | the bytes of a message with one truth value, nil or infinitum: address, padding, comma, T, F, N or I, padding |
| OscWire.WordsOnTheWire | Software/lib/oscpack/osc/OscOutboundPacketStream.cpp:444-517 | and with one int32, float, colour or MIDI message: i, f, r or m and four bytes, the most significant first |
| OscWire.CharOnTheWire | Software/lib/oscpack/osc/OscOutboundPacketStream.cpp:484-493 | and with one char: c, three bytes of its sign and the char |
| OscWire.LongsOnTheWire | Software/lib/oscpack/osc/OscOutboundPacketStream.cpp:520-573 | and with one int64, time tag or double: h, t or d and eight bytes, the most significant first |
| OscWire.TextsOnTheWire | Software/lib/oscpack/osc/OscOutboundPacketStream.cpp:576-614 | and with one string or symbol: s or S, the text and one to four NULs |
| OscWire.BlobOnTheWire | Software/lib/oscpack/osc/OscOutboundPacketStream.cpp:616-635 | and with one blob: b, the length, the data and none to three NULs |
| OscWire.BundleOnTheWire | Software/lib/oscpack/osc/OscOutboundPacketStream.cpp:158-327 | a bundle of one element: "#bundle", the time tag, the length of the element and the element |
| OscWire.WordsAreDelivered | Software/lib/oscpack/tests/OscUnitTests.cpp:179-233 | and the listener gets these values for these bytes, whatever the four bytes are |
| OscReceived.FindStr4End | Software/lib/oscpack/osc/OscReceivedElements.cpp:60-77 | the bounded search finds the first 4-byte boundary behind the string, or reports that it is unterminated, without reading outside |
| OscReceived.FindStr4EndUnchecked | Software/lib/oscpack/osc/OscReceivedElements.cpp:43-55 | the unbounded search agrees with it on every terminated string |
| OscReceived.Str4EndIsFirst | Software/lib/oscpack/osc/OscReceivedElements.cpp:60-77 | the end is the first NUL at a multiple of four behind the start, less one, and there is none if there is no such NUL; but a leading NUL ends the string at the next boundary, whatever the other three bytes are |
| OscReceived.ValidateMessage | Software/lib/oscpack/osc/OscReceivedElements.cpp:539-653 | the validation of arbitrary bytes: each error in its case, or the tags and the start of the arguments, whatever lies in memory behind the message |
| OscReceived.AcceptedIsWellFormed | Software/lib/oscpack/osc/OscReceivedElements.cpp:539-653 | what is accepted: aligned bytes with a terminated address, then nothing, or a comma and known tags in a terminated string, with the arguments right behind it |
| OscRoundTrip.AddressAloneIsReceived | Software/lib/oscpack/osc/OscReceivedElements.cpp:555-559 | a message that is only an address is delivered, without tags and arguments |
| OscRoundTrip.NoCommaIsRefused | Software/lib/oscpack/osc/OscReceivedElements.cpp:561-565 | anything but a comma behind the address is refused for lack of type tags |
| OscRefused.UnknownTagIsRefused | Software/lib/oscpack/osc/OscReceivedElements.cpp:580-648 | a message with a tag that no kind of argument has is refused for it, behind any arguments and whatever follows |
| OscRefused.MissingArgumentIsRefused | Software/lib/oscpack/osc/OscReceivedElements.cpp:594-622 | a message without the bytes of its last argument is refused as too short, unless the argument has no bytes or is a blob |
| OscRefused.UnterminatedTextIsRefused | Software/lib/oscpack/osc/OscReceivedElements.cpp:618-626 | and one whose last string or symbol has no NUL as unterminated |
| OscReceived.ValidateArguments | Software/lib/oscpack/osc/OscReceivedElements.cpp:580-648 | the do-while loop over the tags computes the walk; a blob's length word outside the message may be anything without changing the verdict |
| OscReceived.ArgumentIterator.Advance | Software/lib/oscpack/osc/OscReceivedElements.cpp:446-509 | one unchecked step goes to the offset the checks computed, or as far as a length word outside the message says |
| OscReceived.VisitArguments | Software/lib/oscpack/osc/OscReceivedElements.cpp:446-509 | for any accepted bytes the iterator visits exactly ArgumentCount positions, each at the offset Init found, or outside the message exactly where Init was outside too, and stops at the end of the tags |
| OscReceived.WalkStaysInsideExactlyIfBlobsFit | Software/lib/oscpack/osc/OscReceivedElements.cpp:626-637 | the walk over the tags can be made without leaving the message if and only if every blob's length word and data lie inside: the two blob checks build an exception without throwing it |
| OscReceived.OverrunIsAccepted | Software/lib/oscpack/osc/OscReceivedElements.cpp:626-637 | a twelve-byte message that Init accepts and whose walk leaves it |
| OscReceived.OverrunIsDelivered | Software/lib/oscpack/osc/OscReceivedElements.cpp:626-637 | the listener gets that message, with the blob marked as overrunning and no exception |
| OscReceived.NoBlobTagsFit | Software/lib/oscpack/osc/OscReceivedElements.cpp:539-653 | without blob tags an accepted message is always walked inside |
| OscReceived.AllValuesExactlyIfBlobsFit | Software/lib/oscpack/osc/OscReceivedElements.cpp:626-637 | every argument of an accepted message has a value if and only if every blob lies inside; otherwise the blobs that do not are marked |
| OscReceived.RunMessage | Software/lib/oscpack/osc/OscReceivedElements.cpp:516-520 | validating and then reading every argument with the unchecked iterator delivers every accepted message with address, tags and one reading for each tag, or nothing with the reason, whatever lies behind the message |
| OscReceived.ReadWithIterator | Software/lib/oscpack/osc/OscReceivedElements.cpp:446-509 | the readings of the walk, one for each tag: the value, or the mark of a blob that reaches outside |
| OscReceived.ElementsTile | Software/lib/oscpack/osc/OscReceivedElements.cpp:671-712 | on arbitrary accepted bytes the elements, each behind its size slot, tile the bundle from 16 to its end, and each is strictly smaller |
| OscBundles.SplitsExactlyAsTheyStand | Software/lib/oscpack/osc/OscReceivedElements.cpp:671-712 | the elements found are a given list if and only if the bytes are that list, each element behind its length, and every length is aligned and below 0xFFFFFFFC |
| OscBundles.BundleMeansItsElements | Software/lib/oscpack/osc/OscPacketListener.h:41-53 | a bundle of given elements delivers what they deliver, in order, up to and including the first that fails, whose error is the error of the packet |
| OscBundles.FirstFailureEnds | Software/lib/oscpack/osc/OscPacketListener.h:41-53 | the first element that fails ends the loop: what came before stays delivered, nothing behind it is looked at |
| OscReceived.ValidateBundle | Software/lib/oscpack/osc/OscReceivedElements.cpp:671-712 | accepts exactly the bundles that split and counts their elements, reports each error in its case, and reports the size word on which the loop of the code makes no progress |
| OscReceived.RunElements | Software/lib/oscpack/osc/OscReceivedElements.h:107-141 | the element iterator goes from 16 to the end in exactly ElementCount steps, past messages with overrunning blobs too, or stops early at an element that is malformed or hangs |
| OscReceived.RunPacket | Software/lib/oscpack/osc/OscPacketListener.h:58-67 | the recursive listener delivers, in order, what the packet means, up to the first malformed element or the bundle in which the code hangs |
| OscTermination.LoopEndsExactly | Software/lib/oscpack/osc/OscReceivedElements.cpp:695-708 | on any bytes the loop over the elements, taken turn by turn with its 32-bit advance, ends if and only if it never stands before the size word 0xFFFFFFFC |
| OscTermination.ReceptionEndsExactly | Software/lib/oscpack/osc/OscPacketListener.h:41-67 | on any bytes the recursive listener ends, with or without an exception, if and only if in every bundle it meets before the first exception that loop ends |
| OscTermination.EndlessPacketNeverEnds | Software/lib/oscpack/osc/OscReceivedElements.cpp:703-703 | the 20 bytes on which the loop turns for ever, for every number of turns |
| OscTermination.OverrunThenEndlessNeverEnds | Software/lib/oscpack/osc/OscPacketListener.h:41-67 | 56 bytes whose first element overruns its blob and is delivered, and whose second never ends |
| OscRoundTrip.DeliveredExactlyIfClean | Software/lib/oscpack/osc/OscPacketListener.h:41-67 | every tree of bundles and messages, encoded, is delivered as its messages, in order, with the same addresses, tags and argument values, if and only if no address starts with '#' |
| OscRoundTrip.MessageIsReceived | Software/lib/oscpack/osc/OscReceivedElements.cpp:539-653 | the same for one message with any arguments, blobs included: every reading is a value |
| OscRoundTrip.ArgsAreRead | Software/lib/oscpack/osc/OscReceivedElements.cpp:446-509 | tags and argument bytes written for a list are walked and read back as that list |
| OscRoundTrip.OnlyPlainIsDelivered | Software/lib/oscpack/osc/OscPacketListener.h:41-67 | on arbitrary bytes no message whose address starts with '#' is ever delivered |
| OscEndToEnd.WriteElement | Software/lib/oscpack/osc/OscOutboundPacketStream.cpp:296-635 | writing a packet tree through the operators succeeds if and only if the encoded tree fits in the buffer |
| OscEndToEnd.EncodeThenProcess | Software/lib/oscpack/osc/OscPacketListener.h:58-67 | the bytes in the buffer, handed to the listener, deliver the tree's messages if and only if its addresses are clean |
| Patch.Patch.AddEntry | Software/src/Deamon/model/patch.cpp:76-107 | both indexes gain the link at the end of their two lists and no other list changes, and a group refreshes its slaves; refused exactly when the link exists |
| Patch.Patch.AddLink | Software/src/Deamon/model/patch.cpp:157-171 | the same, with the stored JSON following |
| Patch.Patch.RemoveLink | Software/src/Deamon/model/patch.cpp:109-155 | the remote's list loses the virtual, the virtual's list the remote, every other list on either side stays, and the JSON follows without empty lists; refused exactly when the link does not exist |
| Patch.Patch.RemoveRemoteLinks | Software/src/Deamon/model/patch.cpp:173-202 | the list of the remote is empty then, the remote has gone from every list of the other side, and nothing else changes; refused exactly when it has no links |
| Patch.Patch.RemoveVirtualLinks | Software/src/Deamon/model/patch.cpp:204-248 | the list of the virtual is empty then and the virtual has gone from every list of the other side, groups being refreshed while the entry still stands; refused exactly when it has no links |
| Patch.Patch.ParseArray | Software/src/Deamon/model/patch.cpp:52-59 | links the names of one stored array in order, up to the first link that exists already, and reports whether it took them all |
| PatchGroups.TakenIsAllExactly | Software/src/Deamon/model/patch.cpp:52-59 | all names of an array are taken if and only if none is repeated or already linked |
| PatchGroups.TakenIsUpToFirst | Software/src/Deamon/model/patch.cpp:52-59 | otherwise the names before the first one that is linked already or comes a second time are taken, and none behind it |
| Patch.Patch.Load | Software/src/Deamon/model/model.cpp:355-400 | every array is parsed whatever parseArray answers, and the object is then stored as it is; afterwards index and JSON agree if and only if no stored array is empty or repeats a name |
| Patch.Patch.MutualInverses | Software/src/Deamon/model/patch.cpp:76-248 | in every reachable state the two maps are mutual inverses, without duplicates or empty lists, and the JSON arrays equal the remote-to-virtual lists in order |
| Patch.Patch.RemoveSlave | Software/src/Deamon/model/virtualnetwork.cpp:574-579 | a group's slaves after removeSlave and updateFromPatch |
| Patch.Patch.CreateGroup | Software/src/Deamon/model/virtualnetwork.cpp:12-22 | a new group starts with the remotes already linked to its name |
| PatchLog.IndexesAreInverse | Software/src/Deamon/model/patch.cpp:76-248 | two indexes of one ordered list of distinct links are mutual inverses without duplicates |
| PatchLog.PickDropOne | Software/src/Deamon/model/patch.cpp:109-155 | cutting one link takes one name from one list on either side and keeps the order of all others |
| PatchLog.CutStep | Software/src/Deamon/model/patch.cpp:173-248 | cutting a key's links one by one |
| PatchGroups.AfterConnect | Software/src/Deamon/model/patch.cpp:76-107 | a new link appends one name to one list on either side |
| PatchGroups.AfterDisconnect | Software/src/Deamon/model/patch.cpp:109-155 | disconnect takes one name from one list on either side |
| PatchGroups.AfterDisconnectRemote | Software/src/Deamon/model/patch.cpp:173-202 | disconnectRemote empties one list and takes the remote from every list of the other side |
| PatchGroups.AfterDisconnectVirtual | Software/src/Deamon/model/patch.cpp:204-248 | disconnectVirtual empties one list and takes the virtual from every list of the other side |
| PatchGroups.CoherentThroughoutExactly | Software/src/Deamon/model/virtualnetwork.cpp:637-648 | over any run of commands every group's slave list equals its links, in order, at every moment, if and only if the run never cuts all links of a linked group; comparing sizes is enough for all other commands |
| PatchGroups.CommandKeepsCoherentExactly | Software/src/Deamon/model/virtualnetwork.cpp:574-579 | the same for one command |
| PatchGroups.RunsWithoutCutsAreCoherent | Software/src/Deamon/model/virtualnetwork.cpp:637-648 | runs of connect, disconnect, disconnectRemote and group creation end with every slave list right |
| PatchGroups.StaleSlaveStays | Software/src/Deamon/model/patch.cpp:213-244 | a run after which a group still answers to a remote that is no longer linked, since the sizes agree again |
| PatchGroups.ConnectMendsExactly | Software/src/Deamon/model/virtualnetwork.cpp:574-579 | a new link mends a wrong slave list if and only if the number of slaves, without the linked remote, is not the number of links there are then |
| PatchDamage.DamageIsBounded | Software/src/Deamon/model/virtualnetwork.cpp:637-648 | after any run of commands, from slave lists that are right, each list is right, or its group has no link, or it has one link and lists one slave: a group with two links or more always lists exactly them |
| PatchDamage.CutsNeverRefresh | Software/src/Deamon/model/patch.cpp:213-244 | and the refreshes that disconnectVirtual makes while the entry still stands never change a slave list |
| XBeeQueue.RunIsFaithful | Software/src/Deamon/xbee/xbeeremote.cpp:78-81 | over every interleaving of requests and ticks, whatever is sent is the newest request of its key and has not been sent before, and queues hold exactly the requests not yet sent |
| XBeeQueue.TickSendsOne | Software/src/Deamon/xbee/xbeeremote.cpp:104-112 | a tick sends exactly one message and lowers the total pending by one, or does nothing when nothing is pending |
| XBeeQueue.DrainsExactly | Software/src/Deamon/xbee/xbeeinterface.cpp:230-233 | without new requests exactly as many ticks as there are pending messages empty every queue, none earlier, and then the last value sent for each remote and key is the last one requested |
| XBeeQueue.LeastExists | Software/src/Deamon/xbee/xbeeremote.cpp:108-108 | the map's first key exists: the byte order on keys is total |
| XBeeQueue.LessExactlyAtFirstDifference | Software/src/Deamon/xbee/xbeeremote.cpp:104-112 | and it is the order of std::string: decided by the first byte in which two keys differ, a prefix being less |
| XBee.XBeeInterface.SafeSendMsg | Software/src/Deamon/xbee/xbeeremote.cpp:78-81 | under its key the queue holds type, data and 0xFF of the new request, replacing an older one; other keys, other remotes and receive buffers are untouched |
| XBee.XBeeInterface.TickRemote | Software/src/Deamon/xbee/xbeeremote.cpp:104-112 | the message with the least key is sent and erased |
| XBee.XBeeInterface.RunTick | Software/src/Deamon/xbee/xbeeinterface.cpp:230-233 | the loop serves the first remote that has anything and stops there |
| XBee.XBeeInterface.ReceiveRX | Software/src/Deamon/xbee/xbeeremote.cpp:30-48 | the complete frames of buffer and input, and the unfinished rest kept |
| XBee.SplitFrames | Software/src/Deamon/xbee/xbeeremote.cpp:32-44 | the byte loop finds the non-empty terminated pieces between separators |
| XBee.ReceiveAll | Software/src/Deamon/xbee/xbeeremote.cpp:30-48 | a whole session handles the frames of the concatenated input |
| XBeeFrames.ChunkingIsIrrelevant | Software/src/Deamon/xbee/xbeeremote.cpp:30-48 | whatever the chunking, the messages handled are the non-empty 0xFF-separated pieces of the whole stream, and the retained buffer never holds 0xFF |
| Separated.CutIsExact | Software/src/Deamon/xbee/xbeeremote.cpp:30-48 | the pieces joined by separators are the stream again, and no piece holds a separator |
| XBeeFrames.DecodesExactlyIfPlain | Software/src/Deamon/xbee/xbeeremote.cpp:83-90 | prepared messages decode to exactly that list if and only if neither type nor data holds 0xFF |
| XBeeFrames.ReadBackExactlyIfPlain | Software/src/Deamon/xbee/xbeeremote.cpp:83-90 | of the prepared bytes of a list of messages, frame by frame, the first byte is the type, as handleMessage reads it (52), and the rest the data, if and only if no type is 0xFF and no data holds it |
| JsonTree.RunMirrors | Software/src/Deamon/model/model.cpp:430-456 | after every run of value changes, renames, additions of whole subtrees and removals, at any depth, each parent's copy of a child equals the child's data, up to the root document, where each node's data is found at the node's address |
| JsonTree.RootAloneMirrors | Software/src/Deamon/model/model.cpp:601-606 | a root alone, with its data as document, is a state from which such runs start |
| JsonTree.LeafIsScion | Software/src/Deamon/model/model.cpp:439-447 | a new node without children is one of the subtrees that can be added |
| JsonTree.PushMirrors | Software/src/Deamon/model/model.cpp:430-437 | pushing one change up the parent chain mends every copy on the way and the root document |
| JsonTree.PushKeepsOwn | Software/src/Deamon/model/model.cpp:430-437 | and changes nobody's own values |
| JsonTree.PutMirrorsExactly | Software/src/Deamon/model/model.cpp:84-147 | setting a value keeps the mirror if and only if its key is not the name of a child |
| JsonTree.PutSetsOneValue | Software/src/Deamon/model/model.cpp:84-147 | then it changes that one value and no other own value in the tree |
| JsonTree.AddKidMirrorsExactly | Software/src/Deamon/model/model.cpp:439-447 | adding a child with its whole subtree keeps the mirror, in which siblings have different names and every copy is right, if and only if no sibling has its name |
| JsonTree.ClashSpoilsCopyExactly | Software/src/Deamon/model/model.cpp:439-447 | if a sibling has its name, the sibling's copy in the parent becomes wrong if and only if the data of the two differ |
| JsonTree.ClashSparesOthers | Software/src/Deamon/model/model.cpp:439-447 | and every other copy in the tree is right, up to the root document |
| JsonTree.AddKidKeepsOwn | Software/src/Deamon/model/model.cpp:439-447 | the child takes over its name in the parent and touches no other value |
| JsonTree.AddKidListsLast | Software/src/Deamon/model/model.cpp:439-447 | the child is the last of its parent's children; no other list, name or place changes |
| JsonTree.RemoveKidMirrors | Software/src/Deamon/model/model.cpp:449-456 | removing a child keeps the mirror for all nodes left and removes the child's name |
| JsonTree.RemoveKidKeepsOwn | Software/src/Deamon/model/model.cpp:449-456 | the values of the nodes left stay |
| JsonTree.RemoveKidTakesExactly | Software/src/Deamon/model/model.cpp:449-456 | exactly the child and its descendants go, and of those left only the parent's list of children changes |
| JsonTree.RenameMirrors | Software/src/Deamon/model/model.cpp:278-293 | renaming keeps the mirror, and sibling names apart |
| JsonTree.RenameKeepsOwn | Software/src/Deamon/model/model.cpp:278-293 | renaming changes no own value, the parent's included |
| JsonTree.RenameNamesOne | Software/src/Deamon/model/model.cpp:278-293 | the node has the new name, every other node its old one, and nobody moves |
| JsonTree.RenameMovesData | Software/src/Deamon/model/model.cpp:278-293 | the parent's data holds the node's data under the new name and nothing under the old one; all its other entries stay |
| JsonTree.RenameMovesPath | Software/src/Deamon/model/model.cpp:278-293 | the address of the node is its parent's address followed by the new name |
| JsonTree.DocumentHoldsEveryNode | Software/src/Deamon/model/model.cpp:601-606 | in the steady state the root document holds each node's data at its address |
| JsonTree.PathIsUnique | Software/src/Deamon/model/model.cpp:338-352 | an address belongs to one node |
| JsonTree.JSonNode.UpdateParentJson | Software/src/Deamon/model/model.cpp:430-437 | the recursive method does, on the objects, exactly the push, including the document of the root (601-606) |
| JsonTree.JSonNode.SetValue | Software/src/Deamon/model/model.cpp:84-147 | reports an unchanged value and leaves the tree alone, or stores and pushes |
| JsonTree.TruthIsInverted | Software/src/Deamon/model/model.cpp:120-134 | setBool from text accepts every text and stores false for "true" and true for all others; it stores what the text means if and only if the text is "1" |
| JsonTree.DiffersUpToCase | Software/src/Deamon/model/model.cpp:120-134 | the comparison takes two texts for the same exactly when they agree letter by letter up to case |
| JsonTree.CapitalsAreStoredToo | Software/src/Deamon/model/model.cpp:120-134 | so "TRUE", "True" and "true" are stored as false, and "FALSE", "yes" and "1" as true |
| JsonTree.JSonNode.SetTruth | Software/src/Deamon/model/model.cpp:120-147 | the node after setBool from text |
| JsonTree.JSonNode.SetNumberFrom | Software/src/Deamon/model/model.cpp:97-118 | given what toDouble made of the text: WrongArg if it was no number, and nothing changes; an equal number is reported and nothing changes; any other is set and pushed |
| JsonTree.JSonNode.AddSubNode | Software/src/Deamon/model/model.cpp:439-447 | the objects after the operation, as the value-level operation says |
| JsonTree.JSonNode.RemoveSubNode | Software/src/Deamon/model/model.cpp:449-456 | the objects left, as the value-level operation says |
| JsonTree.JSonNode.RenameTo | Software/src/Deamon/model/model.cpp:278-293 | the node has the new name, the parent's data its data under that name and nothing under the old one; refused, with everything unchanged, exactly at the root and for a key the parent already has |
| JsonTree.JSonNode.Address | Software/src/Deamon/model/model.cpp:338-352 | the loop up the parents gives the names from below the root, joined by dots |
| JsonTree.JSonNode.NodeByPath | Software/src/Deamon/model/model.cpp:587-592 | the loop over the names finds the one node with that path, and fails only if there is none |
| JsonTree.JSonNode.NodeByAddress | Software/src/Deamon/model/model.cpp:581-593 | finds the one node with that address, and fails only if there is none |
| JsonTree.FoundAgainExactly | Software/src/Deamon/model/model.cpp:581-593 | a node is what its own address denotes if and only if it is a root, or no name on its path holds a dot and it is not a child of the root with an empty name |
| JsonTree.JSonNode.FindAgain | Software/src/Deamon/model/model.cpp:338-352 | address followed by nodeByAddress returns the node under exactly that condition |

## Left out

- Compression (zlib, MCCP2) in libtelnet, and what a receiver does with the bytes behind an option-85 marker beyond the DATA event they cause.
- The MSSP, TTYPE and ZMP decoders: what they tell the handler is a parameter (`special`) of the configuration.
- Allocation failure and handlers that call back into the engine.
- printf-style senders in libtelnet, ZMP and TTYPE senders: they only wrap the sender that is modelled.
- OscOutbound.OutboundPacketStream.AddArgument: requires an open message; the code does not check this, and arguments added outside a message are not part of any document.
- OscOutbound.OutboundPacketStream.constructor: requires a buffer below 2 GiB, so that the `int` tag count and the 4-byte slots hold every count and offset.
- The argument stream (`operator>>`) and the type checks of the single As* accessors in oscpack: reading goes through the accessor that belongs to the tag.
- Reading outside a packet: the code gets some word there and goes on, as modelled; a fault of the processor is not.
- Packets of 2 GiB and more: `ProcessPacket` takes an `int` size, and element sizes are read back as `int32`.
- TelnetPair.EnginesFallSilent: requires calls on at most 63 options; with 64 it is false of the code (`TelnetOverflow.SilentExactlyUpTo63`).
- TelnetPair.PlayIsGood: requires calls on at most 63 options; behind the 64th growth of a table the engines no longer follow the two-party system (`TelnetOverflow.AgreeExactlyUpTo63`).
- TelnetPair.ByteFollows: the same.
- TelnetOutcome.EnginesObeyLastRequest: the same; nothing is said of options about which both ends make calls.
- Telnet.Telnet.Subnegotiate: what the ZMP, TTYPE and MSSP decoders tell the handler is the parameter `special`.
- Time tags of bundles on reception: the listener ignores them.
- OscEndToEnd.WriteElement: a caller of the stream that stops at the first exception; the repository has callers of this kind but not this one.
- The mutex of the patch: operations are atomic steps.
- Patch.Patch.Load: a new patch, the keys as a list in any order; the file, its parser, array items that are not strings and the rollback of populateNode for failed child nodes are not part of this model.
- Renaming and deleting groups, and virtual remotes, in relation to the patch.
- JsonTree.JSonNode.SetNumberFrom: what QString::toDouble makes of a text is a parameter, and NaN is not modelled.
- JsonTree.JSonNode.SetTruth: case is ignored for the letters A to Z only.
- populateNode and file loading, saving and watching in model.cpp: the runs start from a steady state.
- JSonNode output signals, help texts and printing.
- Discovering, adding and removing remotes of the radio interface: the list of remotes is fixed during a run; xbee_dev_tick and the status checks of a tick are outside.
- handleMessage: what a received frame does to the model.
- RtMidi, sockets, serial ports, the telnet console's line editing, the user interface.
