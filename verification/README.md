# A verified model of rabbit-digger-pro's hard parts

rabbit-digger-pro is a rule-based proxy engine. This project models the parts of it that keep state over many
steps, and proves what those parts are for. A class here stands for a struct of the program, with the same fields
and the same branches; its methods are proved against specification functions, and the lemmas about those
functions are the main results. Readers, writers, threads, clocks and the order of hash maps are adversarial: every
result holds whatever they do.

- **Config graph** (`ConfigGraph`, `ConfigGraphLemmas`, `BuildSteps`, `BuildFunction`, `Building`,
  `Flattening`, `TidyNames`, `NameCollisions`, `Entities`, `ConfigVisit`). Named nets refer to each other by
  name or contain each other inline. The builder works depth first with memoisation and meets a cycle only through
  the placeholder it swaps into the map it walks. It terminates on every config, by a weight of what is not built yet
  that survives the insertion of nested nets, and on every config it computes one recursive function. With fresh
  generated names, building everything succeeds exactly if all that any server leads to exists, is registered,
  builds, and lies on no cycle; a failure is explained by something reachable. Names are fresh for every tidy config:
  no delimiter in names and in paths of nested nets, no net named `net` or `server`, and no such path leading through
  another one.
- **VLESS** (`Vless`, `VisionSpec`, `VisionReading`, `VisionWriting`, `VlessAddress`, `ResponseHeader`, `Xudp`,
  `XudpChunks`, `WireFormats`). Incremental Vision decoding equals one-shot decoding for every cut into polls; writing
  and decoding are inverse; addresses, request headers and address-compressed XUDP packets round trip, the last in
  any chunks that are not cut inside a payload. `WireFormats` says which byte lies where, for these formats and those
  of Hysteria and AnyTLS.
- **Hysteria** (`Varint`, `HysteriaDatagram`, `Reassembly`, `HysteriaClient`). Variable-length integers as in
  section 16 of RFC 9000, fragmentation within the datagram limit, reassembly under any order, duplication, expiry
  and pruning, and the client's session table with its packet ids.
- **Fake IP pool** (`FakeIp`, `FakeIpWrap`, `FakeIpPooling`). Two inverse maps, a rotating cursor, and double-checked
  locking that is shown to be linearizable.
- **Traffic accounting** (`Traffic`, `TrafficLedger`, `TrafficManager`). Byte conservation over all interleavings, in
  total and for every connection.
- **Relays** (`TcpRelay`, `UdpRelay`). Nothing lost, duplicated or reordered, against any reader and writer; a relay
  fails exactly when one of them does, and waits only for one that does.
- **AnyTLS** (`AnyTls`, `AnyTlsClient`). Padding is invisible to a reader, and whole sessions deliver what was written.
- **Smaller parts** (`TopoSort`, `SideEffects`, `RouteSetup`, `RoutingCommands`, `CompactStrings`).

## Where the code keeps less than it promises

Each of these is stated as an exact condition, or with a concrete input.

- Generated names are not always fresh. `TidyNames.TidyIsFresh` gives a condition under which they are, and for each
  part of it there is a config that fails without it: a net named "net" (`NameCollisions.NamedNetCollides`) or
  "server" (`NamedServerCollides`); the delimiter in the name of a net (`DelimiterCollides`), in the name of a server
  (`ServerDelimiterCollides`), in the path of a nested net (`PathDelimiterCollides`), or in a name that is referred to
  (`MentionIsNotFresh`, found or not found depending on the order of building by `MentionDependsOnOrder`); a path
  through another path (`PathThroughPathCollides`); and two nested nets at one path
  (`ConfigVisit.CollidingPathsAreNotFresh`), which is what a single-or-many list gives
  (`ConfigVisit.GroupOfNetsCollides`). On a collision nothing fails: the second reference gets the net that the first
  one built, and the whole config is built with it (`NameCollisions.CollidingConfigIsBuilt`).
- A flush or shutdown that completes a half-written Vision frame never reports it, so a retry sends the bytes twice;
  what the peer decodes is what was reported exactly if that never happened (`VisionWriting.ReportedIsSent`). A run
  in which it happens is `VisionWriting.FlushSendsTwice`; a caller that never flushes with a write pending is safe
  (`VisionWriting.CarefulCaller`).
- The XUDP decoder drops the metadata before the payload is there; `Xudp.CutInsidePayload` says for every buffer
  whether a call leaves it alone, and `XudpChunks.CutThenRest` that a frame in two parts is decoded exactly if the cut
  is not inside its payload.
- An IPv6 address loses its flow label and scope on the wire (`VlessAddress.AddressKept`).
- `write_varint` is right exactly below 2^62 (`Varint.VarintRoundTrip`).
- The server cuts at least one byte per datagram even if the header alone is too long
  (`HysteriaDatagram.ServerSend`).
- Session ids in use are different exactly up to 2^32 sessions (`HysteriaClient.DistinctUntilWrap`); the next session
  takes the id, and the peer, of one still in use (`HysteriaClient.IdsWrap`). Within them two sends share session and
  packet id exactly if a multiple of 2^16 sends to one target lies between (`HysteriaClient.KeysRepeatExactly`).
- A fragment numbered beyond its count ends the packet on the server and leaves an empty entry on the client
  (`Reassembly.PlaceBeyondCount`).
- The fake IP rotation breaks when the cursor wraps: all addresses follow it exactly up to 2^32 fresh allocations, or
  in a pool of one (`FakeIpWrap.RotationExactly`). A build with overflow checks stops once the cursor is below the
  range (`FakeIpWrap.CheckedCursor`). The maps stay inverse all the same (`FakeIp.RunKeepsInverse`).
- A read from an AnyTLS stream reports the end of the stream for an empty data frame
  (`AnyTlsClient.AnyTlsStream.PollRead`).
- A padding scheme that asks for a waste frame of more than 65535 bytes stops the program, exactly then
  (`AnyTls.ApplyPadding`).
- Rolling back the tunnel setup leaves a default name server behind exactly if all went well and the old file could
  not be read (`RouteSetup.SetupIsUndone`; `RoutingCommands.SetupRestored` on a host with real rules and routes).
- Deserializing a list of one string and serializing it again gives a plain string (`CompactStrings.JsonIsNormal`).

## Model

| member | source | states |
|---|---|---|
| Building.BuildContext.constructor | rabbit-digger/src/rabbit_digger.rs:687-694 | The builder starts with the configured nets, an empty cache and no placeholder. |
| Building.BuildContext.GetNet | rabbit-digger/src/rabbit_digger.rs:698-756 | Terminates on every config, cyclic or not, and computes the builder's function on it. With fresh names a success returns the cached net of the reference's target, rewrites the reference to that name, restores every placeholder it placed, and builds only what the owner leads to; a failure is explained by a net reachable from the reference. |
| Building.BuildContext.BuildNamed | rabbit-digger/src/rabbit_digger.rs:727-755 | The part after the cache lookup: with the placeholder in place the net is built, then its rewritten config put back and the net cached, with all invariants kept. |
| Building.BuildContext.BuildDyn | rd-interface/src/registry.rs:61-68 | A config of an unregistered type fails with that type; a success leaves the config with every reference turned into the name of a cached net; a failure is the config's own or one of its references'. |
| Building.BuildContext.VisitFields | rd-interface/src/registry.rs:94-108 | References are resolved in visiting order, each to the cached net of its target, none twice, and none is disturbed by building another. |
| BuildSteps.TotalSplit | rabbit-digger/src/rabbit_digger.rs:706-755 | The termination measure is a sum over nets: any one net's share can be taken out. |
| BuildFunction.RefNeedsNoMore | rabbit-digger/src/rabbit_digger.rs:698-756 | The builder's function has one value on every config: looking deeper never changes it. |
| BuildFunction.ReachesNext | rabbit-digger/src/rabbit_digger.rs:698-756 | A visit that has come as far as one reference comes to the next in the state that this one left, or stops with its error. |
| BuildSteps.SetWeight | rabbit-digger/src/rabbit_digger.rs:713-731 | Inserting a nested net adds exactly its own weight, which its reference loses; swapping in the placeholder takes out what the build may use. |
| BuildSteps.FinishWeight | rabbit-digger/src/rabbit_digger.rs:745-753 | Putting a finished config back and caching its net never adds to the weight of what is left. |
| BuildSteps.LookLooping | rabbit-digger/src/rabbit_digger.rs:704-735 | Looking up a name that is under construction finds the placeholder, whose type is the circular-reference error, and that blames a cycle or a net still being built. |
| BuildSteps.LookMissing | rabbit-digger/src/rabbit_digger.rs:727-735 | A name that is not configured fails as not found, and no such net is in the flat graph. |
| BuildSteps.LookInline | rabbit-digger/src/rabbit_digger.rs:708-721 | Hoisting a nested net puts it under its generated name and keeps the invariant, with no other net disturbed. |
| BuildSteps.BuiltFinish | rabbit-digger/src/rabbit_digger.rs:738-755 | After a successful build the restored config and the new cache entry satisfy what the caller was promised. |
| BuildSteps.BuiltFails | rabbit-digger/src/rabbit_digger.rs:738-742 | A failed build is explained along a path from the net that was asked for. |
| ConfigGraphLemmas.CachedIsBuildable | rabbit-digger/src/rabbit_digger.rs:751-755 | Whatever enters the cache is buildable: all it reaches exists, is registered, builds, and is on no cycle. |
| ConfigGraphLemmas.BlamedIsNotBuildable | rabbit-digger/src/rabbit_digger.rs:704-735 | Every error, the placeholder's included, means that the net asked for is not buildable. |
| ConfigGraphLemmas.BuildIsDeterministic | rabbit-digger/src/rabbit_digger.rs:723-725 | The flat graph alone decides what a name is built to, whatever was built before it: memoisation cannot be observed. |
| ConfigGraphLemmas.HoistKeepsInv | rabbit-digger/src/rabbit_digger.rs:712-718 | Inserting a nested net under a fresh name keeps the builder's invariant. |
| ConfigGraphLemmas.BeginKeepsInv | rabbit-digger/src/rabbit_digger.rs:727-731 | Swapping a config for the placeholder keeps the invariant. |
| ConfigGraphLemmas.FinishKeepsInv | rabbit-digger/src/rabbit_digger.rs:745-753 | Restoring the rewritten config and caching the net keeps it; dependencies are in the cache before dependents. |
| Flattening.WithDefaults | rabbit-digger/src/config.rs:105-128 | Every config has the three default nets, each of the type it is named after, without references and with its own options, and none replaces one that the user configured. |
| Entities.BuildServer | rabbit-digger/src/rabbit_digger.rs:645-669 | The next server is built as the builder's function says. With fresh names it is built exactly if its own config is good and every net it refers to is buildable; then the running nets are those some server so far leads to, and earlier ones are unchanged. |
| Entities.BuildEntities | rabbit-digger/src/rabbit_digger.rs:631-676 | On every config the result, and the config that is left, are those of the builder's function. If generated names are fresh, as in every tidy config, all succeeds exactly if every server and everything it leads to is good and acyclic; then the result holds exactly the nets some server leads to, and in the config that is left these and no others are rewritten, with no placeholder. A failure names a server and is explained by it. |
| Entities.TidyConfigIsFresh | rabbit-digger/src/rabbit_digger.rs:708-721 | A config that is tidy as the user wrote it has fresh names together with the default nets. |
| Entities.AllRewritten | rabbit-digger/src/rabbit_digger.rs:745-749 | After a success every net that was built has its references replaced by the names of built nets, every other net is as the user wrote it, and there are no further entries: no placeholder is left. |
| Entities.UnfoldsOnce | rabbit-digger/src/rabbit_digger.rs:708-721 | A flat graph determines the nested config that it stands for. |
| Entities.FaultyServer | rabbit-digger/src/rabbit_digger.rs:645-669 | A failure to build a server means that it is not good: the other half of the equivalence. |
| Entities.FaultIsCycle | rabbit-digger/src/rabbit_digger.rs:704-731 | If everything reachable exists and builds, the only error left is the placeholder type, and then there is a reachable cycle. |
| Flattening.FlattenIsWorld | rabbit-digger/src/rabbit_digger.rs:708-721 | A config in which no two nets get one name, and no name written by the user means a nested net, has the flat graph that the builder's results speak of. |
| Flattening.SiteIsOnlyOne | rabbit-digger/src/rabbit_digger.rs:708-721 | If no two nets get one name, every hoisted net has one reference only, and its name is no user's. |
| TidyNames.SplitGenerated | rabbit-digger/src/rabbit_digger.rs:709-712 | A generated name can be split into its parts again: the kind and name of the owner, and the path. |
| TidyNames.FieldEntriesDiffer | rabbit-digger/src/rabbit_digger.rs:708-721 | In a tidy config all nets nested in one config, at any depth, get different names. |
| TidyNames.EntriesLeadToRoot | rabbit-digger/src/rabbit_digger.rs:708-721 | The name of a nested net leads back to the server or net that the user wrote it in. |
| TidyNames.TidyIsFresh | rabbit-digger/src/rabbit_digger.rs:708-721 | Every tidy config has fresh generated names, and so the flat graph. |
| NameCollisions.NamedNetCollides | rabbit-digger/src/rabbit_digger.rs:737-741 | Two nets get one name in a config without any delimiter, if one net is named net. |
| NameCollisions.NamedServerCollides | rabbit-digger/src/rabbit_digger.rs:764-766 | So they do if one net is named server. |
| NameCollisions.DelimiterCollides | rabbit-digger/src/rabbit_digger.rs:709-712 | A nested net gets the name of a user's net, if that contains the delimiter. |
| NameCollisions.PathThroughPathCollides | rabbit-digger/src/rabbit_digger.rs:709-712 | Nets two levels deep get one name, if one path leads through another. |
| NameCollisions.PathDelimiterCollides | rabbit-digger/src/rabbit_digger.rs:709-712 | Two paths of one config that differ only by the delimiter inside a component give one name. |
| NameCollisions.ServerDelimiterCollides | rabbit-digger/src/rabbit_digger.rs:764-766 | So do two servers, one with the delimiter in its name. |
| NameCollisions.MentionIsNotFresh | rabbit-digger/src/rabbit_digger.rs:706-712 | A name written by the user can be that of a net nested elsewhere. |
| NameCollisions.MentionDependsOnOrder | rabbit-digger/src/rabbit_digger.rs:723-735 | Such a reference is an error before the net around the nested one is built, and is served afterwards. |
| NameCollisions.SecondGetsFirst | rabbit-digger/src/rabbit_digger.rs:713-725 | A nested net whose name is taken is never built: its reference gets the net built before under that name. |
| NameCollisions.CollidingConfigIsBuilt | rabbit-digger/src/rabbit_digger.rs:631-676 | A config with such a collision is built without an error, and a net holds what was written in another one. |
| ConfigVisit.VisitorContext.Push | rd-interface/src/config.rs:74-77 | The path grows by one field at its end. |
| ConfigVisit.VisitorContext.Pop | rd-interface/src/config.rs:78-80 | The path loses its last field, if it has one. |
| ConfigVisit.Visit | rd-interface/src/config.rs:86-152 | A visit sees every reference once, in order, at its own path, and leaves the path as it was; after a refusal nothing more is seen. |
| ConfigVisit.VisitPart | rd-interface/src/config.rs:121-125 | One part is visited below its key, or below nothing in a group. |
| ConfigVisit.VisitsShift | rd-interface/src/config.rs:121-138 | Paths are relative: a longer prefix changes nothing else. |
| ConfigVisit.DecimalIsInjective | rd-interface/src/config.rs:121-122 | Different positions of a list get different path components. |
| ConfigVisit.DecimalReads | rd-interface/src/config.rs:121-122 | The component for a position is that number in decimal, without leading zeros. |
| ConfigVisit.VisitsSample | rd-interface/src/config.rs:86-152 | Names and positions make up the paths, groups do not show, and references come in the order written. |
| ConfigVisit.KeysSeparate | rd-interface/src/config.rs:131-145 | Parts below different keys never share a path. |
| ConfigVisit.PathsAreDistinct | rd-interface/src/config/single_or_vec.rs:16-28 | All references have different paths exactly if no group holds two references at one path below it. |
| ConfigVisit.GroupOfNetsCollides | rd-interface/src/config/single_or_vec.rs:20-24 | A single-or-many list with two net references is such a group. |
| ConfigVisit.CollidingPathsAreNotFresh | rabbit-digger/src/rabbit_digger.rs:708-721 | Two nested nets at one path are hoisted to one name, so the freshness hypothesis fails for that config. |
| VisionSpec.FramesDecode | protocol/vless/src/common.rs:448-526 | Frames put in a row decode to their contents put in a row. |
| VisionSpec.WireRoundTrip | protocol/vless/src/common.rs:434-446 | Decoding what any sequence of writes puts on the wire gives back the payloads put together. |
| VisionSpec.DeliverGrows | protocol/vless/src/common.rs:448-526 | More input never takes back what was delivered. |
| VisionSpec.PartialWire | protocol/vless/src/common.rs:448-526 | Any cut of the wire delivers only a prefix of what was written. |
| VisionSpec.PeerIsRead | protocol/vless/src/common.rs:448-526 | Whatever frames and padding a peer sends: the contents of whole frames come out without padding, the first other command makes the rest raw, and a frame cut anywhere delivers nothing. |
| VisionSpec.OtherPeerIsRaw | protocol/vless/src/common.rs:458-474 | One byte that is not the user id's, and all input is passed on as it is. |
| VisionReading.VisionReader.ReadHeader | protocol/vless/src/common.rs:476-492 | Five header bytes are read into command, content length and padding length as big-endian numbers. |
| VisionReading.VisionReader.TakeFrame | protocol/vless/src/common.rs:494-524 | A complete frame hands over its content without its padding; a non-zero command switches to raw bytes, and command 2 tells the shared flag. |
| VisionReading.VisionReader.CheckUuid | protocol/vless/src/common.rs:458-474 | A user id that does not match means that everything is raw; a matching one is skipped once the first header is there. |
| VisionReading.VisionReader.TryDecodeFrames | protocol/vless/src/common.rs:448-526 | From any state of the decoder, the bytes made ready and the new state decode any future input to the same result as before, and all that can be decoded is decoded. |
| VisionReading.VisionReader.PollRead | protocol/vless/src/common.rs:533-575 | However input is cut into polls, bytes handed out plus bytes ready are the one-shot decoding of all input so far; an empty read means the end of the input. |
| VisionReading.VisionReader.PollRaw | protocol/vless/src/common.rs:546-548 | Raw bytes pass through unchanged, after all framed ones. |
| VisionReading.VisionReader.PollFrames | protocol/vless/src/common.rs:550-574 | The same for the framed part, which reads on until something is ready. |
| VisionWriting.VisionWriter.EnqueueWrite | protocol/vless/src/common.rs:434-446 | At most 65535 bytes are framed, after the user id if they are the first. |
| VisionWriting.VisionWriter.WriteSome | protocol/vless/src/common.rs:590-595 | One write moves what the sink accepts from pending to sent, and nothing else. |
| VisionWriting.VisionWriter.PollPending | protocol/vless/src/common.rs:589-601 | Bytes sent plus bytes pending are always the wire image of all framed payloads; a completed frame is reported with its own length. |
| VisionWriting.VisionWriter.PollWrite | protocol/vless/src/common.rs:582-622 | A new frame is made only if none is pending; a frame is reported exactly once, when it is all sent; an empty write sends nothing. |
| VisionWriting.VisionWriter.PollFlush | protocol/vless/src/common.rs:624-653 | Completion means that nothing is pending; a frame that is completed here is never reported. |
| VisionWriting.ReportedIsSent | protocol/vless/src/common.rs:582-637 | With nothing pending, the peer decodes exactly what was reported if and only if no flush ever completed a frame. |
| VisionWriting.VisionWriter.DrainPending | protocol/vless/src/common.rs:626-635 | Writes until nothing is pending or the sink stops, as the sink's answers say. |
| VisionWriting.FlushSendsTwice | protocol/vless/src/common.rs:582-637 | A run: a write is pending, a flush completes it, the retry sends the same bytes again; the peer decodes them twice and the caller was told once. |
| VisionWriting.CarefulCaller | protocol/vless/src/common.rs:582-637 | A caller that never flushes with a write pending is told exactly what the peer decodes. |
| VisionWriting.SentSoFar | protocol/vless/src/common.rs:582-622 | At any moment the peer has decoded a prefix of what was framed. |
| ResponseHeader.WriteResponseHeader | protocol/vless/src/common.rs:154-160 | What is written is exactly a header: whatever follows it is what a reader is left with. |
| ResponseHeader.HeaderWithAddons | protocol/vless/src/common.rs:290-349 | A header is dropped with its addons, of any length; until all of it is there nothing is handed out, and any other version is bad as soon as two bytes are there. |
| ResponseHeader.ResponseHeaderStream.ReadHeader | protocol/vless/src/common.rs:295-311 | Version and length are taken over as many polls as needed, and nothing more. |
| ResponseHeader.ResponseHeaderStream.SkipAddons | protocol/vless/src/common.rs:327-343 | Addons are skipped over as many polls as needed, and nothing more. |
| ResponseHeader.ResponseHeaderStream.PollReadyHeader | protocol/vless/src/common.rs:290-349 | It is an error of version exactly if the input has two bytes and the first is another version; ready means that the header is off the input. |
| ResponseHeader.ResponseHeaderStream.OutIsStripped | protocol/vless/src/common.rs:290-367 | In every reachable state the bytes handed out are the input without its header. |
| ResponseHeader.ResponseHeaderStream.PollRead | protocol/vless/src/common.rs:356-366 | However the input is cut, the caller gets it without the header. |
| VlessAddress.AddressRoundTrip | protocol/vless/src/common.rs:1000-1066 | A written address reads back as itself up to flow label and scope, and what follows it is untouched. |
| VlessAddress.AddressKept | protocol/vless/src/common.rs:1000-1066 | It reads back as itself exactly if it has neither. |
| VlessAddress.AddonsRoundTrip | protocol/vless/src/common.rs:947-998 | The flow survives the addons encoding. |
| VlessAddress.RequestHeaderRoundTrip | protocol/vless/src/common.rs:100-152 | A request header is read back by whoever expects its user and refused by everyone else; a multiplexed one carries no address. |
| VlessAddress.CutHeaderIsBad | protocol/vless/src/common.rs:117-152 | A header that ends early, at any byte, or is of another version is refused. |
| VlessAddress.FlowIs | protocol/vless/src/common.rs:46-54 | White space around a flow does not matter; blank means none, the one known flow is accepted, and any other refused. |
| WireFormats.AddressBytes | protocol/vless/src/common.rs:1000-1028 | Port, type and address bytes of the three kinds, and a name of more than 255 bytes is refused. |
| WireFormats.RequestHeaderBytes | protocol/vless/src/common.rs:100-115 | Version 0, user id, the flow in its addons, command, and an address unless the command is 3. |
| WireFormats.VisionFrame | protocol/vless/src/common.rs:434-446 | The user id once, then for each write command 0, the length, no padding, and the bytes. |
| WireFormats.VisionSwitch | protocol/vless/src/common.rs:710-728 | A peer that ends the framing with its first frame, padded or not. |
| Xudp.XudpCodec.Encode | protocol/vless/src/common.rs:672-697 | A packet is appended as one frame, compact if its address is the last one; a refused one changes nothing. |
| Xudp.XudpCodec.DecodeNext | protocol/vless/src/common.rs:814-882 | One call yields a packet, a wait or an error, with the remembered address and the rest of the buffer that the format asks for. |
| Xudp.PacketRoundTrip | protocol/vless/src/common.rs:672-697 | A frame decodes to its packet, and the two remembered addresses stay equal on the wire. |
| Xudp.RunRoundTrip | protocol/vless/src/common.rs:669-697 | Any run of packets through one encoder decodes with a fresh decoder to the accepted packets, in order. |
| Xudp.KeepAliveIsSkipped | protocol/vless/src/common.rs:830-838 | A complete keep-alive frame is taken whole with its payload, the remembered address stays, and the next call decodes the packet behind it. |
| Xudp.RefusedExactly | protocol/vless/src/common.rs:814-882 | The exact buffers that are refused: bad length, type or network, an address that cannot be read, or a repeated one when there is none. |
| WireFormats.XudpFrame | protocol/vless/src/common.rs:672-697 | The bytes of a packet to a new address, and of one to the address before. |
| WireFormats.XudpPair | protocol/vless/src/common.rs:769-785 | Two packets to one address from a fresh encoder. |
| Xudp.CutInsidePayload | protocol/vless/src/common.rs:814-882 | For every buffer: the decoder waits without harm exactly while a valid metadata length is not matched by metadata and payload length; the buffer is left alone besides only on a bad length or type, and otherwise the metadata is gone. |
| Xudp.CutFrameIsLost | protocol/vless/src/common.rs:846-878 | A frame cut anywhere inside its payload loses its metadata, and the decoder then waits. |
| XudpChunks.CutThenRest | protocol/vless/src/common.rs:814-882 | A frame that arrives in two parts yields its packet if and only if the cut is before its payload; otherwise no packet comes out. |
| XudpChunks.DecodesToPlace | protocol/vless/src/common.rs:814-882 | Decoding up to a cut that is not inside a payload yields the complete packets, keeps the address in step with the encoder, and leaves the rest of the input as it was. |
| XudpChunks.ChunksDecode | protocol/vless/src/common.rs:814-882 | If no cut is inside a payload, any chunks of a run yield the same packets as the whole run at once. |
| Varint.LengthIs | protocol/hysteria/src/codec.rs:6-34 | The announced length is the length written, for every 64-bit number. |
| Varint.VarintDecodes | protocol/hysteria/src/codec.rs:18-69 | What is read is the number without its top two bits, from exactly the bytes written. |
| Varint.VarintRoundTrip | protocol/hysteria/src/codec.rs:18-69 | The round trip holds exactly below 2^62. |
| Varint.ReadIsDecode | protocol/hysteria/src/codec.rs:104-123 | Reading byte by byte from a stream agrees with decoding a buffer, on every stream. |
| Varint.TagIsLength | protocol/hysteria/src/codec.rs:6-34 | The first two bits of what is written are 0, 1, 2 and 3 for lengths 1, 2, 4 and 8. |
| Varint.Samples | protocol/hysteria/src/codec.rs:18-69 | The sample numbers of appendix A.1 of RFC 9000. |
| HysteriaDatagram.ParseRoundTrip | protocol/hysteria/src/udp.rs:131-150 | The receiver recovers session, packet, fragment ids, address and slice exactly. |
| WireFormats.HysteriaFragment | protocol/hysteria/src/udp.rs:326-343 | Session, packet, fragment number and count, length of the address, address, slice, in this order and most significant byte first. |
| HysteriaDatagram.FragCountCovers | protocol/hysteria/src/udp.rs:302-303 | The number of fragments is the least that covers the payload, and at least one. |
| HysteriaDatagram.FragmentPacket | protocol/hysteria/src/udp.rs:293-345 | An accepted payload becomes 1 to 255 datagrams, each within the limit, whose slices put together are the payload; each refusal has its exact condition, and a connection that refuses a datagram has taken the ones before it. |
| HysteriaDatagram.CutAll | protocol/hysteria/src/udp.rs:326-343 | Datagram number i carries slice number i under the right header, up to the first that is refused. |
| HysteriaDatagram.SendCut | protocol/hysteria/src/server.rs:573-593 | The part that client and server share: the slices sent make up the data, or a prefix of it if a datagram is refused; too many are not sent at all. |
| HysteriaDatagram.ServerSend | protocol/hysteria/src/server.rs:544-593 | A packet of the server takes an id in any case, its slices put together are the data, and its datagrams fit exactly if the header leaves room. |
| Reassembly.AcceptKeepsTableOk | protocol/hysteria/src/udp.rs:160-200 | On any input, honest or not, the received counter of every entry equals its number of filled slots, on client and server. |
| Reassembly.ReceiveBounded | protocol/hysteria/src/udp.rs:209-226 | On any input the table never exceeds 2049 entries. |
| Reassembly.AcceptSafe | protocol/hysteria/src/udp.rs:163-200 | From honest fragments only whole sent packets come out. |
| Reassembly.NextIsSafe | protocol/hysteria/src/server.rs:366-416 | The same for one step of a receiver with expiry and pruning, on either side. |
| Reassembly.RunIsSafe | protocol/hysteria/src/udp.rs:152-205 | Over every run with any order, duplication and interleaving, each payload emitted is exactly the packet its key stood for. |
| Reassembly.RunCollects | protocol/hysteria/src/udp.rs:183-199 | While an entry is kept, its filled slots are exactly the fragments that arrived, and nothing is emitted early. |
| Reassembly.LastFragmentCompletes | protocol/hysteria/src/udp.rs:183-199 | The last missing fragment, and no earlier one, emits the packet. |
| Reassembly.PairCompletes | protocol/hysteria/src/udp.rs:163-226 | An instance for all payloads and times on both sides: of two fragments the second arrives first, and the first one then emits the whole exactly if it comes within ten seconds, whether a prune is due between or not. |
| Reassembly.PruneIs | protocol/hysteria/src/udp.rs:213-226 | A prune before one second is over and with fewer than 2048 entries changes nothing; any other keeps exactly the entries of at most ten seconds, unchanged, or none if there are more than 2048 of them. |
| Reassembly.DuplicateChangesNothing | protocol/hysteria/src/udp.rs:183-187 | The first payload for a slot wins. |
| Reassembly.MisfitEndsPacket | protocol/hysteria/src/udp.rs:172-179 | A fragment with another count, or for an expired entry, removes the entry. |
| Reassembly.PlaceBeyondCount | protocol/hysteria/src/udp.rs:180-182 | What a fragment numbered beyond its count does on either side. |
| HysteriaClient.Hy2UdpState.PollGetOrCreateSession | protocol/hysteria/src/udp.rs:350-431 | The table changes as specified: an address is ready at once, a domain after its lookup, and a failed lookup leaves no entry. |
| HysteriaClient.Hy2UdpState.NextPacketId | protocol/hysteria/src/udp.rs:311-324 | For a ready session the lookup cannot fail; it takes the packet id that is next and leaves the one after it. |
| HysteriaClient.Hy2UdpState.PruneReassembly | protocol/hysteria/src/udp.rs:213-226 | The table is pruned as `Reassembly.PruneIs` says: expired entries go, at most once per interval or when the table is full; a table that stays too large is emptied. |
| HysteriaClient.Hy2UdpState.OnDatagram | protocol/hysteria/src/udp.rs:131-201 | A malformed datagram changes nothing; one of an unknown session only prunes; any other is received, and what it completes goes to that session's peer. |
| HysteriaClient.Hy2UdpState.AcceptFragment | protocol/hysteria/src/udp.rs:163-200 | Fragment handling with its edge cases: changed count, expiry, id out of range, duplicate. |
| HysteriaClient.Hy2UdpState.JoinFrags | protocol/hysteria/src/udp.rs:189-194 | The slots are put together in order. |
| HysteriaClient.ReadyIsReady | protocol/hysteria/src/udp.rs:350-431 | The poll reports ready exactly if the session is then in the table as reported. |
| HysteriaClient.PollCases | protocol/hysteria/src/udp.rs:350-431 | A poll touches its own target only: an address gets a session with the next id at once, a domain when its lookup answers, a failed lookup leaves nothing, a ready session stays as it is. |
| HysteriaClient.ReadyStays | protocol/hysteria/src/udp.rs:287-320 | Whatever other sockets do after that, the session stays ready under its id, so the later lookup cannot fail. |
| HysteriaClient.RunKeepsOk | protocol/hysteria/src/udp.rs:350-431 | The table stays in order over every run. |
| HysteriaClient.SessionsDistinct | protocol/hysteria/src/udp.rs:369-381 | For the first 2^32 sessions, ready sessions have distinct ids, each leading to the peer it was made for. |
| HysteriaClient.IdsWrap | protocol/hysteria/src/udp.rs:419-421 | Session number 2^32 takes the id of the first one, which is still in use under it, and replaces its peer. |
| HysteriaClient.DistinctUntilWrap | protocol/hysteria/src/udp.rs:369-381 | All ready sessions have different ids if and only if no more than 2^32 sessions were made. |
| HysteriaClient.TakesCountUp | protocol/hysteria/src/udp.rs:311-324 | Whatever other sockets do between, the packet ids of a session count up by one modulo 2^16, from 0 for a session made in the run. |
| HysteriaClient.KeysRepeatExactly | protocol/hysteria/src/udp.rs:311-324 | For the first 2^32 sessions two sends have one session and packet id if and only if they are to one target and a multiple of 2^16 of its sends lies between. |
| HysteriaClient.KeysDiffer | protocol/hysteria/src/udp.rs:311-324 | So the keys of fewer than 2^16 sends in a row are all different. |
| HysteriaClient.SentIsHonest | protocol/hysteria/src/udp.rs:326-343 | Every datagram of a packet that was sent is parsed into a fragment of that packet. |
| HysteriaClient.SentIsDelivered | protocol/hysteria/src/udp.rs:293-343 | Sending and reassembling are inverse: when the fragments of all datagrams arrive at a kept entry, in any order and number, exactly the payload comes out, with the last of them. |
| HysteriaClient.SingleIsDelivered | protocol/hysteria/src/udp.rs:160-161 | A packet in one datagram comes out as soon as this arrives. |
| FakeIpPooling.FakeIpPool.constructor | protocol/raw/src/fake_ip.rs:24-41 | For an aligned range with prefix 1 to 30 the pool holds all but network, gateway and broadcast address. |
| FakeIpPooling.FakeIpPool.NextIp | protocol/raw/src/fake_ip.rs:94-100 | The address lies in the range and is the cursor's place in the rotation; the cursor advances with wrap-around. |
| FakeIpPooling.FakeIpPool.Allocate | protocol/raw/src/fake_ip.rs:44-71 | A known domain keeps its address; the k-th fresh one gets address k modulo the size for the first 2^32. The maps stay inverse to each other without a bound. |
| FakeIpPooling.FakeIpPool.Record | protocol/raw/src/fake_ip.rs:62-68 | An address goes to one domain, and the domain that had it loses it, in both maps. |
| FakeIpPooling.FakeIpPool.Lookup | protocol/raw/src/fake_ip.rs:74-76 | Finds the domain of an address exactly if some domain holds it. |
| FakeIpPooling.FakeIpPool.Contains | protocol/raw/src/fake_ip.rs:79-87 | True exactly for an IPv4 address in the range, so for every address handed out, and for no IPv6 address. |
| FakeIp.FreshKeepsOk | protocol/raw/src/fake_ip.rs:59-70 | After k fresh allocations the live mappings are exactly the last min(k, N) of them, in rotation. |
| FakeIp.MapsAreInverse | protocol/raw/src/fake_ip.rs:62-68 | In every such state the maps are inverse to each other with addresses in the range. |
| FakeIp.RunKeepsOk | protocol/raw/src/fake_ip.rs:44-71 | Both hold over every run of up to 2^32 fresh allocations. |
| FakeIp.KeepsAddress | protocol/raw/src/fake_ip.rs:62-70 | A domain keeps its address until N further fresh allocations, and loses it with the next. |
| FakeIp.AllocateKeepsInverse | protocol/raw/src/fake_ip.rs:44-71 | One allocation keeps the maps inverse to each other, wherever the cursor is. |
| FakeIp.OthersStay | protocol/raw/src/fake_ip.rs:62-70 | An allocation takes its address from the one domain that had it; every other domain keeps its own, wherever the cursor is. |
| FakeIp.RunKeepsInverse | protocol/raw/src/fake_ip.rs:44-71 | So does every run, however long. |
| FakeIpWrap.AnswerIs | protocol/raw/src/fake_ip.rs:94-100 | Fresh allocation k, however large, gets address (k mod 2^32) modulo the size. |
| FakeIpWrap.FreshIpsAre | protocol/raw/src/fake_ip.rs:44-71 | And so do all fresh allocations of a run, whatever requests are repeated between. |
| FakeIpWrap.RotationAt | protocol/raw/src/fake_ip.rs:94-100 | That continues the rotation exactly if the number of wraps is a multiple of the size. |
| FakeIpWrap.RotationExactly | protocol/raw/src/fake_ip.rs:94-100 | In a run of a new pool all addresses follow the rotation if and only if there are at most 2^32 fresh allocations, or one address. |
| FakeIpWrap.CheckedCursor | protocol/raw/src/fake_ip.rs:97 | The subtraction underflows exactly while the wrapped cursor is below the range, first at allocation 2^32 - min. |
| FakeIpPooling.InterleavingIsSequential | protocol/raw/src/fake_ip.rs:46-70 | Under any interleaving of threads between read check and write section, the answers are those of the same requests one at a time. |
| FakeIpPooling.InterleavingKeepsOk | protocol/raw/src/fake_ip.rs:46-70 | So no run of threads gives a domain two addresses or breaks the maps. |
| FakeIpPooling.InterleavingKeepsInverse | protocol/raw/src/fake_ip.rs:46-70 | No run of threads, however long, gives a domain two addresses. |
| Traffic.FlushTakesAll | rabbit-digger/src/rabbit_digger/connection_manager.rs:273-305 | A flush turns exactly what is pending into events and leaves nothing pending. |
| Traffic.InputOneOk | rabbit-digger/src/rabbit_digger/connection_manager.rs:80-143 | Every event, except a second opening of one connection, keeps totals equal to live plus closed per-connection sums; events of an unknown connection change nothing. |
| Traffic.NextKeepsInv | rabbit-digger/src/rabbit_digger/connection_manager.rs:318-405 | Totals plus amounts queued plus unflushed counters equal all bytes ever counted, after every step. |
| Traffic.RunKeepsInv | rabbit-digger/src/rabbit_digger/connection_manager.rs:318-405 | And so over every interleaving of connections, heartbeats, deliveries and drops. |
| Traffic.DrainedIsExact | rabbit-digger/src/rabbit_digger/connection_manager.rs:398-404 | Once all connections are dropped and the queue is drained, totals are exact and no connection is known. |
| TrafficLedger.InputOneIs | rabbit-digger/src/rabbit_digger/connection_manager.rs:80-143 | An event concerns its own connection only: its figures start at nothing, grow by exactly the traffic in its direction, and end at nothing. |
| TrafficLedger.StepLedger | rabbit-digger/src/rabbit_digger/connection_manager.rs:318-405 | Flushing and delivering never change what a connection's figure will be, counting adds exactly what was counted, and no step touches another connection's. |
| TrafficLedger.FiguresAreExact | rabbit-digger/src/rabbit_digger/connection_manager.rs:318-405 | Over every run: whenever the queue is empty, a connection's figure and what it has not flushed are together what it counted since it was opened, and only live connections are known. |
| TrafficManager.ConnectionState.InputOne | rabbit-digger/src/rabbit_digger/connection_manager.rs:81-143 | One event changes totals and the connection's own counters together, and only if the connection is known; a new one is remembered as TCP or UDP. |
| TrafficManager.ConnectionState.CountTraffic | rabbit-digger/src/rabbit_digger/connection_manager.rs:116-139 | Totals and the connection's own counters change by the same amounts, and not at all for an unknown connection. |
| TrafficManager.ConnectionState.InputEvent | rabbit-digger/src/rabbit_digger/connection_manager.rs:77-145 | A message is its events in order. |
| TrafficManager.TcpConnection.GetEvents | rabbit-digger/src/rabbit_digger/connection_manager.rs:273-284 | Zero counters yield no event; all others are taken and reset. |
| TrafficManager.UdpConnection.GetEvents | rabbit-digger/src/rabbit_digger/connection_manager.rs:296-305 | Both maps are drained completely, each peer once, in any order. |
| TrafficManager.TcpConnection.Read | rabbit-digger/src/rabbit_digger/connection_manager.rs:373-375 | Received bytes are counted as download. |
| TrafficManager.TcpConnection.Write | rabbit-digger/src/rabbit_digger/connection_manager.rs:376-378 | Sent bytes are counted as upload. |
| TrafficManager.UdpConnection.RecvFrom | rabbit-digger/src/rabbit_digger/connection_manager.rs:382-388 | Received bytes are counted as download of that peer and of no other. |
| TrafficManager.UdpConnection.SendTo | rabbit-digger/src/rabbit_digger/connection_manager.rs:389-395 | Sent bytes are counted as upload to that peer and to no other. |
| TcpRelay.CopyBuffer.Fill | rd-std/src/context/connect_tcp.rs:49-75 | The buffer is refilled only when empty, and nothing read is lost. It fails exactly if reader or writer did, and waits exactly if one of them does; if only the reader does, all that was written has been flushed. |
| TcpRelay.CopyBuffer.WriteOnce | rd-std/src/context/connect_tcp.rs:79-90 | A partial write advances position and count by what was accepted. |
| TcpRelay.CopyBuffer.WriteOut | rd-std/src/context/connect_tcp.rs:78-91 | Going on means that the buffer is empty; a write of nothing is an error, and it fails or waits exactly if the writer did. |
| TcpRelay.CopyBuffer.PollCopy | rd-std/src/context/connect_tcp.rs:36-100 | At every return bytes read are bytes written followed by the buffer's rest, and the count is what was written; done means end of input, everything written, then flushed. It fails exactly if a call to reader or writer failed or a write took nothing, and waits exactly if one was pending; waiting for the reader only means that all is flushed. |
| TcpRelay.CopyBuffer.FinishCopy | rd-std/src/context/connect_tcp.rs:95-98 | After the end of the input one more flush decides between done, waiting and failed. |
| TcpRelay.Transfer.Poll | rd-std/src/context/connect_tcp.rs:116-143 | The writer is shut down only after that; done means that exactly the input was forwarded; it fails and waits exactly if reader or writer did. |
| TcpRelay.CopyBidirectional.Poll | rd-std/src/context/connect_tcp.rs:152-168 | The relay ends as soon as one direction is done, and the other has then still forwarded a prefix in order; it fails exactly if a direction failed, and waits only if both directions do. |
| UdpRelay.CopyBuffer.PopFront | rd-std/src/context/connect_udp.rs:60-65 | The front packet goes and its buffer returns to the pool: no buffer is lost. |
| UdpRelay.CopyBuffer.BorrowBack | rd-std/src/context/connect_udp.rs:66-75 | There is a free buffer at the back unless the queue is full; queued packets are untouched. |
| UdpRelay.CopyBuffer.FillBack | rd-std/src/context/connect_udp.rs:101-112 | The packet becomes the last of the queue. |
| UdpRelay.CopyBuffer.Grow | rd-std/src/context/connect_udp.rs:76-82 | An empty pool is filled so that buffers double up to the limit, and the subtraction never underflows. |
| UdpRelay.Relay.FillQueue | rd-std/src/context/connect_udp.rs:101-112 | Each packet received is queued once, behind the others, until the source has none, fails, or the queue is full. |
| UdpRelay.Relay.DrainQueue | rd-std/src/context/connect_udp.rs:113-128 | Packets are sent from the front, each once, until none is left or the sink stops. |
| UdpRelay.Relay.Poll | rd-std/src/context/connect_udp.rs:94-133 | Packets received are packets sent followed by packets queued, in order, at every return; only the last buffer may be free and there are 1 to 16. It fails exactly if source or sink did, waits only if one of them does, and waiting for the source only means that nothing is queued. |
| AnyTls.ApplyPadding | protocol/anytls/src/proto.rs:195-236 | For every list of sizes: the program stops exactly if a waste frame of this packet would exceed 65535 bytes; otherwise the chunks are the specified ones, and at least one. |
| AnyTls.SmallSizesFit | protocol/anytls/src/proto.rs:187-193 | Sizes of at most 65535 never stop the program. |
| AnyTls.PadIsTransparent | protocol/anytls/src/proto.rs:195-236 | Whatever the sizes, if the packet is sent at all, the chunks put together are the payload followed only by whole waste frames. |
| AnyTls.ChunksCutExactly | protocol/anytls/src/proto.rs:215-216 | A chunk cut from a longer rest has exactly the requested size and is the next bytes of the payload. |
| AnyTls.CheckStops | protocol/anytls/src/proto.rs:207-213 | A check mark that comes when the payload is used up ends the packet: sizes behind it add neither chunk nor waste. |
| AnyTls.CheckPasses | protocol/anytls/src/proto.rs:207-213 | One that comes while payload is left changes nothing. |
| AnyTls.ChunkNumbers | protocol/anytls/src/proto.rs:207-236 | How many chunks a list without checks gives. |
| AnyTls.ChunkAt | protocol/anytls/src/proto.rs:214-236 | What each of them is: the next bytes of the payload, or its end filled up with waste to the size, or waste alone. |
| WireFormats.AnyTlsFrame | protocol/anytls/src/proto.rs:121-129 | Command, stream id, length, data, most significant byte first. |
| WireFormats.AnyTlsCommands | protocol/anytls/src/client.rs:208-228 | The frames that open, carry and end a stream, and waste, by the numbers of their commands. |
| AnyTls.FrameRoundTrip | protocol/anytls/src/proto.rs:121-137 | A reader recovers a frame's command, stream and data, and what follows it. |
| AnyTls.FramesRoundTrip | protocol/anytls/src/client.rs:171-180 | And so for any frames in a row. |
| AnyTls.StreamReads | protocol/anytls/src/client.rs:152-166 | Over a whole session, however sizes change from packet to packet, the reader recovers the same frames apart from waste. |
| AnyTlsClient.DecodeHeader | protocol/anytls/src/proto.rs:131-137 | The header of every encoded frame gives back its command, stream id and length. |
| AnyTlsClient.ReadLoop | protocol/anytls/src/client.rs:170-206 | Data of the stream is delivered in order until an end, an alert, a dropped stream or a cut frame; heartbeats and padding schemes are passed on. |
| AnyTlsClient.WasteHasNoEffect | protocol/anytls/src/client.rs:201-203 | The reader does the same with and without the waste frames. |
| AnyTlsClient.ReactIs | protocol/anytls/src/client.rs:181-204 | While nothing ends the stream its data is handed on, every heartbeat is answered under its own id and every scheme offered, each in order. |
| AnyTlsClient.ReactEnds | protocol/anytls/src/client.rs:181-204 | After the end of the stream, an alert, or data that a dropped stream does not take, nothing has an effect. |
| AnyTlsClient.AnyTlsStream.PollRead | protocol/anytls/src/client.rs:263-277 | Bytes come out in order and none is lost; an empty read means that the reader is done or delivered an empty frame. |
| AnyTlsClient.AnyTlsStream.AnswerHeartbeat | protocol/anytls/src/client.rs:194-200 | The reader's answers enter the same queue at any time and leave the stream's own frames alone. |
| AnyTlsClient.AnyTlsStream.PollWrite | protocol/anytls/src/client.rs:279-295 | At most 65535 bytes become one data frame behind what is queued, by the stream or by others; a closed stream or session refuses without effect. |
| AnyTlsClient.AnyTlsStream.PollShutdown | protocol/anytls/src/client.rs:301-311 | The end frame is sent once, after all data of the stream. |
| AnyTlsClient.SessionDelivers | protocol/anytls/src/client.rs:146-235 | Whatever sizes packets are cut and padded to, and whatever other frames share the connection, the other end gets exactly the data of the stream's own frames, in order. |
| AnyTlsClient.OthersDeliverNothing | protocol/anytls/src/client.rs:181-204 | What reaches the stream depends on its own frames only. |
| AnyTlsClient.StreamDelivers | protocol/anytls/src/client.rs:146-235 | In particular the other end of a stream gets the target and then exactly the accepted writes, with heartbeat answers anywhere between. |
| TopoSort.Sorter.Pop | rabbit-digger/src/util.rs:47 | Any node without a predecessor may be popped; none is exactly when there is none. |
| TopoSort.Fill | rabbit-digger/src/util.rs:32-44 | The sorter holds the dependency graph with the roots, or the error of some entry is returned. |
| TopoSort.PopAll | rabbit-digger/src/util.rs:46-51 | For any choice of ready node, everything is popped in reverse dependency order, or what is stuck contains a cycle. |
| TopoSort.TakeEntries | rabbit-digger/src/util.rs:57-64 | Entries of the map are kept in order, each once. |
| TopoSort.OrderedHasNoCycle | rabbit-digger/src/util.rs:53-64 | A complete order rules out every cycle. |
| TopoSort.StuckHasCycle | rabbit-digger/src/util.rs:53-55 | In a finite set where every node has a predecessor there is a cycle. |
| TopoSort.TopologicalSort | rabbit-digger/src/util.rs:20-65 | There is no result exactly if the dependencies have a cycle; otherwise each entry comes once, after its dependencies, and all are there for the All root. |
| SideEffects.SideEffectManager.Apply | rd-interface/src/side_effect.rs:79-90 | A failing action registers nothing; a succeeding one is registered and persisted at once. |
| SideEffects.SideEffectManager.RollbackAll | rd-interface/src/side_effect.rs:93-101 | All undos run, last first, and the file is gone. |
| SideEffects.Recover | rd-interface/src/side_effect.rs:105-144 | Recovery runs the persisted undos, last first; a missing, blank or unreadable file undoes nothing. |
| SideEffects.RunIsUndone | rd-interface/src/side_effect.rs:79-101 | For any sequence of succeeding and failing calls whose undos invert, rollback restores the initial state. |
| SideEffects.CrashIsUndone | rd-interface/src/side_effect.rs:103-144 | After a crash between any two calls, recovery from the file of the run does what rollback would have done and restores the initial state. |
| SideEffects.ApplyStep | rd-interface/src/side_effect.rs:79-90 | One call is one step of a run, and a failing one leaves the file as it was. |
| SideEffects.ApplyAll | rd-interface/src/side_effect.rs:79-90 | Calls in a row are a run, and the file on disk is at every return the one that belongs to it. |
| SideEffects.CrashAndRecover | rd-interface/src/side_effect.rs:79-144 | A process that dies after any number of calls, and the recovery of the next one, leave the system as it was, and no file. |
| RouteSetup.SetupLinux | protocol/raw/src/route_setup.rs:61-185 | Four mandatory steps with early return and two optional ones, as a run of the undo stack. |
| RouteSetup.DnsIsUndone | protocol/raw/src/route_setup.rs:169-182 | Undoing the name server restores the old content if it could be read, a default otherwise. |
| RouteSetup.SetupIsUndone | protocol/raw/src/route_setup.rs:61-185 | Wherever the setup stops, rollback restores the host exactly unless the file was written over unread; so it does whenever the file can be read or cannot be written. |
| RouteSetup.SetupCrashIsUndone | protocol/raw/src/route_setup.rs:61-185 | A crash after any step is recovered from with the same one exception, and always before the last step. |
| RoutingCommands.SetupInverts | protocol/raw/src/route_setup.rs:61-185 | On a host where priorities 50, 100, 200 and 201 and table 2468 are free, every step's undo is the inverse of the step, whatever commands are refused. |
| RoutingCommands.SetupRestored | protocol/raw/src/route_setup.rs:61-185 | So on every such host rollback restores it wherever the setup stops, with the one exception of an unread name server file. |
| RoutingCommands.SetupRecovered | protocol/raw/src/route_setup.rs:61-185 | So does recovery after a crash between any two steps. |
| RoutingCommands.SetupApplies | protocol/raw/src/route_setup.rs:61-185 | If nothing is refused, the setup leaves exactly the four rules, the default route of table 2468 and the name server. |
| CompactStrings.CompactVecString.constructor | rd-interface/src/config/compact_vec_string.rs:25-30 | The new list is empty. |
| CompactStrings.CompactVecString.Push | rd-interface/src/config/compact_vec_string.rs:37-41 | Appends one string to the list. |
| CompactStrings.CompactVecString.Pop | rd-interface/src/config/compact_vec_string.rs:42-46 | Removes the last string, if there is one. |
| CompactStrings.CompactVecString.Extend | rd-interface/src/config/compact_vec_string.rs:80-94 | Appends strings in order. |
| CompactStrings.CompactVecString.Get | rd-interface/src/config/compact_vec_string.rs:66-77 | Yields the bytes of the string at that index exactly, or nothing beyond the end. |
| CompactStrings.CompactVecString.ToList | rd-interface/src/config/compact_vec_string.rs:130-138 | Iteration yields the list. |
| CompactStrings.CompactVecString.Join | rd-interface/src/config/compact_vec_string.rs:63-65 | The strings with the separator between them. |
| CompactStrings.JoinedPlaces | rd-interface/src/config/compact_vec_string.rs:63-65 | The length of the joined text, and where in it each string and each separator lies. |
| CompactStrings.CompactVecString.Equals | rd-interface/src/config/compact_vec_string.rs:12-16 | Comparing fields compares lists. |
| CompactStrings.PackingIsCanonical | rd-interface/src/config/compact_vec_string.rs:12-16 | A list has only one packing. |
| CompactStrings.RunRefines | rd-interface/src/config/compact_vec_string.rs:37-94 | Any run of push, pop and extend acts as on a plain list. |
| CompactStrings.CompactVecString.Serialize | rd-interface/src/config/compact_vec_string.rs:140-152 | One string is serialized as itself, anything else as a list. |
| CompactStrings.Deserialize | rd-interface/src/config/compact_vec_string.rs:154-197 | A string or a list of strings is read; anything else is an error. |
| CompactStrings.JsonRoundTrip | rd-interface/src/config/compact_vec_string.rs:140-197 | Deserializing undoes serializing, for one string as well. |
| CompactStrings.JsonIsNormal | rd-interface/src/config/compact_vec_string.rs:140-197 | Serializing gives a document back exactly if it is not a list of one string. |

## Left out

- Building.BuildContext.GetNet: beyond termination and the function computed, the results ask for fresh generated names, which the code does not ensure; `TidyNames.TidyIsFresh` says which configs have them.
- Building.BuildContext.BuildDyn: options are opaque texts with a predicate for what a type can parse and one for what it can build from, so a type whose building depends on the nets it gets is not captured.
- VlessAddress.RequestHeaderRoundTrip: trimming the flow text knows ASCII white space only, and which byte strings are UTF-8 is a parameter.
- ConfigVisit.Visit: the order of a map's entries is the order of the model's sequence, and keys are taken as distinct.
- VisionReading.VisionReader.PollRead: one copy into the caller's buffer per poll, with the caller's free room as a parameter.
- FakeIpPooling.InterleavingIsSequential: the check and the write section are atomic steps, as their locks make them; memory ordering below that is not modelled.
- Traffic.NextKeepsInv: counters and sums are unbounded, and connection ids are distinct while in use; 64-bit overflow and id collisions are not modelled.
- TrafficManager.ConnectionState.InputOne: addresses, contexts, times and stop channels are not part of a connection's entry here.
- Reassembly.RunIsSafe: a packet's key is not given to a new packet while an entry for it is alive, and every fragment that arrives is one of the packet its key then stands for; forged fragments, and late ones of a key's former packet, are not modelled.
- FakeIpPooling.FakeIpPool.constructor: asks for an aligned range with prefix 1 to 30, with which all arithmetic of the source stays within 32 bits; prefixes 31 and 32 leave no address, prefix 0 overflows the shift, and an unaligned base is not modelled.
- AnyTls.ApplyPadding: the sizes are any list of 32-bit numbers, so the random choice within a range and the parsing of a scheme's text are not modelled.
- AnyTlsClient.AnyTlsStream.PollShutdown: the queue between stream and writer task is a list that the environment can close.
- TopoSort.Sorter.Pop: the sorter library itself is not part of this model; popping any node without predecessors is its rule.
- SideEffects.SideEffectManager.Apply: a crash between an action and its persisting, and several managers that share one file, are not modelled.
- RouteSetup.SetupLinux: what the routing commands do is a parameter that is taken not to touch files; `RoutingCommands` fixes it to one rule for a priority and one default route for a table. The macOS setup is not modelled.
- CompactStrings.CompactVecString.Get: strings are byte strings; that they are valid UTF-8 follows from the callers pushing such strings.
- Wakers, sockets, timers and scheduling: a poll is a step with any result, and time is an argument; no liveness is claimed.
- `PrefixWriteStream` of the VLESS client: it does not keep its stream intact when a read or flush interleaves with a pending write.
- The wrappers in `running.rs` around nets and servers: they forward polls and feed the counters modelled in `Traffic`.
- Authentication, TCP requests and random padding of Hysteria, the AnyTLS authentication prefix, and all of TLS, REALITY, QUIC, HTTP/3 and Shadowsocks.
- The rule engine, the API server, configuration loading from files and the network, storage and the user interface.
