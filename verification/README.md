# Ferriot in Dafny

Ferriot is an OMA LwM2M client written in C++17. This project models the parts of it where many
cases, bytes or steps have to fit together, and proves what holds of them for every input, every
run and every order of events:

- the TLV codec of section 6.4.3 of OMA LwM2M TS 1.0 (`IntegerCodec`, `TlvFrame`, `TlvDecoder`,
  `TlvEncoder`): exact acceptance, canonical form, round trips, linear bounds;
- object paths and URI options (`ObjectPaths`, `Splitting`, `UriOptions`): printer and parser,
  and the joining and splitting loops of sections 5.10.1 and 5.10.7 of RFC 7252;
- the Security and Server objects and the read and write requests over them (`ObjectTables`,
  `Dispatch`, `RequestLaws`): end-to-end laws through path, payload, type table and narrowing stores;
- request and response matching by token, sections 5.3.1 and 5.3.2 of RFC 7252, with sends inside
  sends (`CoapExchange`), and what a reply to a registration makes of later requests (`Addressing`);
- the registration and reconnection machine (`Backoff`, `Client`, `ClientRuns`, `ClientTiming`,
  `ClientOutage`, `ClientRequests`): invariants between calls, keep-alive, expiry, outages, and every
  request sent;
- the Firmware Update object, from one thread and from two (`Firmware`, `FirmwareThreads`,
  `FirmwareRefinement`).

## How to read it

Operations that change state in place are methods of classes (`LwM2mClient`, `CoapClient`,
`ObjectStore`, `RequestHandler`, `FirmwareUpdateObject`) or loops over byte strings. Each one is
proved equal to a function of the inputs and the old state, and the laws are lemmas about those
functions and about runs of them. Network outcomes, clock readings, callback outcomes and the order
in which a hash map is walked are inputs. `dafny verify dfyconfig.toml` checks everything.

Where the program does not keep a promise for all inputs, the model keeps the program's behaviour and
a lemma states exactly when the promise holds:

- a value of 2^24 bytes or more loses the high bits of its length (`TlvDecoder.RecordRoundTrip`);
- a Time loses its fraction of a second, and an object link all but object and instance
  (`TlvEncoder.ValueExact`);
- what reading an instance returns is ignored when written back, since only top-level Resource
  records are stored (`Dispatch.InstanceReadWriteIgnored`); the unwrapped records do copy
  (`Dispatch.BodyCopies`);
- after the 16-bit instance counter wraps, creation can be stuck on an occupied identifier or reuse
  one (`ObjectTables.FreshIdentifiers`, `ObjectTables.StuckStep`);
- a location value that is empty or contains a slash or a question mark is not addressed as named
  (`UriOptions.LocationRoundTrip`, `Addressing.RequestsAddressed`), and a reply duplicated within
  one round of I/O repeats its location (`CoapExchange.DuplicateRepeatsLocation`);
- a send made while another waits leaves the other one to time out (`CoapExchange.NestedSendOrphans`);
- the 16-bit attempt counter wraps and delays start over (`Backoff.CounterWrapRestartsDelays`);
- `stop` does not end a reconnection (`ClientOutage.StopKeepsOutage`), and a deregistered server
  can be registered again (`ClientOutage.DeregisteredComesBack`, `ClientOutage.DeregisteredRun`);
- the application registering the server being reconnected breaks what holds between calls
  (`ClientRuns.SettledStep`, `ClientOutage.RegisteredDuringOutage`);
- a refused package offered in state Downloaded empties the stored package but the update can still
  be executed (`Firmware.DownloadedPackage`, `Firmware.RefusalKeepsDownloaded`);
- a download that reports before its start has returned leaves the object in Downloading
  (`FirmwareThreads.StuckExactly`);
- `update_complete` between the two halves of a download's report lets a later update be applied
  in the wrong state (`FirmwareThreads.CompletionRace`);
- the result of a failed download is stored apart from the state, so it can land on a package pushed
  in between (`FirmwareThreads.ResultFits`, `FirmwareThreads.LateResultRace`).

The header describes `verify_package` as the check of a downloaded package
(`include/lwm2m/objects/firmware_update.hpp:56-58`); the code calls it only for pushed ones. The model
follows the code, and `Firmware.ApplySafety` distinguishes the two sources.

A comment in the response handler gives Location-Query the option number 15
(`src/transport/coap_client.cpp:505`); the code filters by libcoap's constant, which is 20 as in
section 5.10 of RFC 7252, and so does the model.

## Model

| member | source | states |
|---|---|---|
| `IntegerCodec.SerializeFloat` | src/codec/tlv.cpp:207-218 | the byte-by-byte loop writes the 64-bit pattern most significant byte first |
| `IntegerCodec.Accumulate` | src/codec/tlv.cpp:391-423 | the shift-and-or loop of both integer deserializers yields the big-endian value; no bit is shifted out for up to eight bytes |
| `IntegerCodec.DeserializeInt` | src/codec/tlv.cpp:391-410 | on 1 to 8 bytes exactly the two's-complement value, otherwise a decoding error |
| `IntegerCodec.DeserializeUint` | src/codec/tlv.cpp:412-423 | on 1 to 8 bytes exactly the big-endian value, otherwise a decoding error |
| `IntegerCodec.IntRoundTrip` | src/codec/tlv.cpp:147-175 | every signed 64-bit value takes 1, 2, 4 or 8 bytes and decodes to itself |
| `IntegerCodec.UintRoundTrip` | src/codec/tlv.cpp:177-205 | every unsigned 64-bit value takes 1, 2, 4 or 8 bytes and decodes to itself |
| `IntegerCodec.SignedWidth` | src/codec/tlv.cpp:147-175 | the signed form is the shortest of the four widths, except exactly for values of 25 to 32 bits, which take eight bytes where four hold them |
| `IntegerCodec.UnsignedWidth` | src/codec/tlv.cpp:177-205 | the unsigned form is the shortest of the four widths, except exactly for values of 25 to 32 bits |
| `IntegerCodec.TwosComplementFits` | src/codec/tlv.cpp:391-423 | up to eight bytes never leave the 64-bit ranges |
| `TlvFrame.EncodeRecord` | src/codec/tlv.cpp:82-141 | the appended bytes are the frame the encoder chooses: narrow identifier when it fits, fewest length bytes, length modulo 2^24 |
| `TlvFrame.ParseSound` | src/codec/tlv.cpp:275-334 | a parsed header and value are a well-framed record that is a prefix of the input |
| `TlvFrame.ParseComplete` | src/codec/tlv.cpp:275-334 | every well-framed record, in any of its length forms, is found at the front of any input, whatever follows |
| `TlvFrame.ChosenWellFramed` | src/codec/tlv.cpp:82-141 | the encoder's output is a legal record exactly for values shorter than 2^24 bytes |
| `TlvFrame.ChosenShortest` | src/codec/tlv.cpp:82-141 | no legal record of the same type, identifier and value is shorter |
| `TlvDecoder.ReadField` | src/codec/tlv.cpp:285-334 | one- to three-byte header fields with the bounds test of each |
| `TlvDecoder.ReadHead` | src/codec/tlv.cpp:275-334 | type byte, identifier and length as the frame grammar reads them, or an error when the input is too short |
| `TlvDecoder.ParseRecord` | src/codec/tlv.cpp:275-355 | one record, the bytes it took, and its nested records when its value decodes one level down |
| `TlvDecoder.DecodeImpl` | src/codec/tlv.cpp:253-273 | the recursive loop over `pos` computes the record tree of the input's unique cutting into records, or fails |
| `TlvDecoder.TilingUnique` | src/codec/tlv.cpp:253-273 | a byte string is a concatenation of well-framed records in at most one way |
| `TlvDecoder.ExactAcceptance` | src/codec/tlv.cpp:249-273 | decoding succeeds if and only if the input is tiled by well-framed records, whatever is inside them |
| `TlvDecoder.DecodedTree` | src/codec/tlv.cpp:336-354 | the outer records come back in order; a nesting record has the decoded children exactly when its value is tiled and the depth cap leaves room, otherwise none |
| `TlvDecoder.TreeBounds` | src/codec/tlv.cpp:247-355 | bounds on record count, depth and stored bytes of the tree from any depth |
| `TlvDecoder.DecodeBounds` | src/codec/tlv.cpp:247-355 | at most one record for every two bytes of input, 9 levels, and nine times the input in stored bytes |
| `TlvDecoder.NestingDepth` | src/codec/tlv.cpp:247-273 | k records inside each other are accepted for every k that fits and come back as k levels up to nine, exactly |
| `TlvDecoder.EncodedDecodes` | src/codec/tlv.cpp:82-141 | a concatenation of encoder outputs with values under 2^24 bytes decodes to exactly those records in order |
| `TlvDecoder.Canonical` | src/codec/tlv.cpp:253-273 | re-encoding the top-level records of any accepted input is no longer, decodes to the same tree, and is a fixed point |
| `TlvDecoder.RecordRoundTrip` | src/codec/tlv.cpp:131-135 | one encoded record decodes to itself if and only if its value is shorter than 2^24 bytes |
| `TlvDecoder.DecodedEncodable` | src/codec/tlv.cpp:253-273 | every value decoded at the top level is short enough to be encoded faithfully |
| `TlvEncoder.ValueRoundTrip` | src/codec/tlv.cpp:357-382 | every value decodes, for its own type, to itself up to times cut to seconds and links cut to object and instance |
| `TlvEncoder.ValueExact` | src/codec/tlv.cpp:224-242 | it comes back unchanged if and only if it is no time with a fraction of a second and no link without an instance or with more than one |
| `TlvEncoder.DecodeAccepts` | src/codec/tlv.cpp:357-475 | which lengths decode for each type, that the value has the type, that any first byte but zero is true and that a float may have four bytes |
| `TlvEncoder.EncodeResource` | src/codec/tlv.cpp:11-41 | a Resource record around the serialized value |
| `TlvEncoder.EncodeInstance` | src/codec/tlv.cpp:65-80 | an ObjectInstance record around the encoded resources in order |
| `TlvEncoder.EncodeMultiResource` | src/codec/tlv.cpp:43-63 | the loop that patches the first byte of each item builds a MultiResource record around ResourceInstance records in order |
| `TlvEncoder.PatchedRecord` | src/codec/tlv.cpp:54-58 | patching the type bits of an encoded Resource gives exactly the encoded ResourceInstance |
| `TlvEncoder.CompositeRoundTrip` | src/codec/tlv.cpp:43-80 | either composite encoding decodes to one outer record whose children carry the items in order with their types, ids and coarsened values, if and only if the body is shorter than 2^24 bytes |
| `TlvEncoder.CompositeChildren` | src/codec/tlv.cpp:43-80 | the decoded outer record and its children, field by field |
| `UriOptions.JoinOptions` | include/lwm2m/transport/coap_client.hpp:91-105 | the joining loop: values of one option number, slashes only after a non-empty prefix, one slash in front |
| `UriOptions.UriPathOptions` | src/transport/coap_client.cpp:348-379 | the nested pointer loops emit exactly the non-empty slash-separated pieces of the path, in order |
| `UriOptions.UriQueryOptions` | src/transport/coap_client.cpp:381-409 | the nested pointer loops emit exactly the non-empty ampersand-separated pieces of the query, in order |
| `UriOptions.RunLength` | src/transport/coap_client.cpp:362-368 | the inner scan stops at the first separator or the end |
| `UriOptions.GatherIsJoin` | include/lwm2m/transport/coap_client.hpp:91-105 | without empty values the joining loop is ordinary joining |
| `UriOptions.LocationRoundTrip` | include/lwm2m/transport/coap_client.hpp:91-105 | joining Location-Path values and splitting the result for a request gives the same list if and only if no value is empty or contains a slash or a question mark |
| `UriOptions.RegisterOptions` | src/client.cpp:186-188 | a registration goes to path rd, with ep, lt, lwm2m=1.1 and b in that order, each intact if and only if endpoint and binding contain no ampersand |
| `Splitting.SplitOfJoin` | src/transport/coap_client.cpp:348-409 | splitting a joined list of separator-free pieces gives the list back |
| `Splitting.JoinOfSplit` | src/transport/coap_client.cpp:348-409 | joining the pieces of any string gives the string back |
| `Splitting.PieceChars` | src/transport/coap_client.cpp:348-409 | every emitted piece is non-empty, free of the separator and made of characters of the input |
| `ObjectPaths.ToString` | src/types.cpp:10-27 | the printed form: the components above the first gap, in decimal, each after a slash |
| `ObjectPaths.ParsePath` | src/types.cpp:29-84 | the scanning loop over `pos` and `component` computes the grammar's parse, including leading zeros and the components after the fourth that it ignores |
| `ObjectPaths.SegmentAccepted` | src/types.cpp:49-58 | a segment is accepted if and only if it is non-empty, all digits and at most 65535, with that value |
| `ObjectPaths.PrintParse` | src/types.cpp:10-84 | parsing the printed form gives the path back if and only if it has no gap |
| `ObjectPaths.ParsePrint` | src/types.cpp:10-84 | every accepted string prints to one that is no longer and parses to the same path |
| `ObjectPaths.ParseGrammar` | src/types.cpp:29-84 | the parser accepts a string as a path if and only if the string spells it segment by segment |
| `ObjectPaths.DecimalRoundTrip` | src/types.cpp:10-27 | printing a number in decimal and reading it gives the number |
| `ObjectTables.WriteAccepts` | src/objects/server.cpp:111-172 | a write succeeds if and only if the resource is readable and the value has its declared type; not-found exactly for unreadable resources |
| `ObjectTables.WriteThenRead` | src/objects/security.cpp:122-195 | after a write the resource reads as the value reduced to its field's width, every other resource as before |
| `ObjectTables.ReadThenWrite` | src/objects/server.cpp:79-172 | a readable value has its declared type and writing it back is the identity |
| `ObjectTables.WriteServerBack` | src/objects/server.cpp:79-172 | the same for the Server object's fields |
| `ObjectTables.WriteSecurityBack` | src/objects/security.cpp:86-195 | the same for the Security object's fields |
| `ObjectTables.DeleteAnswer` | src/objects/server.cpp:37-45 | a delete succeeds if and only if the instance exists, and only that instance goes |
| `ObjectTables.CreateThenDelete` | src/objects/server.cpp:22-45 | creating uses the suggested identifier or the proposed one, and deleting it leaves the instances as they were |
| `ObjectTables.ObjectStore.constructor` | src/objects/server.cpp:22-35 | a new object has no instances and proposes identifier 0 |
| `ObjectTables.ObjectStore.Create` | src/objects/server.cpp:22-35 | whole new table: the suggested or the next identifier, refused when taken, the 16-bit counter moved past it |
| `ObjectTables.ObjectStore.Delete` | src/objects/server.cpp:37-45 | whole new table: only that instance goes, or not-found |
| `ObjectTables.ObjectStore.Write` | src/objects/security.cpp:122-195 | whole new table and result of one resource write; a failing write changes nothing |
| `ObjectTables.ObjectStore.AddServer` | src/objects/security.cpp:197-205 | whole new table: the configured instance under the proposed identifier and the counter moved past it, or no change |
| `ObjectTables.ObjectStore.FindByShortServerId` | src/objects/security.cpp:215-222 | finds an instance with that short server id if and only if there is one |
| `ObjectTables.CountingStep` | src/objects/server.cpp:22-45 | every create, delete and write keeps the counter above all identifiers handed out, until 65535 is |
| `ObjectTables.FreshIdentifiers` | src/objects/server.cpp:22-45 | over every run, creation without a suggestion fails if and only if the identifier the counter proposes is occupied, and gives a never-used one if and only if the proposed one was never handed out; a used one is proposed only after 65535 was handed out |
| `ObjectTables.StuckStep` | src/objects/server.cpp:22-45 | a table whose proposed identifier is occupied stays so at every operation except exactly a delete of it or a creation that moves the counter to a free one |
| `ObjectTables.StuckForever` | src/objects/server.cpp:22-45 | so creation without a suggestion fails through every run that neither deletes the proposed identifier nor creates above it |
| `ObjectTables.WrappedCounterSticks` | src/objects/server.cpp:22-35 | the wrap of the 16-bit counter reaches such a table |
| `Dispatch.RequestHandler.EncodeInstanceTlv` | src/client.cpp:684-697 | exactly the readable resources in listing order inside one ObjectInstance record |
| `Dispatch.RequestHandler.ReadObject` | src/client.cpp:417-425 | the records of all instances in container order |
| `Dispatch.RequestHandler.ProcessRead` | src/client.cpp:398-471 | the response to a read on every kind of path, with all error branches |
| `Dispatch.RequestHandler.ProcessWrite` | src/client.cpp:473-563 | the response and the whole new state of every object; objects not addressed are untouched |
| `Dispatch.RequestHandler.WriteStore` | src/client.cpp:485-560 | the same for the one object addressed |
| `Dispatch.RequestHandler.Store` | src/client.cpp:502-520 | type lookup with the string fallback, decoding, and the store |
| `Dispatch.RequestReachesPath` | src/transport/coap_client.cpp:598-626 | a request with non-empty, slash-free Uri-Path values reaches a path if and only if the values spell it; the printed components do |
| `Dispatch.ReadWriteBack` | src/client.cpp:436-524 | writing the payload of a successful resource read back answers Changed and leaves every object as it was, if and only if the value is shorter than 2^24 bytes |
| `Dispatch.WriteReadInteger` | src/client.cpp:492-524 | an integer written and read comes back reduced modulo the field width, hence unchanged if and only if in range |
| `Dispatch.UnsetCode` | src/client.cpp:417-465 | the response code is left unset if and only if a four-component path reaches the branches: the object exists and, for a write, the payload decodes |
| `Dispatch.WriteBytesEffect` | src/client.cpp:502-524 | one write: accepted if and only if the value decodes for a readable resource; everything else in the object is unchanged |
| `Dispatch.WriteAllEffect` | src/client.cpp:526-550 | an instance write: the last accepted record for an id wins, refused ones change nothing, unnamed resources and other instances are untouched |
| `Dispatch.WriteAllAbsent` | src/client.cpp:526-550 | writing a missing instance changes nothing, though the answer is Changed |
| `Dispatch.InstanceWriteIsFold` | src/client.cpp:526-550 | an instance write equals the sequence of single-resource write requests its Resource records spell out |
| `Dispatch.InstanceReadDecodes` | src/client.cpp:427-434 | reading an instance decodes to one ObjectInstance record whose children are its readable resources in order |
| `Dispatch.InstanceReadWriteIgnored` | src/client.cpp:529-529 | writing an instance read back to any instance answers Changed and changes nothing |
| `Dispatch.BodyCopies` | src/client.cpp:526-550 | the unwrapped resources of one instance written to another of the same kind make every readable resource equal |
| `Dispatch.ObjectReadDecodes` | src/client.cpp:417-425 | reading an object decodes to one record per instance, each with its resources as children |
| `RequestLaws.ItemsShow` | src/client.cpp:684-697 | the records of an instance are one for each resource that can be read, by ascending identifier, each carrying the value it reads as |
| `RequestLaws.ResourceReadAnswer` | src/client.cpp:436-465 | a resource read is Content if and only if the resource can be read, else NotFound; the payload then decodes to its value if and only if that is shorter than 2^24 bytes |
| `RequestLaws.InstanceReadAnswer` | src/client.cpp:427-434 | an instance read is Content if and only if object and instance exist, else NotFound; the payload then is one ObjectInstance record that shows it if and only if its body is shorter than 2^24 bytes |
| `RequestLaws.ObjectReadAnswer` | src/client.cpp:417-425 | an object read is Content if and only if the object exists, else NotFound; the payload then shows every instance in container order |
| `RequestLaws.RefusedWrite` | src/client.cpp:479-490 | a write to a missing object or with a payload that does not decode changes nothing; no write touches another object |
| `RequestLaws.ResourceWriteAnswer` | src/client.cpp:492-524 | a resource write stores the value of the first record whatever its type and identifier; exactly when it answers Changed, NotFound or BadRequest, and what it leaves in every resource |
| `RequestLaws.InstanceWriteAnswer` | src/client.cpp:526-550 | an instance write answers Changed; what it leaves in every resource, and nothing in a missing instance |
| `RequestLaws.ObjectWriteCreates` | src/client.cpp:552-560 | an object write answers Created if and only if the proposed identifier is free, and then that instance and no other is new, reading as the initial values; otherwise BadRequest and no change |
| `RequestLaws.TypedUnreadable` | src/objects/security.cpp:61-84 | the resources with a declared type that cannot be read are Security 6 to 9, with these types |
| `RequestLaws.ErrorCodes` | src/client.cpp:667-682 | which error gives which response code |
| `RequestLaws.ServerFields` | src/objects/server.cpp:79-109 | the resources of a configured Server instance are its fields |
| `RequestLaws.SecurityFields` | src/objects/security.cpp:86-120 | the resources of a configured Security instance are its fields |
| `CoapExchange.PendingResponse.constructor` | src/transport/coap_client.cpp:435-436 | a pending record starts incomplete and empty |
| `CoapExchange.CoapClient.constructor` | src/transport/coap_client.cpp:330-334 | no token drawn, nobody waiting |
| `CoapExchange.CoapClient.ResponseHandler` | src/transport/coap_client.cpp:477-529 | a reply with the awaited token is recorded, its location and format options appended; any other is dropped |
| `CoapExchange.CoapClient.Send` | src/transport/coap_client.cpp:300-460 | result, token counter and pending pointer after a send, for every order of replies and nested sends; the pointer is null after every send that claimed it |
| `CoapExchange.CoapClient.Poll` | src/transport/coap_client.cpp:466-475 | outside sends the pointer is null before and after, replies are dropped, handled requests may send |
| `CoapExchange.WaitingHears` | src/transport/coap_client.cpp:445-456 | the record at the end of a wait is the fold of the usable replies |
| `CoapExchange.HeardCollected` | src/transport/coap_client.cpp:445-456 | the replies a send uses are those with its token that come before any nested send takes over and before the round of the first of them has ended, in order |
| `CoapExchange.HeardSome` | src/transport/coap_client.cpp:483-493 | something is used if and only if some reply with the token comes before any nested send takes over |
| `CoapExchange.KeptExactly` | src/transport/coap_client.cpp:499-518 | of a reply's options exactly 8, 12 and 20 are kept, in order |
| `CoapExchange.SendFails` | src/transport/coap_client.cpp:300-460 | which error a send ends with, and when |
| `CoapExchange.TokenSafety` | src/transport/coap_client.cpp:483-493 | under any delay, duplication, reordering and nesting a send succeeds if and only if a reply with its own token arrives before a nested send takes over, and returns the last such reply's code, all their options and the last payload, nothing else |
| `CoapExchange.NestedSendOrphans` | src/transport/coap_client.cpp:434-459 | a send around a nested one that takes over times out, whatever arrives afterwards, if and only if no reply of its own had arrived before |
| `CoapExchange.DuplicateRepeatsLocation` | src/transport/coap_client.cpp:499-518 | for all events: the location read is the last heard reply's if and only if no reply heard before it named one |
| `CoapExchange.DuplicateInOneRound` | src/transport/coap_client.cpp:499-518 | one duplicate in the round of the reply makes its location be read twice |
| `CoapExchange.SendConsecutive` | src/transport/coap_client.cpp:330-334 | a send with everything nested in it draws consecutive token values |
| `CoapExchange.SessionConsecutive` | src/transport/coap_client.cpp:330-334 | so does a whole session |
| `CoapExchange.TokensDistinct` | src/transport/coap_client.cpp:330-334 | no two draws fewer than 2^64 apart give the same token bytes |
| `Addressing.RegistrationAnswered` | src/client.cpp:138-212 | a registration succeeds if and only if the server is configured, a connection exists or can be made, a reply with its token was heard, the last one is 2.xx and some location value is not empty |
| `Addressing.RegisteredAddress` | src/client.cpp:206-221 | later requests split the stored location into the options the server named, if and only if none is empty or contains a slash or a question mark |
| `Addressing.AddressKept` | src/client.cpp:231-294 | over every run, until the application registers the server or the client loses it, its location stays and every update and deregistration sent to it carries that location |
| `Addressing.RequestsAddressed` | src/client.cpp:206-294 | so each such request has as Uri-Path the values the server named in its reply, if and only if none is empty or contains a slash or a question mark |
| `Backoff.CalculateBackoff` | src/client.cpp:848-863 | the loop with its early exit computes the delay after that many attempts |
| `Backoff.ScaleExactly` | src/client.cpp:852-854 | one round multiplies by the rational multiplier and cuts to whole seconds once |
| `Backoff.NeverAboveCap` | src/client.cpp:848-863 | the delay never exceeds the cap, for all attempt numbers, if and only if the first one does not |
| `Backoff.NextDelay` | src/client.cpp:848-863 | leaving the loop early loses nothing: one more attempt is one more capped round of growth |
| `Backoff.DelaysGrow` | src/client.cpp:848-863 | delays never shrink with the attempt number and stay at the cap once there |
| `Backoff.DefaultDelays` | include/lwm2m/client.hpp:67-73 | with the defaults the n-th delay is min(300, 2^n) seconds |
| `Backoff.EverLonger` | src/client.cpp:848-863 | from the second attempt on the delay exceeds the first one if and only if the first is below the cap and scaling lengthens it |
| `Backoff.CounterWrapRestartsDelays` | src/client.cpp:817-862 | in an outage of any length the delay shrinks from one attempt to the next if and only if the 16-bit counter wraps there, the first delay is below the cap, and scaling lengthens it |
| `Client.LwM2mClient.constructor` | include/lwm2m/client.hpp:143-191 | the client starts Idle with nothing registered or connected |
| `Client.LwM2mClient.RegisterWithServer` | src/client.cpp:138-229 | result and whole new state of a registration, on every outcome |
| `Client.LwM2mClient.UpdateRegistration` | src/client.cpp:231-265 | result, request sent and whole new state of an update, on every outcome |
| `Client.LwM2mClient.DeregisterFrom` | src/client.cpp:267-294 | request sent and whole new state; the connection is kept |
| `Client.LwM2mClient.StopClient` | src/client.cpp:91-132 | nothing on the event thread; otherwise the loop over a copy of the keys deregisters each and ends with nothing registered or connected, the reconnection fields untouched |
| `Client.LwM2mClient.CheckRegistrationUpdates` | src/client.cpp:706-724 | the loop attempts exactly the due updates, in walking order |
| `Client.LwM2mClient.CheckConnectionHealth` | src/client.cpp:748-773 | the two loops pick the first expired registration, else the first dead connection |
| `Client.LwM2mClient.HandleConnectionLost` | src/client.cpp:775-796 | whole new state at the start of an outage; nothing during one |
| `Client.LwM2mClient.TryReconnectTo` | src/client.cpp:798-846 | whole new state of one attempt: disabled, given up, succeeded, or rescheduled after the backoff |
| `Client.LwM2mClient.PollOnce` | src/client.cpp:303-311 | update check, health check and reconnection in that order |
| `ClientRuns.UpdatesEffect` | src/client.cpp:706-724 | the walk treats each registration once and independently; any attempted update, even a failed one, ends in Registered |
| `ClientRuns.FirstExpiredMeaning` | src/client.cpp:758-764 | what the first loop finds, and what its finding nothing means |
| `ClientRuns.FirstDisconnectedMeaning` | src/client.cpp:766-772 | what the second loop finds, and what its finding nothing means |
| `ClientRuns.SettledStep` | src/client.cpp:138-312 | between calls: no transient state, Registered implies a registration, every registration has a connection, the server being reconnected is not registered; kept by every step if and only if the step is not a registration of that server by the application that is configured, connected or connectable, accepted and given a location |
| `ClientRuns.SettledRun` | src/client.cpp:138-312 | the same over whole runs |
| `ClientTiming.ExpiryNotMissed` | src/client.cpp:706-773 | after any poll's health check a reconnection is under way or no registration left had expired when the update check began, from any state |
| `ClientTiming.KeepAlivePoll` | src/client.cpp:303-311 | one timely poll keeps the registration alive for a whole margin and reports no expiry |
| `ClientTiming.KeepAlive` | src/client.cpp:706-763 | if every update succeeds and update check to next health check takes at most the lifetime less the threshold, the registration is never found expired, over whole runs |
| `ClientRequests.StepSends` | src/client.cpp:231-294 | every step sends exactly these requests, in order: one update for each registration updated, one deregistration for each ended over a connection, to the stored location, and nothing else |
| `ClientRequests.StepSendsTo` | src/client.cpp:231-294 | what one step sends to one server: at most one request, an update or a deregistration, and when |
| `ClientRequests.CheckSends` | src/client.cpp:706-724 | a poll sends one update for each server attempted, in walking order |
| `ClientRequests.PostsOnce` | src/client.cpp:706-724 | each such server is sent exactly one |
| `ClientRequests.DeletesOnce` | src/client.cpp:105-118 | stopping sends each registered, connected server exactly one deregistration |
| `ClientRequests.DeletesHaveCause` | src/client.cpp:267-294 | over every run in which the application neither deregisters a server nor stops, everything sent to it is an update |
| `ClientRequests.DeregisterEffect` | src/client.cpp:267-294 | from any state that registration goes, every other one and every connection stays, and the client is Registered if and only if another is left |
| `ClientRequests.DeregisteredForGood` | src/client.cpp:267-294 | from any state a deregistered server stays away over a run if and only if no step brings it back, and is then sent nothing after the deregistration |
| `ClientRequests.AwaySilent` | src/client.cpp:231-294 | while a server stays away nothing is sent to it |
| `ClientRequests.StopEffect` | src/client.cpp:91-132 | stopping outside the event thread leaves no registration and no connection; on it, everything as it was |
| `ClientRequests.OtherSteps` | src/client.cpp:74-89 | starting, a change of a link and a change of configuration touch nothing else |
| `ClientRequests.RegisterOutcome` | src/client.cpp:138-229 | result, state, connection and registrations for each way a registration can go |
| `ClientRequests.UpdateOutcome` | src/client.cpp:231-265 | result, state and registrations for each way an update can go |
| `ClientRequests.RegistrationAfter` | src/client.cpp:214-265 | what each registration is after any step: made with its lifetime from the reading taken, extended with its lifetime from the reading after the exchange, or unchanged |
| `ClientRequests.DueExactly` | src/client.cpp:714-722 | an update is due if and only if the threshold fraction of the lifetime, cut to seconds, has passed since the lifetime was counted from |
| `ClientOutage.OutageStarts` | src/client.cpp:748-773 | a health check starts an outage if and only if the client is Registered, none is under way, and a registration expired or a connection is down |
| `ClientOutage.LossReported` | src/client.cpp:748-796 | the health check finds the first expired registration, else the first dead link; that registration alone goes, its connection stays, an outage begins due at once; otherwise nothing changes |
| `ClientOutage.FirstLapsedMeaning` | src/client.cpp:758-764 | the first loop finds the first expired registration in walking order |
| `ClientOutage.FirstDownMeaning` | src/client.cpp:766-772 | the second loop finds the first dead link in walking order |
| `ClientOutage.DeregisteredComesBack` | src/client.cpp:748-846 | a step brings an unregistered server back if and only if the application registers it, or a poll tries it, as the server the outage is about or as the one with the first dead link while the client is Registered and every registration current, the attempt is due and allowed, and the server is configured, reached and answers |
| `ClientOutage.DeregisteredRun` | src/client.cpp:267-294 | over every run a deregistered server stays so if and only if no step is of that kind |
| `ClientOutage.StopKeepsOutage` | src/client.cpp:91-132 | a poll after stopping ends Registered if and only if an outage was under way, its attempt is due and allowed, and the lost server is configured, reached and answers |
| `ClientOutage.RegisteredDuringOutage` | src/client.cpp:823-845 | an attempt leaves a registration without a connection, whose updates all fail, if and only if the application had registered the lost server and it is no longer configured or cannot be reached |
| `ClientOutage.StepReports` | src/client.cpp:775-846 | every step extends the reports only as the outage grammar allows |
| `ClientOutage.CalmReports` | src/client.cpp:775-796 | such a stretch of a run may begin wherever no outage is under way, whatever configurations came before |
| `ClientOutage.RunReports` | src/client.cpp:775-846 | over every run with one configuration: attempts are numbered without gaps, all target the lost server, none earlier than the delays before it allow, at most max_retries occur, and each outage closes once, by success or by giving up after the last; with reconnection disabled there are losses only |
| `ClientOutage.OutageShape` | src/client.cpp:798-846 | an outage in progress reads, from its loss on, as attempts 1 to k, the i-th no earlier than the loss plus the first i-1 delays |
| `ClientOutage.DisabledTriesNothing` | src/client.cpp:801-804 | with reconnection disabled no attempt, success or give-up is ever reported |
| `ClientOutage.DefaultNeverGivesUp` | include/lwm2m/client.hpp:67-73 | with the default configuration giving up is never reported |
| `ClientOutage.OutageStep` | src/client.cpp:806-817 | every due poll uses up one of the remaining attempts or ends the outage; no other step touches it |
| `ClientOutage.OutageEnds` | src/client.cpp:806-846 | so an outage lasts through at most max_retries due polls |
| `ClientOutage.OutageCloses` | src/client.cpp:798-846 | a step ends an outage if and only if it is a due poll and reconnection is disabled, no retry is left or the attempt succeeds; what is reported and left in each case |
| `ClientOutage.RetrySchedule` | src/client.cpp:843-845 | after a failed attempt, whatever the application does, the next one is made by the first poll a whole delay after the failure, and by none before |
| `Firmware.FirmwareUpdateObject.constructor` | src/objects/firmware_update.cpp:7-7 | Idle, result Initial, nothing stored |
| `Firmware.FirmwareUpdateObject.WriteResource` | src/objects/firmware_update.cpp:67-116 | result, whole new state and callbacks made by a write |
| `Firmware.FirmwareUpdateObject.ExecuteResource` | src/objects/firmware_update.cpp:118-149 | result, whole new state and callbacks made by an execute |
| `Firmware.FirmwareUpdateObject.PushPackage` | src/objects/firmware_update.cpp:176-196 | result, whole new state and callbacks made by a push |
| `Firmware.FirmwareUpdateObject.DownloadComplete` | src/objects/firmware_update.cpp:198-209 | only Downloading is left, to Downloaded or to Idle with the failure result |
| `Firmware.FirmwareUpdateObject.UpdateComplete` | src/objects/firmware_update.cpp:211-220 | Idle from any state, package dropped, names dropped on success |
| `Firmware.FirmwareUpdateObject.SetPackageInfo` | src/objects/firmware_update.cpp:163-166 | only the two names change |
| `Firmware.DownloadingSince` | src/objects/firmware_update.cpp:85-104 | a download under way was started by a write of the URI now stored, and neither its end nor the end of an update was reported since |
| `Firmware.DownloadingExactly` | src/objects/firmware_update.cpp:85-104 | over every history a download is under way if and only if one was started and neither its end nor the end of an update was reported since |
| `Firmware.FirstReport` | src/objects/firmware_update.cpp:198-209 | the first report after a start leads to Downloaded on success and to Idle with the lost connection as the result on failure; any other report changes nothing |
| `Firmware.SourceOf` | src/objects/firmware_update.cpp:176-209 | a Downloaded state goes back without a break to a push that passed verification or to a download that succeeded |
| `Firmware.ApplySafety` | src/objects/firmware_update.cpp:128-143 | over every history an update is applied only in Downloaded, and that state goes back without a break to a verified push or a successful download of the URI stored |
| `Firmware.PackageOnHand` | src/objects/firmware_update.cpp:176-220 | the stored package is the last one that passed if and only if nothing cleared it since, otherwise empty |
| `Firmware.DownloadedPackage` | src/objects/firmware_update.cpp:176-209 | in every Downloaded state reached by a push the stored package is the verified one if and only if no later offer was refused, or it was empty |
| `Firmware.AppliedPackage` | src/objects/firmware_update.cpp:128-196 | an update applied after a push finds the verified package under the same condition |
| `Firmware.RefusalKeepsDownloaded` | src/objects/firmware_update.cpp:128-191 | every history that ends Downloaded goes on to one that applies an update with no package stored |
| `Firmware.FetchedFindsOldPackage` | src/objects/firmware_update.cpp:135-141 | a download after a failed update reaches Downloaded with the old package still stored |
| `Firmware.StateAfter` | src/objects/firmware_update.cpp:67-220 | the state after each step, by what the step was |
| `Firmware.ResultAfter` | src/objects/firmware_update.cpp:67-220 | the result after each step, by what the step was |
| `Firmware.NamesAfter` | src/objects/firmware_update.cpp:67-220 | the names and the URI after each step |
| `Firmware.CallsAfter` | src/objects/firmware_update.cpp:67-196 | the callback each step makes: one at most, and only where the step is accepted and it is set |
| `Firmware.WriteAnswer` | src/objects/firmware_update.cpp:67-116 | the answer to a write: the object's own refusals, or the callback's |
| `Firmware.ExecuteAnswer` | src/objects/firmware_update.cpp:118-149 | the answer to an execute |
| `Firmware.ResultFitsState` | src/objects/firmware_update.cpp:77-209 | with one thread, Downloading and Downloaded never carry an old failure result; `FirmwareThreads.ResultFits` says when that holds with two |
| `FirmwareThreads.ConsistentStep` | src/objects/firmware_update.cpp:77-220 | every atomic step of either thread keeps: the state is Downloading if and only if the current download is awaited |
| `FirmwareThreads.RunConsistent` | src/objects/firmware_update.cpp:77-220 | the same over every interleaving |
| `FirmwareThreads.ReportNotLost` | src/objects/firmware_update.cpp:198-209 | a report is heard if and only if Downloading has been stored and no end of update reported since; then it decides the state whatever the other thread does in between |
| `FirmwareThreads.StuckExactly` | src/objects/firmware_update.cpp:95-100 | the object sits in Downloading with no download left to report if and only if the report came before the store and no end of update was reported since |
| `FirmwareThreads.StuckStays` | src/objects/firmware_update.cpp:95-100 | there it stays until the end of an update is reported |
| `FirmwareThreads.EarlyReportSticks` | src/objects/firmware_update.cpp:95-100 | whenever a download can be started it can report before the store |
| `FirmwareThreads.SecuredStep` | src/objects/firmware_update.cpp:124-143 | every atomic step keeps the justification of applied updates, unless the end of an update is reported between the two halves of a download's report |
| `FirmwareThreads.AppliedJustified` | src/objects/firmware_update.cpp:124-143 | in every such interleaving each applied update directly follows Downloaded-then-Updating, stored for a package that passed or a successful report |
| `FirmwareThreads.CompletionRace` | src/objects/firmware_update.cpp:211-220 | reporting the end of an update keeps every later applied update justified if and only if no download is between the two halves of its report |
| `FirmwareThreads.CleanStep` | src/objects/firmware_update.cpp:77-220 | an atomic step lets a download or a package carry a failed download's result if and only if it is the late second store of a failed report |
| `FirmwareThreads.ResultFits` | src/objects/firmware_update.cpp:176-209 | over every interleaving no download under way and no package accepted or stored carries a failed download's result if and only if no second store of a failed report comes after the next one was accepted |
| `FirmwareThreads.LateResultRace` | src/objects/firmware_update.cpp:198-209 | the second store of a failed report leads to no Downloading or Downloaded state with its result, in any punctual continuation, if and only if it is not late itself |
| `FirmwareThreads.LateResultRun` | src/objects/firmware_update.cpp:198-209 | two such runs, ending in Downloaded with the result of the failed download |
| `FirmwareRefinement.AloneRefines` | src/objects/firmware_update.cpp:67-220 | an operation of either thread that runs without the other in between has, in its atomic steps, the effect it has on the object |
| `FirmwareRefinement.SerialRefines` | src/objects/firmware_update.cpp:67-220 | over every history of operations that do not overlap the two models agree |
| `FirmwareRefinement.SerialFromNew` | src/objects/firmware_update.cpp:67-220 | the same from new objects |
| `FirmwareRefinement.AloneRuns` | src/objects/firmware_update.cpp:67-220 | an operation run alone is one of the interleavings |

## Left out

- ClientOutage.RunReports: a stretch of a run with one reconnection configuration, beginning outside an outage; an outage during which the configuration changes has no one bound and no one schedule.
- RequestLaws.ObjectReadAnswer: says nothing of the payload when the body of some instance has 2^24 bytes or more.
- FirmwareRefinement.SerialRefines: the download callback does not start a second download; it is the callback that refuses.
- FirmwareThreads.ResultFits: assumes the application does not itself report ConnectionLostDuringDownload as the result of an update, which would write the same value for another reason.
- Requests logged by the client machine are updates and deregistrations; the URI of a registration is `UriOptions.RegisterOptions`.
- The event thread's loop, its running flag and the mutexes: each locked client method is one step, and `stop` is told whether it runs on the event thread. The I/O half of a poll is separate steps that change links.
- CoapExchange.CoapClient.Send: a timeout is the end of the event list, and a nested send runs to its end before the outer one goes on, as the call stack forces.
- TlvEncoder.EncodeInstance: the encoders never fail, so the error case of their result type is dropped; the same holds for the other two.
- libcoap, DTLS, address resolution, PDU building and session events: foreign calls. Splitting a URI into path and query is a cut at the first question mark; percent-decoding and other URI syntax are not modelled.
- Connecting and sending inside the client machine are outcomes chosen by the environment; requests a server makes while the client waits for its reply do not change the client's registrations there.
- Configuration: the Security and Server objects appear in the client machine as the set of servers with credentials and the map of lifetimes, changed by a configuration step.
- The two clocks are integers in nanosecond ticks that do not wrap, except where a decoded Time is stored.
- Floating point: a double is its 64-bit pattern, widening a four-byte float is a parameter, the backoff multiplier and the update threshold are non-negative rationals with floor; negative durations and fractions are not modelled.
- Callbacks do not re-enter the client or the firmware object, except a send from inside a send. Callbacks on state changes, registration and deregistration are not logged.
- Two threads are modelled for the firmware object only, with one download at a time, as the HTTP downloader enforces; the setters that overwrite state and result directly are left out.
- The Security and Server classes share one model class that a kind selects; hash-map order is an input.
- Discover, execute and delete dispatch, bootstrap, disable, and `to_connection_config`: they would add only easy members.
- Device, Connectivity and Location objects, `Resource` handlers, the HTTP downloader, error messages and debug output.
- Reading the firmware object's resources: a table lookup.
