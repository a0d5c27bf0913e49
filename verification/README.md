# A verified model of libcoap-rs

libcoap-rs wraps the C library libcoap in safe Rust. Most of its calls go straight to C; the parts with
logic of their own are the ones modelled here, and proved over every input, every run or every reachable
state:

- **Lendable cell** (`LendableCell.dfy`): a `RefCell` whose exclusive borrow is parked in a side slot while C
  code runs, so that re-entrant callbacks can pick it up, lend it again and hand it back. Every
  last-in-first-out run passes all destructor assertions and refines a stack of plain reader-writer cells.
- **Server sessions** (`ServerSessions.dfy`, `ServerContexts.dfy`): libcoap's reference count, the strong
  count and the weak pointer in libcoap's app data, driven by libcoap's events. In every legal event sequence
  the counts equal the numbers of live wrappers (libcoap's falls short by one for every clone of a counted
  wrapper), nothing dangling is followed, and the one possible panic is the deletion of a session that a
  callback still holds.
- **Message pipeline** (`VarInt.dfy`, `CoapOptions.dfy`, `Protocol.dfy`, `Wire.dfy`, `UriScheme.dfy`,
  `Request.dfy`, `RequestPipeline.dfy`, `Response.dfy`): request or response to message to bytes to sorted
  bytes to message and back, with the exact set of requests and responses whose code, data and options
  survive it.
- **Request/response correlation** (`Correlation.dfy`): one queue of responses per token, delivered exactly
  once and in order.
- **Handler dispatch** (`Resource.dfy`): a handler is taken out of its slot, run while it may change the
  table, and put back; the slots are compared with libcoap's registrations.
- **URIs** (`UriText.dfy`, `UriCopy.dfy`): path and query strings, the buffer for a URI's options, and copies
  of parsed URIs.
- **Pre-shared keys** (`PskKeys.dfy`): key descriptors handed to libcoap and taken back on drop.
- `Sequences.dfy` holds filters and stable sorts, used by the rest.

Code that updates state in place is modelled by classes and methods (`LendableFfiRcCell`, `ServerContext`,
`Session`, `CoapResource`, `ServerPskContext`, and the loops over options, components and buffers). Each is
proved to compute a function of its old state, and the theorems are about that function. Panics are ordinary
results (`Panic`, `None`, a `panicked` flag), never preconditions, except where the source itself declares an
unsafe function's contract.

What libcoap does is stated as a contract wherever the model meets it: an option list is appended to at its
tail and put on the wire in a stable sort by option number; a URI becomes entries for Uri-Host, Uri-Port,
Uri-Path and Uri-Query options, host and port at most once, or a reported failure; a session is announced by at most one TCP_CONNECTED followed
by one NEW and ended by one DEL; releasing a reference never frees a server session by itself. Option numbers
and message codes are those registered with the IANA. Whether a send succeeds, which token libcoap generates, whether a PDU
parses and which key a provider returns are parameters.

The code departs from what its documentation suggests in these places, and the model follows the code; each
has its exact condition:

| departure | where it is stated |
|---|---|
| No-Response options never decode: every length they allow ends in a panic | `CoapOptions.NoResponseNeverDecodes`, `RequestPipeline.RequestRoundTrip` |
| Hop-Limit zero is accepted from the wire but cannot be encoded | `CoapOptions.Reencodes` |
| a repeated Observe is reported as a repeated Max-Age | `Request.ScanDecides` (through `Offence`) |
| a DELETE request is sent as FETCH, and empty data arrives as no data | `Protocol.CodeRoundTrip`, `Wire.MessageArrives`, `RequestPipeline.RequestRoundTrip` |
| a URI with a segment over 255 bytes or not in UTF-8 makes emission panic | `Request.EmitsExactly`, `Response.ResponseEmitsExactly` |
| emitting a parsed response repeats its options | `Response.ReemissionParses`, `Response.ForwardedResponseRoundTrip` |
| an emitted response loses its Echo, and its location becomes request options | `Response.ResponseRoundTrip`, `Response.OwnResponseRoundTrip` |
| dropping a derived clone of a counted session wrapper takes away a libcoap reference | `ServerSessions.CloneThenDrop`, `ServerSessions.CountsMatchWrappers` |
| a handler that removes itself is put back, but is no longer registered | `Resource.SelfRemovalIsUndone`, `Resource.RequestAgrees` |
| Delete handlers are registered as FETCH | `Resource.SetAgrees`, `Resource.DeleteNeverRegistered`, `Resource.DeleteHandlerPanicsOnFetch` |
| a failed send leaves its token registered, and so does a panicking poll | `Correlation.FailedSendStaysRegistered`, `Correlation.PanickedPollRegisters` |
| no query component and one empty component give the same string | `UriText.QueryRoundTrip`, `UriText.EmptyQueryIsAmbiguous` |
| a cloned URI has an empty path and query where its source has none | `UriCopy.FromRawUri` |

## Model

| member | source | states |
|---|---|---|
| `LendableCell.LendableFfiRcCell.BorrowMut` | libcoap/src/mem.rs:244-260 | a parked reference is picked up first, then the cell is borrowed; the guard can write; a refused borrow changes neither the flag nor the slot |
| `LendableCell.LendableFfiRcCell.Borrow` | libcoap/src/mem.rs:268-281 | the same for shared borrows, which readers may have in any number; the guard can never write |
| `LendableCell.LendableFfiRcCell.LendRefMut` | libcoap/src/mem.rs:362-369 | only the cell's own reference can be parked; otherwise the call panics and changes nothing |
| `LendableCell.LendableFfiRcCell.Drop` | libcoap/src/mem.rs:443-532 | which destructor assertions hold, and the flag and slot after guards and lenders end |
| `LendableCell.WriterIsAlone` | libcoap/src/mem.rs:244-281 | in every reachable stack of guards and lenders, a guard that can write is the youngest holder and nobody else can read |
| `LendableCell.StepKeepsInv` | libcoap/src/mem.rs:244-532 | every action the borrow checker permits passes its assertions; afterwards the flag and the slot are again the function of the holders that `CellOf` gives: the slot is full exactly when a lender is on top |
| `LendableCell.LifoRunsAreSafe` | libcoap/src/mem.rs:244-532 | in every last-in-first-out run, however nested, no assertion fails, and unwinding everything leaves the cell unborrowed with an empty slot |
| `LendableCell.DoIoBracket` | libcoap/src/context.rs:416-447 | borrow, lend, arbitrary callbacks that return what they took, unlend, release: the lend always succeeds and the cell ends exactly as it was |
| `LendableCell.RefinesReaderWriter` | libcoap/src/mem.rs:244-281 | the flag and the slot refine nested reader-writer cells: a borrow is refused exactly when the innermost cell has a writer or, for an exclusive borrow or a lent cell, any reader; a shared borrow makes a reader and an exclusive one a writer |
| `LendableCell.RunsRefine` | libcoap/src/mem.rs:244-532 | the same refinement over whole runs |
| `LendableCell.OnlyBorrowMutWrites` | libcoap/src/mem.rs:244-281 | in every run each holder is of the kind its action asked for: a guard is mutable if and only if an exclusive borrow made it |
| `LendableCell.ForeignReferenceRefused` | libcoap/src/mem.rs:362-369 | lending is refused if and only if the reference is not the cell's own |
| `LendableCell.DropFailsExactly` | libcoap/src/mem.rs:443-532 | in any order of use, a destructor's assertion fails exactly when a taken guard finds the slot full or a lender does not find its own pointer |
| `LendableCell.OutOfOrderLendersPass` | libcoap/src/mem.rs:443-455 | without last-in-first-out order, an outer lender passes its check while an inner one is live, and the inner one fails later |
| `ServerSessions.TcpConnectedKeeps` | libcoap/src/event.rs:171-187 | an initialised wrapper that is not kept is dropped again without a trace in the counts |
| `ServerSessions.SessionNewKeeps` | libcoap/src/context.rs:199-202 | NEW lists the session once, with one libcoap reference and one strong and one weak count |
| `ServerSessions.EnterKeeps` | libcoap/src/session/server.rs:105-157 | between NEW and DEL the app data can always be restored, and the counts go up with the new wrapper |
| `ServerSessions.LeaveKeeps` | libcoap/src/session/server.rs:160-172 | dropping any handle, in any order, takes back exactly what it added |
| `ServerSessions.CloneKeeps` | libcoap/src/session/server.rs:29-36 | cloning a handle at any point of a run adds a live wrapper and one to what libcoap's count is short of, if the handle is counted |
| `ServerSessions.SessionDelKeeps` | libcoap/src/context.rs:203-210 | the DEL lookup always succeeds; DEL panics exactly when another handle is live, and otherwise leaves the session no wrapper and no inner session, and no reference but for those that clones gave back too often |
| `ServerSessions.DelOfUnlistedPanics` | libcoap/src/context.rs:204-208 | in any state, DEL of a session that is not listed panics |
| `ServerSessions.DelIsExclusiveDrop` | libcoap/src/context.rs:203-210 | restoring, removing the listed wrapper and dropping exclusively amounts to an exclusive drop of the listed wrapper |
| `ServerSessions.ExclusiveDropKeeps` | libcoap/src/session/server.rs:20-26 | an exclusive drop fails exactly when a handle is live; otherwise the strong and weak counts are gone, and libcoap's is back at zero less the clones taken |
| `ServerSessions.ListedOnce` | libcoap/src/context.rs:199-213 | every open session is listed at exactly one position |
| `ServerSessions.LegalRunsAreSafe` | libcoap/src/context.rs:147-213 | every legal event sequence follows no dangling pointer and keeps the invariant, and panics if and only if some DEL hits a session with a live handle |
| `ServerSessions.CountsMatchWrappers` | libcoap/src/session/server.rs:29-204 | the invariant means: the strong count is the number of live wrappers, the weak count one, and libcoap's count the number of live counted wrappers less the clones of counted wrappers taken |
| `ServerSessions.ReachableStates` | libcoap/src/session/server.rs:29-204 | all of this in every state reachable from an empty context, with clones anywhere |
| `ServerSessions.ExactWithoutClones` | libcoap/src/session/server.rs:64-204 | in every run without clones libcoap's count is exactly the number of live counted wrappers |
| `ServerSessions.DropSessionsBalances` | libcoap/src/context.rs:639-654 | dropping the context panics exactly when a handle is live, and otherwise leaves no inner session and libcoap's counts at zero less the clones taken |
| `ServerSessions.CloneThenDrop` | libcoap/src/session/server.rs:29-36 | a derived clone that is dropped at once leaves the counts alone exactly when the wrapper is not counted |
| `ServerSessions.ReleaseStrongExactly` | libcoap/src/session/server.rs:196-204 | for any counts, the inner session's memory is gone exactly when strong and weak counts were both one; otherwise they go down as its destructor says, and no other inner session changes |
| `ServerContexts.ServerContext.InitializeRaw` | libcoap/src/session/server.rs:64-86 | a new inner session with its weak pointer in the app data and one libcoap reference |
| `ServerContexts.ServerContext.FromRawWithoutRefcount` | libcoap/src/session/server.rs:139-157 | one more strong reference, libcoap's count unchanged |
| `ServerContexts.ServerContext.FromRaw` | libcoap/src/session/server.rs:105-110 | one more strong and one more libcoap reference |
| `ServerContexts.ServerContext.ReleaseStrong` | libcoap/src/session/server.rs:196-204 | the last strong reference takes the weak one with it and frees the inner session |
| `ServerContexts.ServerContext.DropWrapper` | libcoap/src/session/server.rs:160-172 | a counted wrapper gives back its libcoap reference, every wrapper its strong one |
| `ServerContexts.ServerContext.DropExclusively` | libcoap/src/mem.rs:212-218 | panics exactly when the inner session is still shared |
| `ServerContexts.ServerContext.HandleEvent` | libcoap/src/context.rs:199-213 | the session list and counts after NEW, DEL and other events, for any list whose pointers are live; panics exactly where the lookup or the exclusive drop fails |
| `ServerContexts.ServerContext.EventHandlerCallback` | libcoap/src/event.rs:171-187 | every legal event keeps the invariant, panics exactly on DEL with a live handle, and leaves no trace unless it is NEW, DEL or TCP_CONNECTED |
| `ServerContexts.ServerContext.DropSessions` | libcoap/src/context.rs:652-654 | the loop panics exactly when a handle is live, and otherwise ends with an empty list, no inner session and libcoap's counts at zero less the clones taken |
| `VarInt.ConvertToFixedSizeSlice` | libcoap/src/types.rs:916-925 | the value right-aligned in zeros; panics exactly when it is too long |
| `VarInt.DecodeVarLen` | libcoap/src/types.rs:928-986 | the big-endian value of at most `width` bytes; succeeds exactly when the value fits and the padding has the width of the integer, which it has not for `decode_var_len_u8` |
| `VarInt.EncodeStrips` | libcoap/src/types.rs:936-978 | `leading_zeros() / 8` is the number of leading zero bytes, so encoding strips exactly those, at every width |
| `VarInt.EncodeShortest` | libcoap/src/types.rs:936-978 | the encoding is the shortest byte string with that value (section 3.2 of RFC 7252) |
| `VarInt.DecodeEncode` | libcoap/src/types.rs:928-978 | decoding undoes encoding |
| `VarInt.EncodeDecode` | libcoap/src/types.rs:928-978 | encoding after decoding takes away zero bytes at the front, and all of them |
| `CoapOptions.DecodesBack` | libcoap/src/message/mod.rs:105-253 | an option that encodes decodes back to itself under its own number if and only if it is canonical |
| `CoapOptions.Reencodes` | libcoap/src/message/mod.rs:138-253 | an accepted pair of number and bytes re-encodes under the same number, integers without leading zeros and all else unchanged; Hop-Limit zero is the one exception |
| `CoapOptions.RegistryDecides` | libcoap/src/message/mod.rs:206-253 | against the registry of numbers, formats and lengths: exactly when reading gives an option of that name and value, each of the three errors, or a panic |
| `CoapOptions.RegistryComplete` | libcoap/src/message/mod.rs:206-253 | numbers outside the registry are kept uninterpreted |
| `CoapOptions.EncodingDecides` | libcoap/src/message/mod.rs:138-182 | an option fails to encode exactly when its bytes are too short or too long for the type its number is registered for, with that error |
| `CoapOptions.NoResponseNeverDecodes` | libcoap/src/types.rs:980-986 | every allowed No-Response value is padded to one byte, and reading two bytes from that panics |
| `Protocol.CodeRoundTrip` | libcoap/src/protocol.rs:287-392 | every message code is recognised by its receiver, as itself if and only if it is not that of a DELETE request |
| `Protocol.CodeRecognised` | libcoap/src/protocol.rs:308-392 | a received number is recognised if and only if some code has it, and then as that code; every other number is the panic of an unwrapped conversion |
| `Wire.BuildOptlist` | libcoap/src/message/mod.rs:482-503 | the entries in order, or the error of the first option that does not encode, with its registered type |
| `Wire.ReadOptions` | libcoap/src/message/mod.rs:395-402 | the options in wire order, or what the first unreadable option ends in: its error with its registered type, or its panic |
| `Wire.EncodeAllCarries` | libcoap/src/message/mod.rs:482-503 | building succeeds exactly when every option encodes, and then element by element |
| `Wire.EncodeAllFails` | libcoap/src/message/mod.rs:484-488 | a failure names the first option that does not encode, why, and its registered type |
| `Wire.DecodeAllElements` | libcoap/src/message/mod.rs:395-402 | reading succeeds exactly when every element decodes, and then element by element |
| `Wire.DecodeAllFails` | libcoap/src/message/mod.rs:398-402 | a failure or panic is that of the first option that cannot be read, all before it being readable |
| `Wire.SeenAsIs` | libcoap/src/message/mod.rs:138-253 | a list of options is read back as itself if and only if every option is canonical |
| `Wire.DecodeSorted` | libcoap/src/message/mod.rs:395-402 | decoding commutes with libcoap's ordering, for arbitrary raw options |
| `Wire.PipelineSorts` | libcoap/src/message/mod.rs:482-510 | canonical options that encode arrive as their own stable sort by number (section 3.1 of RFC 7252) |
| `Wire.ApplyToRawPdu` | libcoap/src/message/mod.rs:469-535 | the raw message, or the error: of the first option that does not encode, and data in an empty message exactly if all options do |
| `Wire.SendableExactly` | libcoap/src/message/mod.rs:484-513 | a message can be sent if and only if all its options encode and it is not an empty message with data |
| `Wire.OneWireForm` | libcoap/src/message/mod.rs:469-535 | every message that can be sent has exactly one raw form |
| `Wire.MessageArrives` | libcoap/src/message/mod.rs:392-420 | what arrives of any sent message: its code except DELETE, its data except empty data, and the stable sort of its options as read; or a failure exactly when its options cannot be read |
| `Wire.FromRawPduFails` | libcoap/src/message/mod.rs:392-420 | a raw message is read exactly when its options can be and its code is known; an unreadable option is reported as an error with its type, never as a panic |
| `UriScheme.SchemeRoundTrip` | libcoap/src/types.rs:240-271 | printing and parsing of schemes are inverse to each other |
| `Request.ScanOptions` | libcoap/src/message/request.rs:227-388 | the loop with its fourteen variables computes the left fold that `ScanAll` is, then rejects Proxy-Uri beside Proxy-Scheme |
| `Request.ScanDecides` | libcoap/src/message/request.rs:227-382 | the scan accepts exactly the lists in which the ten non-repeatable kinds occur at most once, no response-only kind occurs and scheme names are known; otherwise it reports the first offence |
| `Request.ParseDecides` | libcoap/src/message/request.rs:227-388 | in addition Proxy-Uri and Proxy-Scheme exclude each other; on success each kind's record is the in-order subsequence of that kind (section 5.4.5 of RFC 7252) |
| `Request.SortInvisibleToScan` | libcoap/src/message/request.rs:227-388 | sorting by number changes neither acceptance nor any field, and the leftovers become their own stable sort |
| `Request.IntoMessage` | libcoap/src/message/request.rs:429-465 | the emitted message, part by part; panics exactly when `Emits` does not hold |
| `Request.IntoOptions` | libcoap/src/types.rs:588-655 | the loop reads every entry libcoap made of the URI; panics exactly when libcoap reports a failure or an entry does not decode |
| `Request.EmitsExactly` | libcoap/src/types.rs:623-646 | emission panics exactly on a proxy URI without a scheme, a reported failure, or a host, segment or port that is too long, empty host or not UTF-8 |
| `Request.EmittedOfKind` | libcoap/src/message/request.rs:429-465 | emission adds each field under its own kind, in order, and nothing else |
| `RequestPipeline.RequestRoundTrip` | libcoap/src/message/request.rs:208-465 | end to end: a sent request comes back with the same code, data and fields and its extra options in wire order if and only if it is not a DELETE, has no empty data, no No-Response, no empty list field, no empty If-Match tag and only unregistered extra options |
| `RequestPipeline.UriPartsArrive` | libcoap/src/message/request.rs:227-441 | whenever the options survive, the receiver also records the URI's host, port, path components and query components in order, and the proxy scheme exactly if the URI is a proxy URI |
| `RequestPipeline.ParseThenEmitByKind` | libcoap/src/message/request.rs:227-465 | parse then emit keeps the options of every field kind and all unrecognised ones, in order |
| `RequestPipeline.ParseThenEmitConserves` | libcoap/src/message/request.rs:227-465 | and as a multiset over all of them, with the same code and data |
| `Response.ScanResponse` | libcoap/src/message/response.rs:191-324 | the loop computes the left fold that `ResponseScanAll` is |
| `Response.ResponseScanDecides` | libcoap/src/message/response.rs:191-324 | acceptance exactly when the non-repeatable kinds occur at most once and no request-only kind occurs; otherwise the first offence is reported; what is recorded is the in-order subsequence |
| `Response.SortInvisibleToResponseScan` | libcoap/src/message/response.rs:191-324 | sorting by number changes nothing about a parsed response |
| `Response.ResponseIntoMessage` | libcoap/src/message/response.rs:160-177 | the emitted message: kept options, location options and fields, without Echo; panics exactly when the location does not become options |
| `Response.ResponseEmitsExactly` | libcoap/src/types.rs:623-646 | when that is: a reported failure, or a host, segment or port that is too long, empty host or not UTF-8 |
| `Response.ReemissionParses` | libcoap/src/message/response.rs:160-343 | a parsed and re-emitted response keeps code, data and all its options at the front, and parses again exactly when it had no emitted field and emits no location options |
| `Response.ResponseEmittedParses` | libcoap/src/message/response.rs:160-324 | for every response, its emission is accepted exactly when its PDU holds no request-only option, no location is emitted, and no field meets an option of its kind in the PDU |
| `Response.EmissionRescans` | libcoap/src/message/response.rs:160-343 | scanning the emission gives the same fields, and a location exactly if there is one, if and only if the PDU holds nothing but what agrees with the rest of the response |
| `Response.ResponseRoundTrip` | libcoap/src/message/response.rs:160-343 | end to end, for every response that can be sent, whatever its PDU holds: it is restored if and only if it is no DELETE and has no empty data, its PDU's options can be read, and as read they contain no request-only and no emitted field's option, exactly its Echo, and a location exactly if it has one, while none is emitted |
| `Response.OwnResponseRoundTrip` | libcoap/src/message/response.rs:160-343 | for responses with only unregistered options in the PDU: if and only if code and data survive and there is neither Echo nor a location |
| `Response.ForwardedResponseRoundTrip` | libcoap/src/message/response.rs:160-343 | for responses that were received, parsed and sent on: if and only if the code survives, none of the four emitted fields is present and no location options are emitted |
| `Correlation.Session.SendRequest` | libcoap/src/session/mod.rs:328-346 | the request's or the generated token gets an empty queue, whether or not sending succeeds; a handle with that very token only if it does |
| `Correlation.Session.PollHandle` | libcoap/src/session/mod.rs:356-362 | hands out the whole queue and leaves it empty; panics exactly for a token that is not waited for |
| `Correlation.Session.RemoveHandle` | libcoap/src/session/mod.rs:373-375 | the token is no longer waited for, other tokens are untouched |
| `Correlation.Session.IsWaitingForToken` | libcoap/src/session/mod.rs:365-367 | whether the token has a queue |
| `Correlation.Session.AddResponse` | libcoap/src/session/mod.rs:86-97 | appends to the queue of the response's token, if there is one |
| `Correlation.Session.ResponseHandler` | libcoap/src/session/mod.rs:546-566 | OK exactly for a waiting token and a PDU that parses, which is then queued; a panic while reading the PDU leaves the queues alone |
| `Correlation.NothingLostOrDuplicated` | libcoap/src/session/mod.rs:86-97 | over every run from every state and for every token, what was queued and accepted is, in order, what was taken out followed by what is still queued |
| `Correlation.ExactlyOnceSinceSend` | libcoap/src/session/mod.rs:328-375 | since a send, delivered responses followed by the queue equal the accepted ones if and only if no queued response was thrown away by a repeated send or a removal |
| `Correlation.HandleDelivers` | libcoap/src/session/mod.rs:328-362 | the handle of a successful send carries its token; while that is not removed, polling it never panics, and completes the in-order delivery of all responses accepted since if and only if none was thrown away |
| `Correlation.WaitingExactly` | libcoap/src/session/mod.rs:328-375 | in every run a token is waited for exactly when it was sent or polled and not removed since |
| `Correlation.WaitingIffSent` | libcoap/src/session/mod.rs:328-375 | as long as no poll panics, exactly when it was sent and not removed since |
| `Correlation.AcceptedOnlyWhenWaiting` | libcoap/src/session/mod.rs:546-566 | a PDU is accepted exactly when it parses and its token is waited for, in terms of the run alone |
| `Correlation.AnsweredExactly` | libcoap/src/session/mod.rs:556-565 | in any state: FAIL exactly for a token not waited for, whatever the PDU, or a malformed PDU; nothing but reading the PDU panics; the queues change only with OK |
| `Correlation.PushExactly` | libcoap/src/session/mod.rs:86-97 | a response lengthens the queue of its own token, if waited for, and no other; without a token it changes nothing |
| `Correlation.FailedSendStaysRegistered` | libcoap/src/session/mod.rs:342-345 | a failed send gives no handle, yet its token goes on collecting responses |
| `Correlation.PanickedPollRegisters` | libcoap/src/session/mod.rs:356-362 | a panicking poll registers its token |
| `Resource.WithSlot` | libcoap/src/resource.rs:213-223 | writing one method's slot is seen when reading that slot and no other |
| `Resource.CoapResource.SetMethodHandler` | libcoap/src/resource.rs:308-318 | the slot is replaced and the handler's own function registered under the method's raw code |
| `Resource.CoapResource.CallHandler` | libcoap/src/resource.rs:320-362 | take, run the handler's own calls, put back unless replaced; panics exactly without a dynamic handler, and then leaves the slot empty; a message that is no request changes nothing and panics exactly if the RST cannot be sent |
| `Resource.LastSetFound` | libcoap/src/resource.rs:308-318 | what counts as set last for a method is the call after which no other concerns it |
| `Resource.HandlerIsRegistered` | libcoap/src/resource.rs:311-317 | libcoap is told to call a static handler's own function, the shared wrapper for a dynamic handler, and nothing for none |
| `Resource.DispatchSlots` | libcoap/src/resource.rs:320-362 | for every sequence of calls made by the handler, a slot no call concerns is unchanged and any other holds what the last call for it set; only the handler's own slot gets the original back when that call removed it |
| `Resource.SetAgrees` | libcoap/src/resource.rs:308-318 | setting a handler keeps slots and registrations in step exactly when the method is not Delete, or nothing is set for Delete and Fetch |
| `Resource.RequestAgrees` | libcoap/src/resource.rs:320-362 | while they agree no request panics, whatever the handler calls; they agree afterwards exactly when no handler ran, or it neither removed itself nor left a Delete handler nor made Delete's the last registration as FETCH while Fetch has a handler |
| `Resource.RequestPanicsExactly` | libcoap/src/resource.rs:339-348 | in any state, a request panics exactly when the wrapper is called for a method without a dynamic handler |
| `Resource.CarefulRunsAgree` | libcoap/src/resource.rs:308-362 | over every run without Delete handlers and self-removal no dispatch panics, and slots and registrations agree between requests |
| `Resource.CarefulResources` | libcoap/src/resource.rs:308-362 | the same from a fresh resource: a method with a static handler is served by that handler's function, one with a dynamic handler by the wrapper, one without by nothing |
| `Resource.SelfRemovalIsUndone` | libcoap/src/resource.rs:356-361 | a handler that removes itself is back in its slot, but not registered |
| `Resource.DeleteNeverRegistered` | libcoap/src/protocol.rs:344-354 | in no run does libcoap have a handler for DELETE requests |
| `Resource.DeleteHandlerPanicsOnFetch` | libcoap/src/protocol.rs:344-354 | a dynamic Delete handler makes the next FETCH request panic |
| `UriText.PathRoundTrip` | libcoap/src/message/mod.rs:257-264 | the components can be split back out of the path if and only if none contains a slash |
| `UriText.SplitPathRoundTrip` | libcoap/src/message/mod.rs:257-264 | and a string is the path of its components if and only if it is empty or starts with a slash |
| `UriText.PathStringInjective` | libcoap/src/message/mod.rs:257-264 | different lists of slash-free components have different paths |
| `UriText.ConstructQueryString` | libcoap/src/message/mod.rs:267-277 | the loop joins the components with ampersands behind a question mark |
| `UriText.QueryRoundTrip` | libcoap/src/message/mod.rs:267-277 | the components can be split back out if and only if there is at least one and none contains an ampersand |
| `UriText.SplitQueryRoundTrip` | libcoap/src/message/mod.rs:267-277 | and a string is the query of its components if and only if it starts with a question mark |
| `UriText.QueryStringInjective` | libcoap/src/message/mod.rs:267-277 | different non-empty lists of ampersand-free components have different queries |
| `UriText.EmptyQueryIsAmbiguous` | libcoap/src/message/mod.rs:267-277 | no component and one empty component give the same query |
| `UriText.BufferSuffices` | libcoap/src/types.rs:597-616 | for every URI the encoded host, port, path and query options fit in the computed buffer, with headers as in section 3.1 of RFC 7252, dropped dot segments and percent decoding included |
| `UriText.OptionReadsBack` | libcoap/src/types.rs:597-616 | the option layout of section 3.1 of RFC 7252 that the bound rests on can be read back, and has the size used in it |
| `UriCopy.CopyParts` | libcoap/src/types.rs:806-812 | the copy loop fills the buffer exactly with the concatenation of the parts |
| `UriCopy.ConstructUriString` | libcoap/src/types.rs:790-825 | the text, and three offsets that cut host, path and query back out of it; fails exactly for a NUL byte in one of them |
| `UriCopy.GeneratedParts` | libcoap/src/types.rs:797-803 | the scheme is there exactly with a host and ends in "://", the port exactly if not zero, as a colon and digits that read back as the port |
| `UriCopy.DecimalReadsBack` | libcoap/src/types.rs:803 | decimal digits read back as the number and have no leading zero |
| `UriCopy.UriEqualMeansSameParts` | libcoap/src/types.rs:828-841 | URIs compare equal exactly when port, scheme and the bytes of host, path and query are the same, wherever those are stored |
| `UriCopy.StringEqualMeansSameBytes` | libcoap-sys/src/lib.rs:141-152 | two strings compare equal exactly when they refer to the same bytes |
| `UriCopy.FromRawUri` | libcoap/src/types.rs:679-731 | panics exactly for a NUL byte; otherwise all offsets are in bounds and the copy equals its source, with the same host; path and query agree exactly when the source's pointer is not null |
| `PskKeys.KeyRoundTrip` | libcoap/src/crypto/psk/key.rs:118-159 | a key taken apart is restored as itself and leaves no memory behind; its identity pointer is null exactly when there is no identity, even an empty one |
| `PskKeys.LibcoapReads` | libcoap/src/crypto/psk/key.rs:118-135 | through the raw form libcoap reads the identity as hint, a null pointer without one, and the data as key, with their lengths |
| `PskKeys.ProvidedStayValid` | libcoap/src/crypto/psk/server.rs:137-144 | whenever dropping succeeds, the listed descriptors are pairwise distinct, allocated and describe the keys the drop restores |
| `PskKeys.ContextLife` | libcoap/src/crypto/psk/server.rs:137-230 | over every sequence of SNI callbacks, from any memory: descriptors are pairwise distinct and libcoap reads their keys' identities and data through them as long as the context lives, and dropping it frees each and the default key once and leaves exactly the memory there was before |
| `PskKeys.KeyForIdentity` | libcoap/src/crypto/psk/server.rs:286-299 | the first key with the identity, failing that the first key without one; none exactly when there is neither |
| `PskKeys.ServerPskContext.Sni` | libcoap/src/crypto/psk/server.rs:217-230 | a new descriptor for the provider's key is listed and returned, and dropping now would restore it too |
| `PskKeys.ServerPskContext.Drop` | libcoap/src/crypto/psk/server.rs:137-165 | no free goes wrong, and the memory is as it was before the context |

## Left out

- libcoap itself: its functions appear as the contracts listed above; parsing of URI text (`coap_split_uri`), I/O and retransmission are not modelled.
- Construction of a request's URI and a response's location from the scanned options: the text goes through libcoap's parser, so the model stops at the scanned options and takes the URI as the option entries libcoap makes of it.
- Wire.BuildOptlist: does not model a failed allocation of a list entry, which needs memory exhaustion inside libcoap.
- Message type, message ID and token, which go through unchanged, the errors for a missing ID or token, and block-wise transfer of large data, which is libcoap's.
- ServerSessions.LegalRunsAreSafe: event handlers of the application run within one event; an event raised from inside another event's handler is modelled only as an open handle.
- Client sessions: one reference, released once by the inner session's destructor.
- The lender's weak reference to a cell that is already gone: its drop does nothing in that case.
- Resource.RequestAgrees: a request that arrives while a handler of the same resource is still running is not modelled.
- PSK identity callbacks: they list their descriptors like SNI callbacks, but return the address of the key in a copy of the descriptor (libcoap/src/crypto/psk/server.rs:200) rather than a pointer into the listed one; what that address is good for is not modelled.
- Client-side PSK, public-key credentials and the callback arguments' weak pointers: configuration, or the ownership pattern of the server's keys.
- Random numbers, clocks, sockets, session getters and setters, and the table of content formats: direct foreign calls or finite lookups.
