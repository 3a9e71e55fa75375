# Doppelgaenger: a verified model

Doppelgaenger forwards every request to a Primary backend and mirrors it to a Shadow whose answers are
compared and then thrown away. Its central rule is that Shadow never changes what the client gets. This
Dafny project models the parts of the program where that rule, and the rules around it, are hard to see
from one function alone, and proves them for every input, every run and every interleaving.

| files | what they model |
|---|---|
| `flights.dfy` | the single-flight group for caller introspection, interleaved step by step |
| `introspection_cache.dfy` | the positive introspection cache as a refinement of a log of stores, and the claim checks |
| `grpc_stream.dfy`, `grpc_shadow.dfy`, `grpc_compare.dfy` | one gRPC call: relay loops, message hash, bounded shadow queue, comparison verdict |
| `grpc_protocol.dfy`, `grpc_transparency.dfy`, `grpc_runs.dfy` | all goroutines of the call interleaved: invariants and erasure, what the labels spell and the client sees, and runs that exist |
| `milter_codec.dfy`, `milter_proxy.dfy` | the Milter frame codec, reply turns, the connection loop and its shadow worker, interleaved |
| `milter_macros.dfy` | the macro state machine and its history specification |
| `json_values.dfy`, `json_paths.dfy`, `json_compare.dfy` | JSON values, their recursive comparison and the path texts it reports |
| `json_pointer.dfy`, `json_selector.dfy`, `json_lookup.dfy` | JSON pointers, singular JSONPath, and their resolution in a document |
| `proto_wire.dfy`, `protobuf_fields.dfy` | the protobuf wire walk and the capture of selected scalars |
| `yaml_alias.dfy` | the check of alias mappings on possibly cyclic YAML node graphs |
| `token_bucket.dfy` | the token bucket over whole runs, and the gRPC shadow policy that spends its tokens |
| `log_limiter.dfy` | the rate limit on technical rejection logs |
| `common.dfy`, `byte_order.dfy`, `go_text.dfy`, `utf8.dfy` | shared facts: options, sequences, big-endian numbers, the few `strings`, `strconv`, `sort` and `utf8` functions used |

`dafny verify dfyconfig.toml` checks the whole project.

## How the model is built

Code that changes things step by step appears as classes and methods with loops. Each such method is
proved equal to a function on values (`Join`, `ServeFrame`, `Observe`, `Draw`, ...), and the theorems
are about those functions. Concurrent code appears as a labelled step function: one label is one atomic
action of one goroutine, and `Execute` runs any list of labels, so a statement about every reachable
state covers every schedule. What networks, clocks, random draws and timers decide is in the labels or
in parameters. A Go map `range` is an arbitrary enumeration of the keys, a channel is a bounded sequence
with a closed flag, and a flight's pointer identity is its index among all flights ever started.
Histories such as the accepted or delivered messages are kept beside the modelled state so that
statements can refer to them.

## What the proofs found

- The result of a gRPC call whose request direction fails first carries no message count and no hash
  (`internal/grpcproxy/stream.go:85-89`), and it is this result that is compared
  (`internal/grpcproxy/handler.go:238-239`). `WrongSame` is a run that ends with the verdict "same" in hash
  and in count mode although the client received a message and the shadow answered nothing; `LateRelay` is
  a run in which the count is wrong although nothing had been relayed when the request direction failed.
  `ReturnedCount`, `ReturnedHash`, `SameCountSameNumber` and `SameHashSameMessages` show for every run that
  count, hash and the meaning of "same" are right if and only if the compared result is a started one, a flag
  of the record, or the client received nothing.
- A gRPC verdict does not say that the shadow was sent every request message: its response stream may end
  before (`VerdictWithoutDelivery`). `VerdictDelivers` gives the exact condition.
- After the Milter queue has overflowed, the frames accepted before are still sent to the shadow
  (`SentAfterClose`); only later ones are not accepted.
- The comment at `internal/milterproxy/shadow_worker.go:75-76` says that the worker's `Close` is used
  only after the client connection closes. Deferred calls run in reverse order
  (`internal/milterproxy/handler.go:83-107`), so the worker is closed, and waited for, first. The model
  follows the code; `CloseTerminates` shows the wait ends and changes nothing the client receives.
- A gRPC call may return to its client only after the shadow has completed or its timer has fired
  (`internal/grpcproxy/handler.go:238`). `ShadowNeverBlocks` therefore needs the timer step for the
  `Return` label, and for no other.
- Quoted JSONPath keys round-trip if and only if they are well-formed UTF-8: decoding the JSON literal
  replaces every ill-formed byte by U+FFFD (`RepairedIsKeptIffValid`). JSON pointers carry any bytes.
- Milter decoding inverts encoding if and only if one plus the payload length is below 2^32
  (`DecodeEncode`): the length field is cut to 32 bits.
- The handler tests the command byte, the runner and the session the first byte of its UTF-8 string.
  For bytes from 0x80 on these differ, and `TurnsAgree` shows that they still agree on every turn.
- Claims whose expiry lies in the last 62 billion seconds of the 64-bit range pass the claim check but are never
  cached: `time.Unix` wraps their expiry to before the year 1 (`UnixTimeExact`).

## Model

| member | source | states |
|---|---|---|
| FlightGroup.IntrospectionFlights.JoinFlight | internal/grpcproxy/caller_auth_cache.go:166-195 | joining in place shares the pending flight, or takes a slot and starts one, or reports overload, exactly as the step `Join` on values |
| FlightGroup.IntrospectionFlights.ForgetLocked | internal/grpcproxy/caller_auth_cache.go:236-240 | removes the pending entry only when it still is this very flight |
| FlightGroup.IntrospectionFlights.LeaveFlight | internal/grpcproxy/caller_auth_cache.go:217-233 | the last waiter of an unfinished flight forgets and cancels it; every other departure only counts down |
| FlightGroup.IntrospectionFlights.FinishRun | internal/grpcproxy/caller_auth_cache.go:198-209 | the deferred block equals its four separate steps (forget, cancel, free the slot, close `done`) run without interruption |
| FlightGroup.ExecuteKeeps | internal/grpcproxy/caller_auth_cache.go:166-240 | every interleaving of callers and flight goroutines keeps the invariant: slots counted, waiters = joined minus left, pending = unfinished and not abandoned |
| FlightGroup.SlotConservation | internal/grpcproxy/caller_auth_cache.go:176-187 | in every reachable state the used slots are the flights that have not freed theirs, at most the capacity, and no more flights are pending |
| FlightGroup.FetchesWithinLimit | internal/grpcproxy/caller_auth_cache.go:176-213 | never more fetches run at once than there are slots, abandoned ones included |
| FlightGroup.DeferredStepsEnabled | internal/grpcproxy/caller_auth_cache.go:198-209 | once the fetch has returned every remaining step of `run` is enabled; receiving from the slot channel never blocks |
| FlightGroup.OneLiveFlightPerToken | internal/grpcproxy/caller_auth_cache.go:166-195 | two unfinished flights of one token that nobody abandoned are the same flight |
| FlightGroup.PendingIsWaitedFor | internal/grpcproxy/caller_auth_cache.go:217-240 | a pending flight is unfinished and at least one caller is inside it |
| FlightGroup.NoCancelWhileWaited | internal/grpcproxy/caller_auth_cache.go:217-233 | no flight is canceled before its fetch returns while a caller waits on it |
| FlightGroup.NobodyReceivesAbandoned | internal/grpcproxy/caller_auth_errors.go:225-229 | no caller ever receives the result "abandoned by all callers", as the comment there promises |
| FlightGroup.LateForgetIsHarmless | internal/grpcproxy/caller_auth_cache.go:236-240 | an abandoned flight that returns late leaves the pending table, and so the fresh flight under its key, alone |
| FlightGroup.Quiescence | internal/grpcproxy/caller_auth_cache.go:197-215 | when all flights have ended no slot is held and nothing is pending |
| FlightGroup.ArrivalExact | internal/grpcproxy/caller_auth_cache.go:166-195 | in every reachable state an arriving caller waits on the unfinished, not abandoned flight of its token if one exists; it is refused exactly if none exists and as many flights hold a slot as there are; otherwise it waits on a fresh one |
| FlightGroup.ServedOutcomeIsFetched | internal/grpcproxy/caller_auth_cache.go:197-215 | over every run a served caller holds exactly the outcome that the fetch of its flight brought |
| FlightGroup.WaiterCanBeServed | internal/grpcproxy/caller_auth_cache.go:197-233 | from every such state the flight a caller waits on can run to its end, whatever it fetches, and serve the caller |
| IntrospectionCaching.IntrospectionCache.constructor | internal/grpcproxy/caller_auth_cache.go:34-40 | a new cache is empty and refines the empty log |
| IntrospectionCaching.IntrospectionCache.Get | internal/grpcproxy/caller_auth_cache.go:42-63 | hits exactly the live entries, returns their claims, and deletes the entry when it has expired |
| IntrospectionCaching.IntrospectionCache.Put | internal/grpcproxy/caller_auth_cache.go:65-95 | leaves one of the outcomes `PutOutcome` allows for the given map order, and keeps the bound and the refinement of the log |
| IntrospectionCaching.IntrospectionCache.EvictLocked | internal/grpcproxy/caller_auth_cache.go:97-122 | drops the sampled expired entries, and the earliest-expiring sampled live one only if the cache is still full |
| IntrospectionCaching.EvictionFromFull | internal/grpcproxy/caller_auth_cache.go:97-122 | for every enumeration order of a full cache: if a sampled entry was expired no live entry is lost, otherwise exactly the earliest-expiring sampled entry goes; either way there is room |
| IntrospectionCaching.PutKeeps | internal/grpcproxy/caller_auth_cache.go:65-95 | every `put` in every order keeps the size bound, and each entry explained by the latest store of its key |
| IntrospectionCaching.RunRefinesLog | internal/grpcproxy/caller_auth_cache.go:42-122 | bound and refinement hold after every prefix of every run of lookups and stores |
| IntrospectionCaching.HitReturnsLatest | internal/grpcproxy/caller_auth_cache.go:42-95 | a hit returns the latest claims stored under the key, before store time + ttl and before the claims' own expiry |
| IntrospectionCaching.StoredIsHit | internal/grpcproxy/caller_auth_cache.go:42-122 | stored claims are hit until the earlier of store time + ttl and their own expiry, and missed from then on, unless replaced or evicted |
| IntrospectionCaching.UnixTimeExact | internal/grpcproxy/caller_auth_cache.go:71 | the instant of an expiry, with the 62 billion seconds at the end of the range that wrap |
| IntrospectionCaching.HitPassesValidate | internal/grpcproxy/caller_auth.go:365-375 | claims that once passed `validate` and are returned by a later hit pass it at that very instant, nanosecond expiry against second-granular times included; so `authorize` decides alike |
| IntrospectionCaching.HitDecidesFresh | internal/grpcproxy/caller_auth.go:184-264 | the same over every run whose stores were validated first and whose clock does not run backwards |
| IntrospectionCaching.FlightsKeep | internal/grpcproxy/caller_auth.go:236-264 | under every interleaving of flights on one cache the bound and the refinement hold, and only claims that passed `validate` are stored |
| IntrospectionCaching.FlightHitDecidesFresh | internal/grpcproxy/caller_auth.go:184-264 | under every interleaving a flight that finds an entry ends with the latest claims any flight stored under its key, and they pass `validate` at the instant of its lookup |
| IntrospectionCaching.RequestsOnlyWithoutEntry | internal/grpcproxy/caller_auth.go:236-252 | under every interleaving a flight asks the network only if there was no live entry when it looked |
| IntrospectionCaching.FlightExact | internal/grpcproxy/caller_auth.go:236-266 | every flight of every run does what its labels say: with a live entry it ends at once with it; otherwise it asks, stores a reply of genuine claims, and ends with the reply it got |
| IntrospectionCaching.SavedIsFound | internal/grpcproxy/caller_auth.go:236-252 | a request is not repeated: after a flight saved its claims every look for the token before they expire ends with them, unless a save replaced or evicted them |
| IntrospectionCaching.ValidateExact | internal/grpcproxy/caller_auth.go:365-375 | claims pass exactly if they are active, from the issuer, within nbf and exp, and name the audience, alone or in a list |
| IntrospectionCaching.RuleIsFirst | internal/grpcproxy/caller_auth.go:386 | the rule that counts is the first that names the method |
| IntrospectionCaching.AuthorizeExact | internal/grpcproxy/caller_auth.go:377-401 | a caller is admitted exactly if its claims are genuine, some rule names the method if there are rules, and it holds every scope required of all and by the first such rule; each refusal with its exact condition |
| IntrospectionCaching.RunIntrospectionFlight | internal/grpcproxy/caller_auth.go:236-264 | one flight alone: the network is asked exactly if no live entry existed, and only validated claims are stored |
| IntrospectionCaching.RuleIndex | internal/grpcproxy/caller_auth.go:382-391 | the first method rule with this name, or none |
| GrpcStream.MessageHashRecorder.Add | internal/grpcproxy/stream.go:214-224 | appends the 8-byte big-endian length and the message to what is hashed |
| GrpcStream.FramingInjective | internal/grpcproxy/stream.go:206-224 | the length framing is injective on message sequences |
| GrpcStream.EqualHashesEqualMessages | internal/grpcproxy/stream.go:206-232 | with an injective digest equal hashes mean equal sequences |
| GrpcStream.ReceiveShadowResponses | internal/grpcproxy/shadow.go:338-389 | count, hash, status, completeness and skip reason of the result are those of the whole received sequence, for every way the stream can end |
| GrpcStream.ForwardPrimaryToClient | internal/grpcproxy/stream.go:130-200 | what the client sees, the error, and the whole result with a count and hash of exactly the relayed messages, for every Primary stream and every point at which the client refuses |
| ByteOrder.PutBigEndian | internal/grpcproxy/stream.go:217-221 | fills the first bytes of a buffer with the big-endian form of a number and leaves the rest |
| ByteOrder.ReadBack | internal/protocol/milter_codec.go:27 | reading a big-endian field gives the number back |
| ByteOrder.WriteBack | internal/protocol/milter_codec.go:49 | writing a number that was read gives the bytes back |
| GrpcCompare.VerdictExact | internal/grpcproxy/compare.go:40-131 | a verdict is given exactly for a selected, started, complete shadow without skip reason and a supported mode; it is "same" exactly if both sides agree on what the mode looks at |
| GrpcCompare.MetadataAgree | internal/grpcproxy/compare.go:145-164 | no metadata difference is reported exactly if header and trailer values agree on every key |
| GrpcCompare.NormalizeKeys | internal/grpcproxy/compare.go:272-301 | the result is the sorted list of the distinct nonempty normalized keys |
| GrpcShadow.Channel.TrySend | internal/grpcproxy/shadow.go:119-126 | a non-blocking send on an open channel; sending after close is not possible |
| GrpcShadow.Channel.CloseChannel | internal/grpcproxy/shadow.go:391-398 | closing requires an open channel: never closed twice |
| GrpcShadow.ShadowForwarder.OfferMessage | internal/grpcproxy/shadow.go:109-127 | queues the message, or closes the queue with reason `queue_full`; never sends to a closed channel |
| GrpcShadow.ShadowForwarder.CloseQueue | internal/grpcproxy/shadow.go:129-138 | closes the queue once |
| GrpcShadow.ShadowForwarder.CloseQueueLocked | internal/grpcproxy/shadow.go:391-398 | closes the channel only while the flag says it is open |
| GrpcShadow.ShadowForwarder.MarkResultLocked | internal/grpcproxy/shadow.go:293-301 | the first reason and the first error stay |
| GrpcShadow.ShadowForwarder.MergeReceiveResult | internal/grpcproxy/shadow.go:303-322 | takes over the received result, keeping an earlier reason and error |
| GrpcShadow.ShadowForwarder.FailStart | internal/grpcproxy/shadow.go:269-277 | marks the failure with its reason and closes the queue |
| GrpcShadow.ReasonsSticky | internal/grpcproxy/shadow.go:293-322 | under every order of marks and merges a nonempty reason is never replaced, and a result without one ends with the first nonempty reason among them |
| GrpcProtocol.ShadowErasure | internal/grpcproxy/stream.go:47-128 | deleting every shadow step and all shadow state from any interleaved run leaves a run of the Primary-only proxy with identical headers, messages, trailers and status |
| GrpcProtocol.ShadowNeverBlocks | internal/grpcproxy/shadow.go:140-171 | whatever the shadow is doing, every Primary-only continuation is possible, at worst after the shadow timer has fired; `Offer` never waits |
| GrpcTransparency.RunIsTransparent | internal/grpcproxy/stream.go:101-200 | over every run with any shadow the client has seen exactly the header, messages and trailer the labels of Primary's stream spell, Primary has taken exactly what the client's labels spell, and an ended relay is the one of `ForwardPrimaryToClient` for that stream |
| GrpcTransparency.StatusIsPrimarys | internal/grpcproxy/stream.go:130-180 | the status the client gets from a started result is Primary's own final status, none after a stream that ended well |
| GrpcTransparency.ShadowIsHeard | internal/grpcproxy/shadow.go:338-389 | over every run the shadow's result is built from exactly the header, replies and end its labels spell |
| GrpcTransparency.SameMetadataMeans | internal/grpcproxy/compare.go:145-164 | "same" in metadata mode means: both backends ended with the same status and sent the same values for every compared key in header and trailer |
| GrpcProtocol.MirrorExact | internal/grpcproxy/shadow.go:109-127 | in every reachable state the next accepted message is lost exactly if there is no live forwarder, one was lost before, the start failed, or the queue is full; any other joins the queue; the first overflow closes it with `queue_full` |
| GrpcProtocol.ExecuteKeeps | internal/grpcproxy/shadow.go:173-336 | every interleaving of the handler and the five goroutines keeps the protocol invariant |
| GrpcProtocol.ShadowPrefix | internal/grpcproxy/shadow.go:109-127 | at every moment, under any schedule, overflow, start failure or timeout, the messages sent to the shadow are a gap-free prefix of those Primary accepted |
| GrpcProtocol.VerdictSound | internal/grpcproxy/compare.go:57-131 | a verdict on the snapshot implies that the shadow started, reached a final status, that count and hash are those of all its messages, and that no message offered before had been dropped |
| GrpcProtocol.RelayResultExact | internal/grpcproxy/stream.go:130-180 | when the relay ends the RPC its result counts and hashes exactly what the client received, in every reachable state |
| GrpcProtocol.ReturnedCount | internal/grpcproxy/stream.go:79-94 | in every reachable state with a result for the RPC, its message count is the number of messages the client received if and only if the result is a started one or the client received nothing |
| GrpcProtocol.ReturnedHash | internal/grpcproxy/compare.go:303-309 | the same for the hash that is compared, with an injective digest |
| GrpcProtocol.SameCountSameNumber | internal/grpcproxy/compare.go:166-176 | when the handler's own result is compared, "same" in count mode means equally many messages if and only if that result is a started one or the client received nothing |
| GrpcProtocol.SameHashSameMessages | internal/grpcproxy/compare.go:178-191 | when the handler's own result is compared, "same" in hash mode means, with an injective digest, the same messages if and only if that result is a started one or the client received nothing |
| GrpcRuns.WrongSame | internal/grpcproxy/handler.go:238-239 | a run, for every message, in which the verdict is "same" in hash and count mode although the client received the message and the shadow answered nothing |
| GrpcRuns.LateRelay | internal/grpcproxy/stream.go:79-90 | a run, for every message, in which nothing had been relayed when the request direction failed and the count is wrong all the same, because one more message is relayed afterwards |
| GrpcProtocol.VerdictDelivers | internal/grpcproxy/shadow.go:205-239 | under a verdict the shadow has been sent everything Primary accepted if and only if nothing was dropped since and the sender ended at the end of the closed queue, or still runs with nothing held, queued or about to be offered |
| GrpcRuns.BothAnswer | internal/grpcproxy/shadow.go:173-239 | for every request stream and every two answers, however they end, some run delivers Primary's to the client and every request to the shadow, and the two compared records hold exactly what the backends sent |
| GrpcRuns.AnswersJudged | internal/grpcproxy/compare.go:40-131 | two whole answers get a verdict exactly if the shadow's ended with a status that is no deadline; equal answers are the same in every mode, different statuses differ in every mode |
| GrpcRuns.VerdictWithoutDelivery | internal/grpcproxy/shadow.go:205-239 | a run, for every message, with a verdict although the shadow was never sent the message Primary accepted |
| MilterCodec.EncodeFrame | internal/protocol/milter_codec.go:46-54 | fills a buffer with the encoding of the frame, the length cut to 32 bits |
| MilterCodec.ReadFrame | internal/protocol/milter_codec.go:21-44 | reads the frame `Decode` specifies from the stream, consumes exactly its bytes, or gives its error |
| MilterCodec.Reader.ReadFull | internal/protocol/milter_codec.go:23-35 | fills the whole buffer or fails after consuming what was there |
| MilterCodec.DecodeEncode | internal/protocol/milter_codec.go:21-54 | decoding inverts encoding if and only if 1 + payload length fits 32 bits |
| MilterCodec.RawIsInput | internal/protocol/milter_codec.go:37-43 | the re-encoded raw frame is byte for byte what was read |
| MilterCodec.TurnsAgree | internal/protocol/milter_semantics.go:29-61 | handler, runner and session agree on which commands open a turn and which replies end it, although two of them see the first byte of the command's UTF-8 string |
| MilterCodec.Receive | internal/protocol/milter_adapter.go:168-206 | collects the raw frames up to the first completing one, or the bytes before the error |
| MilterCodec.TurnShape | internal/protocol/milter_adapter.go:180-206 | a completed turn consumes exactly the bytes it returns, and only its last frame completes the request |
| MilterCodec.UnreadableIffNoFrame | internal/protocol/milter_codec.go:21-44 | a stream is unreadable exactly if no whole frame stands at its front |
| MilterCodec.TurnIsReceived | internal/protocol/milter_adapter.go:180-206 | every complete reply sequence at the front of a stream is received as one turn, whatever follows |
| MilterCodec.BrokenIffNoTurn | internal/protocol/milter_adapter.go:180-206 | receiving breaks exactly if no complete reply sequence stands at the front |
| MilterCodec.CommandTable | internal/protocol/milter_semantics.go:29-48 | of the profile's commands only negotiation and end of message open a turn |
| MilterCodec.SilentCommands | internal/protocol/milter_semantics.go:29-48 | a byte opens no turn exactly if it is one of the other thirteen commands |
| MilterCodec.ReplyTable | internal/protocol/milter_adapter.go:250-261 | negotiation is settled by its own reply only, every other turn by exactly the nine dispositions |
| MilterCodec.OnlyRepliesSettle | internal/protocol/milter_adapter.go:250-261 | no byte outside the reply table settles a turn |
| MilterCodec.DecisionTable | internal/protocol/milter_adapter.go:233-248 | the decision of every reply of the profile |
| MilterProxy.Connection.HandleFrame | internal/milterproxy/handler.go:136-191 | one frame handled in place equals the step `ServeFrame` on byte streams, for every write failure |
| MilterProxy.ShadowWorker.SubmitWork | internal/milterproxy/shadow_worker.go:56-73 | queues the frame or closes the queue; nothing is accepted afterwards |
| MilterProxy.ShadowWorker.TakeWork | internal/milterproxy/shadow_worker.go:100 | takes the oldest accepted frame |
| MilterProxy.ShadowWorker.ProcessWork | internal/milterproxy/shadow_worker.go:100-133 | opens a session if there is none, and completes the frame once on each of the three ways an iteration ends |
| MilterProxy.ExecuteKeeps | internal/milterproxy/handler.go:82-191 | every interleaving of the connection and its worker keeps the invariant |
| MilterProxy.ClientBytesTransparent | internal/milterproxy/handler.go:136-168 | the bytes sent to Primary are a prefix of the client's bytes, in whole frames unless writing to Primary itself was cut |
| MilterProxy.PrimaryBytesTransparent | internal/milterproxy/handler.go:207-231 | the bytes sent to the client are a prefix of Primary's bytes, in whole reply sequences unless writing to the client itself was cut |
| MilterProxy.ServeMovesFrame | internal/milterproxy/handler.go:136-191 | with nothing cut, serving moves exactly the frame at the front to Primary and exactly the complete reply sequence at Primary's front to the client, and stays alive |
| MilterProxy.StoppedMeansNothingLeft | internal/milterproxy/handler.go:82-231 | a connection that stopped with no write cut has no whole frame left from the client, or no complete reply left from Primary |
| MilterProxy.WorkerOrder | internal/milterproxy/shadow_worker.go:88-133 | accepted frames are completed in submission order; the shadow sees a prefix of the frames Primary handled; at most one session is opened |
| MilterProxy.EveryFrameRecordedOnce | internal/milterproxy/handler.go:170-190 | when the connection is closed every handled frame has exactly one result record and every accepted frame is completed |
| MilterProxy.SilentAfterFailure | internal/milterproxy/shadow_worker.go:100-133 | however the run goes on, nothing is sent after the first shadow failure and nothing is accepted after an overflow |
| MilterProxy.HealthyShadowGetsAll | internal/milterproxy/shadow_worker.go:88-133 | over every run in which sessions open and events succeed the shadow is sent every handled frame, in order and in one session, except those turned away by a full queue |
| MilterProxy.SubmitExact | internal/milterproxy/shadow_worker.go:56-73 | a frame is turned away exactly if the queue is closed or full, and only then it closes |
| MilterProxy.ProcessExact | internal/milterproxy/shadow_worker.go:100-133 | a frame is sent unless the shadow failed before or no session opens; the shadow fails only where opening or the event fails |
| MilterProxy.ShadowErasure | internal/milterproxy/handler.go:136-191 | deleting the worker from any run leaves a run of the connection alone with the same bytes to client and Primary |
| MilterProxy.SentAfterClose | internal/milterproxy/shadow_worker.go:100-133 | after the queue was closed, by an overflow or at the end, the shadow is sent, in order, frames accepted before and no others; all of them if it does not fail |
| MilterProxy.HandOverEnabled | internal/milterproxy/shadow_worker.go:56-73 | `Submit` never waits: a hand-over is possible in every state of the worker |
| MilterProxy.WorkerNeverBlocks | internal/milterproxy/handler.go:82-191 | the converse of erasure: in every state of the worker each continuation the connection has alone can be run beside it with the same bytes; only the close has to let the worker finish |
| MilterProxy.CloseTerminates | internal/milterproxy/shadow_worker.go:77-86 | under every schedule and every outcome the worker of a closed queue makes at most 2 * queued + taken + 1 steps, can make one until it has exited, and changes nothing the client sees |
| MilterMacros.MacroState.ObserveFrame | internal/milterproxy/macros.go:28-65 | one frame observed in place equals the step `Observe`, snapshot included |
| MilterMacros.MacroState.DefineStage | internal/milterproxy/macros.go:81-130 | a definition replaces the stage's pending values if well formed and within limits, and always drops the earlier ones |
| MilterMacros.MacroState.ClearMessageStages | internal/milterproxy/macros.go:67-79 | forgets the message stages and no others |
| MilterMacros.MacroState.ParsePairs | internal/milterproxy/macros.go:106-127 | collects the selected name/value pairs within the limits, or fails |
| MilterMacros.MacroState.TakeSnapshot | internal/milterproxy/macros.go:144-167 | lists the shown values in field order within the budget |
| MilterMacros.SnapshotWithinBudget | internal/milterproxy/macros.go:144-167 | every snapshot stays within 16384 bytes |
| MilterMacros.SnapshotListsLatest | internal/milterproxy/macros.go:144-167 | over every history the attributes are, in field order, the nonempty values which the latest of the stages C, H, M, R, T, N, E that gives the macro one gives it; a field is missing only without a value or where it does not fit what the listed ones left |
| MilterMacros.DefinitionExact | internal/milterproxy/macros.go:81-130 | a stage letter and a list of pairs is well formed exactly within its limits, and then gives each macro the value of its last usable pair and no other macro any |
| MilterMacros.DefinitionIsPairs | internal/milterproxy/macros.go:97-101 | every well-formed definition is such a list |
| MilterMacros.BracesIgnored | internal/milterproxy/macros.go:132 | one brace on each side of a macro name is dropped, no more |
| MilterMacros.PendingComplete | internal/milterproxy/macros.go:81-130 | a well-formed definition that nothing ended since is the pending one |
| MilterMacros.PendingSound | internal/milterproxy/macros.go:81-130 | every pending value comes from such a definition |
| MilterMacros.ActiveComplete | internal/milterproxy/macros.go:28-65 | a definition consumed by its stage and not cleared since is the value held for the stage |
| MilterMacros.ActiveSound | internal/milterproxy/macros.go:28-65 | every value held for a stage comes from such a definition |
| MilterMacros.SnapshotMatchesHistory | internal/milterproxy/macros.go:28-65 | for every frame sequence a stage shows exactly the values of the latest well-formed definition it consumed with no clearing frame since |
| MilterMacros.HeldInMessage | internal/milterproxy/macros.go:39-60 | what a message stage holds after a frame was consumed, and except for MAIL defined, under the current number |
| MilterMacros.NoValueCrossesMessages | internal/milterproxy/macros.go:28-65 | whatever a snapshot shows for a message stage, end of message included, was defined under the message number the snapshot carries; for MAIL, right before that number began |
| JsonPaths.AppendStep | internal/compare/json.go:217-229 | appending a key or an index in place is rendering the longer location |
| JsonPaths.PathsUniquelyDecodable | internal/compare/json.go:217-257 | different key/index lists never render to the same path text, although quotes are escaped and backslashes are not |
| JsonPaths.InsideOutside | internal/compare/json.go:217-229 | whether a position of the text lies inside a quoted key is determined by the text |
| JsonCompare.UnionKeys | internal/compare/json.go:190-215 | the sorted union of both key sets, for every enumeration of the maps |
| GoText.SortedUnique | internal/compare/json.go:190-215 | a sorted duplicate-free list is determined by its members, so map order does not show |
| JsonCompare.CompareValues | internal/compare/json.go:120-141 | appends exactly the texts of `Diffs` below the given path |
| JsonCompare.CompareObject | internal/compare/json.go:143-155 | appends the differences of all members in key order |
| JsonCompare.CompareArray | internal/compare/json.go:157-168 | appends the differences of all elements up to the longer length |
| JsonCompare.EmptyIffEquivalent | internal/compare/json.go:120-170 | no difference is reported exactly if both values are equal after dropping null members and trailing null elements at every level |
| JsonCompare.EveryDiffHonest | internal/compare/json.go:120-172 | every reported location really differs and shows the two values found there |
| JsonCompare.DiffsAntichain | internal/compare/json.go:120-168 | no reported location lies at or beneath another |
| JsonCompare.PatchReachesShadow | internal/compare/json.go:120-172 | replacing the reported locations in the primary value by shadow's values gives a value equivalent to shadow |
| JsonCompare.DiffsSymmetric | internal/compare/json.go:120-172 | exchanging the two values exchanges the sides of every difference and nothing else |
| JsonCompare.PathTextsDistinct | internal/compare/json.go:120-172 | no two differences of one comparison share a path text |
| GoText.SplitJoin | internal/logging/json_fields.go:33 | splitting at a separator and joining gives the text back, and no part holds the separator |
| GoText.JoinSplit | internal/logging/json_fields.go:33 | splitting a joined list of separator-free parts gives the list back |
| GoText.AtoiItoa | internal/logging/json_path.go:92 | the decimal text of a 64-bit non-negative number reads back as that number |
| JsonPointer.ParseJSONPointer | internal/logging/json_fields.go:17-39 | the validation loop, split and unescape loop compute `Parse`, errors included |
| JsonPointer.TwoPassesAreOne | internal/logging/json_fields.go:34-36 | the two replacement passes equal single-pass decoding on every accepted token (section 4 of RFC 6901) |
| JsonPointer.ParsePrinted | internal/logging/json_fields.go:17-39 | parsing the escaped form of any nonempty token list returns the list (section 3 of RFC 6901) |
| JsonPointer.PrintParsed | internal/logging/json_fields.go:17-39 | escaping the tokens of any accepted pointer returns the pointer: accepted pointers and nonempty token lists correspond one to one |
| JsonSelector.ParseSelector | internal/logging/json_path.go:23-56 | the loop over segments computes `Parse`, which of the errors included |
| JsonSelector.ScanSegment | internal/logging/json_path.go:58-82 | scans one segment exactly as `ParseSegment` |
| JsonSelector.ScanQuotedMember | internal/logging/json_path.go:104-137 | the cursor loop normalizes a member exactly as the recursive form |
| JsonSelector.SegmentShortens | internal/logging/json_path.go:58-98 | every accepted segment strictly shortens the input, so the parser makes progress |
| JsonSelector.NormalizePrinted | internal/logging/json_path.go:104-137 | reading a printed member yields the inside of the key's JSON literal in either quote style |
| JsonSelector.LiteralOfKey | internal/logging/json_path.go:139-143 | the literal of a key decodes to the key with its ill-formed UTF-8 bytes replaced by U+FFFD |
| JsonSelector.RepairedIsKeptIffValid | internal/logging/json_path.go:139-143 | that is the key itself if and only if the key is well-formed UTF-8 |
| JsonSelector.ParsePrinted | internal/logging/json_path.go:23-151 | printing any nonempty list of names and positions as quoted JSONPath and parsing it returns the list, for either quote style, if and only if every name is well-formed UTF-8 and every position fits an int |
| JsonSelector.ParseDotted | internal/logging/json_path.go:23-68 | names written after dots parse back to the list if and only if each is a letter or underscore followed by letters, digits and underscores |
| JsonSelector.DottedReadBack | internal/logging/json_path.go:58-68 | a dotted name is read up to the first byte that cannot continue it |
| JsonSelector.DottedSound | internal/logging/json_path.go:58-68 | whatever a dotted segment yields is such a name, and its text is the input's |
| JsonSelector.IndexCanonical | internal/logging/json_path.go:84-98 | an accepted index is the canonical decimal text of a position, white space around it aside |
| JsonLookup.ResolveJSONPointer | internal/logging/json_fields.go:77-103 | the loop computes `Resolve`, early returns included |
| JsonLookup.PathSelectsLocation | internal/logging/json_fields.go:77-103 | the printed JSONPath of a location selects the value at that location of every document |
| JsonLookup.PointerSelectsLocation | internal/logging/json_fields.go:77-103 | the printed pointer of a location selects the value there, whatever bytes its names hold |
| JsonLookup.SelectedLocation | internal/logging/json_fields.go:77-103 | what a selector selects is the value at one location of the document, spelled by its segments |
| ProtoWire.LimitIs64Bits | vendor/google.golang.org/protobuf/encoding/protowire/wire.go:394-405 | ten bytes of varint hold exactly the 64-bit values |
| ProtoWire.ReadIsVarint | vendor/google.golang.org/protobuf/encoding/protowire/wire.go:267-408 | what is read as a varint is a base-128 encoding of the value within 64 bits |
| ProtoWire.VarintIsRead | vendor/google.golang.org/protobuf/encoding/protowire/wire.go:267-408 | every base-128 encoding of a 64-bit value is read as that value, whatever follows |
| ProtoWire.ConsumeBytes | vendor/google.golang.org/protobuf/encoding/protowire/wire.go:460-469 | never reads past the buffer and never makes a payload as long as its input |
| ProtoWire.PayloadIsRead | vendor/google.golang.org/protobuf/encoding/protowire/wire.go:116-165 | every encoded payload is read with its exact length and content |
| ProtoWire.ValidWireMessage | internal/logging/protobuf_fields.go:165-183 | the loop decides `ValidWire` and ends on every buffer |
| ProtoWire.ReadIsMessage | internal/logging/protobuf_fields.go:165-183 | an accepted buffer is an encoding, in the grammar of the encoding document, of the fields read |
| ProtoWire.MessageIsRead | internal/logging/protobuf_fields.go:165-183 | every encoding of a field list is accepted and read as that list |
| ProtoWire.ValidIffMessage | internal/logging/protobuf_fields.go:165-183 | a buffer is accepted if and only if it encodes a field list, and then only one |
| ProtoWire.SecondWalkSafe | internal/logging/protobuf_fields.go:195-211 | after the first walk accepted, every read of the second walk succeeds, makes progress and stays in range |
| ProtobufFields.ProtobufValue | internal/logging/protobuf_fields.go:185-230 | the second walk, ignoring errors, computes `Lookup` at every nesting level |
| ProtobufFields.LookupExact | internal/logging/protobuf_fields.go:185-230 | a value is returned if and only if every message on the path encodes fields of which exactly one has the path's number, inner ones hold messages, and the last is a scalar of the kind within limits; and it is that value |
| ProtobufFields.ScalarOfSelected | internal/logging/protobuf_fields.go:232-264 | reading the scalar from the selected bytes agrees with the parsed payload |
| ProtobufFields.SignedDecodings | internal/logging/protobuf_fields.go:254-260 | two's complement and zigzag decoding are one-to-one onto the signed 64-bit integers |
| ProtobufFields.ProtobufCapture.constructor | internal/logging/protobuf_fields.go:94-100 | a new capture has seen nothing |
| ProtobufFields.ProtobufCapture.Observe | internal/logging/protobuf_fields.go:103-149 | the first message decides attributes and status, later ones change nothing |
| ProtobufFields.ObserveAll | internal/logging/protobuf_fields.go:103-149 | over a whole stream the capture is that of the first message |
| ProtobufFields.CaptureWithinBudget | internal/logging/protobuf_fields.go:128-144 | captured values stay within 16384 bytes, and nothing present is dropped if and only if everything fits |
| ProtobufFields.CapturedAreSelected | internal/logging/protobuf_fields.go:130-144 | every captured value is what its field's path selects in the message |
| ProtobufFields.CaptureExact | internal/logging/protobuf_fields.go:113-149 | nothing from a message that is too long or malformed; otherwise, field by field, what each path selects, unless it selects nothing or more than the fields before left of the budget; and the status says which |
| ProtobufFields.ScalarExact | internal/logging/protobuf_fields.go:232-264 | which value each kind yields: a text of 1 to 4096 well-formed bytes, a nonzero test, or the encoded 64-bit number |
| YamlAlias.Walk.ValidateJSONAliasYAML | internal/config/json_log_fields.go:83-111 | terminates on every graph, cyclic ones included, restores `visiting`, and reports the error `Validate` gives |
| YamlAlias.Walk.ValidateJSONMappingYAML | internal/config/json_log_fields.go:113-134 | walks the pairs in order with `visiting` restored after each |
| YamlAlias.Walk.ValidateYAMLString | internal/config/json_log_fields.go:136-153 | follows aliases to a string, restoring `visiting` |
| YamlAlias.TreeIsNoString | internal/config/json_log_fields.go:83-153 | no node is both an accepted mapping and a string |
| YamlAlias.AcceptedTree | internal/config/json_log_fields.go:83-111 | an accepted node unfolds to a tree with no more levels than there are unvisited nodes |
| YamlAlias.TreeAccepted | internal/config/json_log_fields.go:83-111 | a node that unfolds to a finite tree is accepted, shared subtrees included |
| YamlAlias.AcceptsExactlyTrees | internal/config/json_log_fields.go:83-153 | the walk accepts if and only if the graph unfolds from the root to a finite tree of string-to-string mappings with merges, sequences and nulls |
| TokenBuckets.TokenBucket.constructor | internal/ratelimit/token_bucket.go:24-34 | a new bucket is full |
| TokenBuckets.TokenBucket.Allow | internal/ratelimit/token_bucket.go:37-60 | refills, caps and pays in place exactly as `Draw`; without a positive rate everything is allowed and nothing changes |
| TokenBuckets.TokensWithinBurst | internal/ratelimit/token_bucket.go:46-57 | after every run the tokens lie between zero and burst |
| TokenBuckets.TokensAreTightestRoom | internal/ratelimit/token_bucket.go:46-57 | after every run the tokens are what the tightest window that ends now may still grant |
| TokenBuckets.WindowBound | internal/ratelimit/token_bucket.go:37-60 | in every window the grants are at most burst plus the refill of the window |
| TokenBuckets.AllowedIffEveryWindowFits | internal/ratelimit/token_bucket.go:37-60 | a call is denied if and only if granting it would break the bound of some window |
| ShadowPolicy.ShouldShadow | internal/grpcproxy/handler.go:291-322 | computes `Decide`, reasons and limiter state included |
| ShadowPolicy.TokenSpentIffUnforcedStart | internal/grpcproxy/handler.go:309-321 | a token is spent exactly on an unforced positive decision |
| ShadowPolicy.StartsAreGrants | internal/grpcproxy/handler.go:309-321 | over any run of RPCs the unforced starts are the limiter's grants |
| ShadowPolicy.UnforcedStartsBounded | internal/grpcproxy/handler.go:309-321 | in any window of T seconds at most burst + rate * T unforced shadows start |
| ShadowPolicy.DecisionExact | internal/grpcproxy/handler.go:291-322 | a shadow starts exactly if there are targets, no rule forbids it, and it is forced, or wanted by rule or draw with a token to be had; force does not override a `never` rule; each reason with its condition |
| ShadowPolicy.SampledShare | internal/grpcproxy/handler.go:343-357 | of the hundred draws exactly the configured percentage start a shadow |
| LogLimiter.CallerLogLimiter.Allow | internal/grpcproxy/caller_auth_errors.go:185-205 | one call in place equals the step on values |
| LogLimiter.EveryRejectionAccounted | internal/grpcproxy/caller_auth_errors.go:185-205 | over every run each rejection of a cause was logged, was reported as suppressed by a log, or waits for the next log |
| LogLimiter.LogsAreApart | internal/grpcproxy/caller_auth_errors.go:185-205 | two logs of one cause are at least ten seconds apart |
| LogLimiter.LoggedExact | internal/grpcproxy/caller_auth_errors.go:185-205 | a rejection is logged exactly if its cause has not been logged in the ten seconds before |

## Left out

- FlightGroup.IntrospectionFlights.FinishRun: runs the four deferred steps without interruption; their interleavings are the `Run` labels of the same module.
- ShadowPolicy.ShouldShadow: takes the force metadata, the rule's mode and the random draw as inputs; reading metadata and drawing numbers are not modelled.
- TokenBuckets.TokenBucket.Allow: rates and tokens are real numbers, so the rounding of `float64` is not modelled.
- IntrospectionCaching.RunIntrospectionFlight: one flight without other flights in between; the lemmas on `FlightMoves` cover every interleaving.
- GrpcProtocol.SameHashSameMessages: assumes an injective digest that is never the empty text; SHA-256 itself is an arbitrary function everywhere else.
- YamlAlias.Walk.ValidateJSONMappingYAML: requires pairs with non-nil keys, which the YAML parser produces; on other nodes the original would panic.
- ProtobufFields.ProtobufCapture.Observe: field keys are given as they are logged and the kind is one of the five the configuration accepts.
- Mutexes appear as the atomicity of the step they protect; memory-model questions are not modelled.
- Timeouts and cancellation are steps that may happen at any time; fairness and real durations are not modelled, nor is a Milter shadow event that never ends because no shadow timeout is configured.
- Network reads that fail or time out appear as the end of the byte stream; bytes buffered by the operating system are not modelled.
- Counters that are 64 bits wide (message numbers, message counts, request numbers) are unbounded here.
- Fetching introspection replies, bearer tokens, discovery, TLS and HTTP: a reply is an input.
- Spans, metrics, log formatting, durations and target addresses: no effect on the modelled state.
- Parsing JSON, YAML and HTTP, and the text by which JSON values are shown in a difference: parsed values are the inputs.
- Strict body comparison, empty bodies, header comparison and HTML similarity in `internal/compare`: one-function facts.
- Comparison of Milter replies in `internal/protocol/runner.go`: two equality tests on the decisions.
- Configuration defaults, routing rules, target pools, header overlays, sockets and process setup.
