# Verified model of the Teleport API client core

A Dafny model of the parts of `api/` where the difficulty is not in one function but in what
several goroutines, calls or passes do together, with proofs about every run or every input.

| file | models |
|---|---|
| `DialPlan.dfy`, `DialRace.dfy` | `connect`: the race of concurrent dial attempts, as a transition system with a program counter per goroutine |
| `InventoryStream.dfy`, `InventoryRuns.dfy` | the two ends of the inventory control stream over FIFO wires |
| `Breaker.dfy`, `BreakerRuns.dfy` | the circuit breaker object, and all runs of overlapping executions on it |
| `Paging.dfy`, `Upload.dfy` | paging with page halving, and the multipart upload |
| `IdentityFile.dfy`, `IdentityRoundTrip.dfy`, `IdentityLines.dfy` | the identity file printer and parser, their round trips, and what a file decodes to in terms of its lines |
| `WebSocket.dfy` | the byte stream over WebSocket frames |
| `Trail.dfy` | error trees to gRPC codes and back |
| `SshVersion.dfy` | the SSH client version string |
| `Names.dfy`, `AccessRequest.dfy` | access request normalisation and life cycle |
| `Options.dfy`, `Text.dfy`, `Counting.dfy` | optional values, string prefixes, sums and counts |

How the model is cut:

- A goroutine is a program counter in a state record, a send on an unbuffered channel is one step
  shared by sender and receiver, a method under a mutex is one step. A run is a sequence of enabled
  steps; "reachable" quantifies over all runs, so a statement about reachable states holds for every
  interleaving.
- Objects that the source updates in place (`CircuitBreaker`, the closable half of a stream, the
  WebSocket connection, `AccessRequestV3`) are classes whose methods are proved against functions on
  values, and the run theorems are about those functions.
- Dials, network reads and writes, the clock, jitter and the servers are arbitrary: they appear as
  step parameters, as functions the environment chooses, or as arguments.

Where code and comment disagree the model follows the code:

- `connect` says that "no connection methods found" is never reached with a validated configuration.
  It is: when the parent context is cancelled, attempts that succeeded close their clients and leave
  no error behind. `DialRace.NoMethodsReachable` gives the exact condition on the configuration, and
  shows that the message is the one for a configuration that did give a dialer or an address.
- `ConsecutiveFailureTripper(max)` bounds the failures in a row only while its 32-bit counter can
  exceed `max`; `BreakerRuns.ConsecutiveBound` shows that the bound holds on all runs exactly for
  `max < 2^32 - 1`.
- `RatioTripper` is said to trip when the ratio is greater than the given one; it also trips when they
  are equal, as `BreakerRuns.RatioTripsIff` states.
- `traverseErr` does not traverse the whole chain: `errors.As` takes it from an aggregate straight to
  what the first wrapping error below it wraps. `Trail.TraverseIsFirstVisit` says which errors are
  looked at, `Trail.SiblingPassedOver` shows one that is not, and `Trail.VisitsAllIff` and
  `Trail.TraversesAllIff` give the exact condition on the tree: single wrappings down to a tree in
  which nothing wraps a single error.
- The list loops promise the complete list, but return a short one as a success exactly when one of
  their requests is answered by an empty page before the end of the list. The requests are determined
  by the server and the first of them (`Paging.OneRun`); `Paging.WholeListIff` and the contracts of
  the loops state the condition, and `Paging.EmptyPageEndsList` shows a server that meets it.

## Model

| member | source | states |
|---|---|---|
| `DialPlan.EmptyPlan` | api/client/client.go:312-368 | the spawner has nothing to do exactly when every credential neither fails nor offers a dialer, an address or a default address; a configuration with a credential and a dialer or an address always has something to try |
| `DialPlan.AllCombinations` | api/client/client.go:312-368 | for each credential, method and address the number of attempts: one with the dialer, one per mention of the address as an auth server, and as many in each of the four other ways with an SSH configuration; none with a credential that fails |
| `DialPlan.PlanFromReports` | api/client/client.go:313-347 | the spawner sends no error of its own exactly when no credential fails to give its TLS, SSH or default-address configuration |
| `DialPlan.ReportsAreFailures` | api/client/client.go:313-347 | the errors the spawner sends are, for every kind of error, those with which the credentials fail, one each, the first of TLS, SSH and default addresses |
| `DialRace.NoSendOnClosedChannel` | api/client/client.go:280-307 | in every reachable state the WaitGroup equals the live workers plus the live spawner, and once `errChan` is closed nobody is at a send on it |
| `DialRace.NobodyStuck` | api/client/client.go:277-411 | every run has at most 4n + 8 steps for n planned actions, and a run no goroutine can continue has every goroutine finished: no interleaving blocks or leaks one |
| `DialRace.NoLeakedClient` | api/client/client.go:292-307 | when all goroutines are done, each established client is either the one returned or closed, never both and never neither |
| `DialRace.ClientIffSuccess` | api/client/client.go:378-411 | without a cancelled parent, `connect` returns a client exactly when some attempt succeeded, and "no connection methods" exactly when there was nothing to try |
| `DialRace.OneErrorEach` | api/client/client.go:387-411 | a failure carries exactly the errors of the broken credentials and of the failed attempts, counted for every kind of error; without cancellation there is one per planned action |
| `DialRace.ErrorsOfRun` | api/client/client.go:280-411 | on every run that ends without a client, the errors returned are, for every kind of error, those of the failing credentials of the configuration and those of the dials that failed in the run |
| `DialRace.CancellationReported` | api/client/client.go:407-410 | if the parent is cancelled before the errors are added up, a failure also carries the context's error, whatever happens afterwards |
| `DialRace.NoMethodsReachable` | api/client/client.go:398-406 | some run ends in "no connection methods found" if and only if no credential is broken, and that message asks for a dialer or address exactly if none was given |
| `InventoryStream.WrapUnwrap` | api/client/inventory.go:306-363 | for each direction, oneof wrapping and unwrapping are inverse to each other |
| `InventoryStream.Closable.CloseWithError` | api/client/inventory.go:418-433 | the first close sets the error, EOF for none, and closes the done channel; later closes change nothing |
| `InventoryRuns.DeliveredIsPrefix` | api/client/inventory.go:293-379 | in both directions the delivered messages are a prefix, in order, of the messages the peer's send loop put on the wire, and no call is on the wire twice |
| `InventoryRuns.SendResultTruthful` | api/client/inventory.go:381-404 | success means on the wire exactly once; "not sent" and an unknown message type mean never on the wire |
| `InventoryRuns.ExactlyOneReply` | api/client/inventory.go:330-379 | a call handed to the send loop has exactly one reply unless the loop is working on it, and the loop can always reply at once |
| `InventoryRuns.SendNeverStuck` | api/client/inventory.go:330-404 | in every reachable state a waiting call can take its reply or the loop is at work on it and can go on; one not yet handed over can be, or sees the closed stream, or the loop is busy and can go on; a woken one can read the error |
| `InventoryRuns.ClosedOnce` | api/client/inventory.go:397-439 | the done channel is closed at most once and exactly when an error is set, so the "externally closed" answer is never given |
| `InventoryRuns.ClosedErrorReported` | api/client/inventory.go:397-404 | a refused `Send` returns the very error the stream is closed with, and a loop that has left has closed the stream |
| `InventoryRuns.FirstCloseSets` | api/client/inventory.go:414-433 | after a close of an open stream the error is, for good, the one given or EOF for none |
| `InventoryRuns.ErrorsHaveCauses` | api/client/inventory.go:293-404 | no error is made up: what holds of the errors closed with, received and written in a run holds of the error stored, and calls fail with write errors only, or with "bad parameter" for a message without a place on the wire |
| `InventoryRuns.FailedWriteIsLast` | api/client/inventory.go:364-373 | after a failed write the send loop writes nothing more and leaves |
| `InventoryRuns.CancelledNeverSent` | api/client/inventory.go:381-384 | a `Send` whose context is already cancelled never reaches the wire |
| `InventoryRuns.ReturnedForGood` | api/client/inventory.go:381-404 | what a `Send` has returned stays, on every run |
| `InventoryRuns.WireIsWritten` | api/client/inventory.go:362-366 | the wire holds one frame for each write that reached it |
| `InventoryRuns.FirstErrorSticks` | api/client/inventory.go:599-619 | from any state with an error, no run changes that error |
| `Breaker.CircuitBreaker.constructor` | api/breaker/breaker.go:301-310 | a new breaker is in its first generation, in standby, with an expiry one interval away |
| `Breaker.CircuitBreaker.AdvanceGeneration` | api/breaker/breaker.go:440-452 | counters cleared, generation advanced, expiry set by the state |
| `Breaker.CircuitBreaker.ChangeState` | api/breaker/breaker.go:417-424 | a different state opens a generation, the same state changes nothing |
| `Breaker.CircuitBreaker.Refresh` | api/breaker/breaker.go:427-436 | an expired trip starts recovery, an expired standby interval the next generation |
| `Breaker.CircuitBreaker.BeforeExecution` | api/breaker/breaker.go:336-356 | a call is rejected exactly when the refreshed state is tripped, else counted and given the generation as token |
| `Breaker.CircuitBreaker.AfterExecution` | api/breaker/breaker.go:360-376 | an outcome is counted only if its token is the refreshed generation |
| `Breaker.CircuitBreaker.CountSuccess` | api/breaker/breaker.go:380-393 | enough successes in a row end recovery and launch the standby callback |
| `Breaker.CircuitBreaker.CountFailure` | api/breaker/breaker.go:397-413 | the trip function of the state decides whether the breaker trips; only a trip from standby launches the callback |
| `BreakerRuns.StepIsMethod` | api/breaker/breaker.go:321-332 | the steps of the runs below are exactly the two halves of `Execute` |
| `BreakerRuns.Conservation` | api/breaker/breaker.go:51-75 | in every reachable state executions = successes + failures + in flight for the current generation, modulo the counter width; the consecutive counters are the runs that end the outcome history; nothing is in flight while tripped |
| `BreakerRuns.ConservationExact` | api/breaker/breaker.go:51-75 | the same without the modulus until a generation holds 2^32 executions |
| `BreakerRuns.StandbyWindow` | api/breaker/breaker.go:427-452 | in standby the times of all outcomes counted in the current generation fall into one interval |
| `BreakerRuns.LateCompletionIgnored` | api/breaker/breaker.go:366-369 | an execution that ends in a later generation has no effect beyond the clock reading |
| `BreakerRuns.NoAdmissionWhileTripped` | api/breaker/breaker.go:336-356 | on every run, a call is admitted only strictly later than the tripped period after every earlier trip |
| `BreakerRuns.AdmittedIff` | api/breaker/breaker.go:336-356 | a call is rejected exactly while tripped and not later than the tripped period after the last trip; the first one after it starts the recovery |
| `BreakerRuns.OnlyLegalMoves` | api/breaker/breaker.go:397-452 | an event changes the state at most once, along one of four edges, and each change opens the next generation |
| `BreakerRuns.CallbacksBalance` | api/breaker/breaker.go:380-413 | trips announced minus recoveries announced is 0 in standby and 1 otherwise |
| `BreakerRuns.DefaultThresholds` | api/breaker/breaker.go:218-226 | by default leaving standby takes 9 counted failures in a generation, tripping again 2, returning to standby 3 successes in a row |
| `BreakerRuns.RatioTripsIff` | api/breaker/breaker.go:166-178 | a counted failure trips a ratio breaker exactly if, with it, the generation has the minimum of executions and the ratio of failures |
| `BreakerRuns.DefaultTripsIff` | api/breaker/breaker.go:218-226 | by default exactly at nine tenths of at least ten executions in standby, and at nine twentieths of at least three in recovery |
| `BreakerRuns.Validated` | api/breaker/breaker.go:237-261 | validation fails exactly for a missing part, keeps what is given and fills in the rest |
| `BreakerRuns.RecoveryEnds` | api/breaker/breaker.go:380-393 | on every run a counted success ends a recovery exactly if it is the `recoveryLimit`-th in a row |
| `BreakerRuns.ConsecutiveBound` | api/breaker/breaker.go:182-186 | standby holds at most `max` failures in a row on every run if and only if `max` is below the largest 32-bit value |
| `Paging.GetResourcePage` | api/client/client.go:5045-5114 | every request but the last was rejected and is repeated at half the limit; the last reply decides the answer, converted; no more rejections than the limit has halvings, and never "too large" if single items fit |
| `Paging.OneRun` | api/client/client.go:5160-5195 | the server and the first request determine all requests of a run |
| `Paging.LimitPersists` | api/client/client.go:5118-5195 | on every run, the rejections before a request and the halvings its limit still allows add up to the halvings of the first limit: each rejection halves, and nothing raises the limit again |
| `Paging.RejectionsBound` | api/client/client.go:5160-5195 | a run receives at most as many "limit exceeded" replies as its first limit has halvings, and one more only to give up on a single item |
| `Paging.WholeListIff` | api/client/client.go:5160-5195 | the pages of a run make up the beginning of the list, and the whole of it exactly if no request was answered by an empty page before the end |
| `Paging.EmptyPageEndsList` | api/client/client.go:5188-5190 | against a server that sends an empty page with a next key, a list of one item comes back empty as a success |
| `Paging.GetAllResources` | api/client/client.go:5118-5139 | the requests form one run over all pages; a success is the conversion of what they brought, which is the whole list exactly if no page was empty before the end; "bad resource" exactly if an item received does not convert; at most 9 "limit exceeded" replies without giving up; success if single items fit, the server does not fail and all items convert |
| `Paging.ListInChunks` | api/client/client.go:5160-5195 | the requests are the whole run from the first one and the answer is that of its last reply; a success is the whole list exactly if no page was empty before the end; "limit exceeded" replies bounded by the halvings of any starting size |
| `Paging.GetResourcesWithFilters` | api/client/client.go:5152-5196 | the same from the beginning of the list, with at most 9 "limit exceeded" replies without giving up |
| `Paging.GetKubernetesResourcesWithFilters` | api/client/client.go:5200-5244 | the same from the start key on, with at most 31 for any 32-bit limit |
| `Upload.UploadEncryptedRecording` | api/client/client.go:2993-3048 | the requests made are a prefix of create, parts 1..n in order with only part n marked last, complete with their n results; completion happens exactly if no part is broken or rejected; a broken part also holds back the one before it; a failure is that of the call or part at which the run stopped |
| `Upload.UploadsInOrder` | api/client/client.go:3012-3036 | each upload carries its own part and number from 1 on, only the last part is marked, and results are listed in order |
| `IdentityFile.EncodeIdentityFile` | api/identityfile/identityfile.go:206-244 | the buffer holds the components in order, each ended by a newline |
| `IdentityFile.CollectBlock` | api/identityfile/identityfile.go:281-299 | the inner loop carries the fold over lines to the end of the block, or fails for the right reason |
| `IdentityFile.DecodeIdentityFile` | api/identityfile/identityfile.go:248-316 | the nested loops compute the fold of one-line steps |
| `IdentityLines.TrimExact` | api/identityfile/identityfile.go:256-263 | trimming removes all white space at both ends of a line and nothing else |
| `IdentityLines.CertTypeShape` | api/identityfile/identityfile.go:319-322 | a certificate type is a name of lower-case letters, digits and dashes followed by -cert-vNN@openssh.com |
| `IdentityLines.KindExact` | api/identityfile/identityfile.go:273-292 | a line is an SSH certificate exactly if its first word is a certificate type, an authority or the start of a block exactly if it starts with the literal mark; the marks exclude each other |
| `IdentityLines.DecodeFile` | api/identityfile/identityfile.go:248-316 | every file of well-formed lines and blocks decodes to its first block as key, its second as TLS certificate, the others as TLS authorities, its last SSH certificate and all SSH authorities |
| `IdentityLines.FragmentFails` | api/identityfile/identityfile.go:292-299 | a block without its end is an error, whatever precedes it |
| `IdentityLines.FinalNewlineOptional` | api/identityfile/identityfile.go:256-263 | the newline at the end of a file makes no difference |
| `IdentityLines.CertLineDecodes` | api/identityfile/identityfile.go:273-276 | a line of a certificate type, a blank and more decodes to the SSH certificate |
| `IdentityLines.NewlineAdded` | api/identityfile/identityfile.go:235-244 | the printer ends every component with a newline, adding it exactly where it is missing |
| `IdentityRoundTrip.DecodedIsCanonical` | api/identityfile/identityfile.go:273-310 | whatever decodes has only absent or well-formed components, filled in the order key, certificate, authorities |
| `IdentityRoundTrip.RoundTrip` | api/identityfile/identityfile.go:206-316 | every such identity decodes from its encoding |
| `IdentityRoundTrip.DecodeEncodeDecode` | api/identityfile/identityfile.go:206-316 | decode after encode after decode is decode, for every text; the canonical identities are exactly the decodable ones |
| `WebSocket.Conn.Read` | api/client/alpn_websocket.go:104-135 | one read returns the bytes, error and new stream given by the specification and leaves the rest of the caller's array alone |
| `WebSocket.Conn.Write` | api/client/alpn_websocket.go:137-140 | one masked binary frame with the bytes, or none on failure; the length is reported in either case |
| `WebSocket.Conn.WriteFrame` | api/client/alpn_websocket.go:142-152 | the frame goes out masked, or the failure is reported |
| `WebSocket.ReadOnceConserves` | api/client/alpn_websocket.go:104-135 | one read conserves bytes, frames and pongs, never returns zero bytes without an error for a non-empty buffer, and its status is exact: no error if there was data, EOF if and only if a close frame was consumed, a read error only at the end of the connection, a write error only for an unanswered ping |
| `WebSocket.CallsConserve` | api/client/alpn_websocket.go:96-152 | for all series of reads and writes, all arriving frames and all choices of failing writes: bytes returned plus bytes held are the consumed binary payloads, the payloads that went out are the chunks written without an error, in order, and pongs are the consumed pings |
| `WebSocket.EveryFrameMasked` | api/client/alpn_websocket.go:142-152 | whatever is called, every frame that goes out is masked |
| `WebSocket.BytesArriveInOrder` | api/client/alpn_websocket.go:96-152 | the bytes read at one end are a prefix of the chunks written at the other, and all of them once everything has arrived and been consumed |
| `Trail.TraverseIsFirstVisit` | api/trail/trail.go:231-264 | for every tree and every function, the traversal returns the first match among the visited errors |
| `Trail.VisitsAllIff` | api/trail/trail.go:231-264 | the traversal looks at every error of the tree if and only if the tree is a chain of single wrappings down to a tree without any |
| `Trail.TraversesAllIff` | api/trail/trail.go:231-264 | exactly on such trees the traversal returns, for every function, its first match in the order of `errors.As` |
| `Trail.HighestClassWins` | api/trail/trail.go:74-135 | without EOF, status or a not-exist root, the code is that of the highest-priority class anywhere in the tree, and the receiver gets that class back |
| `Trail.DescentAddsOnlyNotExist` | api/trail/trail.go:74-135 | without a class in the tree the code is NotFound exactly if a visited error is os not-exist, else Unknown |
| `Trail.ChainFindsNotExist` | api/trail/trail.go:74-135 | without a class and on a chain the code is NotFound exactly if any error of the whole tree is os not-exist |
| `Trail.SiblingPassedOver` | api/trail/trail.go:251-261 | a not-exist error beside a wrapped error in an aggregate is not visited, and the code is Unknown |
| `Trail.StatusAndEofKept` | api/trail/trail.go:66-87 | a status or EOF anywhere leaves the error as it is, and the receiver reads that status; the traversal itself never meets a status |
| `Trail.NotExistFirst` | api/trail/trail.go:85-89 | a root that is os not-exist makes the code NotFound whatever classes are in the tree |
| `Trail.Arrives` | api/trail/trail.go:61-170 | no error arrives as none; Unknown and EOF arrive unchanged; a status arrives as the first status of the tree says |
| `Trail.CodesExact` | api/trail/trail.go:139-170 | a code arrives as a class exactly if it is the code of that class, as nothing exactly if it is OK, and otherwise unchanged |
| `Trail.CodeRoundTrip` | api/trail/trail.go:139-170 | each class comes back from its code, OAuth2 as BadParameter |
| `SshVersion.RoundTrip` | api/ssh/client.go:53-132 | parsing what was printed gives back version and features if and only if all features are printable and comma-free and the list is not one empty string |
| `SshVersion.FeatureDecided` | api/ssh/client.go:136-143 | the printed form answers for every feature whether it is in the list if and only if the list survives the round trip |
| `SshVersion.ParseOutcomes` | api/ssh/client.go:84-132 | which inputs are refused for which of four reasons |
| `SshVersion.ParsedWasPrinted` | api/ssh/client.go:84-132 | whatever parses is the printed form of its version and features, up to a trailing space |
| `Names.Deduplicate` | api/utils/slices.go:50-63 | each element once, in the order of first occurrences |
| `Names.LessIsLexicographic` | api/types/access_request.go:535 | the order of names is the lexicographic order of their bytes |
| `Names.NormalFacts` | api/types/access_request.go:533-535 | the normal form is strictly ordered with the same elements, and a list is its own normal form exactly if it is strictly ordered |
| `AccessRequest.AccessRequestV3.SetState` | api/types/access_request.go:296-303 | fails exactly if a resolved request is asked for another state |
| `AccessRequest.AccessRequestV3.CheckAndSetDefaults` | api/types/access_request.go:497-548 | gives the first problem in order, and the normalised request or the defaults set before the problem |
| `AccessRequest.AccessRequestV3.CheckMetadata` | api/types/resource.go:527-558 | name, namespace, label keys and origin are checked in this order; the namespace default and the expiry in UTC are set before a label is complained about |
| `AccessRequest.AccessRequestV3.GetOriginalRoles` | api/types/access_request.go:385-401 | for an ordered choice of the threshold keys the answer is the sorted keys, also through the shortcut that compares lengths only |
| `AccessRequest.AccessRequestV3.GetRequestedResourceIDs` | api/types/access_request.go:611-619 | all resource IDs but sentinels |
| `AccessRequest.AccessRequestV3.GetAllRequestedResourceIDs` | api/types/access_request.go:643-657 | the same wrapped, followed by the constrained ones |
| `AccessRequest.CheckExact` | api/types/access_request.go:497-531 | a request passes exactly if none of eight problems is there, and otherwise the first of them is reported |
| `AccessRequest.NormalisedFields` | api/types/access_request.go:497-548 | after passing, a request without a state is pending and any other keeps its state; roles are ordered and the same; resources are the same or the sentinel alone; the expiry is the same instant; all else is unchanged |
| `AccessRequest.RejectedFields` | api/types/access_request.go:497-531 | after failing, roles and resources are as they were and an open request is still open |
| `AccessRequest.RealOne` | api/types/access_request.go:611-619 | resource IDs are filtered one by one and in order |
| `AccessRequest.SentinelFields` | api/types/resource_ids.go:373-377 | what is dropped has cluster, kind and name of the sentinel |
| `AccessRequest.WrappedIsReal` | api/types/access_request.go:643-651 | the wrapped IDs are the real ones, each without constraints |
| `AccessRequest.SentinelInvisible` | api/types/access_request.go:537-545 | both getters see the same resources before and after normalisation |
| `AccessRequest.CheckIdempotent` | api/types/access_request.go:497-548 | a request that passed passes again unchanged |
| `AccessRequest.FirstResolvedWins` | api/types/access_request.go:296-303 | over any series of calls the first resolved state is the final one |

## Left out

- Breaker generations are unbounded numbers; wrap-around after 2^64 generations is not modelled.
- Breaker ratios are computed over the reals; float rounding is not modelled.
- `NewNoop` builds a breaker without a clock, which `beforeExecution` would read; only breakers made by `New` are modelled, and `OnExecute` is left out.
- A failing `CheckAndSetDefaults` of a breaker configuration says only that it fails, not which field is missing.
- DialRace: `wg.Add` and the `go` statement after it are one step, and so are a `Close` of a client and the branch that leads to it.
- The in-memory pipe variant of the inventory stream is left out; it is a rendezvous without loops.
- The gRPC cancellation that closing an agent's stream triggers appears only as a receive or send error, which may happen at any time.
- Typed nil messages, which a proto oneof cannot tell from an unset field, are not modelled.
- Identity file texts are bytes with ASCII white space; Unicode white space at the ends of a line is treated as text.
- `Read`, `ReadFile` and `FromString` of an identity file, and permissions of the file, are left out.
- A WebSocket frame is written wholly or not at all, and calls are one after the other: a `Write` between two frames of an unfinished `Read` is not modelled.
- WebSocket fragmentation, the handshake and unmasking are left out; text and continuation frames are passed over as in the code.
- `GetAllUnifiedResources`, `GetUnifiedResourcePage` and `GetEnrichedResourcePage` repeat the loops of `GetAllResources` and `GetResourcePage` with other conversions and are not modelled again.
- `ListAllIntegrations` (api/client/client.go:5702-5715) never sends the next key it receives, so the completeness of the other loops does not hold for it.
- Error messages, stack traces and debug metadata of trail are left out, and so are error types with their own `Is` or `As` methods.
- Which of several invalid label keys of an access request is complained about is not modelled; thresholds are names only, and reviews, filters and the request's own times are left out.
- TLS, SSH and gRPC handshakes, credential loading and the one-call gRPC wrappers are left out.
