# WireAgent's owner runtime, modelled and proved

WireAgent lets one process at a time own a browser and a state directory (a "domain"). This
project models the protocols that make that safe and proves what they promise, over every
interleaving of the threads, tasks and processes involved, with every foreign call allowed to
fail or raise.

Two forms appear side by side. A *machine* (a value, a step function, a run) is used where
threads or tasks interleave; its invariant is proved for every step and every run. A *class*
is used where an object's methods change its fields between two scheduling points; its methods
are proved equal to the functions the machine is made of, and keep the machine's invariant, so
what is proved of the machine is proved of the object. Beside what every run keeps stands what
each operation comes to: when it works, what it then leaves, and what a failure leaves instead.

| files | what they cover |
|---|---|
| `OwnerLock`, `OwnerSystem`, `OwnerProgress`, `OwnerUndo` | the owner lock, one event per statement; processes, descriptors, forks; what one acquire or release comes to |
| `Session`, `SessionObject`, `SessionRuns` | the session fence: lifecycle, admission count, single-flight revocation |
| `Dispatcher`, `DispatcherProgress`, `DispatcherObject`, `Offline` | start, failed-start teardown, stop, and the offline recovery owner |
| `RequestTable`, `TableObject`, `Gate`, `Pipeline`, `PipelineOutcomes` | the retained request table and the request pipeline in front of it |
| `Media`, `MediaObject` | the content-addressed media registry |
| `Lease`, `LeaseObject` | the browser lease shared by leased writers and readers |
| `Sets`, `Wrappers` | shared helpers |
| `Bytes`, `Framing`, `Transport`, `Acceptor` | length-prefixed frames over partial I/O; listener and handlers |
| `Json`, `Protocol`, `Projection`, `Ladder` | canonical text, request schemas and identity, bounded failure frames |

## What turned out not to hold as written

Each of these is in the model as the code has it, with the exact condition proved.

- An exception that is not an asynchronous one (an `OSError`, say, raised by a signal handler)
  between the kernel's return and the publication of the descriptor leaks the descriptor; an
  asynchronous one makes the process exit (`OwnerLock.HiddenWindowExact`). All other results
  about the lock assume that one interruption away, as `Discoverable`.
- `held` is still true between the kernel close and the clearing of the field, when the domain
  is already free. Ownership is exclusive outside that window (`OwnerSystem.ExclusiveOverRuns`,
  `OwnerSystem.CloseWindowIsUnlocked`).
- A failed-start teardown that stops short of TERMINAL leaves a session that no later `stop()`
  can end: `terminalize()` refuses a STARTING session (`Dispatcher.TeardownSticks`,
  `Dispatcher.StuckForever`). Likewise a `close()` of the offline owner after a drain timeout
  (`Offline.TimeoutSticks`, `Offline.StuckForever`). Both keep the lock: safe, no progress.
- The validator raises something its callers do not catch exactly on an object of known fields
  whose first faulty field is text with a surrogate, or an integer out of the range of a float
  (`Protocol.EscapesExactly`, `Protocol.FieldEscapes`; inputs in `Protocol.EscapingRequests`).
  `process_request` then raises exactly when such a payload comes with a supported operation, in
  this protocol and for this build (`Gate.RaisedExactly`).
- The 512 bound of the failure projection does not bound redaction markers, which carry a type
  name; it holds for names of at most 501 characters (`Projection.RedactionExact`).
- The bounded copy and the bounded digest may read a whole 64 KiB chunk past the ceiling, where
  their comments say one byte; a file that fills every read does (`MediaObject.OverreadsByAChunk`).
- A handler thread that cannot be started ends the listener and keeps its slot and connection;
  nothing else loses a slot (`Acceptor.LostExactly`). After `stop()` has swept, a connection is
  tracked again exactly when the listener was inside `accept()` or held one it had yet to track
  (`Acceptor.NothingLateExactly`; a run from the start in `Acceptor.OneCanBeLate`).
- A composer close that fails keeps the browser's lease, on purpose; it has dropped its token
  except in the clean-up after a kill (`Lease.FailedCloseKeepsLease`).

The identity of a request is exact for everything that comes off the wire, because the decoder
joins surrogate pairs (`Json.DecodedIsWhole`, `Protocol.IdentityExact`). The printer alone does
not tell a pair from the character it encodes (`Json.SplitPairCollides`).

## Assumptions

SHA-256 is an injective tag. A minted artifact ref never repeats a live one (128 random bits).
A descriptor the kernel returns is not in use. Integers of more than 4300 decimal digits do not
encode (the runtime's default limit). At most one interruption lands in a handler that only
sets a flag. Owner tasks are not cancelled from outside; waiting invocations are. One event loop
runs the requests, so between two suspensions of a request no other one acts.

## Model

| member | source | states |
|---|---|---|
| OwnerLock.StepOk | src/webwire/authority.py:144-477 | every statement of acquire, rollback, close and release, ending in success, a kernel error or an exception, keeps: slot held while anything is open or flagged, fork gate held exactly inside its blocks, published descriptors as the statement allows |
| OwnerLock.GateFreeAccounting | src/webwire/authority.py:144-182 | with the fork gate free, each open lock-file descriptor is named by its owner or the owner is flagged, and each integer an unflagged owner publishes is live and its own |
| OwnerLock.SlotLossIsClean | src/webwire/authority.py:303-357 | a registry slot is freed only by its own owner, with none of its descriptors open, never by a broken owner |
| OwnerLock.BrokenStays | src/webwire/authority.py:267-301 | no statement mends a broken owner or lets it touch a table |
| OwnerLock.VerifyNeverBreaks | src/webwire/authority.py:303-357 | the rollback's check for a still-published descriptor never fires |
| OwnerLock.HiddenWindowExact | src/webwire/authority.py:359-439 | in the window between kernel open and publication an asynchronous exception ends the process and any other leaks the descriptor |
| OwnerProgress.AcquireHolds | src/webwire/authority.py:359-439 | an acquire nothing interferes with ends held, with one descriptor more and the slot taken, and nothing else changed |
| OwnerProgress.ReleaseUndoes | src/webwire/authority.py:441-477 | release restores the descriptor table and the registry to what they were before acquire |
| OwnerUndo.CallStartsExactly | src/webwire/authority.py:359-477 | acquire starts exactly on an owner with nothing held or pending, release exactly on one this process holds, neither on a flagged one; any other call changes nothing |
| OwnerUndo.FailedAcquireIsUndone | src/webwire/authority.py:303-439 | an acquire that fails or is interrupted at any one statement outside the window around the open ends at rest over the same descriptors, registry and other owners, within twelve statements, ready to try again |
| OwnerUndo.KernelFailuresAreUndone | src/webwire/authority.py:359-439 | so does one whose mkdir, open, harden or lock request the kernel refuses, the contended lock included |
| OwnerUndo.BusySlotIsRefused | src/webwire/authority.py:359-439 | a domain reserved by another owner object refuses the acquire, and the slot stays the other owner's |
| OwnerUndo.FailedReleaseExactly | src/webwire/authority.py:441-477 | a release that fails at any one statement leaves the domain held, or the owner flagged with its slot, or the release done, each by the statement |
| OwnerSystem.StepSysOk | src/webwire/authority.py:485-571 | no event of any process, fork and child clean-up included, breaks the system invariant |
| OwnerSystem.RunSysOk | src/webwire/authority.py:485-571 | the invariant holds after every run of any number of processes |
| OwnerSystem.OwnersRun | src/webwire/authority.py:92-142 | a new owner object starts at rest, and its calls and statements are the owner lock's with the kernel's answers |
| OwnerSystem.AccountingOverRuns | src/webwire/authority.py:144-182 | the descriptor accounting holds in every process after every run of any number of interpreters, started independently or by fork |
| OwnerSystem.BrokenKeepsSlot | src/webwire/authority.py:267-301 | in every run, an owner broken at some point is broken and has its slot through all that follows, until its process is gone |
| OwnerSystem.HeldMeansLocked | src/webwire/authority.py:117-125 | a held owner's descriptor is the one that has the domain's lock, outside the close window |
| OwnerSystem.ExclusiveOverRuns | src/webwire/authority.py:127-142 | in every run of any number of interpreters at most one owner object anywhere holds a domain, outside the close window |
| OwnerSystem.CloseWindowIsUnlocked | src/webwire/authority.py:267-301 | inside that window an owner reports held while the domain is free |
| OwnerSystem.LockRequestExactly | src/webwire/authority.py:394-399 | a lock request is granted exactly if no other description has the lock, and is busy otherwise |
| OwnerSystem.DeathFrees | src/webwire/authority.py:117-142 | the exit of a process frees every lock only it referred to |
| OwnerSystem.HookFdsExact | src/webwire/authority.py:517-571 | when the fork hook does not exit, the descriptors it lists are exactly the inherited lock files |
| OwnerSystem.ForkedChildExact | src/webwire/authority.py:485-571 | a forked child exits at once exactly when an owner of the parent is flagged, and otherwise starts with exactly the inherited lock files to close |
| OwnerSystem.DetachIsSelective | src/webwire/authority.py:517-571 | a child's close removes that descriptor only, and the parent's lock survives it |
| OwnerSystem.DetachedChildOwnsNothing | src/webwire/authority.py:517-571 | the child ends with an empty registry, no lock file and no held owner |
| OwnerSystem.ChildComesUp | src/webwire/authority.py:517-571 | a child none of whose closes fails comes up without the inherited lock files, with every other descriptor, and no other process is touched |
| OwnerSystem.CloseInherited | src/webwire/authority.py:517-571 | the child's loop closes each inherited descriptor once and no other, or exits at the first that fails |
| Session.RevokeExact | src/webwire/authority_session.py:203-272 | revocation alone: refused exactly on an unrevoked READY session with no effect, complete exactly when no open obligation raises |
| Session.QuietPassCompletes | src/webwire/authority_session.py:203-272 | a pass in which nothing raises leaves revocation complete |
| SessionObject.AuthoritySession.RegisterRevoker | src/webwire/authority_session.py:182-201 | accepted exactly before completion, and then it is among the revokers a revocation must still call |
| SessionObject.AuthoritySession.Revoke | src/webwire/authority_session.py:203-272 | the loop computes the revocation function |
| SessionObject.AuthoritySession.RunPass | src/webwire/authority_session.py:244-268 | pending revokers are called in order, each success recorded, up to the first that raises |
| SessionRuns.StepOk | src/webwire/authority_session.py:149-361 | no critical section of any thread breaks the session invariant |
| SessionRuns.LawHolds | src/webwire/authority_session.py:203-326 | in every interleaving: READY means revocation never started, one runner at a time, no succeeded revoker runs again, completion means all succeeded, TERMINAL means completion |
| SessionRuns.NeverBack | src/webwire/authority_session.py:203-326 | TERMINAL, completion, the start of revocation and each success are permanent |
| SessionRuns.PassProgress | src/webwire/authority_session.py:203-272 | the running pass advances at each of its steps and, if nothing raises, ends complete |
| SessionRuns.OthersLeavePassAlone | src/webwire/authority_session.py:203-272 | no other thread moves a running pass |
| SessionRuns.PassCompletes | src/webwire/authority_session.py:203-272 | over any interleaving, a pass none of whose calls raises completes revocation once its thread has had as many steps as it had left |
| SessionRuns.CompleteEndsLoop | src/webwire/authority_session.py:203-272 | with revocation complete the loop returns without calling anything |
| SessionRuns.CallsExactly | src/webwire/authority_session.py:149-201 | what activate, begin_drain, register_revoker, admit and leave do, and exactly when each is refused |
| SessionRuns.TerminationBegins | src/webwire/authority_session.py:274-326 | a lone caller of terminalize or abort_from_starting, its session in the legal state, is on its way after one step |
| SessionRuns.TerminalIsReached | src/webwire/authority_session.py:274-326 | from DRAINING or STARTING such a caller reaches TERMINAL over any interleaving, once it has had its steps and no revoker it called raised |
| RequestTable.ClassifyValid | src/webwire/authority_ipc_request_table.py:103-130 | classification keeps both maps disjoint and within their limits |
| RequestTable.CompleteValid | src/webwire/authority_ipc_request_table.py:140-151 | completion keeps both maps disjoint and within their limits |
| RequestTable.ClassifyRefines | src/webwire/authority_ipc_request_table.py:103-130 | classification is the unbounded table's, except a refusal of an unknown id at saturation |
| RequestTable.CompleteRefines | src/webwire/authority_ipc_request_table.py:140-151 | completion is the unbounded table's, except that one answered id may be forgotten |
| RequestTable.AbandonRefines | src/webwire/authority_ipc_request_table.py:153-161 | abandonment is the unbounded table's |
| RequestTable.JoinersGetTheResponse | src/webwire/authority_ipc_request_table.py:103-151 | who joined an id is resolved with the one response its completion is given, through any run between join and completion that does not abandon the id, and for good |
| RequestTable.JoinersSeeTheFailure | src/webwire/authority_ipc_request_table.py:153-161 | who joined an id whose work raised sees it fail, through any run in between and for good, and the id is unknown again |
| RequestTable.EveryAnswerPermitted | src/webwire/authority_ipc_request_table.py:103-161 | after any history the answer is the unbounded table's, or "full" at saturation, or "new" for an evicted id |
| RequestTable.InflightPinned | src/webwire/authority_ipc_request_table.py:140-161 | only its own completion or abandonment removes an in-flight entry |
| RequestTable.RetentionExact | src/webwire/authority_ipc_request_table.py:114-151 | an answer is evicted exactly when the distinct other ids used since its own last use reach the limit |
| TableObject.RetainedRequestTable.Classify | src/webwire/authority_ipc_request_table.py:103-130 | the method is the function, on the object's own maps |
| RequestTable.PinKeepsAnswers | src/webwire/authority_ipc_request_table.py:132-138 | attaching the owner task to its entry changes no answer of the table |
| TableObject.RetainedRequestTable.Complete | src/webwire/authority_ipc_request_table.py:140-151 | entry moved to the completed map, oldest pushed out at the limit, future resolved |
| TableObject.RetainedRequestTable.Abandon | src/webwire/authority_ipc_request_table.py:153-161 | entry removed, future failed |
| Gate.PassedExactly | src/webwire/authority_ipc_server.py:459-606 | the ordered gates pass exactly the requests with the six keys, this protocol, build and instance, a hex id, and an acceptable payload of a supported operation |
| Gate.PassedCarries | src/webwire/authority_ipc_server.py:459-606 | what passes carries the request's own id, instance and operation, and its payload normalized |
| Gate.EnvelopeRefusals | src/webwire/authority_ipc_server.py:459-530 | which refusal a frame or envelope gets, the first that applies: size, decoding, protocol, build, operation |
| Gate.RequestRefusals | src/webwire/authority_ipc_server.py:530-606 | which refusal a supported operation gets: payload, id or fields, missing or stale instance |
| Gate.RaisedExactly | src/webwire/authority_ipc_server.py:459-606 | the pipeline raises exactly on a well-addressed supported operation whose payload escapes the validator |
| Gate.TokensExact | src/webwire/authority_ipc_server.py:538-613 | for requests decoded off the wire, what the table compares is equal exactly for equal ids, and for equal operations and normalized payloads |
| Pipeline.StepOk | src/webwire/authority_ipc_server.py:459-754 | arrivals, owner tasks, local admissions and lifecycle changes keep the table, the tasks and the history in agreement |
| Pipeline.InvokedAtMostOnce | src/webwire/authority_ipc_server.py:613-754 | over any run, invocations of an id number at most its registrations, and those at most one plus its abandons and evictions; each invocation was admitted while READY, for a request that names this instance |
| Pipeline.DrainWaitsForRequests | src/webwire/authority_ipc_server.py:685-754 | a request being worked on keeps the admission count above zero |
| Pipeline.OnlyAddressedEnters | src/webwire/authority_ipc_server.py:459-606 | an arrival not addressed to this owner in every respect changes nothing |
| Pipeline.OnlyReadyInvokes | src/webwire/authority_ipc_server.py:685-754 | only the first step of an owner task invokes, only for a request that names this instance, and none while draining or not READY |
| Pipeline.StaleIsRefused | src/webwire/authority_ipc_server.py:685-754 | the second fence behind the gate: a task addressed to another instance would be answered with the refusal at its admission and never be at work |
| PipelineOutcomes.ArrivedExactly | src/webwire/authority_ipc_server.py:606-683 | an arrival that passes gets a task, an entry and an open future exactly if its id is unknown and the table has room, and otherwise changes nothing in flight |
| PipelineOutcomes.BegunExactly | src/webwire/authority_ipc_server.py:685-754 | an addressed task is at work after its first step exactly if the session is READY and no drain has begun, with one more invocation if it makes one; otherwise the refusal is its answer |
| PipelineOutcomes.FinishedIsAnswered | src/webwire/authority_ipc_server.py:667-683 | a task that ends with a frame resolves those who waited with it, and the same request asked again gets it |
| PipelineOutcomes.RaisedIsForgotten | src/webwire/authority_ipc_server.py:667-683 | a task that ends with an exception fails those who waited, and its id is unknown |
| Media.StepIntact | src/webwire/authority_media_ingress.py:473-696 | every operation keeps: each registered ref's file exists and hashes to its digest |
| Media.RunIntact | src/webwire/authority_media_ingress.py:473-696 | and so does every run |
| Media.PinnedSurvives | src/webwire/authority_media_ingress.py:602-696 | no operation but its own unpin touches a pinned ref, its binding or its file |
| Media.PinnedThroughRun | src/webwire/authority_media_ingress.py:602-696 | a pin holds its file through any run that does not take it off |
| Media.ReleaseTruthful | src/webwire/authority_media_ingress.py:602-648 | success means the ref is gone and its file too unless shared; any refusal or failed delete changes nothing |
| Media.ReleaseOutcomes | src/webwire/authority_media_ingress.py:602-648 | each code of a release exactly: unknown, pinned, or a file of its own that is there and cannot be deleted |
| Media.IngestExact | src/webwire/authority_media_ingress.py:473-527 | an ingest adds exactly one unpinned ref bound to the bytes, or nothing |
| Media.IngestOutcomes | src/webwire/authority_media_ingress.py:473-527 | an ingest works exactly with room, a readable file within the bound, valid, and a publish that works; what fails first decides the code |
| Media.ResolveSound | src/webwire/authority_media_ingress.py:564-592 | a ref that resolves stands for exactly the bytes it was bound to, whatever happened to the files |
| Media.ResolveOutcomes | src/webwire/authority_media_ingress.py:531-592 | a ref resolves exactly if registered, with its file there, readable, within the bound and unchanged, and no other digest expected; what fails first decides the code |
| Media.ResolveOrderedExact | src/webwire/authority_media_ingress.py:594-600 | a list resolves all or nothing, in order |
| Media.PinEachExact | src/webwire/authority_ipc_server.py:734-735 | the pin loop works exactly when every ref is registered, and pins exactly those |
| Media.UnpinUndoesPin | src/webwire/authority_ipc_server.py:734-740 | with nothing in between, the unpin loop gives back the registry from before the pin loop |
| Media.ResolvedCanBePinned | src/webwire/authority_ipc_server.py:724-735 | refs that have all been resolved can all be pinned: no pin of the loop fails |
| Media.CleanupExact | src/webwire/authority_media_ingress.py:665-696 | cleanup keeps exactly the pinned refs, their files, and the files it could not delete |
| MediaObject.AcquireBoundedCopy | src/webwire/authority_media_ingress.py:439-471 | the copy is the whole file or none, and what is read is the reads up to the first past the ceiling |
| MediaObject.OverreadsByAChunk | src/webwire/authority_media_ingress.py:439-471 | a file that fills every read is read a whole chunk past the ceiling |
| MediaObject.BoundedDigest | src/webwire/authority_media_ingress.py:531-562 | the digest of the whole file, or a refusal exactly when it is over the ceiling |
| MediaObject.MediaArtifactRegistry.Ingest | src/webwire/authority_media_ingress.py:473-527 | works exactly with room, an acquired file within the bound, valid, and a publish that works, and then adds its ref; a failure changes nothing |
| MediaObject.MediaArtifactRegistry.Release | src/webwire/authority_media_ingress.py:602-648 | the loop over other entries decides sharing as the function does |
| MediaObject.MediaArtifactRegistry.Pin | src/webwire/authority_media_ingress.py:650-657 | after a pin release refuses the ref, and any cleanup keeps it and its file intact |
| MediaObject.MediaArtifactRegistry.Unpin | src/webwire/authority_media_ingress.py:659-663 | the last unpin makes the ref releasable; every other ref and file stays intact |
| MediaObject.MediaArtifactRegistry.CleanupUnpinned | src/webwire/authority_media_ingress.py:665-696 | the two loops compute cleanup and count the removed entries |
| Lease.StepOk | src/webwire/m5_leased_write_broker.py:75-133 | every step of any number of leased writers and readers keeps the lease invariant |
| Lease.BoundTokenIsIsolated | src/webwire/m5_leased_write_broker.py:75-133 | a bound composer token implies its broker owns the lease and alone has called the browser since |
| Lease.ClickIsOnBoundNavigation | src/webwire/m5_leased_write_broker.py:414-443 | each submit click happens on the navigation its token was bound on, with no call by anybody else in between |
| Lease.FailedCloseKeepsLease | src/webwire/m5_leased_write_broker.py:379-412 | a close that fails keeps the lease; its token is gone if the close got to dropping it, and stays in the clean-up after a kill |
| Lease.LeaseBlocksOthers | src/webwire/m5_leased_read_broker.py:51-58 | while a lease is held only the owner's follow-up operations get past their check |
| Lease.FreeLeaseAdmits | src/webwire/m5_leased_write_broker.py:93-133 | while the lease is free a reader, a one-shot write and a start get in, the start taking the lease, and no follow-up does |
| Lease.BoundContextSubmits | src/webwire/m5_leased_write_broker.py:414-443 | a bind marks the page and remembers where; a submit past its gate clicks exactly if that mark is still there |
| Lease.CallsAreOnRecord | src/webwire/m5_leased_write_broker.py:93-133 | each browser call is on record by whom and on which page, and a page that moves loses its marks |
| Lease.SuccessfulCloseFreesLease | src/webwire/m5_leased_write_broker.py:397-412 | a close that works frees lease, mutex and token |
| LeaseObject.LeasedWriteBroker.StartContent | src/webwire/m5_leased_write_broker.py:93-115 | let in exactly when no broker of the browser owns the composer; the lease is kept exactly with a bound token; no other broker gains or loses one |
| LeaseObject.LeasedWriteBroker.OneShot | src/webwire/m5_leased_write_broker.py:126-133 | let in exactly while the lease is free, when no broker of the browser has a token |
| LeaseObject.LeasedWriteBroker.CloseComposer | src/webwire/m5_leased_write_broker.py:397-412 | for the owner of the lease alone, which is free afterwards exactly when the close worked |
| LeaseObject.LeasedWriteBroker.ClickSubmit | src/webwire/m5_leased_write_broker.py:414-443 | for the owner alone; a crossed gate spends lease and token unless the click raised, and then no broker has a token |
| Bytes.BigEndianRoundTrip | src/webwire/authority_ipc_framing.py:47-53 | the length header decodes to the length |
| Bytes.FromBigEndianRoundTrip | src/webwire/authority_ipc_framing.py:55-65 | and every header is the encoding of what it decodes to |
| Bytes.MostSignificantFirst | src/webwire/authority_ipc_framing.py:47-65 | the first byte of the header counts most |
| Framing.FrameReceived | src/webwire/authority_ipc_framing.py:47-65 | a frame at the head of a stream is received whole and nothing after it is touched |
| Framing.ReceivedIsFrame | src/webwire/authority_ipc_framing.py:55-65 | what is received can only have come from its own frame |
| Framing.StreamRoundTrip | src/webwire/authority_ipc_transport.py:67-79 | receiving frames written back to back yields the payloads in order and leaves what follows |
| Framing.JsonFrameExact | src/webwire/authority_ipc_framing.py:68-84 | an encoded object is within its ceiling, is received whole, and its bytes name that value alone |
| Transport.ReadExact | src/webwire/authority_ipc_transport.py:46-54 | exactly n bytes, or an error exactly when the stream ends before |
| Transport.WriteAll | src/webwire/authority_ipc_transport.py:57-64 | everything in order, or a prefix exactly when the peer has gone |
| Transport.BoundedReceive | src/webwire/authority_ipc_transport.py:67-79 | computes the receive function; consumes 8 plus length bytes, and no body over the ceiling |
| Transport.SendFrames | src/webwire/authority_ipc_transport.py:57-64 | frames go out back to back |
| Transport.ReceiveFrames | src/webwire/authority_ipc_transport.py:67-79 | repeated receives are the receive function repeated |
| Transport.RelayFrames | src/webwire/authority_ipc_transport.py:46-79 | however sends and receives split, the payloads arrive as sent |
| Acceptor.StepOk | src/webwire/authority_ipc_transport.py:202-300 | no statement of listener, handler or stop breaks slot conservation or the gate |
| Acceptor.Bounded | src/webwire/authority_ipc_transport.py:202-300 | never more handlers than slots; nothing is accepted or greeted before READY; a slot is lost only with the listener |
| Acceptor.ConnectionIsServed | src/webwire/authority_ipc_transport.py:202-300 | a run from the start in which a connection is accepted, greeted and closed ends with every slot free and the listener ready for the next |
| Acceptor.ListenerGoesOn | src/webwire/authority_ipc_transport.py:202-232 | a rejected peer or a full house sends the listener back for the next connection; only a failing accept, a handler that cannot start and stop end it |
| Acceptor.AtMostOneLate | src/webwire/authority_ipc_transport.py:170-200 | after the sweep of stop at most one connection is tracked |
| Acceptor.NothingLateExactly | src/webwire/authority_ipc_transport.py:170-232 | in every run, after the sweep nothing is tracked ever again exactly when the listener is not inside accept() and has no connection it has yet to track |
| Acceptor.OneCanBeLate | src/webwire/authority_ipc_transport.py:202-232 | a run from the start, for any number of slots, in which one is: accepted before the sweep, tracked after it |
| Acceptor.StoppedListenerEnds | src/webwire/authority_ipc_transport.py:202-210 | once stop has begun the loop accepts nothing more |
| Acceptor.LostExactly | src/webwire/authority_ipc_transport.py:202-232 | a slot is lost exactly when the thread of a tracked connection does not start, and that ends the listener |
| Json.SortedKeysExact | src/webwire/authority_ipc_protocol.py:557-566 | the key order is the ascending one and the only one, whatever the insertion order |
| Json.QuoteExact | src/webwire/authority_ipc_protocol.py:563-572 | two strings print alike exactly when their UTF-16 units agree |
| Json.SplitPairCollides | src/webwire/authority_ipc_protocol.py:563-572 | a split surrogate pair prints like the character it encodes |
| Json.PrintInjective | src/webwire/authority_ipc_protocol.py:563-572 | over values without split pairs, equal text exactly for equal values |
| Json.PrintAscii | src/webwire/authority_ipc_framing.py:68-84 | every accepted value prints in ASCII |
| Json.PrintedScalarsRead | src/webwire/authority_ipc_protocol.py:563-572 | a reader gets each scalar back from its printed text: the three literals, the decimal value, the text with its escapes undone |
| Json.DecodedTextsExactly | src/webwire/authority_ipc_framing.py:96-106 | the texts a decoder can produce are exactly those without a split surrogate pair |
| Json.DecodedIsWhole | src/webwire/authority_ipc_framing.py:87-116 | no string or key of a decoded value, at any depth, has a split surrogate pair |
| Json.DecodeInvertsEncode | src/webwire/authority_ipc_framing.py:68-126 | decoding the tree of an encoded value gives the value back |
| Json.RejectDuplicateKeys | src/webwire/authority_ipc_framing.py:120-126 | the loop refuses exactly the pair lists with a repeated key and maps the others |
| Json.FromPairsExact | src/webwire/authority_ipc_framing.py:120-126 | the map holds exactly the pairs |
| Protocol.ValidateAndNormalize | src/webwire/authority_ipc_protocol.py:455-548 | the loop computes payload over defaults, or the first fault in field order |
| Protocol.AcceptedExactly | src/webwire/authority_ipc_protocol.py:455-548 | accepted exactly: an object of known well-formed fields with the required ones, and a target where one is required |
| Protocol.FieldAccepts | src/webwire/authority_ipc_protocol.py:449-544 | what each kind of field accepts, in full: ranges, lengths, the enumeration, the confirmation token's minimum |
| Protocol.TabsAreEnumerated | src/webwire/authority_ipc_protocol.py:505-544 | read_profile and read_search accept each exactly its three tabs |
| Protocol.EscapesExactly | src/webwire/authority_ipc_protocol.py:455-548 | the validator raises what it does not catch exactly on an object of known fields the first faulty of which is at fault that way |
| Protocol.FieldEscapes | src/webwire/authority_ipc_protocol.py:449-510 | which values escape: an integer out of the float range, and text with a surrogate, alone or as the first bad item of a list |
| Protocol.EscapingRequests | src/webwire/authority_ipc_protocol.py:449-510 | inputs for both, one of them followed from the wire |
| Protocol.DefaultsConform | src/webwire/authority_ipc_protocol.py:414-446 | every default is accepted by its own optional field |
| Protocol.NormalizeIdempotent | src/webwire/authority_ipc_protocol.py:455-548 | normalizing again changes nothing, for all 27 operations |
| Protocol.OmittedIsDefault | src/webwire/authority_ipc_protocol.py:455-548 | leaving out any defaulted fields is the same request as spelling them, errors included |
| Protocol.NormalizedIsPrintable | src/webwire/authority_ipc_protocol.py:554-573 | whatever the schemas admit encodes, and only evidence can hold surrogates |
| Protocol.IdentityExact | src/webwire/authority_ipc_protocol.py:554-573 | for requests decoded off the wire, one identity exactly for equal operations and normalized payloads |
| Projection.JsonSafeBounded | src/webwire/authority_ipc_server.py:91-121 | for input of any shape: bounded nesting, width, key and string length, nothing unencodable by type |
| Projection.SmallIsKept | src/webwire/authority_ipc_server.py:91-121 | a value within every limit is projected to its plain JSON image |
| Projection.JsonSafeKeeps | src/webwire/authority_ipc_server.py:91-121 | the first 512 characters, 32 items, and under each cut key the last of the first 32 entries are kept, each projected in turn; below the fourth level a container is a marker |
| Projection.RedactionExact | src/webwire/authority_ipc_server.py:91-121 | a redaction marker meets the 512 bound exactly for type names of at most 501 characters |
| Projection.ProjectionShows | src/webwire/authority_ipc_server.py:245-304 | each safety fact is projected from the first source that has it, and nothing later overwrites it |
| Projection.MandatoryHolds | src/webwire/authority_ipc_server.py:124-154 | the mandatory envelope holds exactly the first text or boolean of each fact |
| Ladder.FitOptionalBudget | src/webwire/authority_ipc_server.py:157-188 | the popping loop drops the computed prefix |
| Ladder.DropCount | src/webwire/authority_ipc_server.py:157-188 | the prefix is the shortest whose removal fits 64 KiB |
| Ladder.BudgetExact | src/webwire/authority_ipc_server.py:157-188 | only that prefix of data, trace stages, policy is gone; all else is kept as it was |
| Ladder.FailureAlwaysFits | src/webwire/authority_ipc_server.py:191-242 | a failure frame is always produced and within 1 MiB, for any code, message, safety map and result |
| Ladder.FirstRungThatFits | src/webwire/authority_ipc_server.py:191-234 | the largest candidate that encodes is sent, and the fixed floor exactly when none does |
| Ladder.EnvelopeReads | src/webwire/authority_ipc_server.py:191-234 | every failure frame says not ok, with the code cut to 64, the message to 2048 and the first candidate within bounds, or exactly when none is the fixed message with the result's own facts; nothing else is in it |
| Ladder.CandidatesExactly | src/webwire/authority_ipc_server.py:203-221 | the candidates are the budgeted projection, that without the optional blocks if both parts exist, and the last one |
| Ladder.LastCandidate | src/webwire/authority_ipc_server.py:237-242 | the last candidate has the three facts, the semantic key and nothing else |
| Ladder.FactsSurvive | src/webwire/authority_ipc_server.py:191-242 | on every rung a boolean safety fact is what the result says first, a text one is cut to 512 or 64, and no boolean is made up |
| Dispatcher.StepOk | src/webwire/dispatcher.py:251-695 | every step of start, teardown, stop and admitted work keeps the runtime invariant |
| DispatcherProgress.GoodStartIsReady | src/webwire/dispatcher.py:251-388 | from a new runtime a start in which nothing fails ends READY under the lock with a live browser and no work |
| DispatcherProgress.StartGoesOn | src/webwire/dispatcher.py:296-388 | each awaited step of start moves it on if it works and into the teardown if not; only the last makes the session READY |
| DispatcherProgress.RefusedStartChangesNothing | src/webwire/dispatcher.py:261-292 | a busy domain or a session already made refuses the start with no effect |
| DispatcherProgress.ReadyAdmits | src/webwire/dispatcher.py:699-728 | a READY runtime admits an invocation, which goes to the lock, and other work straight away |
| DispatcherProgress.InvokedWithoutSession | src/webwire/dispatcher.py:714-717 | without a session an invocation waits for the lock outside any admission |
| DispatcherProgress.RegistryWork | src/webwire/authority_ipc_server.py:780-840 | media ingress and release reach the registry from admitted work only |
| DispatcherProgress.OnlyReadyAdmits | src/webwire/dispatcher.py:699-728 | no event admits anything once the session is not READY |
| DispatcherProgress.LockIsFair | src/webwire/dispatcher.py:753-759 | a free invocation lock goes to who has waited longest |
| DispatcherProgress.StopClosesAdmission | src/webwire/dispatcher.py:550-633 | stop from inside the invocation that holds the lock is refused with no effect; from anywhere else it closes admission and queues for the lock |
| DispatcherProgress.DrainWaits | src/webwire/dispatcher.py:598-633 | stop passes its drain exactly when no admitted work is left, and a failed wait frees the lock |
| Dispatcher.DrainIsNotSelfBlocked | src/webwire/dispatcher.py:598-626 | in every run, while stop holds the invocation lock no admitted work waits for it and nothing is pinned; each piece of work can end by itself, which lowers the count |
| Dispatcher.PinsAreInsideAdmission | src/webwire/authority_ipc_server.py:717-744 | in every run a pin is held exactly by a media request that holds or waits for the invocation lock inside its admission: none outlives its request, none is gone while the invocation runs |
| Dispatcher.IngressAllOrNothing | src/webwire/authority_ipc_server.py:717-744 | a media request either comes to the invocation lock with every ref pinned under one admission or leaves everything as if it had never come, each exactly when |
| Dispatcher.LiveMeansLocked | src/webwire/session.py:166-193 | in every run a live browser implies the owner lock |
| Dispatcher.ReleaseIsLast | src/webwire/dispatcher.py:438-467 | the step that gives ownership up ends TERMINAL, revoked, with no admitted work, no browser, an empty registry and, after a stop, only undeletable files |
| Dispatcher.TerminalIsForGood | src/webwire/dispatcher.py:251-268 | nothing restarts a TERMINAL session |
| Dispatcher.StopFromReady | src/webwire/dispatcher.py:550-695 | a stop in which nothing fails, with the work done, frees the domain and empties the registry, also after a stop that failed |
| Dispatcher.ReleaseRetried | src/webwire/dispatcher.py:578-597 | a failed release is retried by the next stop |
| Dispatcher.StuckForever | src/webwire/authority_session.py:274-297 | a session left STARTING keeps the lock through every later event |
| Dispatcher.TeardownSticks | src/webwire/dispatcher.py:396-436 | a teardown step leaves that state exactly when a registered revoker that has not succeeded raises before revocation is complete, the browser is not proven stopped or the clean-up raises |
| Dispatcher.TerminalizeExact | src/webwire/authority_session.py:274-326 | TERMINAL takes the one legal state and a completed revocation; an illegal call has no effect |
| DispatcherObject.OwnerRuntime.Release | src/webwire/dispatcher.py:438-467 | the handle goes only after a release that worked, over a TERMINAL or absent session |
| DispatcherObject.OwnerRuntime.TeardownFailedStart | src/webwire/dispatcher.py:396-436 | the teardown keeps the runtime invariant and ends free, TERMINAL with the handle to retry, or stuck, each exactly when |
| DispatcherObject.OwnerRuntime.RetireRoot | src/webwire/dispatcher.py:633-695 | TERMINAL exactly when DRAINING, no open revoker raised and the browser went; otherwise lock and handle stay; the registry is empty unless a revoker raised |
| DispatcherObject.TeardownExact | src/webwire/dispatcher.py:396-436 | the three teardown steps, as far as they go, end in one of three ways decided by the open revokers, the browser and the clean-up |
| DispatcherObject.RetirementExact | src/webwire/dispatcher.py:633-695 | the last three steps of a stop, as far as they go, likewise |
| Offline.StepOk | src/webwire/offline_recovery.py:68-171 | acquire, admissions and close keep the owner's invariant |
| Offline.ReadyAdmits | src/webwire/offline_recovery.py:123-141 | operator work is admitted exactly while READY |
| Offline.ReleaseIsLast | src/webwire/offline_recovery.py:143-171 | ownership goes only in a close whose drain was complete |
| Offline.TimeoutSticks | src/webwire/offline_recovery.py:143-171 | a wait leaves the owner stuck exactly when it timed out |
| Offline.StuckForever | src/webwire/offline_recovery.py:160-166 | from then on every close is refused and the domain stays locked |
| Offline.ReleaseRetried | src/webwire/offline_recovery.py:152-160 | a close whose release raised is retried by the next |
| Offline.OfflineRecoveryAuthority.AcquireDomain | src/webwire/offline_recovery.py:68-121 | a READY session under the lock or no session at all; the lock is left behind only by a release that raises after a failed build |
| Offline.OfflineRecoveryAuthority.Close | src/webwire/offline_recovery.py:143-171 | the domain is given up exactly with the work gone, or over TERMINAL, and a release that works; a raising release keeps the handle for the next close; a timeout leaves the owner stuck |

## Left out

- The page itself (DOM and JavaScript builders, selectors, sleeps, polling, bounded retry loops over them) and all capability bodies: a browser operation is a step that may fail, raise or navigate.
- The effect ledger, recovery guard, commit gateway, write kernel, confirmation state and reconciliation coordinator: call points that may raise.
- Win32 and POSIX endpoint calls, security descriptors, link and reparse-point handling, media format validation: outcomes of a step.
- Leased-broker methods that are inherited and not overridden: they do not take the lease, so the isolation results are about the overriding ones.
- The owner lock is on values only: between any two of its statements another thread, a signal handler or a fork may act, which a sequential method does not show. Its in-process registry guard is one atomic access per use.
- Interruption inside a handler that only sets a flag, and a fork by a signal handler on the thread that is inside the gate.
- An asynchronous interruption between a revoker's return and the recording of its success: the runs count a revoker as returned only when it is about to be recorded.
- The JSON text parser and the shortest text of a float: the decoder is modelled from the parsed tree of UTF-16 units, numbers and members on, and float texts are given. What the parser itself raises, for too deep nesting or an integer of more than 4300 digits, is left out. Dictionary keys that are not text are described by their string form and never serialized.
- Error frames other than failure frames: their codes are modelled, their texts are not.
- What `default=str` raises while sizing optional diagnostics.
- The file-backed parts of start (attach gate, cookie restore, checkpoints): outcomes of a step.
- Nested calls by the holder of the invocation lock are ordinary admissions that do not take the lock.
- Cancellation of an owner task before its first statement, which only loop shutdown can do.
- Request ids, canonical identities and frames are numbers inside the table; `Gate.TokensExact` ties the numbers to the texts.
- The dedupe store, journal rotation, metrics, scroll loops, health probes, card rendering, the CLI and all scripts: I/O, or easy members.
