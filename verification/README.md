# Verified model of UCX-Py's protocol layer

UCX-Py binds Python's `asyncio` to the UCX communication library. Most of it is a thin wrapper, but
the Python and Cython layer owns several protocols that have to be right under every interleaving
of callbacks and coroutines. This project models them in Dafny and proves what each one promises.
UCX, hwloc and the event loop are an environment: every order of arrivals, completions, failures
and resumptions that they can produce is a step of a state machine, and the main results hold in
every run.

Code that updates objects is modelled by a class or a method with a loop, proved equal to a function on
values; the functions are the steps of the state machines.

| file | models | main results |
|---|---|---|
| `Endpoint.dfy` | the counters of `Endpoint` and its methods | a receive limit fires at exactly the right receive; at most one shutdown message |
| `EndpointLife.dfy` | what a run makes of an endpoint and of a message | `close()` ends its own endpoint; what the counters count; a lost message stays lost |
| `Shutdown.dfy` | two connected endpoints, in any interleaving | a shutdown loses no message unless a send is counted after `close()`, and then it can |
| `Objects.dfy`, `Framing.dfy` | `send_obj` among all other sends, and a shutdown | which objects a shutdown cuts in two; exactly when the messages of a tag read back as the objects sent |
| `Requests.dfy`, `RequestSteps.dfy`, `RequestCancels.dfy`, `RequestRuns.dfy`, `RequestLayer.dfy` | requests, recycled handles, completion, cancellation, futures | each call-back at most once, no future left pending, closed wrappers stay closed, stale cancellations are harmless |
| `Recycling.dfy` | the same, however many requests are made | exactly when a closed wrapper reports open again |
| `ActiveMessages.dfy`, `AmOutcomes.dfy`, `AmWorker.dfy` | the pools and waiting lists of active messages, with re-entrant call-backs | matching is a FIFO, nothing is lost, no receive of a call-back is forgotten, cancellation reaches what waits and stays in its generation of a handle |
| `ArrayLayout.dfy` | the contiguity loops | an accepted array occupies exactly the bytes that are sent |
| `Topology.dfy` | the common-ancestor walk | for which two objects it finds the lowest common ancestor, and on which trees for all |
| `Reuse.dfy`, `ReuseCounts.dfy`, `ReuseSystem.dfy` | endpoint reuse: the protocol, the counters, and both together | both sides choose the two ends of one connection; reference counts are exact unless an endpoint is closed twice; when an endpoint closes under a user; a close never cuts a live pair |
| `Ownership.dfy` | the ownership tree | children are released first, nothing twice, nothing forgotten |
| `Wire.dfy` | packing, handshake, object framing | round trips, tags cross over, no deadlock exactly when one side listens |
| `Mesh.dfy` | the mesh of worker processes | no duplicate rank, one connection per pair, and the mesh always fills up |

## Where the code does less than it seems to

Each of these is stated as a lemma, with the exact condition under which the code does what is
expected.

* `close()` snapshots the number of sends, but nothing stops a later `send()`. After one, the peer can
  raise "`n` cannot be less", and the shutdown can even lose a message sent *before* `close()`
  (`TooFewIffLateSend`, `EarlyLossIff`, `LateSendLosesEarlyMessage`). Without one, neither happens
  (`PunctualIffNoLateSend`, `ShutdownLosesNothing`, `PunctualNeverTooFew`).
* `send_obj` suspends between its two messages. Whatever else is sent, the messages that a shutdown
  announces hold half of exactly those objects whose length but not payload was counted when `close()`
  took its snapshot (`AnnouncementSplitsIff`). A peer that the shutdown aborts without having received
  anything counted later is left with exactly those halves (`ShutdownSplitsIff`); `ShutdownSplitsObject`
  is a run that cuts an object in two.
* Two calls of `send_obj` on one tag may overlap. The messages of a tag read back as the objects sent on
  it exactly if only `send_obj` used the tag, no two calls overlapped and none stopped halfway
  (`ReadsBackIffUndisturbed`, `PeerReadsBackIff`, `OverlapDoesNotReadBack`).
* A request that completes before its submission returns always reports success: the call-back
  drops its status and length, and the key `"received"` that `_handle_status` looks up is never
  stored (`SuccessIff`, `EarlyFailureReportsSuccess`).
* The request counter is an `unsigned int`. A closed wrapper reports open again exactly when the counter
  has come round to its uid on the same handle (`ReopensIff`), so not within 2^32 requests
  (`ClosedForOneRound`). Every 2^32nd request gets the uid zero, which is that of a free handle: its
  wrappers report open as soon as the handle is free (`ReopensIff`, `UidZeroStaysOpen`).
* An active-message error is raised exactly if a receive was already waiting for it and it did not come
  before its request was registered (`ErrorRaisedIff`). An error that had to wait in the pool is delivered
  as an ordinary object, because `isinstance(type(recv_obj), ...)` is never true (`PooledErrorDelivered`).
  After a rendezvous that fails before `_am_recv_callback` registers it, the status is dropped and the
  receive gets the buffer that was never filled (`EarlyErrorDelivered`).
* For an array with an empty extent the loops can leave the range of `Py_ssize_t` although `nbytes` is
  zero (`EmptyArrayCanOverflow`; `RunningProductsFitIff` is exact for every loop that runs to its end).
* The common-ancestor walk moves the object with the *smaller* depth. It ends at the lowest common
  ancestor of two objects exactly when the peaks on the two paths to it are the same: the depths that
  are not below the ancestor's nor below any that follow (`WalkFindsLcaIff`). That is so when everything
  below the ancestor has a smaller depth (`WalkFindsLca`), as when hwloc numbers the I/O objects below
  one normal object negatively; for all pairs of a tree at once it needs depth to increase along every
  edge toward the root (`WalkCorrectIff`).
* A reused endpoint is found by its tag only if the tag is not zero (`ChosenEndsArePaired`,
  `ZeroTagLeavesUnpaired`). Closing a virtual endpoint twice takes two references (`CounterExactIff`,
  `SecondCloseMiscounts`). An endpoint closes under a live virtual endpoint exactly when a connect
  settles for it after its close has begun (`ClosesUnderUserIff`, `ReusedWhileClosing`).

## Model

| member | source | states |
|---|---|---|
| EndpointCounting.Endpoint.constructor | ucp/core.py:536-544 | a new endpoint has counted nothing, told nobody and has no limit |
| EndpointCounting.Endpoint.IsClosed | ucp/core.py:551-553 | closed when aborted, not initialized or no longer alive |
| EndpointCounting.Endpoint.DoAbort | ucp/core.py:555-566 | drops the native endpoint and keeps every counter |
| EndpointCounting.Endpoint.BeginClose | ucp/core.py:573-590 | `close()` to its `await`: aborts a closed endpoint, otherwise announces the send count, once |
| EndpointCounting.Endpoint.EndClose | ucp/core.py:601-606 | the `finally` block aborts what is still open |
| EndpointCounting.Endpoint.Send | ucp/core.py:628-646 | a closed endpoint refuses; an open one counts the send before it is submitted |
| EndpointCounting.Endpoint.Recv | ucp/core.py:706-722 | refused after an abort, and when closed unless its message has been probed; otherwise counted |
| EndpointCounting.Endpoint.EndRecv | ucp/core.py:726-731 | a finished receive is counted and aborts the endpoint once the limit is reached |
| EndpointCounting.Endpoint.SetCloseAfterNRecv | ucp/core.py:786-801 | relative or absolute limit: reached, stored, already set, or too small |
| EndpointCounting.Endpoint.OnCtrlMsg | ucp/core.py:93-108 | the control call-back: canceled, closed (aborts), shutdown, unknown opcode |
| EndpointCounting.FinishManyEffect | ucp/core.py:726-731 | `k` finished receives count `k` and abort exactly if they bring the count to the limit |
| EndpointCounting.LimitFiresExactly | ucp/core.py:786-801 | a limit of n set after m receives fires at receive m+n and not earlier, and equals the absolute limit m+n |
| EndpointCounting.ShutdownOrderIrrelevant | ucp/core.py:90-108 | the outcome does not depend on after which receive the shutdown message arrives, and is an error exactly if too many have finished |
| EndpointCounting.CtrlMsgHonoured | ucp/core.py:93-108 | a canceled, unknown or refused control message changes nothing, one on a closed endpoint releases it, an accepted one closes it at the announced receive |
| EndpointCounting.RefusedLimit | ucp/core.py:786-801 | a limit that was set before or is below the finished receives is refused and changes nothing |
| EndpointCounting.AtMostOneShutdown | ucp/core.py:576-589 | at most one shutdown message in any history of one endpoint |
| EndpointLife.CloseEndsEndpoint | ucp/core.py:601-606 | the end of `close()` is always possible, and in every later state of every run its endpoint is closed and refuses every send |
| EndpointLife.CloseTellsOnce | ucp/core.py:573-590 | in every run the first `close()` of an open endpoint announces the messages sent so far, a later one changes nothing, one on a closed endpoint releases it |
| EndpointLife.ClosesIff | ucp/core.py:551-566 | an open endpoint is closed by the end of `close()`, `abort()`, an error, or reaching its receive limit, and by nothing else; closed ones stay closed |
| EndpointLife.CountersCountSteps | ucp/core.py:539-541 | the three counters are the sends, posted receives and finished receives of the run |
| EndpointLife.NoMatchWithoutReceive | ucp/core.py:722-724 | in every run matched messages and waiting receives add up to the posted receives, and an aborted endpoint is handed nothing |
| EndpointLife.LostForGood | ucp/core.py:648-654 | a message whose submission raised, that was dropped or whose receive failed is never received; a received one stays received |
| ShutdownProtocol.StepKeepsInv | ucp/core.py:568-753 | every step of either endpoint keeps the invariant of both directions |
| ShutdownProtocol.ShutdownLosesNothing | ucp/core.py:568-606 | in every run, an endpoint aborted by its peer's shutdown message has received every message the peer counted, if none was counted after the snapshot |
| ShutdownProtocol.ShutdownFiresExactly | ucp/core.py:724-732 | after the message is accepted, the abort has happened exactly when finished receives equal the closer's sends |
| ShutdownProtocol.PunctualNeverTooFew | ucp/core.py:793-801 | the "cannot be less" error is unreachable without a send after the snapshot |
| ShutdownProtocol.PunctualIffNoLateSend | ucp/core.py:576-589 | the announced number is the send count exactly when the run has no send counted after the announcement |
| ShutdownProtocol.TooFewIffLateSend | ucp/core.py:628-646 | while the message is on its way the error is always still reachable, and only through a late send |
| ShutdownProtocol.EarlyMessagesSafeIff | ucp/core.py:726-731 | at the announced receive, every early message has arrived exactly if no late one has |
| ShutdownProtocol.LateSendLosesEarlyMessage | ucp/core.py:628-646 | a run in which a late send makes the shutdown lose a message sent before `close()` |
| ShutdownProtocol.EarlyLossIff | ucp/core.py:576-606 | while the message is on its way, an early message that is not matched yet can still be lost exactly if the peer has not finished more receives than announced, and only through a late send |
| ObjectShutdown.AnnouncementSplitsIff | ucp/core.py:820-824 | in every run of all kinds of sends, the announced messages hold an object's length without its payload exactly if its `send_obj` was between its two sends at the snapshot |
| ObjectShutdown.ShutdownSplitsIff | ucp/core.py:820-855 | a peer aborted by the shutdown, having received nothing counted later, has received the length and not the payload of exactly those objects |
| ObjectShutdown.ShutdownSplitsObject | ucp/core.py:820-824 | a run with an even announcement that cuts an object in two |
| ObjectFraming.ReadsBackIffUndisturbed | ucp/core.py:820-855 | in every run the messages of one tag read back as the objects sent on it, whatever these contain, exactly if no plain send used the tag, no two `send_obj` on it overlapped and none is or ended halfway |
| ObjectFraming.PeerReadsBackIff | ucp/core.py:850-855 | the same for what the peer's receives were handed, in that order, once none is outstanding and none was lost |
| ObjectFraming.ReadsBackIff | ucp/core.py:820-855 | a sequence of lengths, payloads and plain messages reads back for all contents exactly if it is whole objects one after another |
| ObjectFraming.HandedOverInOrder | ucp/core.py:701-724 | in every run, unless one was lost, the receives on one tag are handed its messages in the order of sending without a gap |
| ObjectFraming.OverlapDoesNotReadBack | ucp/core.py:820-824 | a run in which two overlapping calls on one tag do not read back |
| ShutdownProtocol.MatchedInSendOrder | ucp/core.py:633-649 | messages with one tag are handed over in the order in which they were sent |
| RequestRuns.CallbackAtMostOnce | ucp/_libs/ucx_request.pyx:113-138 | in every run no operation's call-back runs twice |
| RequestRuns.NothingStaysPending | ucp/comm.py:11-33 | with no work outstanding, every future is resolved and every completion has run its call-back |
| RequestRuns.ResolvedOnce | ucp/comm.py:11-17 | no later event changes the result of a resolved future |
| RequestRuns.SuccessIff | ucp/_libs/transfer_tag.pyx:111-145 | success exactly if the completion was early, or OK and (for a receive) of the expected length |
| RequestRuns.ExceptionIff | ucp/_libs/transfer_tag.pyx:115-130 | a late completion gives UCXCanceled exactly if canceled, UCXError with its status exactly if failed, UCXMsgTruncated exactly for a receive of another length |
| RequestRuns.ImmediateSucceeds | ucp/comm.py:30-33 | a submission that returns no request resolves its future with success |
| RequestRuns.UserCancelStays | ucp/comm.py:11-13 | a future cancelled by its caller stays cancelled in every later state |
| RequestRuns.NothingResolvedAfterClose | ucp/comm.py:11-13 | once the event loop is closed, in every later state, no completion or cancellation resolves a future |
| RequestRuns.EarlyFailureReportsSuccess | ucp/_libs/ucx_request.pyx:116-127 | a run in which a receive fails before its submission returns and its future reports success |
| RequestRuns.ClosedForever | ucp/_libs/ucx_request.pyx:33-64 | a wrapper that reports closed stays closed however its handle is recycled |
| RequestRecycling.ReopensIff | ucp/_libs/ucx_request.pyx:14-64 | in every run of any length, a closed wrapper reports open again exactly when the 32-bit counter has come round to its uid on its handle, or its uid is zero and its handle is free |
| RequestRecycling.ClosedForOneRound | ucp/_libs/ucx_request.pyx:14-51 | the closed wrapper of request k, unless its uid is zero, stays closed until request k + 2^32, whatever came before |
| RequestRecycling.UidZeroStaysOpen | ucp/_libs/ucx_request.pyx:40-64 | a run in which a request with uid zero has completed and been freed, and its wrapper still reports open |
| RequestRuns.EqualIffSameOp | ucp/_libs/ucx_request.pyx:76-83 | open wrappers are equal exactly when they denote the same operation |
| RequestRuns.ClosedEqualsItself | ucp/_libs/ucx_request.pyx:76-83 | a closed wrapper equals only itself |
| RequestRuns.InflightSets | ucp/_libs/ucx_request.pyx:130-138 | members of an in-flight set are open, pending, registered and in their own set; a registered pending request is a member unless a clear removed it |
| RequestRuns.StaleCancelIsHarmless | ucp/_libs/ucx_endpoint.pyx:24-45 | cancelling a copied set asks only for operations that its wrappers denoted when they were made |
| RequestRuns.ErrorCancelsInflight | ucp/_libs/ucx_endpoint.pyx:125-130 | whatever happens in between, the first scheduled cancellation after an error call-back asks for every request that was in flight on the endpoint and is still open |
| RequestRuns.FinalizerCancels | ucp/_libs/ucx_endpoint.pyx:172-173 | the endpoint's finalizer asks UCX to cancel every request in its set and empties the set; those that UCX cancels at once are resolved with UCXCanceled |
| RequestRuns.ScheduleIsCleared | ucp/_libs/ucx_endpoint.pyx:30-43 | a scheduled cancellation leaves nothing scheduled |
| RequestRuns.FinalizerAssertionHolds | ucp/_libs/ucx_worker.pyx:83-88 | in every reachable state the assertion `not req.closed()` holds at each turn of the finalizer's loop over its in-flight set, even if UCX runs call-backs at once |
| RequestCancels.NextInv | ucp/_libs/ucx_request.pyx:95-138 | every submission, return, completion and cancellation keeps the invariant of requests |
| RequestObjects.RequestLayer.NewRequest | ucp/_libs/ucx_request.pyx:33-48 | the first wrapper of a handle takes the next uid, later ones share it |
| RequestObjects.RequestLayer.IsClosed | ucp/_libs/ucx_request.pyx:50-51 | closed means that the handle's uid has changed |
| RequestObjects.RequestLayer.Close | ucp/_libs/ucx_request.pyx:53-64 | an open wrapper frees its handle, a closed one does nothing |
| RequestObjects.RequestLayer.Resolve | ucp/comm.py:11-17 | a future is resolved unless the loop is closed or it is done |
| RequestObjects.RequestLayer.OnReturned | ucp/_libs/ucx_request.pyx:113-138 | `_handle_status`: calls back at once for a finished request, registers a pending one |
| RequestObjects.RequestLayer.CallReturns | ucp/comm.py:30-33 | resolves the future itself when no request comes back |
| RequestObjects.RequestLayer.FinishRegistered | ucp/_libs/transfer_tag.pyx:115-144 | builds the exception, leaves the in-flight set, calls back, closes the request |
| RequestObjects.RequestLayer.OnCompleted | ucp/_libs/transfer_common.pyx:24-57 | a completion call-back, before or after registration |
| RequestObjects.RequestLayer.RequestCancel | ucp/_libs/ucx_worker.pyx:236-242 | asks UCX to cancel, which may call back before it returns |
| RequestObjects.RequestLayer.CancelEach | ucp/_libs/ucx_endpoint.pyx:35-41 | the loop over a copied list skips wrappers that are closed by the time it reaches them |
| RequestObjects.RequestLayer.CancelScheduled | ucp/_libs/ucx_worker.pyx:280-294 | cancels the scheduled requests, forgets them and returns how many were scheduled |
| RequestObjects.RequestLayer.CancelGroup | ucp/_libs/ucx_endpoint.pyx:172-173 | the endpoint finalizer cancels and clears its in-flight set |
| RequestObjects.RequestLayer.OnError | ucp/_libs/ucx_endpoint.pyx:125-128 | the error call-back schedules a copy of the in-flight set |
| ActiveMessages.MatchingIsFifo | ucp/_libs/transfer_am.pyx:222-242 | in every run the k-th completed result goes to the k-th receive that was not cancelled, and no handle has both a pooled result and a waiting receive |
| ActiveMessages.NothingLost | ucp/_libs/ucx_worker_cb.pyx:113-138 | results are delivered or pooled, receives are served, waiting or cancelled, and every arrived message is a result or still being received |
| ActiveMessages.ServedOnceInOrder | ucp/_libs/ucx_worker_cb.pyx:113-129 | receives are served in the order of posting, none twice, none after being cancelled, none forgotten |
| ActiveMessages.ErrorRaisedIff | ucp/_libs/ucx_worker_cb.pyx:42-78 | in every run the k-th call-back gets what the code makes of the k-th report, as an exception exactly if it reports an error, a receive was already waiting, and the error did not precede registration |
| ActiveMessages.PooledErrorDelivered | ucp/_libs/transfer_am.pyx:228-230 | a run in which a pooled error is handed to the next receive as if it were a buffer |
| ActiveMessages.EarlyErrorDelivered | ucp/_libs/ucx_worker_cb.pyx:42-47 | a run in which a waiting receive gets the unfilled buffer of a rendezvous that failed before registration |
| AmOutcomes.ArrivalBecomes | ucp/_libs/ucx_worker_cb.pyx:145-223 | an eager, immediate or early message becomes its buffer and raises nothing, an unsupported or rejected one an exception with its status; it goes to the oldest waiting receive or else to the pool |
| AmOutcomes.RndvBecomes | ucp/_libs/ucx_worker_cb.pyx:56-76 | a registered rendezvous becomes its own buffer, or an exception with its status |
| AmOutcomes.ReportsError | ucp/_libs/ucx_worker_cb.pyx:163-208 | which arrivals count as errors, and which as early ones |
| AmOutcomes.NoPostForgotten | ucp/_libs/ucx_worker_cb.pyx:129 | in every run, every receive asked for by the application or, however deeply nested, by call-backs is posted once or waits to be posted; serving and cancelling lose none |
| AmOutcomes.PostedInOrder | ucp/_libs/transfer_am.pyx:232-241 | the receives of a call-back wait in the order in which it posts them |
| AmOutcomes.MarksAreCleared | ucp/_libs/ucx_endpoint.pyx:80-84 | a scheduled cancellation uses up every mark |
| ActiveMessages.CancellationStaysInGeneration | ucp/_libs/ucx_endpoint.pyx:72-89 | after a finalizer nothing waits or is marked on its handle, and no receive posted on it later is cancelled until a new endpoint with that handle fails or closes |
| ActiveMessages.ErrorCancelsWaiting | ucp/_libs/ucx_endpoint.pyx:125-130 | whatever happens in between, unless the endpoint is finalized, the first scheduled cancellation after an error call-back cancels every receive waiting on the handle by then, also if call-backs post more |
| ActiveMessages.UncancelledRemove | ucp/_libs/ucx_endpoint.pyx:53-66 | cancelling a receive takes exactly it out of the order of service |
| ActiveMessages.DoPostInv | ucp/_libs/transfer_am.pyx:224-242 | a posted receive, with all that its call-back posts, keeps the matching invariant |
| ActiveMessages.PushResultInv | ucp/_libs/ucx_worker_cb.pyx:113-138 | a completed result keeps the matching invariant |
| ActiveMessages.CancelAllInv | ucp/_libs/ucx_endpoint.pyx:48-70 | cancelling a handle's receives keeps the matching invariant and leaves none waiting |
| AmDictionaries.AmWorker.AmRecvNb | ucp/_libs/transfer_am.pyx:222-242 | takes the oldest pooled result and calls back, or waits |
| AmDictionaries.AmWorker.RunCallback | ucp/_libs/ucx_worker_cb.pyx:129 | a call-back posts further receives while the queues are being changed |
| AmDictionaries.AmWorker.Push | ucp/_libs/ucx_worker_cb.pyx:113-138 | serves the oldest waiting receive, or pools the result |
| AmDictionaries.AmWorker.CancelSingle | ucp/_libs/ucx_endpoint.pyx:48-70 | cancels until no receive waits, deletes the list, returns the length it had |
| AmDictionaries.AmWorker.OnArrival | ucp/_libs/ucx_worker_cb.pyx:145-223 | every way in which a message is handed over at once or kept until its rendezvous completes |
| AmDictionaries.AmWorker.OnRndvDone | ucp/_libs/ucx_worker_cb.pyx:35-78 | a rendezvous completion pushes the buffer or the error |
| AmDictionaries.AmWorker.CancelScheduledRecvs | ucp/_libs/ucx_endpoint.pyx:76-89 | cancels on every marked handle, clears the marks, returns how many receives it found waiting on each in turn |
| AmDictionaries.AmWorker.CancelForFinalizer | ucp/_libs/ucx_endpoint.pyx:85-89 | cancels on one handle, discards its mark and returns how many receives were waiting |
| AmDictionaries.AmWorker.OnError | ucp/_libs/ucx_endpoint.pyx:129-130 | the error call-back marks the handle |
| ArrayLayout.CContiguous | ucp/_libs/arr.pyx:245-256 | true exactly if no strides are stored or they are the row-major ones |
| ArrayLayout.FContiguous | ucp/_libs/arr.pyx:263-276 | true exactly if the stored strides are the column-major ones, or none are stored for at most one dimension |
| ArrayLayout.Contiguous | ucp/_libs/arr.pyx:279-286 | true exactly if either holds |
| ArrayLayout.Nbytes | ucp/_libs/arr.pyx:293-299 | item size times the product of the extents |
| ArrayLayout.Strides | ucp/_libs/arr.pyx:222-238 | the stored strides, or exactly those that the row-major test accepts |
| ArrayLayout.AddressInRange | ucp/_libs/arr.pyx:279-299 | every byte of an accepted array lies in [0, nbytes) |
| ArrayLayout.AddressOneToOne | ucp/_libs/arr.pyx:279-299 | different (element, byte) pairs have different offsets |
| ArrayLayout.AddressOnto | ucp/_libs/arr.pyx:279-299 | every offset in [0, nbytes) is a byte of some element |
| ArrayLayout.ColumnMajorIffReversedRowMajor | ucp/_libs/arr.pyx:263-276 | the column-major test is the row-major test of the reversed array |
| ArrayLayout.ColumnMajorIsReversedRowMajor | ucp/_libs/arr.pyx:263-299 | column-major strides are reversed row-major strides of the reversed shape, which has the same nbytes |
| ArrayLayout.RunningProductsWithinNbytes | ucp/_libs/arr.pyx:251-255 | without empty extents no running product of either loop exceeds nbytes |
| ArrayLayout.RunningProductsFitIff | ucp/_libs/arr.pyx:251-299 | the products of a whole row-major loop stay within a limit exactly if the product after the last empty extent does, those of a whole column-major loop and of `_nbytes` exactly if the product before the first does; a contiguity test that stops at a wrong stride computes only some of them |
| ArrayLayout.EmptyArrayCanOverflow | ucp/_libs/arr.pyx:251-299 | arrays with nbytes 0 whose running products leave 64 bits, in either direction |
| Topology.CommonAncestor | ucp/_libs/src/topological_distance.c:27-43 | the nested loops terminate and compute the step-by-step walk |
| Topology.WalkFindsLcaIff | ucp/_libs/src/topological_distance.c:32-42 | from any two objects the walk ends at their lowest common ancestor exactly when the peaks on the two paths to it are the same |
| Topology.WalkFindsLca | ucp/_libs/src/topological_distance.c:32-42 | if one path to it stays at smaller depths, exactly when the other does; what lies above does not matter |
| Topology.WalkEndsAbove | ucp/_libs/src/topological_distance.c:32-42 | whatever the depths, the walk ends at a common ancestor or not at an object |
| Topology.FlatEdgeMissesLca | ucp/_libs/src/topological_distance.c:33-36 | one edge without increasing depth already makes the walk miss the lowest common ancestor |
| Topology.WalkCorrectIff | ucp/_libs/src/topological_distance.c:27-43 | on a tree the walk is right for every two objects exactly when depth strictly increases toward the root |
| ReusePairing.PickExisting | ucp/endpoint_reuse.py:81-85 | the server's loop over the client's ids, leaving at the first open endpoint |
| ReusePairing.PicksFirstOpen | ucp/endpoint_reuse.py:81-87 | the choice is the first id that leads to an open endpoint; if none does, what the last id leads to, even if it is closed |
| ReusePairing.AnswersOpenIff | ucp/endpoint_reuse.py:81-87 | in every run a server answers with an endpoint that has never closed exactly if some id leads to one; otherwise with what the last id leads to |
| ReusePairing.ProtocolNeverFails | ucp/endpoint_reuse.py:67-74 | in every run the client's lookup succeeds and neither assertion about registered tags fails |
| ReusePairing.ChosenEndsArePaired | ucp/endpoint_reuse.py:58-97 | in every run client and server end up with the two ends of one connection, exactly when the server did not answer with tag zero |
| ReusePairing.ZeroTagLeavesUnpaired | ucp/endpoint_reuse.py:67-75 | a run in which the server answers with tag zero and the two sides choose ends of different connections |
| ReusePairing.NextInv | ucp/endpoint_reuse.py:46-97 | every step of any connect keeps the invariant of all registries |
| ReuseCounts.CounterExactIff | ucp/endpoint_reuse.py:51-65 | in every run the count of an open endpoint is its live virtual endpoints plus the clients holding it, exactly when none of its virtual endpoints was closed twice |
| ReuseCounts.ClosedWithLastUser | ucp/endpoint_reuse.py:107-125 | an endpoint starts to close exactly when its last user lets go of it while it is open |
| ReuseCounts.OpenUntil | ucp/endpoint_reuse.py:119-125 | an endpoint is open from when it is made until it dies or its last user aborts it |
| ReuseCounts.ClosedStaysAsItIs | ucp/endpoint_reuse.py:107-121 | letting go of an endpoint that is not open changes no counter and closes nothing |
| ReuseCounts.ClosesUnderUserIff | ucp/endpoint_reuse.py:81-90 | in every run without second closes, an endpoint closes under a live virtual endpoint exactly when some connect settled for it after its close had begun |
| ReuseCounts.ReusedWhileClosing | ucp/endpoint_reuse.py:81-90 | a run in which that happens |
| ReuseCounts.SecondCloseMiscounts | ucp/endpoint_reuse.py:107-114 | a run in which a second close of one virtual endpoint closes the endpoint under another |
| ReuseSystem.NothingFails | ucp/endpoint_reuse.py:46-97 | in every run of all processes together no assertion fails, no lookup misses and every counter that a step moves exists |
| ReuseSystem.CounterCountsConnects | ucp/endpoint_reuse.py:51-97 | in every run the count of an open endpoint is the number of live virtual endpoints whose connects settled for it plus the clients holding it |
| ReuseSystem.CloseCutsNoLivePair | ucp/endpoint_reuse.py:107-125 | when the code starts to close one end of a connection, no live virtual endpoint uses that end, and no virtual connection with both ends live runs over it unless its server answered with tag zero |
| ReuseSystem.AbortedIsClosed | ucp/endpoint_reuse.py:119-125 | in every run an existing endpoint aborted with its last user, or dead, is closed for every later connect |
| ReuseSystem.IdsAreOpen | ucp/endpoint_reuse.py:51-56 | the client sends the ids of the open endpoints in its list and no others |
| ReuseSystem.NextInv | ucp/endpoint_reuse.py:46-125 | every step of any connect, close or failure is sound and keeps connections, counters and virtual endpoints in agreement |
| ReuseCounts.HeldEffect | ucp/endpoint_reuse.py:53-56 | a connecting client adds one to the count of every open endpoint and to no other |
| ReuseCounts.Registry.AddHandle | ucp/endpoint_reuse.py:9-11 | a handle starts with one user |
| ReuseCounts.Registry.HoldAll | ucp/endpoint_reuse.py:51-56 | the loop that holds every open endpoint |
| ReuseCounts.Registry.LetGoNext | ucp/endpoint_reuse.py:61-65 | one turn of the loop that lets go |
| ReuseCounts.Registry.Reuse | ucp/endpoint_reuse.py:87-88 | an existing endpoint gets one more user |
| ReuseCounts.Registry.Close | ucp/endpoint_reuse.py:107-114 | a live virtual endpoint is closed |
| ReuseCounts.Registry.Abort | ucp/endpoint_reuse.py:119-125 | a live virtual endpoint is aborted, and the endpoint at once with the last one |
| OwnershipTree.ReleaseOrder | ucp/_libs/ucx_object.pyx:9-16 | in every run no handle is released twice, and a released handle's children are neither alive nor released later |
| OwnershipTree.CloseInv | ucp/_libs/ucx_object.pyx:37-42 | one close keeps that order and leaves the object closed |
| OwnershipTree.CloseReachesEverything | ucp/_libs/ucx_object.pyx:9-16 | while no release has failed, close closes everything below the object at any depth |
| OwnershipTree.NothingLeftOpen | ucp/_libs/ucx_object.pyx:9-16 | a close that returns normally leaves nothing alive below, unless an earlier one failed |
| OwnershipTree.NoFailureNoException | ucp/_libs/ucx_object.pyx:37-42 | close raises only if releasing a handle does |
| OwnershipTree.CloseRaisesIff | ucp/_libs/ucx_object.pyx:9-16 | close raises exactly if it comes to a handle whose release raises, and stops there; if it returns, everything it closed has been released |
| OwnershipTree.RaisingChildStops | ucp/_libs/ucx_object.pyx:12-16 | a child whose close raises makes the owner's close raise and leaves the children after it alone |
| OwnershipTree.UCXObjects.AddChild | ucp/_libs/ucx_object.pyx:49-53 | a child is appended to its owner's list |
| OwnershipTree.UCXObjects.AddFinalizer | ucp/_libs/ucx_object.pyx:55-64 | the object becomes alive with no children |
| OwnershipTree.UCXObjects.NewChild | ucp/_libs/ucx_worker.pyx:144-151 | a constructor adds the finalizer, then registers with the owner of the handle it uses |
| OwnershipTree.UCXObjects.CloseObject | ucp/_libs/ucx_object.pyx:37-42 | the finalizer runs once, children first, and terminates in the number of live finalizers |
| Wire.CtrlMsgRoundTrip | ucp/core.py:79-88 | packing succeeds exactly for 64-bit values, and unpacking undoes it |
| Wire.HandshakeCrossWires | ucp/core.py:38-68 | both sides read what the other sent; each receives messages and control messages on the message and control tags that it drew, and sends on those of the other |
| Wire.ChannelsStayApart | ucp/core.py:142-151 | if the drawn tags differ, no message channel of the pair equals a control channel, and the two directions differ |
| Wire.AcceptedIff | ucp/core.py:57-68 | a message is accepted exactly if it is the one an endpoint with those tags sends, checksum included |
| Wire.HashBelow | ucp/utils.py:265-270 | the 16 hexadecimal digits of a hash always fit the 64-bit field they are packed into |
| Wire.HexInjective | ucp/utils.py:265-270 | different digests of one length give different numbers |
| Wire.ExchangeNeverStuckIff | ucp/core.py:50-55 | the exchange can never deadlock exactly when one side is the listener |
| Wire.ObjectsRoundTrip | ucp/core.py:820-855 | any sequence of objects sent one after another is read back, from two counted messages each |
| Wire.ReadObjIff | ucp/core.py:850-855 | `recv_obj` returns an object exactly if the next two messages are what `send_obj` makes of it, and uses up one message if the length is malformed, two otherwise |
| Wire.ObjectChannel.Send | ucp/core.py:646-649 | a message joins the end of its tag and is counted |
| Wire.ObjectChannel.Recv | ucp/core.py:724-726 | the oldest message is used up; it counts as finished only if its length is the expected one |
| Wire.ObjectChannel.SendObj | ucp/core.py:820-824 | two counted messages: the length, then the object |
| Wire.ObjectChannel.RecvObj | ucp/core.py:850-855 | reads them back, or raises on an unexpected length, and counts the receives that succeeded |
| Mesh.NoDuplicateRank | ucp/utils.py:165-177 | in every run neither assertion about a rank already present fails |
| Mesh.LeavesWithEveryPeer | ucp/utils.py:179-180 | a rank leaves its waiting loop exactly with all other ranks in its dictionary |
| Mesh.FullWhenStuck | ucp/utils.py:165-180 | in every run, once no step is possible every rank has every other: none waits for ever |
| Mesh.RunLength | ucp/utils.py:174-180 | no run has more than n(n-1) steps, so that point is always reached |
| Mesh.PairsShareConnection | ucp/utils.py:168-177 | two ranks that know each other share one connection |
| Mesh.Worker.ConnectNext | ucp/utils.py:174-177 | one turn of the connecting loop is the step of the mesh |
| Mesh.Worker.OnPeer | ucp/utils.py:165-169 | accepting a rank is the step of the mesh |

## Left out

What the environment is taken to do:

- UCX, hwloc, CUDA and the `asyncio` scheduler are not modelled. Assumed of UCX: messages with one tag
  are matched in order, a handle is recycled only after it was freed, and each request in progress
  completes at most once, on its own or because of a cancellation.
- Results about requests assume fewer than 2^32 of them, except those in `Recycling.dfy`.
- `hash()` of a closed request is its `id()`, assumed to differ from every uid in use; a hash collision
  between dictionary keys of other kinds is not modelled.
- The results about active-message queues assume no error call-back for an endpoint after its finalizer
  has started.
- Endpoint reuse assumes unique 32-bit and 64-bit tags. `ReuseSystem.dfy` assumes that no virtual endpoint is
  closed twice; a client may list any of its existing endpoints, of which the code lists all.

What the repository does and the model does not:

- Receives posted directly on a worker, and sends or receives with `force_tag`, are not part of the
  shutdown model: a receive matches only messages of its own connection.
- Endpoints made from a worker address, which have no tags and cannot send control messages.
- A submission that raises at once is a step of the shutdown model, but not of the request model, where
  it leaves nothing behind.
- Setting `_handle` to NULL in `UCXRequest.close` is covered by the change of uid, except for the uid
  zero, where the results are about the other wrappers of the same request. Applications that close a request
  still in progress are not modelled.
- An active-message call-back posts finitely many receives, nested to any depth. One that posts a receive
  whenever it is called, also on cancellation, makes the cancellation loop run for ever.
- Call-backs that close endpoints while they run, and `UCXEndpointCloseCallback`.
- The pool of a handle is not cleared by the code when its endpoint closes, so a later endpoint with the
  same handle can receive pooled results of an earlier one; the model keeps this. The probe `am_probe` is
  not modelled.
- Releasing the header of an active-message send.
- The message counters are unbounded. Packing more than 2^64 of them raises in the code.
- The loop that drains unreceived tag messages before a worker is destroyed.
- EndpointReuse: that a reused endpoint is still open is not claimed; the code may answer with a closed one.
- `count_osdev_objects` and `get_osdev_distance_to_pcidev` beyond the common ancestor, and `qsort`.
- SHA-1 in `hash64bits` is an arbitrary function into 64-bit numbers.
- The parent process and its queues in `run_on_local_network`.
- Remote memory access, the file-like wrapper around it, configuration, logging, addresses, and buffer
  glue: they would add only easy members.
