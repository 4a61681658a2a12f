# Verified model of the OFI transport's message engine

This project models, in Dafny, the RDMA transport of a libfabric network plugin for collective
communication, together with the data structures the transport rests on, and proves what they
promise. Run `dafny verify dfyconfig.toml` to check all of it.

libfabric is an abstract network. Its steps are "post accepted", "post refused", "operation placed in
memory" and "completion delivered", and they happen in any order. Each locked section of the code is one
step.

## What is proved

**The send/receive protocol** (`Transfer*.dfy`, `Requests.dfy`, `Wire.dfy`). A receiver advertises a
buffer in a ctrl message; the sender writes the message in stripes, or has already sent it eagerly; both
sides find the request of a message from a 10-bit number in a 256-slot message buffer.

- `RunFailsIff`: in every interleaving of calls, completions and refused posts, and with requests handed
  to `test` in any order, a run fails if and only if an action reaches 256 messages past the oldest
  request of its side. Otherwise no handler takes an error path, meets a freed request or writes outside
  its buffer.
- `NarrowRunsSucceed`, `NoRunFails`: callers can keep clear of that by watching the distance to their
  oldest request, and handing requests back in order keeps clear of it by itself.
- `Delivery`: what the receiving application gets back is, message by message, the front of what was
  sent, cut to the shorter of the two lengths, and the sender is told that length.
- `CtrlNumbersAreSafe`, `EagerNumbersAreSafe`: a wrapped number on the wire is never taken for a completed
  message and never leads to another message's request.
- `NetworkRests`, `EverythingArrives`: the network can take only boundedly many steps without a new call,
  is never stuck before it is done, and can always be run on until every message that both sides asked
  for has been delivered.

**Deferred close** (`CloseProtocol.dfy`). A send communicator is destroyed, and its id reused, only when
nothing addressed to that id is left anywhere, although messages overtake each other; and once both sides
have closed it can always be destroyed by its own steps.

**The message buffer** (`MsgBuff.dfy`, `MsgLedger.dfy`, `MsgAliasing.dfy`). The circular buffer on wrapped
numbers answers every run as a map on unbounded numbers does, if and only if the number of slots divides
the number range; over a run each message is started and completed at most once.

**Striping and queues** (`Scheduler.dfy`, `Pending.dfy`, `RxBuffers.dfy`, `Deque.dfy`). Schedules cut
messages exactly and load rails evenly. One queue holds everything the network has refused, sends, single
posts and receive buffers alike: it is drained in order, every stripe is posted once, and receive-buffer
counts are exact however far it gets. The intrusive deque is a sequence.

**Memory** (`MrCache.dfy`, `MrDomain.dfy`, `MrCoverage.dfy`, `Freelist.dfy`, `IdPool.dfy`, `Bits.dfy`). The
registration cache agrees with a naive search and conserves references; freelist entries never overlap
and are never lost; the bit array of the ID pool is a set.

**NIC grouping** (`Topo*.dfy`). Four passes over the topology tree lose and duplicate no NIC.

`Arithmetic.dfy`, `Rounding.dfy` and `Collections.dfy` hold what these share.

## Properties that do not hold as one might state them

Each has a concrete counterexample and the exact condition under which it does hold.

- The stripe count divides the rail count: fails for 3 rails; `StripesDivideRailsIff`.
- The message buffer never confuses two live messages: fails when the slot count does not divide the
  number range, which `init` does not check; `AgreesIffDivisible`.
- `test` may be called in any order: with the first send complete but not handed back, the 256th send
  after it fails although only one request is outstanding (`OutOfOrderFails`); `RunFailsIff`.
- A registration found in the cache covers the caller's bytes: fails for every key that does not begin
  and end at page boundaries (`CoveredIffAligned`, `UnalignedKeyStrays`). Keys of plain buffers are
  rounded to at most 4096 bytes, so they fail on larger pages (`CoveredIff`, `LargePagesStray`); DMA-buf
  keys are not rounded at all, so they fail on pages of 4096 bytes too (`DmaBufStrays`).
- Freelist entries have the alignment asked for: fails when the alignment exceeds a page
  (`MisalignedList`); `AlignedIff`.

## Conventions

Integers are unbounded; wrap-around of sequence numbers, of comm-id fields and of 64-bit words is written
out. `& -p` and `& ~(p - 1)` with p a power of two are `RoundDown`, which `Rounding.RoundDownIs` ties to
the remainder. A NIC is named by its topology node, which its bus id determines. Tree nodes are numbered
so that parents come before children. `budget` and `accept` parameters stand for how many more posts the
network accepts within one call.

## Model

| member | source | states |
|---|---|---|
| `TransferRun.NoRunFails` | src/nccl_ofi_rdma.cpp:1013-1211 | no run in which both applications hand back their oldest request first ends in an error: no handler returns one, uses a freed request, is refused by the message buffer or places bytes outside a live buffer |
| `TransferRun.RunFailsIff` | src/nccl_ofi_rdma.cpp:1013-1211 | for every sequence of calls, arrivals, completions and refused posts, with requests handed to test in any order, the run ends in an error if and only if some accepted call or arriving message is 256 or more past the oldest request of the side it reaches |
| `TransferRun.NarrowRunsSucceed` | src/nccl_ofi_rdma.cpp:5796-5830 | if sends stay less than s and receives less than r past the oldest request not handed back, with s + r at most 256, no run fails, in whatever order requests are handed back |
| `TransferRun.InOrderIsNarrow` | src/nccl_ofi_rdma.cpp:5819-5824 | when requests are handed back in order, the limit of 128 outstanding requests is a limit of 128 on the distance to the oldest one |
| `TransferRun.Delivery` | src/nccl_ofi_rdma.cpp:717-943 | after every run, what was delivered for message n equals the first min(send length, receive length) bytes of the n-th sent one, and every size reported to the sender is that minimum |
| `TransferRun.CompletionMeansArrival` | src/nccl_ofi_rdma.cpp:2664-2743 | as soon as a receive request is complete its buffer already holds the sender's bytes, and both requests, once complete, report the same size |
| `TransferRun.CtrlNumbersAreSafe` | src/nccl_ofi_rdma.cpp:1021-1047 | the 10-bit number of a ctrl message under way is unavailable exactly if its message is 256 or more past the oldest send, not started exactly if it is nearer and the send has not been called, and otherwise leads to the request of that very message |
| `TransferRun.EagerNumbersAreSafe` | src/nccl_ofi_rdma.cpp:1156-1180 | the same for eager messages at the receiver |
| `TransferRun.WritesHitLiveBuffers` | src/nccl_ofi_rdma.cpp:5383-5408 | a write not yet placed targets the buffer of a live, incomplete receive and stays inside the length the receiver advertised |
| `TransferRun.StripesPostedOnce` | src/nccl_ofi_rdma.cpp:5527-5543 | whatever posts were refused, the writes of a message are a prefix of its schedule in order, the schedule covers the message contiguously, and the send is complete exactly when every stripe is posted and acknowledged |
| `TransferRun.QuietMeansComplete` | src/nccl_ofi_rdma.cpp:717-739 | when nothing is queued or under way for a message that both sides called for, both requests are complete: no completion is ever missing |
| `TransferRun.StepSafe` | src/nccl_ofi_rdma.cpp:1573-1719 | every action keeps the protocol invariant, and it fails if and only if it goes 256 messages past the oldest request of its side |
| `TransferProgress.NetworkRests` | src/nccl_ofi_rdma.cpp:1898-1958 | without new calls, a run in which every network step or accepted queue turn does something is no longer than the work left |
| `TransferProgress.NeverStuck` | src/nccl_ofi_rdma.cpp:1898-1958 | as long as anything is queued, unhandled or under way to a window it fits in, some network step is possible and does not fail |
| `TransferProgress.EverythingArrives` | src/nccl_ofi_rdma.cpp:2664-2743 | from every reachable state, without further sends or receives, the protocol can be run until every message called for on both sides has been delivered and reported with the right length |
| `TransferProgress.OutOfOrderFails` | src/nccl_ofi_rdma.cpp:5298-5336 | from every start there is a run, failing nowhere, that leaves the first send complete but not handed back and the next 255 handed back; then only one send is outstanding and every further send fails |
| `TransferSteps.CtrlArrivesSafe` | src/nccl_ofi_rdma.cpp:1013-1101 | handling a ctrl message puts it aside or finds the right request and keeps the invariant, before or after the send, for eager and striped sends; it fails exactly if the message is not in the sender's window |
| `TransferSteps.EagerArrivesSafe` | src/nccl_ofi_rdma.cpp:1142-1211 | handling an eager message, early or late, empty or not, keeps the invariant; it fails exactly if the message is not in the receiver's window |
| `TransferSteps.WriteCountedSafe` | src/nccl_ofi_rdma.cpp:1426-1449 | the completion of a write reaches the receive it belongs to through the immediate data and is counted once |
| `TransferSteps.WriteLandsSafe` | src/nccl_ofi_rdma.cpp:5383-5408 | placing a write keeps every byte placed before it correct, in its own buffer and in every other live one |
| `TransferSteps.CopyDoneSafe` | src/nccl_ofi_rdma.cpp:759-788 | the completed copy of an eager message fills the destination with the front of the sender's bytes and completes the receive with that length |
| `TransferSteps.DrainSendSafe` | src/nccl_ofi_rdma.cpp:1898-1958 | draining the sender's queue resumes the front request where it stopped and keeps the queue equal to the requests with posts left |
| `TransferSteps.DrainRecvSafe` | src/nccl_ofi_rdma.cpp:1836-1888 | the same for queued ctrl messages and eager copies at the receiver |
| `TransferCalls.SendSafe` | src/nccl_ofi_rdma.cpp:5796-6009 | a send call, with or without a ctrl message waiting, eager or not, keeps the invariant for every pattern of accepted posts; it fails exactly if it is accepted with the oldest send 256 back |
| `TransferCalls.RecvSafe` | src/nccl_ofi_rdma.cpp:3452-3644 | a receive call, with or without an eager message waiting, keeps the invariant; it fails exactly if it is accepted with the oldest receive 256 back |
| `TransferCalls.RetireSendSafe` | src/nccl_ofi_rdma.cpp:2664-2743 | handing back any completed send never fails, keeps the invariant, moves the window over every send handed back and no other, and reports the right size |
| `TransferCalls.RetireRecvSafe` | src/nccl_ofi_rdma.cpp:2664-2743 | handing back any completed receive never fails, keeps the invariant, moves the window over every receive handed back and no other, and delivers the right bytes |
| `TransferCalls.MoveCounterSafe` | src/nccl_ofi_rdma.cpp:896-943 | other communicators may set the shared round-robin counter to any rail at any time without harm |
| `TransferRing.CompleteAny` | src/nccl_ofi_msgbuff.cpp:220-249 | completing a message in the middle of the window marks it, and the window moves past exactly the completed messages at its low end |
| `TransferRing.InsertFar` | src/nccl_ofi_msgbuff.cpp:107-164 | a number from 256 to 767 past the oldest message is reported as having no room and is not inserted |
| `TransferMsg.CtrlToSendOk` | src/nccl_ofi_rdma.cpp:896-943 | meeting the ctrl message fixes the common length, a schedule of at most the rail count and the immediate data, and posts a prefix of it |
| `TransferMsg.ProgressOk` | src/nccl_ofi_rdma.cpp:5499-5543 | posting more stripes appends exactly the next ones of the schedule and waits exactly if some are left |
| `TransferMsg.WriteCountedOk` | src/nccl_ofi_rdma.cpp:854-894 | the last counted segment, and no earlier one, completes the data part of the receive with the full length |
| `TransferMsg.NewRecvOk` | src/nccl_ofi_rdma.cpp:3337-3385 | a new receive posts one ctrl message and, if the eager message is there, one copy cut to the destination |
| `TransferMsg.NewSendEager` | src/nccl_ofi_rdma.cpp:5243-5296 | an eager send has one stripe, waits for two completions and carries the whole message |
| `Requests.SendRequest.IncCompletion` | src/nccl_ofi_rdma.cpp:717-739 | counts one completion and completes the send at its total, as the protocol model does |
| `Requests.SendRequest.UpdateFromRemote` | src/nccl_ofi_rdma.cpp:896-943 | updates length, size, schedule, total and immediate data from a ctrl message and advances the round-robin counter, as the protocol model does |
| `Requests.SendRequest.PostWrites` | src/nccl_ofi_rdma.cpp:5527-5543 | posts min(accepted, left) further stripes in schedule order and is blocked exactly if stripes are left |
| `Requests.SendRequest.Progress` | src/nccl_ofi_rdma.cpp:5499-5543 | eager and striped posting, as the protocol model does it |
| `Requests.RecvRequest.IncCompletion` | src/nccl_ofi_rdma.cpp:717-739 | adds the size and completes the receive at its second completion |
| `Requests.RecvRequest.IncSegment` | src/nccl_ofi_rdma.cpp:854-894 | sums segments and passes the sum on exactly with the last one |
| `Wire.ImmRoundTrip` | src/nccl_ofi_rdma.cpp:43-93 | packing segment count, comm id and sequence number into immediate data and unpacking them is the identity, and the result fits in 32 bits |
| `Wire.ImmSegsIff` | src/nccl_ofi_rdma.cpp:43-93 | the segment count read back is the one packed if and only if it is below 16 |
| `CloseProtocol.DestroyedIsSilent` | src/nccl_ofi_rdma.cpp:4008-4044 | after any run, nothing is queued or under way for a destroyed send communicator, and it has handled every ctrl message ever sent to it |
| `CloseProtocol.ReadyIffSilent` | src/nccl_ofi_rdma.cpp:4008-4044 | the test on the two counters holds if and only if the peer has sent its close message and nothing is left queued or under way |
| `CloseProtocol.MessagesReachTheirOwner` | src/nccl_ofi_rdma.cpp:1345-1362 | a message under way carries an id that still belongs to the communicator it was meant for, however often ids are reused |
| `CloseProtocol.LiveIdsDistinct` | src/nccl_ofi_rdma.cpp:4008-4044 | two live send communicators never share an id |
| `CloseProtocol.CloseMayOvertake` | src/nccl_ofi_rdma.cpp:1215-1239 | the counter is needed: the close message can be handled while a ctrl message is still under way |
| `CloseProtocol.RunSafe` | src/nccl_ofi_rdma.cpp:3822-3931 | no run of openings, ctrl messages, closes and finalisations, in any order, reaches a handler error |
| `CloseProtocol.ClosedConnectionEnds` | src/nccl_ofi_rdma.cpp:4008-4044 | after any run, a connection closed on both sides can be run to the destruction of its send communicator by posts, completions, arrivals and finalisations of that connection alone: nothing is leaked |
| `MsgLedger.RunAgrees` | src/nccl_ofi_msgbuff.cpp:64-249 | with the slot count dividing the number range, every run of insert, replace, retrieve and complete inside the window answers exactly as a map on unbounded numbers does |
| `MsgLedger.StepAgrees` | src/nccl_ofi_msgbuff.cpp:134-249 | each operation returns what the map returns, leaves the buffer standing for the map it leaves, and keeps the window, the tail and the slots well-formed |
| `MsgLedger.StatusAgrees` | src/nccl_ofi_msgbuff.cpp:107-132 | inside [L - N, L + N) the status of a wrapped number is the status of the message |
| `MsgLedger.OutsideUnavailable` | src/nccl_ofi_msgbuff.cpp:107-132 | every residue that no message in the window has is unavailable |
| `MsgLedger.InsertAgrees` | src/nccl_ofi_msgbuff.cpp:134-164 | insertion succeeds exactly on messages not started, marks exactly the skipped ones not started and disturbs no live slot |
| `MsgLedger.ReplaceAgrees` | src/nccl_ofi_msgbuff.cpp:166-187 | replacement succeeds exactly on live messages and changes only their element |
| `MsgLedger.RetrieveAgrees` | src/nccl_ofi_msgbuff.cpp:189-218 | retrieval returns the element of a live message, and not started where there is no room |
| `MsgLedger.CompleteAgrees` | src/nccl_ofi_msgbuff.cpp:220-249 | completion succeeds exactly on live messages and moves the tail over every completed message and no other |
| `MsgLedger.LifeIsOneWay` | src/nccl_ofi_msgbuff.cpp:134-249 | no operation moves a message back; only a successful insertion starts it and only a successful completion ends it |
| `MsgLedger.StartedAndCompletedOnce` | src/nccl_ofi_msgbuff.cpp:134-249 | over any run inside the window of a new buffer each message has at most one successful insertion, at most one successful completion, and no completion without an insertion |
| `MsgLedger.FreshTracks` | src/nccl_ofi_msgbuff.cpp:16-62 | a new buffer stands for the empty map whatever its slots hold |
| `MsgAliasing.AgreesIffDivisible` | src/nccl_ofi_msgbuff.cpp:93-97 | the buffer that init accepts answers every run as the map does if and only if the slot count divides the number range |
| `MsgAliasing.ConfuseDiverges` | src/nccl_ofi_msgbuff.cpp:93-97 | otherwise a run of insertions and completions up to the wrap, all inside the window, ends with a message answered with another one's element |
| `MsgBuff.MessageBuffer.Init` | src/nccl_ofi_msgbuff.cpp:16-62 | fails exactly if the slot count is zero or its double reaches the 16-bit number range |
| `MsgBuff.MessageBuffer.GetIdxStatus` | src/nccl_ofi_msgbuff.cpp:107-132 | the status of an index as the specification gives it |
| `MsgBuff.MessageBuffer.InsertElem` | src/nccl_ofi_msgbuff.cpp:134-164 | the new buffer and the answer are those of the specification that the lemmas above relate to the map |
| `MsgBuff.MessageBuffer.AdvanceNext` | src/nccl_ofi_msgbuff.cpp:145-160 | the catch-up loop terminates and records exactly the skipped indices |
| `MsgBuff.MessageBuffer.ReplaceElem` | src/nccl_ofi_msgbuff.cpp:166-187 | replacement in place, as specified |
| `MsgBuff.MessageBuffer.RetrieveElem` | src/nccl_ofi_msgbuff.cpp:189-218 | retrieval, as specified |
| `MsgBuff.MessageBuffer.CompleteElem` | src/nccl_ofi_msgbuff.cpp:220-249 | completion in place with the loop that moves the tail, as specified |
| `Scheduler.PlanPartitions` | src/nccl_ofi_scheduler.cpp:72-122 | for every size and rail count the stripes are contiguous from zero, end exactly at the size, lie on pairwise distinct rails dealt round-robin, and start at multiples of 128 when non-empty |
| `Scheduler.ContiguousCovers` | src/nccl_ofi_scheduler.cpp:108-120 | every byte of the message is in exactly one stripe |
| `Scheduler.LoadsBalanced` | src/nccl_ofi_scheduler.cpp:87-120 | after any sequence of messages of any sizes the stripe counts of any two rails differ by at most one |
| `Scheduler.RunIsCyclic` | src/nccl_ofi_scheduler.cpp:87-120 | over a whole run the rails are used in strict rotation, across message boundaries |
| `Scheduler.StripesDivideRailsIff` | src/nccl_ofi_scheduler.cpp:44-61 | the stripe count divides the rail count if and only if one stripe is wanted or the rail count has a divisor from 2 to the wanted count |
| `Scheduler.EvenRailsStripesDivide` | src/nccl_ofi_scheduler.cpp:44-61 | with an even rail count the stripe count always divides it |
| `Scheduler.OddRailsMiss` | src/nccl_ofi_scheduler.cpp:54 | with three rails and two wanted stripes it does not |
| `Scheduler.SmallMessageOneStripe` | src/nccl_ofi_scheduler.cpp:44-61 | a message of at most the minimal stripe size, empty ones included, is one stripe |
| `Scheduler.LargestDivisor` | src/nccl_ofi_scheduler.cpp:51-59 | the largest divisor of the rail count from 2 up to the wanted count when there is one, the wanted count itself otherwise |
| `Scheduler.ThresholdScheduler.GetNumStripes` | src/nccl_ofi_scheduler.cpp:44-61 | the countdown loop computes that count |
| `Scheduler.ThresholdScheduler.GetSchedule` | src/nccl_ofi_scheduler.cpp:72-122 | the schedule is the partition above, and the counter moves on by its length |
| `Scheduler.ThresholdScheduler.FillSchedule` | src/nccl_ofi_scheduler.cpp:108-120 | the stripe loop builds the stripes of the partition |
| `Pending.Endpoint.ProcessPending` | src/nccl_ofi_rdma.cpp:1898-1958 | the posts made are exactly the first ones of what the queued requests owe, in queue order; requests leave from the front only |
| `Pending.Endpoint.DrainFront` | src/nccl_ofi_rdma.cpp:1905-1956 | the front request resumes at its next stripe and returns to the front exactly if stripes are left |
| `Pending.Endpoint.SendProgress` | src/nccl_ofi_rdma.cpp:5527-5543 | posts the next stripes in order until done or refused |
| `Pending.Endpoint.Submit` | src/nccl_ofi_rdma.cpp:5977-5990 | a new request is posted as far as possible and queued at the back exactly if stripes are left |
| `Pending.Endpoint.PostedExactly` | src/nccl_ofi_rdma.cpp:5506-5543 | over any run of submissions and drains, a request that no longer waits was posted stripe by stripe, each stripe once and in order, so its completions number its total |
| `RxBuffers.Endpoint.PostOnRail` | src/nccl_ofi_rdma.cpp:2409-2453 | fills a rail to its maximum or, when the network refuses, makes exactly the accepted posts, queues one buffer behind everything that waits and counts those; the count equals the rail's promised buffers again afterwards |
| `RxBuffers.Endpoint.CheckRail` | src/nccl_ofi_rdma.cpp:948-958 | tops up only below the minimum and keeps the account |
| `RxBuffers.Endpoint.Repost` | src/nccl_ofi_rdma.cpp:964-989 | a handled buffer is posted, or queued behind everything that waits, without leaving the count |
| `RxBuffers.Endpoint.Hold` | src/nccl_ofi_rdma.cpp:995-1006 | a held buffer leaves the count, which was positive, and the rail is topped up |
| `RxBuffers.Endpoint.CheckPost` | src/nccl_ofi_rdma.cpp:5745-5790 | a released buffer re-enters the count if its rail has room and is freed otherwise |
| `RxBuffers.Endpoint.Arrive` | src/nccl_ofi_rdma.cpp:1246-1262 | a completed buffer stays counted until it is handled |
| `RxBuffers.Endpoint.ProcessPending` | src/nccl_ofi_rdma.cpp:1898-1958 | draining the shared queue posts exactly the first of what its requests of all kinds owe, in queue order, and changes no count |
| `RxBuffers.Endpoint.CountPositive` | src/nccl_ofi_rdma.cpp:1000 | the assertion that the count is positive when a counted buffer is taken out holds |
| `RxBuffers.Endpoint.PromisedOnce` | src/nccl_ofi_rdma.cpp:964-989 | each time a buffer is promised it is given to the network exactly once, or not yet if it waits in the shared queue |
| `RxBuffers.Endpoint.Submit` | src/nccl_ofi_rdma.cpp:5977-5990 | a send or any other request enters the same queue without disturbing the account of buffers |
| `Deque.List.InsertBack` | include/nccl_ofi_deque.h:71-88 | the links stand for the old sequence with the element behind it |
| `Deque.List.InsertFront` | include/nccl_ofi_deque.h:96-113 | the links stand for the old sequence with the element before it |
| `Deque.List.RemoveFront` | include/nccl_ofi_deque.h:130-158 | takes the first element, or answers null on the empty deque |
| `Deque.List.Remove` | include/nccl_ofi_deque.h:163-182 | takes any element out of the middle, keeping the others in order, and unlinks it |
| `Deque.List.GetFront` | include/nccl_ofi_deque.h:187-203 | the first element, or null |
| `Deque.List.GetNext` | include/nccl_ofi_deque.h:208-225 | the successor, or null behind the last element |
| `Deque.List.ForEach` | include/nccl_ofi_deque.h:243-248 | an iteration whose body removes some of the elements it visits visits every element once and in order and leaves exactly the others |
| `Deque.List.EmptyIff` | include/nccl_ofi_deque.h:120-123 | the head points to itself exactly if the deque is empty |
| `Deque.WithoutKeeps` | include/nccl_ofi_deque.h:243-248 | what is left after the iteration is exactly the elements the body did not remove |
| `MrCache.LookupIff` | src/nccl_ofi_mr.cpp:112-148 | a lookup finds a handle if and only if some live entry's pages contain the whole request, and then the handle of such an entry |
| `MrCache.InsertAfterMiss` | src/nccl_ofi_rdma.cpp:2959-2992 | the insertion that follows a missed lookup of the same key is never refused |
| `MrCache.PagesEnd` | src/nccl_ofi_mr.cpp:102-110 | the computed pages end at the first page boundary at or behind the last byte |
| `MrCache.HitTest` | src/nccl_ofi_mr.cpp:132-135 | the scan's test in pages is containment of intervals |
| `MrCache.MakeVec` | include/nccl_ofi_mr.h:103-132 | a plain buffer's key contains the buffer and begins and ends at multiples of the alignment |
| `MrCache.InsertOrdered` | src/nccl_ofi_mr.cpp:150-224 | insertion keeps the slots sorted by address |
| `MrCache.DelOrdered` | src/nccl_ofi_mr.cpp:237-276 | removal keeps the slots sorted by address |
| `MrCache.Cache.Scan` | src/nccl_ofi_mr.cpp:124-148 | stopping at the first larger address misses no entry that a search of all slots would find |
| `MrCache.Cache.LookupEntry` | src/nccl_ofi_mr.cpp:112-148 | answers as the naive search and counts one more reference to the entry found; hit and miss counters move by one |
| `MrCache.Cache.InsertEntry` | src/nccl_ofi_mr.cpp:150-224 | refuses exactly what the naive search finds and otherwise adds one entry at its place |
| `MrCache.Cache.Grow` | src/nccl_ofi_mr.cpp:84-100 | doubles the array and keeps the entries |
| `MrCache.Cache.LookupHandle` | src/nccl_ofi_mr.cpp:226-235 | the first slot with the handle, or -1 |
| `MrCache.Cache.DelEntry` | src/nccl_ofi_mr.cpp:237-276 | drops one reference, removes the entry with the last one, and says which |
| `MrDomain.RunConserves` | src/nccl_ofi_mr.cpp:112-276 | over any run and for every handle, references counted equal insertions plus hits minus deletes, and entries equal insertions minus deletes that returned 1 |
| `MrDomain.RegisteredIffHeld` | src/nccl_ofi_rdma.cpp:2807-3001 | after any run of register and deregister calls a handle is registered with the device if and only if someone holds it |
| `MrDomain.CallsSucceed` | src/nccl_ofi_rdma.cpp:2946-3001 | in every run a registration never hits the refused insertion and a release always finds its entry |
| `MrCoverage.ServesIffAligned` | src/nccl_ofi_mr.cpp:102-148 | every buffer that hits an entry lies inside the bytes registered for it if and only if the entry's key, rounded or not, begins and ends at page boundaries |
| `MrCoverage.CoveredIffAligned` | src/nccl_ofi_mr.cpp:102-148 | for any set of keys that callers may register, one-byte plain buffers among them: every holder is covered by its handle in every run if and only if every key, as rounded, begins and ends at page boundaries |
| `MrCoverage.UnalignedKeyStrays` | src/nccl_ofi_mr.cpp:112-148 | after the registration of any other key some one-byte buffer is given a handle that does not cover it |
| `MrCoverage.CoveredIff` | src/nccl_ofi_net.cpp:165 | every holder of a plain buffer's handle is covered by it in every run if and only if pages are at most 4096 bytes |
| `MrCoverage.LargePagesStray` | src/nccl_ofi_net.cpp:1022-1025 | on larger pages two small buffers of one page share a registration that holds only the first |
| `MrCoverage.DmaBufStrays` | include/nccl_ofi_mr.h:115-125 | two DMA-buf ranges in one 4096-byte page share a registration that holds only the first |
| `Freelist.PaddedIsLargest` | src/nccl_ofi_freelist.cpp:24-46 | the padded count is the largest that fits the pages of the requested one, and needs no other pages |
| `Freelist.EntriesApart` | src/nccl_ofi_freelist.cpp:314-344 | the entries of all blocks are pairwise disjoint |
| `Freelist.EntryInside` | src/nccl_ofi_freelist.cpp:314-344 | every entry, with its redzone, lies inside one block and carries that block's registration |
| `Freelist.AlignedIff` | src/nccl_ofi_freelist.cpp:72-86 | the entries of every block that can be laid out have the alignment asked for if and only if the alignment is at most a page |
| `Freelist.FreeList.AllAligned` | src/nccl_ofi_freelist.cpp:72-86 | over any run, every entry of a list, free or handed out, has the alignment asked for when that is at most a page |
| `Freelist.MisalignedEntry` | src/nccl_ofi_freelist.cpp:314-344 | for every larger alignment a one-entry block that growing can build holds a misaligned entry |
| `Freelist.MisalignedList` | src/nccl_ofi_freelist.cpp:48-129 | a list initialised with twice a page as alignment and grown by one entry holds a misaligned entry |
| `Rounding.RoundDown` | include/nccl_ofi_math.h:63-73 | the greatest multiple of the alignment that is at most x |
| `Rounding.RoundUp` | include/nccl_ofi_math.h:76-86 | the least multiple of the alignment that is at least x |
| `Freelist.FreeList.Add` | src/nccl_ofi_freelist.cpp:238-344 | adds min(count, room) entries of one new block, fails exactly on no room or no memory, and never exceeds a non-zero maximum |
| `Freelist.FreeList.EntryAlloc` | include/nccl_ofi_freelist.h:210-240 | pops the stack, growing an empty one, and answers null exactly if it cannot grow |
| `Freelist.FreeList.EntryFree` | include/nccl_ofi_freelist.h:247-263 | pushes a handed-out entry back |
| `Freelist.FreeList.Conserved` | include/nccl_ofi_freelist.h:210-263 | over any run, free and handed-out entries together number the allocated ones |
| `Freelist.FreeList.HandedOutApart` | include/nccl_ofi_freelist.h:210-263 | no entry is handed out twice or while it is free, and handed-out entries never overlap |
| `Freelist.Init` | src/nccl_ofi_freelist.cpp:48-129 | fails exactly on a zero initial count or no memory, and otherwise starts with at least the initial count, up to the maximum |
| `IdPool.Pool.AllocateId` | src/nccl_ofi_idpool.cpp:87-132 | returns and removes the least free id below the size, and fails exactly if there is none, whatever the undefined tail bits hold |
| `IdPool.Pool.FreeId` | src/nccl_ofi_idpool.cpp:149-187 | accepts exactly ids in use, and leaves every word unchanged otherwise |
| `IdPool.Pool.constructor` | src/nccl_ofi_idpool.cpp:28-70 | every id below the size is free, for every size |
| `IdPool.FindFirstSet` | src/nccl_ofi_idpool.cpp:111 | the lowest set bit counted from one, or zero |
| `IdPool.OutstandingDistinct` | src/nccl_ofi_idpool.cpp:87-187 | in every run no id is out twice, and every id of the pool is either out or free |
| `Bits.BitByte` | src/nccl_ofi_idpool.cpp:54 | setting a byte to 0xff sets its eight bits and no other |
| `Bits.BitLow` | src/nccl_ofi_idpool.cpp:56 | the mask below a bit holds exactly the lower bits |
| `Bits.BitCleared` | src/nccl_ofi_idpool.cpp:116 | clearing a bit changes that bit only |
| `Bits.BitSet` | src/nccl_ofi_idpool.cpp:182 | setting a bit changes that bit only |
| `TopoData.Topology.CountNodes` | src/nccl_ofi_topo.cpp:366-412 | returns the number of nodes with a NIC or an accelerator in their subtree and leaves no mark behind |
| `TopoData.Topology.CountPath` | src/nccl_ofi_topo.cpp:389-401 | stopping the walk at a counted node counts each node of the path exactly once |
| `TopoData.Topology.SetUserdataToRoot` | src/nccl_ofi_topo.cpp:430-454 | gives an object to every node of the path without one, and fails exactly if there are too few |
| `TopoData.Topology.SetUserData` | src/nccl_ofi_topo.cpp:466-535 | never runs out of the counted objects, uses every one of them, and puts every NIC at its own node |
| `TopoTree.ReachIff` | src/nccl_ofi_topo.cpp:366-412 | a node is counted exactly if it lies on the path of a chosen device |
| `TopoTree.ClosestIs` | src/nccl_ofi_topo.cpp:631-662 | the walk stops at the deepest marked ancestor, and at none exactly if there is none |
| `TopoGroups.MarkNicSubtrees` | src/nccl_ofi_topo.cpp:584-621 | marks exactly the nodes with a NIC in their subtree |
| `TopoGroups.PropagateCounts` | src/nccl_ofi_topo.cpp:631-691 | every node's group count is the number of accelerators whose closest marked ancestor it is; no accelerator counts twice |
| `TopoLift.LiftUp` | src/nccl_ofi_topo.cpp:697-772 | loses and copies no NIC; every NIC ends at the closest node with a group count or, if there is none, at its own; no list is left without a count |
| `TopoLift.MovedPool` | src/nccl_ofi_topo.cpp:735-748 | splicing one list into another keeps the NICs of both |
| `TopoSplit.CreateGroups` | src/nccl_ofi_topo.cpp:792-875 | a list of n NICs with g requested groups becomes min(n, g) groups that concatenate to the sorted list, of sizes n/g rounded up or down, each stored at its leader's node; the checks for an invalid topology never fire |
| `TopoSplit.LeaderFree` | src/nccl_ofi_topo.cpp:838-857 | the leader's node holds no list when a group is stored there, so the store overwrites nothing |
| `TopoSplit.TakenNext` | src/nccl_ofi_topo.cpp:801-824 | the group sizes are positive and add up to the list |
| `TopoSplit.CreateAllGroups` | src/nccl_ofi_topo.cpp:886-923 | after all lists are split every NIC is in exactly one list, at the node of its leader |
| `TopoSplit.InExactlyOneList` | src/nccl_ofi_topo.cpp:961-986 | in the result every NIC is in exactly one list, once |
| `TopoSplit.Group` | src/nccl_ofi_topo.cpp:961-986 | the four passes never fail on a decorated topology and end with every NIC in exactly one group, stored at its leader's node |

## Left out

- Error completions, failed allocations and failing freelist init callbacks: the code's cleanup does not restore the invariants.
- Early completion, where a receive no longer waits for its data: size agreement and the window bound do not apply to it.
- Flush requests: they keep no per-rail progress when a post is refused.
- A close message whose post is refused: draining the queue rejects that request type, so its post is assumed accepted.
- RMA write and read requests, connection establishment, the plain send/receive transport, API shims and device setup.
- The protocol and close handlers (`Transfer*.dfy`, `CloseProtocol.dfy`) are functions on states, one per locked section, not methods on communicator objects; the model does not capture aliasing between request objects there. The updates of single requests are methods in `Requests.dfy`.
- The pending queues in `Transfer*.dfy` hold the requests of one communicator; the queue that an endpoint's communicators and receive buffers share is modelled in `Pending.dfy` and `RxBuffers.dfy`.
- Remote keys, rail addresses and the wire layout of ctrl messages beyond the immediate data.
- 64-bit overflow of addresses and sizes, and ids above the range of a 32-bit int.
- platform_sort_rails: any permutation.
- gpu_group_node and max_group_size, which the grouping only records, and the topology file writer.
- NIC nodes that are inner nodes or accelerators, and NICs that share a bus id.
- Freelist fini, memory checkers' redzone marking, and deregistration failures.
- The tuner, parameters, logging and the raw behaviour of mutexes.
- The ID pool assumes little-endian words where initialisation writes bytes.
