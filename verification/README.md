# Verified models of the panel and of its bundled Xray core

The repository is a web panel for Xray together with the Xray core it ships and the Vue runtime its
pages load. This project models the algorithms in it that are hardest to get right, and proves what
they promise.

**XTLS Vision** (`Bytes`, `Records`, `Detector`, `Framing`, `Traffic`, `Padding`, `Switching`,
`VisionWriter`, `VisionReader`, `EndToEnd`). A writer cuts a byte stream into padded frames behind a
one-time UUID, decides from the TLS traffic it has seen when to stop, and tells its peer whether to go
on over the outer connection or over the raw one. A reader strips the frames from whatever fragments
arrive. `TrafficState`, `VisionWriter` and `VisionReader` are classes; their methods are proved against
functions on values: a byte-at-a-time reference parser (`Framing.Unpad`), the encoder
(`Framing.EncodeAll`), the commands of a call (`Switching.PlanFrom`) and the detector
(`Detector.Observe`). The main theorem, `EndToEnd.WriterToReader`, says of any writer after any calls
and of any fragmentation when the reader delivers just what was written.

**Vue 2.6.12** (`Elements`, `ReconcileState`, `Reconcile`, `Scheduler`, `Flush`, `Watchers`). The
double-ended list diff that edits the child list of an element in place; the queue of watchers that is
drained while its watchers queue more; the two-way index between watchers and their dependencies.

**Feature resolution** (`Features`). Callbacks that wait for features, registered and released under a
lock and called without it, as atomic steps in any interleaving.

**The panel and two smaller parts of the core.** Unique proxy names (`ClashNames`), the order of a
subscription (`Subscription`), the counting of an access log that grows (`AccessLog`), the narrowing
list of protocol sniffers (`Sniffer`) and names that stand for names (`Hosts`).

`Sequences` holds an optional value and a few facts about sequences.

## What does not hold in general

Where the code falls short of the obvious statement, the exact condition is proved.

- **Reading.** After each read the mode test looks at the content and padding counters and the current
  command, not at the header counter. A read that ends inside the header of a last frame, with only zero
  length bytes behind the command so far (`EndToEnd.CutShortExactly`), makes the reader leave the frames
  too early, and the rest of the frame is delivered as it is (`EndToEnd.DerailedExample`). A plain buffer
  behind the last frame that begins with the UUID is taken for a new stream while packets are inspected
  (`EndToEnd.MistakeBreaks`), and a first buffer of less than 21 bytes is not stripped
  (`EndToEnd.ShortFirst`). `EndToEnd.StreamDelivers` is the if-and-only-if with all three conditions,
  `EndToEnd.AllIsDelivered` the statement for reads that end outside headers.
- **Unpadding.** Cutting a stream behind its first 21 bytes makes no difference if and only if it is not
  cut behind its end in front of something that looks like another stream (`Framing.FeedSplit`).
- **Padding seeds.** A padding length below zero is possible if and only if the third seed is more than
  one below the first, and below the largest content (`Padding.NegativePaddingExactly`). The defaults
  are safe, `Padding.NegativeExample` is not.
- **Reuse.** A keyless node can be rendered anew although an old one would do, but only with placeholders
  of async components: the search asks sameVnode the other way round (`Reconcile.OneSided`). With a key the
  same can happen if several old nodes have that key. In all other cases nothing reusable is created
  (`Reconcile.UpdateChildren`).
- **Flushing.** The check for circular updates does not stop every flush that goes on: it breaks one off
  if and only if some watcher queues itself again in more than 100 of its own turns
  (`Flush.BreaksExactly`, `Flush.Queue.Flush`), and then forgets whoever waits. Two watchers that queue
  each other are never stopped (`Flush.PingPongGoesOn`).
- **Teardown.** A teardown does not keep a watcher out of the lists for good. Right after it the watcher is
  in no list if and only if no evaluation under way had brought it a new dependency
  (`Watchers.Teardown`); an evaluation in the middle of which it happens leaves the watcher in no list if
  and only if the whole of it touches nothing new (`Watchers.GetTornDown`); and since computed properties
  are evaluated without a look at `active`, a watcher that has been torn down stays out of all lists if and
  only if every later evaluation touches only what the one before it touched
  (`Watchers.EvaluateTornDown`). `Watchers.TouchedAfterTeardown` and `Watchers.EvaluatedAfterTeardown`
  are inputs for which it does not.
- **Access log.** A cut inside a line makes two lines of it (`AccessLog.CutExactly`,
  `AccessLog.CutExample`) and miscounts a key if and only if the halves do not hold as many of its events
  as the line (`AccessLog.CutMiscountsExactly`); a first time of zero counts as not set
  (`AccessLog.FirstIsMinExactly`, `AccessLog.FirstExample`); with a line that is too long, every run
  counts the events in front of it again (`AccessLog.CountedAgain`).
- **Static hosts.** The depth matters exactly when the chain of names neither ends within it nor stops
  at the name behind it (`Hosts.DepthExactly`, `Hosts.DepthExample`).

## Model

| member | source | states |
|---|---|---|
| `EndToEnd.WriterToReader` | xray-core/proxy/proxy.go:203-404 | for every writer object in any reachable state, and any fragmentation of the bytes it has sent, a fresh reader delivers what was written if and only if the first buffer holds the UUID and a header, no read is cut short so as to derail it, and no plain buffer it looks into begins with the UUID; left out is only a short first buffer that is followed by a buffer with the UUID |
| `EndToEnd.AllIsDelivered` | xray-core/proxy/proxy.go:203-404 | for a first buffer of at least 21 bytes and no read that ends inside a header: everything written is delivered in order, through the padded phase, the end command and the raw phase, if and only if no plain buffer is taken for a new stream |
| `EndToEnd.StreamDelivers` | xray-core/proxy/proxy.go:203-285 | the same for any run of frames, plain rest and raw bytes: delivered is contents, rest and raw bytes if and only if the stream reads well |
| `EndToEnd.ShortFirst` | xray-core/proxy/proxy.go:551-558 | if the first buffer is too short and no later one begins with the UUID, what is delivered is not what was written |
| `EndToEnd.ShortFirstExample` | xray-core/proxy/proxy.go:551-558 | a short first buffer and a later one with the UUID, and what comes out is the content all the same |
| `EndToEnd.RunDelivers` | xray-core/proxy/proxy.go:228-270 | from any good state of a reader, a run delivers what the reference parser makes of the bytes it takes if and only if it is not derailed and no plain buffer is taken for a new stream |
| `EndToEnd.MistakeBreaks` | xray-core/proxy/proxy.go:235-243 | once a plain buffer has been taken for a new stream, too little is delivered, whatever else arrives |
| `EndToEnd.CutShortExactly` | xray-core/proxy/proxy.go:244-253 | a read that ends n bytes into a frame is cut short if and only if it ends inside the header of a last frame with zero length bytes so far; never in content, padding or between frames |
| `EndToEnd.DerailedExample` | xray-core/proxy/proxy.go:244-253 | a read that ends behind the command byte of a Direct frame: the reader goes raw too early and delivers the rest of that frame as it is |
| `EndToEnd.NotDerailed` | xray-core/proxy/proxy.go:244-253 | reads that end outside headers never derail a reader |
| `EndToEnd.FeedAllIsUnpad` | xray-core/proxy/proxy.go:235-243 | the buffers of one read, unpadded one by one, give the content and state of parsing them as one string |
| `EndToEnd.PlainForever` | xray-core/proxy/proxy.go:228-235 | a reader that has gone raw, or left the frames with inspection over, delivers every later byte as it is |
| `VisionReader.VisionReader.ReadMultiBuffer` | xray-core/proxy/proxy.go:203-285 | what one read delivers, the new state of the link, when the held-back input is handed out, and what the detector is shown; the writer's half of the state is not disturbed |
| `VisionReader.VisionReader.TestMode` | xray-core/proxy/proxy.go:244-255 | the mode after a read, all branches including the unknown command |
| `VisionReader.VisionReader.StripAll` | xray-core/proxy/proxy.go:236-243 | the non-empty results of unpadding each buffer in turn |
| `VisionReader.FeedAllSnoc` | xray-core/proxy/proxy.go:236-243 | unpadding one more buffer continues from the state the earlier ones have left |
| `VisionWriter.VisionWriter.WriteMultiBuffer` | xray-core/proxy/proxy.go:322-404 | the bytes on both connections remain UUID, frames, rest and raw bytes of all that was written; a padded call emits the frames of its plan, padded long or short as they should be, and nothing past the outer connection; a later call adds no frame and goes where the last frame has announced |
| `VisionWriter.VisionWriter.WritePadded` | xray-core/proxy/proxy.go:356-393 | the frames of a padded call carry the reshaped pieces in order with the commands of the plan |
| `VisionWriter.VisionWriter.PadPieces` | xray-core/proxy/proxy.go:363-392 | the loop over the pieces, with its two early ends, follows the plan step by step; a frame is long if its piece is application data in a call of whole records, or if TLS has been seen and no such piece has come before |
| `VisionWriter.VisionWriter.WriteHeader` | xray-core/proxy/proxy.go:357-358 | the bare header: one empty Continue frame, padded long |
| `VisionWriter.VisionWriter.TakeRawConn` | xray-core/proxy/proxy.go:334-347 | the raw connection is taken once, at the call after the Direct command |
| `VisionWriter.VisionWriter.WritePlain` | xray-core/proxy/proxy.go:395-397 | an unpadded call goes unchanged to the connection in use |
| `VisionWriter.NextCommand` | xray-core/proxy/proxy.go:364-391 | the command, the length of the padding, and the flags, of each branch for one piece |
| `VisionWriter.GrowAll` | xray-core/proxy/proxy.go:356-397 | a padded call, whatever its plan, keeps the bytes on the wire a well-formed stream of everything written |
| `Switching.SwitchAgreement` | xray-core/proxy/proxy.go:356-393 | a padded call has Continue frames only and goes on padding, or exactly its last frame ends the padding; that frame is Direct if and only if raw copying is asked for, and then all pieces are framed |
| `Switching.PaddingEndsExactly` | xray-core/proxy/proxy.go:363-383 | padding ends if and only if a piece is application data in a call of whole records, or inspection is about to stop without TLS 1.2; raw copying is asked for if and only if such a piece meets the right cipher suite |
| `Switching.FramedExactly` | xray-core/proxy/proxy.go:379-382 | all pieces are framed unless inspection is about to stop without TLS 1.2; then none behind the first that is not application data in a call of whole records |
| `Switching.EndingPlan` | xray-core/proxy/proxy.go:376-391 | once padding is going to end, it ends with the last piece, or early |
| `Framing.DecodeAll` | xray-core/proxy/proxy.go:496-616 | the parser undoes the encoder: any run of frames followed by a rest gives back all contents and the rest, and the parser is idle if and only if the last frame ends the padding |
| `Framing.DecodeFrame` | xray-core/proxy/proxy.go:518-616 | one frame followed by any bytes: its content comes out, and the rest is parsed from the state behind it |
| `Framing.UnpadSplit` | xray-core/proxy/proxy.go:559-615 | parsing a string in two pieces, cut anywhere, gives the same content and state |
| `Framing.FeedSplit` | xray-core/proxy/proxy.go:535-616 | the same for XtlsUnpadding with its UUID test, cut anywhere behind the first 21 bytes, if and only if the second piece does not look like a new stream behind the end |
| `Framing.OutsideIsUntouched` | xray-core/proxy/proxy.go:551-558 | a buffer between streams passes unchanged if and only if it is too short or has another start |
| `Framing.ContentRun` | xray-core/proxy/proxy.go:580-590 | content taken in one go equals content taken byte by byte |
| `Framing.PaddingRun` | xray-core/proxy/proxy.go:591-597 | padding skipped in one go equals padding skipped byte by byte |
| `Framing.UnpadShrinks` | xray-core/proxy/proxy.go:559-615 | header bytes are never delivered |
| `Traffic.Strip` | xray-core/proxy/proxy.go:559-615 | the loop, which consumes at least one byte a turn, computes what the byte-at-a-time parser does |
| `Traffic.TrafficState.XtlsUnpadding` | xray-core/proxy/proxy.go:535-616 | content and stored counters after one buffer; the other direction and the detector are unchanged |
| `Traffic.TrafficState.XtlsFilterTls` | xray-core/proxy/proxy.go:619-670 | the loop over the buffers, with its early exit, computes the detector function |
| `Traffic.TrafficState.FilterBuffer` | xray-core/proxy/proxy.go:620-669 | one buffer, and whether the verdict is in |
| `Detector.EveryRun` | xray-core/proxy/proxy.go:255-257 | over any run of reads and writes, whatever was left behind each buffer: raw copying implies TLS 1.2 or later, a suite in 0x1301 to 0x1304 and an ended inspection; no flag reverts, the packet count never grows while positive, and at zero all fields are frozen |
| `Detector.RunsCompose` | xray-core/proxy/proxy.go:255-257 | a run can be cut anywhere, so that statement holds between any two moments of it |
| `Detector.ObserveKeeps` | xray-core/proxy/proxy.go:619-670 | one call keeps that invariant and only moves forward |
| `Detector.TlsExactly` | xray-core/proxy/proxy.go:627-641 | while packets are left, TLS is seen if and only if it was or some buffer of the call begins with a client or server hello; TLS 1.2 or later if and only if it was or one begins with a server hello |
| `Detector.CountsDown` | xray-core/proxy/proxy.go:620-624 | without a server hello every buffer counts for one packet and nothing else changes |
| `Detector.CipherStays` | xray-core/proxy/proxy.go:631-637 | the cipher suite is read from long enough server hellos only |
| `Detector.ServerHelloInOneCall` | xray-core/proxy/proxy.go:620-669 | a server hello that may be spread over the buffers of a call: the cipher suite is the one behind the session id, and raw copying is enabled if and only if it is allowed and the version extension lies whole in one buffer |
| `Detector.HelloOverCalls` | xray-core/proxy/proxy.go:643-665 | the same for the rest of a hello over several calls, as long as packets are left to inspect |
| `Detector.WholeServerHello` | xray-core/proxy/proxy.go:623-661 | a first buffer that holds the whole hello settles the matter at once |
| `Records.IsCompleteRecord` | xray-core/proxy/proxy.go:407-458 | accepts if and only if the bytes are zero or more whole application data records with non-zero length |
| `Records.CompleteIffRecords` | xray-core/proxy/proxy.go:407-458 | the test by position agrees with being a concatenation of records, both ways |
| `Records.RecordsAreUnique` | xray-core/proxy/proxy.go:407-458 | the decomposition into records is unique |
| `Padding.ReshapeMultiBuffer` | xray-core/proxy/proxy.go:461-493 | counting and cutting loops give the reshaped list |
| `Padding.ReshapeKeeps` | xray-core/proxy/proxy.go:461-493 | the bytes are unchanged, and every piece leaves room for header and UUID |
| `Padding.ReshapedOne` | xray-core/proxy/proxy.go:474-486 | a buffer that leaves no room is cut in two at its last application data header if that is neither too early nor too late, otherwise in the middle; others stay |
| `Padding.XtlsPadding` | xray-core/proxy/proxy.go:496-532 | the buffer holds UUID, command, both lengths high byte first, content and padding, and fits; the padding length is one that a draw can give |
| `Padding.PaddedExactly` | xray-core/proxy/proxy.go:502-517 | which lengths those are, both ways: a long frame whose content is below the first seed has content and padding from the third seed to the sum of the second and third, less one; another has padding below the fourth seed; both are capped so as to fit |
| `Padding.NegativePaddingExactly` | xray-core/proxy/proxy.go:499-517 | the padding length is never negative if and only if the seeds pass a test on the seeds alone |
| `Padding.NegativeExample` | xray-core/proxy/proxy.go:507 | seeds that do not |
| `Padding.DefaultSeed` | xray-core/proxy/proxy.go:307-309 | the default seeds pass it |
| `Bytes.TwoBytes` | xray-core/proxy/proxy.go:523 | a length survives its two bytes if and only if it fits into them |
| `Bytes.LastIndexIsLast` | xray-core/proxy/proxy.go:475 | the index is that of the last occurrence, or there is none |
| `Bytes.ContainsExactly` | xray-core/proxy/proxy.go:649 | containing means having the pattern as a part |
| `Reconcile.UpdateChildren` | web/assets/vue@2.6.12/vue.common.dev.js:6158-6228 | afterwards the child list is the elements of the new nodes, in order if moves are allowed; each old node is taken by one new node that is the same vnode, or removed once; each new node is patched once or created once, and created only if every old node it could have reused has been taken; with unique old keys, an old node with the key of a new one that is the same vnode is what that one was patched from |
| `Reconcile.KeyedReused` | web/assets/vue@2.6.12/vue.common.dev.js:6203-6213 | that last part, from what the loop keeps |
| `Reconcile.OneSided` | web/assets/vue@2.6.12/vue.common.dev.js:5806-5821 | sameVnode depends on the order of its arguments, for async placeholders |
| `ReconcileState.SameMeans` | web/assets/vue@2.6.12/vue.common.dev.js:5806-5829 | sameVnode of nodes that are no placeholders, in terms of their fields |
| `Reconcile.Reconciler.Loop` | web/assets/vue@2.6.12/vue.common.dev.js:6178-6221 | the invariant (finished prefix, surviving window, finished suffix) holds through every turn until a list is used up |
| `Reconcile.Reconciler.TurnEnds` | web/assets/vue@2.6.12/vue.common.dev.js:6183-6200 | the comparisons of the ends, in the order of the source, decide which end is taken; each keeps the invariant and shrinks a window |
| `Reconcile.Reconciler.TurnAcross` | web/assets/vue@2.6.12/vue.common.dev.js:6191-6200 | the two comparisons across the ends, once the ends in place differ |
| `Reconcile.Reconciler.TurnInside` | web/assets/vue@2.6.12/vue.common.dev.js:6202-6219 | the turn by key, by search, or with a new element keeps the invariant, and that nothing reusable is created anew |
| `Reconcile.Reconciler.LookUp` | web/assets/vue@2.6.12/vue.common.dev.js:6202-6205 | finds an old node that is still to be had; if none, or one that is another element, every old node that could be reused has been taken |
| `Reconcile.Reconciler.AddVnodes` | web/assets/vue@2.6.12/vue.common.dev.js:6095-6099 | the pending new nodes are created in front of the finished suffix |
| `Reconcile.RemoveVnodes` | web/assets/vue@2.6.12/vue.common.dev.js:6115-6127 | just the unclaimed old nodes are removed, each once and in order |
| `Reconcile.LookupIsFree` | web/assets/vue@2.6.12/vue.common.dev.js:6202-6209 | with unique new keys, a lookup in the index that was built once never finds an old node that has been taken |
| `Reconcile.CreateKeyToOldIdx` | web/assets/vue@2.6.12/vue.common.dev.js:5831-5839 | every entry names an old node of the window with that key, and every key there has an entry, the last of several equal ones |
| `Reconcile.FindIdxInOld` | web/assets/vue@2.6.12/vue.common.dev.js:6248-6253 | the first same node that is left, without looking at the last one |
| `ReconcileState.KeepStartStart` | web/assets/vue@2.6.12/vue.common.dev.js:6183-6186 | equal starts keep order and conservation |
| `ReconcileState.KeepEndEnd` | web/assets/vue@2.6.12/vue.common.dev.js:6187-6190 | so do equal ends |
| `ReconcileState.KeepStartEnd` | web/assets/vue@2.6.12/vue.common.dev.js:6191-6195 | a node that moves right lands where the new list has it |
| `ReconcileState.KeepEndStart` | web/assets/vue@2.6.12/vue.common.dev.js:6196-6200 | a node that moves left does too |
| `ReconcileState.KeepInsideStart` | web/assets/vue@2.6.12/vue.common.dev.js:6209-6213 | a node taken from inside the window leaves a blank and keeps the invariant |
| `ReconcileState.KeepNewStart` | web/assets/vue@2.6.12/vue.common.dev.js:6206-6217 | a fresh element in front of the window keeps it |
| `ReconcileState.KeepNewBehind` | web/assets/vue@2.6.12/vue.common.dev.js:6222-6224 | a fresh element in front of the suffix keeps it |
| `ReconcileState.AllSettled` | web/assets/vue@2.6.12/vue.common.dev.js:6222-6227 | with no new node pending, every node of either list has its one fate |
| `ReconcileState.WindowUnclaimed` | web/assets/vue@2.6.12/vue.common.dev.js:6225-6226 | what is left in the window is what no new node has taken |
| `Elements.MoveBehind` | web/assets/vue@2.6.12/vue.common.dev.js:6193 | inserting the first of a stretch before the next sibling of its last rotates the stretch |
| `Elements.MoveBefore` | web/assets/vue@2.6.12/vue.common.dev.js:6198 | inserting an element before another puts it directly in front |
| `Scheduler.TurnKeeps` | web/assets/vue@2.6.12/vue.common.dev.js:4300-4307 | whatever a watcher queues, the rest of the queue stays strictly ascending and marked exactly, and nothing lands at or in front of the cursor |
| `Scheduler.NextIsLeast` | web/assets/vue@2.6.12/vue.common.dev.js:4300-4307 | the next watcher to run is the least of all that wait |
| `Scheduler.FirstIsLeast` | web/assets/vue@2.6.12/vue.common.dev.js:4296-4301 | and so is the first one after sorting |
| `Scheduler.InsertInPlace` | web/assets/vue@2.6.12/vue.common.dev.js:4385-4389 | inserting an id behind the cursor keeps what follows ascending, adds just that id, and changes nothing up to the cursor |
| `Scheduler.SortKeeps` | web/assets/vue@2.6.12/vue.common.dev.js:4296 | sorting distinct ids gives the same ids in ascending order |
| `Flush.Queue.Flush` | web/assets/vue@2.6.12/vue.common.dev.js:4283-4329 | the flush is broken off if and only if some watcher queues itself again in more than 100 of its turns, and then somebody who waits is dropped; otherwise every watcher is run after its last queueing; either way the scheduler is as new |
| `Flush.Queue.Drain` | web/assets/vue@2.6.12/vue.common.dev.js:4300-4323 | every watcher that is run was the least of all who waited when the cursor reached it, over the whole log; the loop is broken off as the checks say; nobody waits when it has drained |
| `Flush.Queue.RunOne` | web/assets/vue@2.6.12/vue.common.dev.js:4301-4322 | one turn, the check included |
| `Flush.Queue.QueueWatcher` | web/assets/vue@2.6.12/vue.common.dev.js:4376-4402 | both ways of queueing, a repeated call changes nothing, and outside a flush the marks are those of the queue, each once |
| `Flush.Splice` | web/assets/vue@2.6.12/vue.common.dev.js:4385-4389 | the backward search and the splice |
| `Flush.Queue.Reset` | web/assets/vue@2.6.12/vue.common.dev.js:4240-4247 | every variable is as at the start |
| `Flush.NobodyWaits` | web/assets/vue@2.6.12/vue.common.dev.js:4300-4307 | an id is marked if and only if it was queued and has since neither been run nor dropped |
| `Flush.OrderlyTurn` | web/assets/vue@2.6.12/vue.common.dev.js:4300-4307 | a turn of the least waiting watcher keeps the log in order |
| `Flush.BreaksExactly` | web/assets/vue@2.6.12/vue.common.dev.js:4308-4322 | for every script and every start, the checks break the flush off if and only if some count, with the turns in which that watcher queues itself again, goes past the maximum |
| `Flush.PingPongGoesOn` | web/assets/vue@2.6.12/vue.common.dev.js:4308-4322 | two watchers that queue each other are never counted and never done |
| `Watchers.Symmetric` | web/assets/vue@2.6.12/vue.common.dev.js:4496-4526 | outside an evaluation an active watcher is in subs, exactly once, if and only if the dependency is in its deps, if and only if the id is in its depIds |
| `Watchers.Get` | web/assets/vue@2.6.12/vue.common.dev.js:4469-4491 | after an evaluation the dependencies are just those touched; the watcher is subscribed to a touched one if and only if that is new or it was subscribed before, so an active one to all of them; no other watcher is affected |
| `Watchers.EvaluateTornDown` | web/assets/vue@2.6.12/vue.common.dev.js:4578-4610 | a torn-down watcher stays out of all lists over any later evaluations if and only if each touches only what the one before it touched |
| `Watchers.GetTornDown` | web/assets/vue@2.6.12/vue.common.dev.js:4469-4610 | an evaluation in the middle of which the watcher is torn down leaves it in no list if and only if it touches nothing new |
| `Watchers.TouchedAfterTeardown` | web/assets/vue@2.6.12/vue.common.dev.js:4496-4505 | a dependency touched after the teardown lists the watcher |
| `Watchers.EvaluatedAfterTeardown` | web/assets/vue@2.6.12/vue.common.dev.js:4823-4830 | so does one touched in a later evaluation |
| `Watchers.AddDep` | web/assets/vue@2.6.12/vue.common.dev.js:4496-4505 | touching a dependency keeps the whole graph consistent and subscribes at most once |
| `Watchers.CleanupDeps` | web/assets/vue@2.6.12/vue.common.dev.js:4510-4526 | exactly the dependencies not touched again are left, through the swap of the buffers |
| `Watchers.Teardown` | web/assets/vue@2.6.12/vue.common.dev.js:4596-4610 | right after it the watcher is in no list if and only if no evaluation under way had brought it a new dependency |
| `Watchers.RemoveKeeps` | web/assets/vue@2.6.12/vue.common.dev.js:140-147 | removing an item from a list without duplicates removes just that item |
| `Features.EveryRun` | xray-core/core/xray.go:279-373 | in every interleaving each registered callback is in exactly one of pending, in flight and called; none that waits could be called; none is called without all its features |
| `Features.Quiescent` | xray-core/core/xray.go:279-373 | when nothing is in flight, each callback has been called as often as it was registered if it is ready, and never otherwise |
| `Features.OrderIndependent` | xray-core/core/xray.go:279-373 | the same registrations and features lead to the same calls in any order |
| `Features.AllResolved` | xray-core/core/xray.go:234-239 | the check at initialisation passes if and only if every callback that is not optional has its features |
| `Features.Instance.RequireFeatures` | xray-core/core/xray.go:279-316 | the fields follow the atomic step, and the result says whether to call at once |
| `Features.Instance.AddFeature` | xray-core/core/xray.go:319-373 | the fields follow the atomic step, and the result is just what becomes callable |
| `Features.SplitKeeps` | xray-core/core/xray.go:330-365 | a scan splits the waiting callbacks into ready and not ready, losing none |
| `ClashNames.EnsureUniqueClashNames` | web/service/share_link.go:146-170 | all names are different afterwards, each is given by the rule, and nothing else in the proxies changes |
| `ClashNames.FirstFree` | web/service/share_link.go:159-166 | the search ends, at the first number whose name has not been seen |
| `ClashNames.NumberedInjective` | web/service/share_link.go:159 | different numbers give different names |
| `ClashNames.AllDifferent` | web/service/share_link.go:146-170 | names given by the rule are pairwise different |
| `ClashNames.FirstHolderKeeps` | web/service/share_link.go:149-158 | a proxy keeps its trimmed name if and only if no earlier one was given it |
| `ClashNames.AllOfOne` | web/service/share_link.go:153-168 | proxies that all ask for one name get it, "name #2", "name #3" and so on |
| `ClashNames.WantedIs` | web/service/share_link.go:149-152 | the name asked for has no space at its ends and is otherwise the given one; a blank one is "proxy" |
| `ClashNames.DistinctStay` | web/service/share_link.go:155-158 | a list of different wanted names is left as it is |
| `ClashNames.TellsNext` | web/service/share_link.go:153-168 | the table of counts always says how often each name was asked for or given |
| `AccessLog.OnePass` | web/service/access_ip.go:60-123 | over any calls on a log that grows by whole lines or is replaced by a shorter one, the table is what a single pass over the counted part gives |
| `AccessLog.RecordsSinceClear` | web/service/access_ip.go:60-123 | each record holds the number of its events since the clear, their latest time, and (but for zero) their earliest |
| `AccessLog.SinceClear` | web/service/access_ip.go:181-200 | with runs only, the counted part is everything behind the clear, once |
| `AccessLog.SinceRotation` | web/service/access_ip.go:90-96 | a log that has been replaced by a shorter one is counted from its start, in addition to what was counted before |
| `AccessLog.LinesAsWritten` | web/service/access_ip.go:98-101 | what was written line by line is read line by line, with either kind of line end |
| `AccessLog.FitsExactly` | web/service/access_ip.go:98-99 | the lines fit if and only if no stretch without a line break reaches the scanner's limit |
| `AccessLog.StopsAtLongLine` | web/service/access_ip.go:98-111 | the lines read are those in front of the first that does not fit |
| `AccessLog.EventOfLine` | web/service/access_ip.go:100-104 | a line gives the event that the parser finds in it, or none |
| `AccessLog.CutExactly` | web/service/access_ip.go:94-103 | a cut makes no difference to the lines if and only if it is at a line break or the end |
| `AccessLog.CutMiscountsExactly` | web/service/access_ip.go:94-108 | a run that ends inside a line miscounts a key if and only if the two halves do not hold as many of its events as the whole line |
| `AccessLog.CutExample` | web/service/access_ip.go:94-103 | a line that becomes two |
| `AccessLog.FirstIsMinExactly` | web/service/access_ip.go:261-263 | the first time is the least one if and only if the least one is not zero or is also the last |
| `AccessLog.FirstExample` | web/service/access_ip.go:261-263 | an event at time zero is forgotten at the next one |
| `AccessLog.LastIsMax` | web/service/access_ip.go:264-266 | the last time is the greatest |
| `AccessLog.CountedAgain` | web/service/access_ip.go:98-120 | n runs over an unchanged log count its events once if every line fits, and otherwise n times those in front of the long line |
| `AccessLog.AccessIPService.ProcessAccessLog` | web/service/access_ip.go:60-123 | the new table and offset in every case: switched off, no file, a file that has shrunk and is read from its start, a line that is too long |
| `AccessLog.AccessIPService.ScanLines` | web/service/access_ip.go:98-111 | the scanning loop folds the events of the lines that fit, and fails if and only if one does not |
| `AccessLog.AccessIPService.UpsertRecord` | web/service/access_ip.go:243-268 | one event is added to the table |
| `AccessLog.AccessIPService.ClearAccessIPRecords` | web/service/access_ip.go:181-200 | no records, and reading goes on at the end of the log |
| `AccessLog.AccessIPService.SkipCurrentAccessLog` | web/service/access_ip.go:373-384 | reading goes on at the end of the log |
| `Subscription.NormalizeSubscriptionInboundIds` | web/service/subscription.go:288-302 | fails with the first id that is not positive; otherwise every id once, in the order of first occurrence |
| `Subscription.NothingToDrop` | web/service/subscription.go:288-302 | a list that has been normalised is left as it is |
| `Subscription.SortInboundsBySubscriptionOrder` | web/service/subscription.go:321-331 | the in-place insertion sort is a permutation, sorted by the order map |
| `Subscription.SortedExactly` | web/service/subscription.go:325 | sorted means by what the map says, with zero for an id it does not have |
| `Subscription.SortIsStable` | web/service/subscription.go:321-331 | entries of equal rank keep their order |
| `Subscription.LoadSubscriptionInbounds` | web/service/subscription.go:217-240 | just the enabled inbounds of the list with a known protocol, ordered by where the list has them last |
| `Subscription.ServedIds` | web/service/subscription.go:217-302 | of a normalised list, the ids served are the list filtered, in its order |
| `Sniffer.NarrowingIsSound` | xray-core/app/dispatcher/sniffer.go:59-113 | over any run of growing payloads on one network, with metadata rounds anywhere, the narrowed list finds a protocol if and only if the first candidate of the whole list to end the round finds it in the whole payload |
| `Sniffer.OnlyShrinks` | xray-core/app/dispatcher/sniffer.go:59-113 | the list only ever becomes a subsequence of what it was |
| `Sniffer.MetaKeepsPlayers` | xray-core/app/dispatcher/sniffer.go:88-113 | a metadata round changes no later answer to a payload |
| `Sniffer.Sniffer.Sniff` | xray-core/app/dispatcher/sniffer.go:59-86 | the four answers in terms of what the candidates say, and who is left after each |
| `Sniffer.JudgedAnswers` | xray-core/app/dispatcher/sniffer.go:59-86 | the functions that specify a round give those answers |
| `Sniffer.Sniffer.SniffMetadata` | xray-core/app/dispatcher/sniffer.go:88-113 | the three answers of the metadata round, and who is left after each |
| `Sniffer.MetaJudgedAnswers` | xray-core/app/dispatcher/sniffer.go:88-113 | the functions that specify it give those answers |
| `Hosts.ChainEnds` | xray-core/app/dns/hosts.go:97-121 | a chain that ends within the depth is followed to its end, with the same answer for every such depth |
| `Hosts.ChainGoesOn` | xray-core/app/dns/hosts.go:97-121 | otherwise the answer is the single name behind the depth |
| `Hosts.DepthExactly` | xray-core/app/dns/hosts.go:97-121 | a greater depth never changes the answer if and only if the chain ends within the depth or stops behind it |
| `Hosts.DepthExample` | xray-core/app/dns/hosts.go:97-121 | a chain for which depths 0, 1 and 2 give three answers |
| `Hosts.CycleIsCut` | xray-core/app/dns/hosts.go:106-117 | on a chain that runs into a cycle the answer is a single name behind the depth, one of the cycle unless the depth is too small to get there |
| `Hosts.Lookup` | xray-core/app/dns/hosts.go:97-121 | the recursion, all five cases |
| `Hosts.LookupInternal` | xray-core/app/dns/hosts.go:76-95 | the first response code among the matches decides; otherwise all their addresses in order, and no code among them |
| `Hosts.FilterIP` | xray-core/app/dns/hosts.go:66-74 | just the addresses of the enabled families |
| `Hosts.FilteredExactly` | xray-core/app/dns/hosts.go:66-74 | in their order and as often as they occur |
| `Hosts.FirstCodeIs` | xray-core/app/dns/hosts.go:81-86 | the first code gives the error: an empty response if its low 16 bits are zero, otherwise the code |
| `Hosts.JoinedParts` | xray-core/app/dns/hosts.go:88 | every response stands behind those before it |

## Left out

- Buffers are values with the capacity 8192 of `xray-core/common/buf/buffer.go`: pooling, aliasing and buffers of another capacity are not modelled.
- The bytes behind the content of a buffer, which the detector can read, are arbitrary; reading past the capacity, which stops the program, is not modelled.
- The random draws of `XtlsPadding` are arbitrary numbers within their bound, the padding bytes are zeros; seeds for which no draw exists or that leave 32 bits are excluded.
- `EndToEnd.WriterToReader`: a first buffer of less than 21 bytes that is followed by a buffer which begins with the UUID is left out, since what comes out can then be the content by chance (`EndToEnd.ShortFirstExample`); the first read holds a buffer, and what the reader takes is what was sent (no loss on the connection).
- Splice copying, counters, timers and the unwrapping of TLS connections; the held-back input is a byte string and the raw connection an output string.
- `VisionWriter.VisionWriter.WriteMultiBuffer`: errors of the underlying writer are not modelled, nor nil entries among others in one call.
- `Reconcile.UpdateChildren`: the keys of the new nodes are unique, as checkDuplicateKeys demands; the node cursors are read from the arrays, where a blanked slot is always strictly inside the window.
- `patchVnode` keeps the element, `createElm` makes a fresh one, removal is immediate: transitions, hooks, clones of reused nodes and the string form of keys are not modelled.
- `Flush.Queue.Flush`: the turns follow a finite script of what the watchers queue; hooks after the flush, activated children and the synchronous mode are left out.
- `Watchers.Get`: the evaluation is the list of dependencies it touches; nested evaluations are those of other watchers, for which the graph invariant is stated.
- `vm._watchers` in teardown, and the values of watchers.
- Feature types are opaque ids, and a feature found by getFeature is assumed to be assignable to the parameter; starting features, errors of callbacks and the lock itself (steps are atomic) are left out.
- `appendYAMLMap`, `yamlQuote` and the links: string assembly.
- `AccessLog.AccessIPService.ProcessAccessLog`: errors of the database and of files, the summary file and the parsing of a line (a parameter) are left out; a log that is replaced by one at least as long is not told apart from one that has grown.
- The database of a subscription is a list of rows with distinct ids in ascending order; the protocol test and the query are one function.
- `Sniffer.NarrowingIsSound`: assumes that a rejection is final and that a candidate that asks for more data excludes all others; the answers of the protocols themselves are parameters.
- NewStaticHosts, the domain matcher and lower-casing: parameters of `Hosts.StaticHosts`.
