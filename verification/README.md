# Verification of the NATS module's own protocols

The module binds the NATS C client to Qore.  This project models the parts of it that are its own algorithms rather than
calls into the client, and proves what they promise:

* the **request/reply multiplexer** of a connection: any number of requesting threads share one subscription and one map
  of replies (`Tokens`, `ReplyClock`, `ReplyReferences`, `ReplySlots`, `ReplyProtocol`, `ReplyRequest`,
  `ReplySubscription`);
* the **handler contexts of microservices** and the references that keep a service (`MicroService`, `MicroGroups`), and
  the **callback context of a connection** (`CallbackContext`);
* the **reader of ELF notes** that checks that packaging keeps the metadata of a module (`Bytes`, `ElfNotes`, `ElfImage`,
  `ElfFormat`, `ElfLayout`, `ElfWriter`, `Preserve`);
* the **sandbox dialer** (`DialerAddresses`, `Dialer`, `DialerExceptions`);
* the **sliced waits** and the ownership of received messages (`SlicedWait`, `Subscription`, `Watcher`);
* the **event loop of the observable data providers** (`EventProvider`).

`Wrappers` and `Interleaving` are shared by several of them.  `ElfFormat` is the file format itself, with every number
written out: it uses none of the reader's offsets and constants, and the reader is proved against it.

`dafny verify dfyconfig.toml` checks everything.

## How the model is built

Code that updates shared structures is a class whose methods update the same fields; their postconditions tie the new
state to a function of the old one.  Protocols between threads are state machines with one step for each region that is
locked, or that touches no shared state.  `Enabled` holds the assumptions on the environment, `Next` is the step, and the
theorems quantify over all runs.  `ReplyRequest.Request` and `EventProvider.SubscribeLoop` are the code of one thread,
with any steps of the other threads in every gap between its own steps; they are shown to be runs of their machines that
consist of exactly these steps.  Calls into the C client, the resolver, the clock, the policy and the cancellation of a
thread are parameters or steps of the environment, with any answer.

The environment is assumed to keep what the comments of the code rely on:

* the closed callback is the last callback of a connection and comes once; if no connection was made it does not come,
  and no other callback is left running;
* the endpoints of a service are complete only when no request runs, no request starts and no endpoint is accepted
  afterwards, and then the done handler is called once;
* a subscription completes after its last delivery;
* an object is kept while a method of it runs;
* a shuffle rearranges; the steady clock counts nanoseconds and does not run backwards, and overflows of 64-bit numbers
  wrap around; a wait in the C client that runs out takes the time that it was given.

## Results that are not what one might expect

* `DialerAddresses.SharesFit` and `ShareThatDoesNotFit`: the time for one address is converted to a 32-bit int.  It is
  the intended share if and only if the timeout is below 2^31 ms for each address; with 2^31 ms and one address it is
  negative.
* `ReplyProtocol.NotBeforeTimeout` and `LongestIsRaisedAtOnce`: a request can be told too early that it timed out if and
  only if its timeout overflows the 64-bit number of nanoseconds (it is 2^63/10^6 ms or more, some 292 years) and the
  clock can reach the end that results.  With the longest timeout, 2^63-1 ms, the first check raises it.
* `ReplyProtocol.WaitsAreRounded` and `WaitEndsEarly`: the comment in the code says that a wait does not end before the deadline.  It ends up
  to 999 ns before it if and only if what remains is a number of milliseconds and a part of a microsecond, since the
  remaining time is cut off to microseconds before it is rounded up.  No second wait follows: the timeout is raised then.
* `ElfWriter.QccModule`: the note that qcc emits is padded to 4 bytes.  In a segment of its own it is read as its record
  if and only if the segment is not aligned to 8 bytes, where the reader looks for the description 4 bytes too late.
* `Watcher.TimeoutIsExact` and `TimeoutExceeded`: a wait of the key-value watcher that runs out took exactly its timeout if
  and only if every answer without an entry came at once; the time of such an answer is spent in addition.
* `EventProvider.TwoEndsExactlyIfRaised` and `BothEnds`: observers see a completion and an error if and only if an observer raised an
  exception for the completion.
* `ElfLayout.TruncationIsNoticed`: a file that lost its end is never misread, but one cut down to fewer than 16 bytes is
  taken for a file without metadata.
* `ReplySubscription.ClosuresOfSubscriptions`: where the completion callback cannot be set, the closure is never freed, as
  the comment there says.

## Model

| member | source | states |
|---|---|---|
| Bytes.AlignMeaning | debian/preserve-aot-metadata.py:26-27 | The bit expression gives the least multiple of 4 or 8 that is not below the value. |
| Bytes.UnpackPack | debian/preserve-aot-metadata.py:71 | Every number that fits a little-endian field is read back from it. |
| ElfNotes.EncodeDecode | debian/preserve-aot-metadata.py:66-78 | Every segment is the encoding of the notes read from it, with all padding, followed by a rest in which no note fits. |
| ElfNotes.DecodeEncode | debian/preserve-aot-metadata.py:66-78 | Every chain of notes with alignment 4 or 8 is read back from its encoding, whether or not the last padding is complete. |
| ElfNotes.QccNoteRead | debian/tests/test_aot_metadata.py:28-31 | The note that qcc emits is read back as its record, for every record, from a segment aligned to 4 bytes; from one aligned to 8 nothing is read. |
| ElfNotes.ReadNotes | debian/preserve-aot-metadata.py:66-78 | The position loop terminates, stays inside the segment and appends exactly the descriptions of the metadata notes of the decoded chain, in order. |
| ElfImage.ReadModuleInfo | debian/preserve-aot-metadata.py:30-81 | The whole reader, for every byte string and both classes: it never reads outside the data and gives the value of ModuleInfo, which the lemmas below characterize. |
| ElfImage.ReadSegments | debian/preserve-aot-metadata.py:55-81 | The loop over the program headers gives the verdict on the records of all note segments, or reports the first segment that is cut off. |
| ElfFormat.FormatRead | debian/preserve-aot-metadata.py:38-81 | Every file laid out field by field as the format strings say, of either class, with any values in the unused fields and the count in either place, is read as the records in its segments of type 4, unless one is cut off or there is more than one record. |
| ElfFormat.OtherFiles | debian/preserve-aot-metadata.py:35-40 | Any other kind of file has no metadata; one that is too short for its header is an error. |
| ElfFormat.BadTables | debian/preserve-aot-metadata.py:43-54 | No program headers mean no metadata; a count that is not in the file, entries that are too small and a table that is cut off are errors. |
| ElfFormat.NotesRead | debian/preserve-aot-metadata.py:66-78 | Every segment of notes, written byte by byte, is read as the descriptions of those with the name and the type of module metadata, in order. |
| ElfFormat.QccBytes | debian/tests/test_aot_metadata.py:28-31 | The bytes of the note that qcc emits. |
| ElfLayout.LaidOutImage | debian/preserve-aot-metadata.py:35-81 | For every placement of tables and segments, plain or extended header count, the answer depends only on the note segments: their records, in order. |
| ElfLayout.LayoutIndependent | debian/preserve-aot-metadata.py:55-81 | Two images of any class and layout with the same note contents and alignment classes give the same answer. |
| ElfLayout.TruncationIsNoticed | debian/preserve-aot-metadata.py:33-65 | A prefix of a file of at least 16 bytes fails or gives the answer of the whole file; a shorter one gives empty bytes. |
| ElfLayout.ReadExactly | debian/preserve-aot-metadata.py:30-81 | Every byte string: no ELF file of either class or no program headers give empty bytes; an image of some segments gives the verdict on the records in their notes; anything else is a truncation error. |
| ElfLayout.ExactlyOneRecord | debian/preserve-aot-metadata.py:79-81 | A record is returned iff the file is an image of segments whose notes hold that record and no other; more than one is an error; every other error means that it is no image. |
| ElfWriter.WrittenImage | debian/preserve-aot-metadata.py:38-66 | The reader inverts a byte-level writer of images of both classes, with and without the extended header count. |
| ElfWriter.NotesToRecord | debian/preserve-aot-metadata.py:35-81 | An image written from chains of notes is read back as the verdict on the records in those notes. |
| ElfWriter.QccModule | debian/preserve-aot-metadata.py:55-78 | A module with the note of qcc in one segment, anywhere in the file, is read as that record unless the segment is aligned to 8 bytes; then it is taken for a file without metadata. |
| Preserve.SaveRecords | debian/preserve-aot-metadata.py:86-92 | The first loop skips links and what is no file, saves the record of every module that has one, or stops at the first that the system does not let be read or that is malformed. |
| Preserve.CheckRecords | debian/preserve-aot-metadata.py:98-109 | The second loop appends the failure of every saved module, whatever failed before. |
| Preserve.PreserveMetadata | debian/preserve-aot-metadata.py:84-113 | The command is run iff every module file can be read and is well formed; the check passes iff the command succeeds and every recorded module still has its record. |
| Preserve.NoFailures | debian/preserve-aot-metadata.py:99-109 | No failure is found iff every recorded module is a regular file that reads as its old record. |
| Preserve.EveryLossReported | debian/preserve-aot-metadata.py:98-109 | Each module that lost its record is reported, also after failures of other modules, as what it is: replaced by a link, not readable, malformed, without a record or with another one. |
| Preserve.NoFalseReport | debian/preserve-aot-metadata.py:98-109 | Each failure that is reported is that of a recorded module that lost its record. |
| Preserve.RelayoutIsKept | debian/preserve-aot-metadata.py:98-107 | A module whose segments were moved with unchanged note contents passes the check. |
| Tokens.ValueOfDecimal | src/QoreNatsConnection.cpp:939 | The number of a request can be read off its token, so tokens are distinct. |
| Tokens.NoLeadingZero | src/QoreNatsConnection.cpp:939 | The most significant digit of a token comes first. |
| Tokens.ReplySubject | src/QoreNatsConnection.cpp:878-907 | A reply subject matches the wildcard subscription, and stripping the prefix gives a request's token iff the subject is that request's reply subject. |
| ReplySlots.ReplyMux.HandleReply | src/QoreNatsConnection.cpp:900-917 | A reply is stored iff it is addressed to an empty slot; any other reply is destroyed. |
| ReplySlots.ReplyMux.CheckReply | src/QoreNatsConnection.cpp:974-997 | A check takes the reply out of its slot, with the entry-creating subscript of the map. |
| ReplySlots.ReplyMux.EndRequest | src/QoreNatsConnection.cpp:946-960 | The slot goes, and a reply that is in it is destroyed. |
| ReplySlots.ReplyMux.DestroyReplies | src/QoreNatsConnection.h:211-217 | The destructor destroys every message left in the slots, once. |
| ReplyProtocol.RunInvariant | src/QoreNatsConnection.cpp:900-1000 | All runs of requests, deliveries, timeouts, interruptions and releases keep the invariant of slots, routing, messages and references. |
| ReplyProtocol.OneOwner | src/QoreNatsConnection.cpp:900-1000 | In every interleaving each received message has exactly one owner (a slot or a request) or was destroyed exactly once. |
| ReplyProtocol.AllDestroyed | src/QoreNatsConnection.h:211-217 | When the replies are freed, every message received was destroyed once. |
| ReplyProtocol.NoSharedMessage | src/QoreNatsConnection.h:208-217 | In every reachable state no message is in two slots, so that the destructor destroys each at most once. |
| ReplyProtocol.RepliesAreRouted | src/QoreNatsConnection.cpp:901-1006 | A request returns only the first message delivered to its own subject between the creation of its slot and its taking, and no message reaches two requests. |
| ReplyProtocol.NoReplyLost | src/QoreNatsConnection.cpp:974-982 | A request that timed out was sent no reply between the creation of its slot and the timeout. |
| ReplyProtocol.TimeoutsExactly | src/QoreNatsConnection.cpp:971-997 | Any check in any run, for any timeout below 2^63/10^6 ms: a reply is taken; without one the timeout is raised iff its milliseconds are over, to less than 1 us, and at once if there are none; otherwise the wait is for what remains. |
| ReplyProtocol.SlotsAreRequests | src/QoreNatsConnection.cpp:941-974 | The slots are exactly those of requests between insertion and destructor, so the subscript in the wait loop never creates one. |
| ReplyProtocol.NotBeforeTimeout | src/QoreNatsConnection.cpp:971-982 | No run raises a timeout before its time, to less than 1 us, unless its nanoseconds overflow 64 bits and the clock can reach the end that results; then one does, if no reply came before the wait. |
| ReplyProtocol.LongestIsRaisedAtOnce | src/QoreNatsConnection.cpp:971-982 | A timeout of 2^63-1 ms is raised by the first check. |
| ReplyClock.LeftIs | src/QoreNatsConnection.cpp:971-976 | Only the conversion of the timeout can lose anything: an overflow of the deadline is undone by the difference to the clock. |
| ReplyProtocol.WaitsAreRounded | src/QoreNatsConnection.cpp:975-986 | The wait covers what remains to less than 1 us and overshoots it by less than 1 ms; the exact condition under which it reaches the deadline. |
| ReplyProtocol.WaitEndsEarly | src/QoreNatsConnection.cpp:971-986 | A run in which the wait for a timeout of 2 ms ends 1 ns before the deadline. |
| ReplyProtocol.OneWaitSuffices | src/QoreNatsConnection.cpp:974-996 | A check after the end of a wait takes the reply or raises the timeout: no further wait follows. |
| ReplyProtocol.FreedExactly | src/QoreNatsConnection.cpp:919-935 | The use count, changed where a reference is copied or dropped, is the number of the holders (living connection, callback until its completion, unfinished requests); the replies are freed once, iff there are none; no step, deliveries included, uses them afterwards. |
| ReplyProtocol.Releasing | src/QoreNatsConnection.h:211-217 | When the last reference goes, the destructor finds no message left in a slot. |
| ReplyRequest.WaitForReply | src/QoreNatsConnection.cpp:968-998 | The wait loop, with any steps of all other threads in every wait, is a run of the protocol and ends in the phase that its result says; it is interrupted iff its thread is in the wait that it ends in and in none before; it expires only when its deadline has passed at its last check. |
| ReplyRequest.Request | src/QoreNatsConnection.cpp:939-1006 | A whole request, with any steps of other requests, deliveries, the completion, the destructor and the clock in every gap between its own, is the run of exactly these steps and of the steps that its arguments call for; it ends with the outcome that it reports: with a timeout at the first check without a reply at which its milliseconds are over, and at none before. |
| ReplySubscription.ReplyInit.GetReplyMux | src/QoreNatsConnection.cpp:860-898 | The replies are returned iff they exist or the three calls of this attempt succeed; one attempt iff there are none and the inbox was created; all failure paths with the references that they drop. |
| ReplySubscription.RequestsObtainReplies | src/QoreNatsConnection.cpp:860-898 | After every run, whatever attempts failed before, a request obtains the replies under exactly that condition, and a new attempt that succeeds is usable. |
| ReplySubscription.RepliesAreShared | src/QoreNatsConnection.cpp:860-864 | In every run all requests hold the same replies, which are those of the connection. |
| ReplySubscription.ClosuresAreSafe | src/QoreNatsConnection.cpp:876-921 | At most one subscription is usable; a closure is deleted at most once and never while its callback runs or can run. |
| ReplySubscription.ClosuresOfSubscriptions | src/QoreNatsConnection.cpp:886-895 | A closure is deleted iff its subscription completed; without a completion callback it is never deleted. |
| ReplySubscription.RepliesAreCounted | src/QoreNatsConnection.cpp:872-921 | The use count of the replies of every attempt, also a failed one, is the number of their holders; they are freed once, iff there are none, and never while a delivery can use them. |
| ReplySubscription.ReferencesOfProtocol | src/QoreNatsConnection.cpp:860-935 | After every run the references of the successful attempt are those of a reachable state of the protocol with the same connection and completion; the closure holds one exactly while the callback can be called. |
| MicroService.ReleaseHandlers | src/QoreNatsMicroService.cpp:220-246 | Every context of the list ends without references; each of them is dropped once, the Program after the handler, and the context is deleted once, last. |
| MicroService.MicroServiceState.RegisterHandler | src/QoreNatsMicroService.cpp:583-594 | A context is listed, or handed back for release if the service is done. |
| MicroService.MicroServiceState.ServiceDone | src/QoreNatsMicroService.cpp:204-218 | The service is marked done and the whole list is handed over for release. |
| MicroService.NoUseAfterRelease | src/QoreNatsMicroService.h:61-65 | In every interleaving, no request runs or can be started by the C client on a context that was released or is about to be, also before its registration. |
| MicroService.ReleasedAtMostOnce | src/QoreNatsMicroService.cpp:184-246 | No context is released twice, whether its endpoint was refused, listed or registered too late. |
| MicroService.AllReleased | src/QoreNatsMicroService.cpp:204-246 | When the service is done and no thread is still at work, every context was released. |
| MicroService.ListStaysEmpty | src/QoreNatsMicroService.cpp:583-594 | Once the service is done, its list stays empty in every continuation. |
| MicroGroups.Group.Destroy | src/QoreNatsMicroGroup.cpp:35-38 | A group gives its reference to the service back, and the last one destroys the service. |
| MicroGroups.ServiceOutlivesGroups | src/QoreNatsMicroGroup.cpp:29-58 | The service is destroyed once, iff the script and all groups and sub-groups are gone, and no call reaches a destroyed service. |
| CallbackContext.Context.Cleanup | src/QoreNatsConnection.h:68-76 | Every field is cleared, and every reference in it is dropped, in order. |
| CallbackContext.Context.Release | src/QoreNatsConnection.cpp:165-195 | Only the last reference releases the context: closures first, then the Program, then the context. |
| CallbackContext.ReleasedOnceProgramLast | src/QoreNatsConnection.cpp:171-194 | For every set of fields, each closure is dropped once, then the Program, then the context is deleted. |
| CallbackContext.ReferencesAreHolders | src/QoreNatsConnection.h:38-43 | In every order of events the count is that of the living connection object and of the closed callback while the C client can still call back; no callback runs or can start without a reference. |
| CallbackContext.ReleasedOnce | src/QoreNatsConnection.cpp:113-195 | A context without references was released once, with exactly the closures that its setup gave it, wherever setup or connection failed. |
| CallbackContext.NoStepWithoutReference | src/QoreNatsConnection.cpp:756-761 | Nothing can use or release a context that has no references. |
| DialerAddresses.CollectAddresses | src/NatsHelper.cpp:424-459 | The loop appends each resolved family and shuffles only its own part. |
| DialerAddresses.NoAddressLost | src/NatsHelper.cpp:438-459 | The tried list is a rearrangement of all resolved addresses. |
| DialerAddresses.FamiliesInOrder | src/NatsHelper.cpp:424-459 | With two families, the list is a rearrangement of the first followed by one of the second; otherwise it is one of the one family; without randomization it is the resolver's order. |
| DialerAddresses.SharesFit | src/NatsHelper.cpp:464-519 | The time passed to the poll is the intended share iff the timeout is below 2^31 ms for each address. |
| DialerAddresses.ShareThatDoesNotFit | src/NatsHelper.cpp:519 | A timeout of 2^31 ms and one address give a negative time. |
| DialerAddresses.SharesAreBounded | src/NatsHelper.cpp:464-467 | Where the share fits it is at least 10 ms, and the shares use up the timeout to less than 1 ms for each address, without exceeding it unless they are the shortest times. |
| Dialer.ConnectAddress | src/NatsHelper.cpp:492-546 | It succeeds iff every call does, and exactly then one more socket stays open; on every other path the socket is closed, and the status is that of the call that failed. |
| Dialer.ConnectIntern | src/NatsHelper.cpp:460-490 | The result is that of the first allowed address that connects or interrupts; not permitted iff there is none and one was denied; one wait of the share for each tried address that is pending; sockets are conserved; the exception is kept iff interrupted. |
| Dialer.Dial | src/NatsHelper.cpp:416-490 | The list is what was resolved, family by family in the order of the options; the first allowed address that connects or interrupts decides, and the policy if there is none; the allowed addresses up to it are tried, in order, each pending one for its share of the option; sockets are conserved, and an interruption is kept iff it is the first before the take. |
| Dialer.OnlyAllowed | src/NatsHelper.cpp:469-479 | What is tried up to some point is the addresses at increasing places of the list, which are exactly the allowed ones before it. |
| DialerExceptions.Holder.KeepException | src/NatsHelper.cpp:405-414 | An exception is kept iff it is the first before the take. |
| DialerExceptions.FirstIsDelivered | src/NatsHelper.cpp:393-414 | In every run the first exception raised before the take is delivered once, and no other; at most one is pending. |
| DialerExceptions.NothingLost | src/NatsHelper.cpp:393-414 | Every exception is delivered, pending or discarded, each time that it was raised. |
| SlicedWait.SlicesMeaning | src/QoreNatsSubscription.cpp:58-95 | The slices add up to the timeout, none exceeds the poll interval, and there are max(1, ceil(t/P)) of them. |
| SlicedWait.WaitInSlices | src/QoreNatsSubscription.cpp:53-105 | Turn by turn: a cancellation ends the wait before its slice is asked for, an answer ends it with its value, a slice that runs out ends it iff the timeout is used up; the slices asked for are the first ones. |
| SlicedWait.ArrivalDecides | src/QoreNatsSubscription.cpp:58-105 | An answer that comes at some time is returned iff that is before the end of the timeout, whatever the poll interval. |
| Subscription.Subscription.NextMsg | src/QoreNatsSubscription.cpp:47-106 | Turn by turn, the result, the slices asked for and the message that is kept for a cancellation, a message, the end, an error and the end of the time. |
| Subscription.Subscription.TakeBatch | src/QoreNatsSubscription.cpp:171-190 | All messages of a batch but the last converted one are destroyed once, also if a conversion fails in the middle. |
| Subscription.Subscription.Fetch | src/QoreNatsSubscription.cpp:147-203 | Turn by turn, the result, the slices asked for and the message that is kept for a cancellation, a batch, also one with a failed conversion, an error and the end of the time. |
| Subscription.EveryMessageDestroyed | src/QoreNatsSubscription.cpp:32-270 | In every life of a subscription each message is destroyed as often as it was received, and never more often before the end. |
| Subscription.LastIsKept | src/QoreNatsSubscription.cpp:73-190 | After a call that received messages and did not fail, the message kept is the last one received; after a failed conversion in a batch, it is the message that could not be converted. |
| Watcher.WaitForCompletion | src/QoreNatsSubscription.cpp:205-244 | Turn by turn, the wait for a drain ends with the answer; a cancellation and the end of the time are errors. |
| Watcher.KVWatcher.GetNext | src/QoreNatsKVWatcher.cpp:43-84 | Turn by turn, an entry is returned and destroyed, an error and a cancellation raise, an answer without an entry spends no budget, and the slices that run out use up the timeout; the time that passes. |
| Watcher.SlicesBounded | src/QoreNatsKVWatcher.cpp:60-61 | No slice of the watcher's wait exceeds the poll interval, and none is empty. |
| Watcher.WatchEnds | src/QoreNatsKVWatcher.cpp:55-83 | The wait takes at most one turn for each slice and each answer without an entry. |
| Watcher.TimeoutAndMore | src/QoreNatsKVWatcher.cpp:53-83 | A wait that ran out took its timeout and, in addition, the time of every answer without an entry. |
| Watcher.TimeoutIsExact | src/QoreNatsKVWatcher.cpp:53-83 | A wait that ran out took at least its timeout, and exactly it iff every answer without an entry came at once. |
| Watcher.TimeoutExceeded | src/QoreNatsKVWatcher.cpp:60-83 | A wait of 100 ms that takes 150 ms. |
| EventProvider.ObserversSeeAPrefix | qlib/NatsDataProvider/NatsSubscribeEventDataProvider.qc:179-207 | In every interleaving the observers see the iterated messages in order, all but at most the last, and then the end of the loop. |
| EventProvider.StopsSoon | qlib/NatsDataProvider/NatsSubscribeEventDataProvider.qc:121-196 | At most one message is seen after a stop was requested, and none after the provider became inactive. |
| EventProvider.StopIsSeen | qlib/NatsDataProvider/NatsSubscribeEventDataProvider.qc:121-191 | Whenever a stop is requested, at most one more message is shown in any continuation. |
| EventProvider.EndIsInactive | qlib/NatsDataProvider/NatsSubscribeEventDataProvider.qc:194-201 | A loop that has ended left its provider inactive. |
| EventProvider.OneLoop | qlib/NatsDataProvider/NatsQueueSubscribeEventDataProvider.qc:102-118 | However many threads start the provider, at most one loop runs. |
| EventProvider.TwoEndsExactlyIfRaised | qlib/NatsJetStreamDataProvider/NatsJSPullSubscribeEventDataProvider.qc:199-227 | A loop that ended raised one terminal event, or both iff an observer raised an exception for the completion. |
| EventProvider.BothEnds | qlib/NatsDataProvider/NatsSubscribeEventDataProvider.qc:192-206 | A run whose observers see a completion and then an error. |
| EventProvider.SubscribeLoop | qlib/NatsDataProvider/NatsSubscribeEventDataProvider.qc:179-207 | The loop, with any stop requests and starts by other threads in every gap between its own steps, is the run of exactly these steps and of those for its messages and exceptions: it shows the messages in order until the iterator ends, a stop is seen or an observer raises an exception, and then the end. |

## Left out

- ReplyProtocol.Next: the request counter does not wrap around at 2^63, and the wait is the cancellable one; in builds without it each wait is also cut at the poll interval.
- ReplyRequest.Request: the call that gets the replies is in ReplySubscription; a request starts here with its number.  The checks for a missing connection and a cancellation before it raise an exception and change nothing.
- ReplySlots.ReplyMux.HandleReply: a subject is a string without embedded zero bytes.
- Dialer.ConnectAddress: the platform-dependent SO_NOSIGPIPE call, which is one more way to fail with a system error.
- DialerAddresses.CollectAddresses: the random generator; a shuffle is any rearrangement.
- Watcher.WaitForCompletion: stands for the flush of a connection as well (src/QoreNatsConnection.cpp:1084-1122), whose loop is the same.
- SlicedWait.WaitInSlices: the loops of nextMsg, fetch, waitForDrainCompletion and flush are written once; what differs between them is in the methods that call it.
- EventProvider.SubscribeLoop: the three providers differ in the subscription that they create, which is one step that succeeds or fails.
- The release of a handler context is one step of the protocol of MicroService; the calls into Qore that it makes are the effects of ReleaseHandlers.
- Forked child processes, which abandon the objects of their parent.
- DNS resolution, socket options, TLS, file access checks, and the sandbox and program contexts that callbacks run in.
- Option parsing, conversions of messages and statistics to hashes, the JetStream and key-value calls and the data provider metadata: single calls or flat copies.
- The paths of modules are given as a list without duplicates instead of a directory tree.
