# Verified models of libchrome's `base/`

This project models the parts of `base/` whose correctness is hardest to see from the code: the MD5 engine, the
lock-free creation of lazy instances and their destruction at exit, observer and callback lists that are changed
while they are being walked, the Pickle format, command lines, feature overrides, environment blocks and the path
service. Each model follows the code's branches, constants and edge cases. Code that updates objects in place is a
class or a method with loops; concurrent and re-entrant code is a state machine, and a run is any sequence of its
steps. `dafny verify dfyconfig.toml` checks everything.

What is proved, component by component:

- **MD5.** The unrolled transform computes RFC 1321's compression function, and the streaming context, with its split
  bit count and one- or two-block padding, computes RFC 1321's digest of the whole message however it is cut up.
- **Lazy instances.** Over every interleaving of any number of threads, at most one instance is created, stored and
  registered for destruction, and every thread returns it; no run makes more than five moves per thread. That no thread
  ever returns the "being created" marker holds if and only if creators never return null.
- **Exit managers.** Over every run, constructions minus destructions is one exactly while the state word holds a
  pointer, and each manager runs exactly what was registered during its life, once, in reverse.
- **Observer lists and callback lists.** Whatever iterators and callbacks do to the list, its live slots are the plain
  list of subscribers; while iterators are live a slot keeps its place and its observer until it is nulled; each
  iteration yields, or runs, exactly the slots it passes that are live at their turn, once each, and goes as far as its
  policy says.
- **Thread-safe observers.** Over every interleaving tasks are conserved, and each is posted exactly as often as the
  notifications sent and the additions made inside dispatches call for; once all tasks have run, a never-removed
  observer has heard each notification meant for it exactly once, whatever the others do and however dispatches nest. If
  no two additions are of the same observer, nobody hears a notification twice, the wrapper's sequence assertion holds
  and a removal aborts what was sent before it. For observers that leave and rejoin, each of these three fails under an
  exact condition.
- **Pickle.** Any list of typed values, written, sent as bytes and viewed by a receiver, is read back; reads of
  arbitrary bytes stay inside the payload and on field boundaries; growth is amortized; streams of Pickles are split
  apart again.
- **Command lines.** On Windows the written string of any arguments splits back, by Microsoft's published rules, into
  exactly those arguments if and only if each meets a condition a caller can check; with placeholders it still does when
  they are replaced, under an exact condition. On POSIX the parsed form is described
  completely, and parsing it again changes nothing if and only if no switch has one particular form.
- **Feature overrides.** The two command-line strings restore any override map if and only if every override meets a
  condition a caller can check: no separator in its name, a leading star only in the default state, a registered trial
  without a comma, and a text that is not empty and neither begins nor ends with white space.
- **Environment.** A reader of the block that `AlterEnvironment` builds sees exactly the expected lines if and only if
  no line that is added holds a NUL; all is within the block's bounds, and the lines mean what the changes ask for.
- **Path service.** With a cache in front of re-entrant providers, every sequence of calls gets the answers of a
  resolver that has no cache.

Where the code and its documentation disagree, the model follows the code:

- `GetOrCreateLazyPointer` is documented to allow creators that return null; with one, a losing thread can return the
  marker value (`LazyProtocol.LoserCanReturnMarker`, `LazyProtocol.MarkerNeverReturnedExactly`).
- `observer_list_threadsafe.h` says that removing an observer aborts a notification that has not started. An observer
  that is put back while its task waits hears it after all (`ThreadSafeRejoining.RejoiningHearsOldNews`), on another
  sequence it trips the assertion (`ThreadSafeRejoining.RejoiningElsewhere`), and put back inside the dispatch it is
  hearing it hears the notification again (`ThreadSafeRejoining.RejoiningHearsTwice`).
- `pickle.h` says nothing can be read after a failed read; after a `ReadString16` whose count is out of range
  something can (`PickleReader.ReadableAfterFailure`), and a zero-length `ReadBytes` succeeds at the end of any payload
  that exists, but not in an iterator over no payload at all (`PickleReader.NothingAfterTheEnd`).
- Placeholders are quoted so that they can be replaced; replaced by nothing, one that keeps a backslash from a quote
  changes what the argument is (`WindowsPlaceholders.EmptyTextCanBreak`, `WindowsPlaceholders.FillsExactly`).
- A copy of a read-only Pickle has write offset zero, so the first write to it replaces the payload
  (`Pickle.CopyThenWrite`).
- Parsing a POSIX command line again is not always the identity: `--a =` names the switch `a ` first and `a` then
  (`PosixCommandLine.ReparseCanChange`).

`Wrappers`, `Seqs` and `Arithmetic` hold shared definitions and facts.

## Model

| member | source | states |
|---|---|---|
| Md5Transform.MixIsAux | base/md5.cc:53-56 | the four selector macros, with their optimized forms of F and G, are RFC 1321's auxiliary functions for all words |
| Md5Transform.RolIsRotate | base/md5.cc:59-60 | the shift-and-or of the step macro is rotation by each amount used |
| Md5Transform.TransformIsCompress | base/md5.cc:67-147 | the 64 unrolled steps, with their register permutations, are the four rounds of sixteen operations, over any word operations of the code's shape |
| Md5Transform.TransformIsRfc | base/md5.cc:67-147 | for all registers and blocks the transform equals section 3.4 of RFC 1321 |
| Md5.CountAdvances | base/md5.cc:178-181 | the two-word bit count with its hand-made carry stays eight times the byte count modulo 2^64 for every update length |
| Md5.BufferedBytes | base/md5.cc:183-183 | the number of buffered bytes can be read off the low count word alone |
| Md5.CountWordsAreLength | base/md5.cc:253-256 | the two count words in memory are the 64-bit length field of the padding |
| Md5.ByteReverse | base/md5.cc:39-48 | assembling words from bytes and storing them back leaves little-endian memory unchanged |
| Md5.PaddedBlocks | base/md5.cc:221-256 | the padded message ends in one more block when at most 55 bytes are buffered, else in two, with these contents |
| Md5.Context.constructor | base/md5.cc:157-165 | a fresh context has absorbed the empty message |
| Md5.Context.Copy | base/md5.cc:264-270 | a structure copy holds the same message in its own memory |
| Md5.Context.Count | base/md5.cc:178-183 | the count part of an update advances the count and yields the buffered length |
| Md5.Context.AbsorbBlocks | base/md5.cc:205-211 | the block loop absorbs every whole block and stops with fewer than 64 bytes left |
| Md5.Context.Buffer | base/md5.cc:185-214 | from any fill of the buffer the registers and the buffer hold the extended message |
| Md5.Context.Update | base/md5.cc:171-215 | the context holds the old message followed by the data |
| Md5.Context.Pad | base/md5.cc:221-250 | before the length is appended, the absorbed blocks and the buffer are the padded message but for its last eight bytes |
| Md5.Context.Finish | base/md5.cc:221-258 | the registers are those of the padded message |
| Md5.Context.Final | base/md5.cc:221-262 | the digest of the message, and a wiped context |
| Md5.Context.IntermediateFinal | base/md5.cc:264-270 | the digest of the message so far, with the context unchanged |
| Md5Digest.CodeDigestIsRfc | base/md5.cc:286-291 | the digest over the code's transform is RFC 1321's digest of every message |
| Md5Digest.DigestOfPieces | base/md5.cc:171-262 | any list of updates gives RFC 1321's digest of their concatenation |
| Md5Digest.Sum | base/md5.cc:286-291 | MD5Sum is RFC 1321's digest |
| LazyProtocol.RunKeepsInv | base/lazy_instance_helpers.h:58-95 | every interleaving is idle, building with one winner, or built with its instance in the word |
| LazyProtocol.OneInstance | base/lazy_instance_helpers.h:58-95 | in every interleaving at most one creation, only the winner stores, at most one registration, and every returned value is that instance |
| LazyProtocol.StoreIsFinal | base/lazy_instance_helpers.cc:49-61 | a stored instance is never replaced |
| LazyProtocol.StepUsesWork | base/lazy_instance_helpers.cc:14-47 | a step changes nothing only in a finished thread or a turn of the spin loop while the instance is being created |
| LazyProtocol.MovesAreBounded | base/lazy_instance_helpers.cc:14-47 | no run makes more than five moves per thread |
| LazyProtocol.FinishedMeansReturned | base/lazy_instance_helpers.h:58-95 | where no thread can move every thread has returned the one instance, registered once if there is a destructor |
| LazyProtocol.LoserCanReturnMarker | base/lazy_instance_helpers.h:86-92 | with a creator that returns null there is a run of three threads in which a loser returns the marker |
| LazyProtocol.MarkerNeverReturnedExactly | base/lazy_instance_helpers.h:58-95 | no interleaving of any number of threads returns the marker if and only if no creator returns null (or the marker itself) |
| LazyProtocol.SoundExactlyWhenNonNull | base/lazy_instance_helpers.h:58-95 | every interleaving returns only real instances under the same condition |
| AtExit.DestroyRunsInReverse | base/at_exit.cc:37-47 | a destroyed manager runs each callback once, last registered first, and the shadowed manager is back on top untouched |
| AtExit.ProcessRunsInReverse | base/at_exit.cc:68-96 | ProcessCallbacksNow runs and empties the top manager's stack, last first, even with managers disabled, and leaves the manager there |
| AtExitScopes.ScopeRunsItsOwn | base/at_exit.cc:27-65 | whatever managers there are, one that is constructed runs at its destruction exactly the tasks registered and the instances first used in between, last first; those instances are gone again and the managers below are as they were |
| AtExit.RunsAreBalanced | base/lazy_instance.h:151-205 | over every run, constructions minus destructions is one exactly while the word holds a pointer, and no instance has two pending destructors |
| AtExit.EverythingDestroyedAtExit | base/lazy_instance_helpers.cc:49-61 | after a run with managers in charge and all of them gone, every instance has been destroyed as often as constructed |
| AtExit.ExitState.ConstructManager | base/at_exit.cc:27-35 | a new manager shadows the others with an empty stack |
| AtExit.ExitState.RegisterTask | base/at_exit.cc:56-65 | the closure goes on the top manager's stack |
| AtExit.ExitState.ProcessCallbacksNow | base/at_exit.cc:68-96 | the top manager's stack is taken and run from the back |
| AtExit.ExitState.DestructManager | base/at_exit.cc:37-47 | the whole state after a manager's destruction |
| AtExit.ExitState.GetPointer | base/lazy_instance.h:151-160 | an existing instance is returned; otherwise one is created, stored and registered |
| ThreadSafeObservers.RunConserves | base/observer_list_threadsafe.h:106-220 | in every run each posted task is pending, checked, started or dropped, exactly once |
| ThreadSafeObservers.RunPostsAsExpected | base/observer_list_threadsafe.h:106-174 | in every run each task has been posted exactly as often as its observer was registered there at that Notify and, under policy ALL, was added there inside that dispatch |
| ThreadSafeObservers.HeardAtMostAsExpected | base/observer_list_threadsafe.h:157-220 | no task calls back more often than that |
| ThreadSafeObservers.DrainedMeansDelivered | base/observer_list_threadsafe.h:120-137 | once all tasks have run, a never-removed observer has heard each notification exactly that often, including those it was added inside of under policy ALL |
| ThreadSafeDelivery.StayingHearsOnce | base/observer_list_threadsafe.h:157-220 | in every run, whatever other observers do, one that is never taken out hears no notification twice, on any sequence |
| ThreadSafeDelivery.DeliveredExactlyOnce | base/observer_list_threadsafe.h:120-174 | once all tasks have run, a never-removed observer has heard a notification exactly once, on one sequence, if it was registered there at the Notify or, under policy ALL, was added there inside it, and not at all otherwise |
| ThreadSafeHistory.LeaveUndoesInvoke | base/observer_list_threadsafe.h:203-219 | in every state, a callback dispatches the notification of its task, and its return restores what was being dispatched on the thread before, changing no other thread |
| ThreadSafeHistory.LeaveUndoesEnterForeign | base/observer_list_threadsafe.h:203-219 | the same for a dispatch of another list, inside which no notification of this one is being dispatched |
| ThreadSafeHistory.OpenIsStack | base/observer_list_threadsafe.h:203-219 | in every run the thread-local and the values saved for it are the dispatches entered on the thread and not left since |
| ThreadSafeHistory.AddPostsInnermost | base/observer_list_threadsafe.h:120-137 | an addition under policy ALL posts exactly the notification whose dispatch is innermost on its thread, if it is one of this list, and nothing otherwise |
| ThreadSafeHistory.RegisteredExactly | base/observer_list_threadsafe.h:112-147 | an observer is registered on the sequence of its last addition unless it was taken out since |
| ThreadSafeHistory.DeliveredAsScripted | base/observer_list_threadsafe.h:106-220 | read off the script alone: once all tasks have run, an observer never taken out has heard exactly once each notification sent while it was registered or, under policy ALL, that it was added inside of, however dispatches nest, and no other |
| ThreadSafeDelivery.AddedOnceIsEnough | base/observer_list_threadsafe.h:105-147 | if no two steps of a run add the same observer, then all hear each notification at most once, the sequence assertion holds throughout, and a removal aborts everything sent before it |
| ThreadSafeRejoining.OncePostedExactly | base/observer_list_threadsafe.h:125-136 | in every run, no observer is posted the same notification twice, on whatever sequences, if and only if none is added inside a dispatch of a notification it was already posted, under policy ALL |
| ThreadSafeRejoining.EachOnceExactly | base/observer_list_threadsafe.h:125-136 | the same for one sequence |
| ThreadSafeRejoining.HeardOnce | base/observer_list_threadsafe.h:157-220 | without such an addition every observer hears every notification at most once |
| ThreadSafeRepeats.HeardTwiceExactly | base/observer_list_threadsafe.h:125-136 | after an addition inside a dispatch the observer can come to hear that notification twice if and only if a task with it was waiting, about to call back or had called back; and then also if tasks run one at a time from there on |
| ThreadSafeRejoining.AtHomeExactly | base/observer_list_threadsafe.h:191-201 | the sequence assertion in the wrapper can fail at no point of a run if and only if no observer was put on one sequence while a task for it waited on another |
| ThreadSafeRejoining.RemovalAborts | base/observer_list_threadsafe.h:139-147 | after a removal nothing posted before it begins, as long as the observer is not put back while a task for it waits |
| ThreadSafeRejoining.RevivalExactly | base/observer_list_threadsafe.h:139-147 | putting a removed observer back lets no earlier task begin, in any continuation, if and only if none was waiting |
| ThreadSafeRejoining.RejoiningElsewhere | base/observer_list_threadsafe.h:191-201 | a run in which the sequence assertion fails |
| ThreadSafeRejoining.RejoiningHearsOldNews | base/observer_list_threadsafe.h:139-147 | a run in which an observer hears a notification sent before its removal |
| ThreadSafeRejoining.RejoiningHearsTwice | base/observer_list_threadsafe.h:125-136 | a run in which an observer that leaves and rejoins inside a dispatch hears the same notification twice |
| ThreadSafeObserversCode.SafeList.AddObserver | base/observer_list_threadsafe.h:106-137 | the map and the posted task are exactly the protocol's Add step |
| ThreadSafeObserversCode.SafeList.RemoveObserver | base/observer_list_threadsafe.h:144-147 | the map after erasing is exactly the protocol's Remove step |
| ThreadSafeObserversCode.SafeList.Notify | base/observer_list_threadsafe.h:161-174 | the posting loop is exactly the protocol's Notify step: one task for each observer, on its sequence |
| ThreadSafeObserversCode.SafeList.StillObserving | base/observer_list_threadsafe.h:193-201 | the wrapper's critical section lets the posted call go on or drops it |
| ThreadSafeObserversCode.SafeList.Enter | base/observer_list_threadsafe.h:209-215 | the thread-local is set above the saved value |
| ThreadSafeObserversCode.SafeList.Restore | base/observer_list_threadsafe.h:217-219 | the saved value comes back |
| ObserverSlots.CompactedContents | base/observer_list.h:283-288 | compacting keeps the live observers in order and leaves no null |
| ObserverSlots.AddContents | base/observer_list.h:240-249 | adding appends, unless the observer is there |
| ObserverSlots.RemoveContents | base/observer_list.h:251-264 | nulling and erasing both take exactly that observer out of the live ones |
| ObserverSlots.ClearContents | base/observer_list.h:271-278 | after clearing there are no live observers |
| ObserverList.StepKeepsInv | base/observer_list.h:103-295 | each operation keeps the counter exact, nulls only while an iterator lives, and every iterator's account of the slots |
| ObserverList.RunKeepsInv | base/observer_list.h:103-295 | the same in every reachable state |
| ObserverList.NothingMoves | base/observer_list.h:251-288 | from every reachable state, through any further steps during which some iterator is live, no slot is erased, moved or given to another observer: it keeps its observer or becomes null, and new slots come behind |
| ObserverList.RunIsPlain | base/observer_list.h:240-278 | with any iterators about, the live slots are the plain sequence that the same calls build |
| ObserverList.EachTurnSees | base/observer_list.h:157-202 | each increment, whatever happened in between, ends the loop with no live slot missed or yields the next live slot, later than all before |
| ObserverList.FirstTurnSees | base/observer_list.h:113-123 | a loop begins with the first live slot |
| ObserverList.YieldedExactly | base/observer_list.h:113-205 | in every reachable state an attached iterator, copied and assigned ones included, has yielded exactly those of the slots it passed that were occupied at their turn |
| ObserverList.ExistingOnlyIsBounded | base/observer_list.h:113-123 | in every run under EXISTING_ONLY an iterator, copied and assigned ones included, has yielded only slots below the number there were at the begin() its value came from, and at most that many |
| ObserverList.EndingTurnHasSeenAll | base/observer_list.h:113-205 | a turn that ends a loop leaves out no occupied slot: under ALL none there is now, under EXISTING_ONLY none below the number at its beginning |
| ObserverList.OtherTurnsYield | base/observer_list.h:157-205 | any other turn yields one more slot, occupied and within that reach |
| ObserverListCode.List.AddObserver | base/observer_list.h:240-249 | the vector after the call is the specified one |
| ObserverListCode.List.RemoveObserver | base/observer_list.h:251-264 | the vector after the call is the specified one, nulled or erased by the live count |
| ObserverListCode.List.Clear | base/observer_list.h:271-278 | the loop nulls every slot when iterators live, else the vector is emptied |
| ObserverListCode.List.Compact | base/observer_list.h:283-288 | the erase loop computes the compacted vector |
| ObserverListCode.Iter.EnsureValidIndex | base/observer_list.h:193-198 | the skip loop stops at the first live slot or the limit |
| ObserverListCode.Iter.Begin | base/observer_list.h:113-123 | a new iterator is counted, stands on the first live slot and has the limit of its list's policy |
| ObserverListCode.Iter.Copy | base/observer_list.h:134-140 | a copied iterator is counted too |
| ObserverListCode.Iter.Increment | base/observer_list.h:157-163 | one slot on, then to the next live one |
| ObserverListCode.Iter.IsEnd | base/observer_list.h:204-204 | a detached iterator is at the end, an attached one when its index meets the clamped limit |
| ObserverListCode.Iter.Destroy | base/observer_list.h:125-132 | the last iterator to go compacts the list |
| ObserverListCode.Iter.Assign | base/observer_list.h:142-148 | copy-and-swap assignment keeps both lists' counts, and compacts the list whose last iterator it takes away |
| CallbackList.RunKeepsInv | base/callback_list.h:125-189 | in every nesting of notifications, additions and unsubscriptions the count is exact, reset nodes exist only while an iterator lives, and each iterator has run, or found reset, every node it passed |
| CallbackList.NothingMoves | base/callback_list.h:83-105 | from every reachable state, for as long as some iterator is active, no node is erased or moved: it keeps its callback or is reset |
| CallbackList.RanExactly | base/callback_list.h:143-153 | in every reachable state an iterator has run exactly those of the nodes it passed that had their callback at their turn, whatever happened to them before or after |
| CallbackList.FinishedNotifyRanAll | base/callback_list.h:212-218 | a finished Notify has passed every node there was when it began and, in order and once each, has run all that are still subscribed, up to where it met the end |
| CallbackList.EachGetNextSees | base/callback_list.h:143-153 | each GetNext returns the next live node, with none missed, or the end |
| CallbackList.RemovalRunsOncePerErasure | base/callback_list.h:175-189 | the removal callback runs once for each compaction that erased anything, and not otherwise |
| CallbackList.RunIsPlain | base/callback_list.h:83-105 | the live nodes are the subscribed callbacks in registration order |
| CallbackList.Callbacks.Compact | base/callback_list.h:175-189 | the erase loop computes the compacted list and decides about the removal callback |
| CallbackList.Callbacks.GetNext | base/callback_list.h:143-153 | the skip loop finds the next live node |
| Bits.PowerOfTwoExactly | base/bits.h:27-35 | the bit test holds exactly for the powers of two |
| Bits.AlignIsLeastMultiple | base/bits.h:38-41 | masking rounds up to a multiple of the alignment, or wraps to zero near the top of the range |
| Bits.AlignIsLeast | base/bits.h:38-41 | and to the least such multiple |
| PickleFormat.FromLeOfLe | base/pickle.cc:31-41 | a number's bytes give the number back |
| PickleReader.TakeFollows | base/pickle.cc:43-72 | taking bytes stays inside the payload, goes forward and keeps field alignment |
| PickleReader.ReadBounds | base/pickle.cc:84-208 | so does every typed read, whatever the payload holds |
| PickleReader.ReadAllBounds | base/pickle.cc:43-208 | so does every list of reads, failures included |
| PickleReader.ReadsFromPayload | base/pickle.cc:51-208 | a successful read decodes bytes between where it started and where it stopped |
| PickleReader.FailureParks | base/pickle.cc:51-82 | a failed read parks the iterator at the end if and only if it is not a String16 count out of range with bytes behind it |
| PickleReader.FailureIsFinalExactly | base/pickle.cc:51-82 | after a failed read nothing that needs a byte can be read if and only if the failure is not such a String16 |
| PickleReader.FailureIsFinal | base/pickle.cc:51-82 | after any other failure every list of non-empty reads fails |
| PickleReader.NothingAfterTheEnd | base/pickle.cc:51-72 | at the end exactly the empty ReadBytes succeeds, and only where there is a payload; nothing moves |
| PickleReader.NothingFromNowhere | base/pickle.h:33-33 | a default iterator, or one over rejected data, fails every read, even of no bytes |
| PickleReader.ReadableAfterFailure | base/pickle.cc:74-82 | a payload from which an int can be read after a failed ReadString16 |
| PickleReader.ReadBack | base/pickle.h:189-210 | for each of the thirteen kinds of value, reading its type at its encoding returns it and stops behind it |
| PickleWire.EncodedIsWire | base/pickle.h:189-210 | what each of the thirteen writes appends, byte by byte: words low byte first, a bool as the int one or zero, a long as 64 bits, lengths in front of strings, zeros up to the next word |
| PickleWire.AlikeReads | base/pickle.h:189-195 | a written bool reads back as the int one or zero, a long as a 64-bit int and a string as data, at every position |
| PickleWire.ReadSucceedsExactly | base/pickle.cc:51-208 | for all payloads a read succeeds if and only if what is left holds the bytes it asks for, with a length or count in front that fits |
| PickleWire.BoolIsFirstByte | base/pickle.cc:84-86 | ReadBool is true for any first byte but zero |
| PickleReader.RoundTrip | base/pickle.cc:84-208 | any list of typed values written and read with the same types comes back whole and ends at the payload's end |
| PickleGrowth.AlignedIsPadded | base/pickle.cc:405-405 | word alignment is the length plus its padding |
| PickleGrowth.WriteGrowth | base/pickle.cc:411-418 | a growing write holds what it needs, in whole units, at most doubles it plus a page, and gains at least half |
| PickleGrowth.ReserveGrowth | base/pickle.cc:311-321 | the same for a reservation, with a factor of three |
| PickleGrowth.WriteGrowthExactly | base/pickle.cc:411-418 | the capacity after a growing write: the least multiple of 64 holding the need and twice the old capacity or, past a page, one unit less than the end of the page that falls in |
| PickleGrowth.EndsBelowPage | base/pickle.cc:414-415 | a write that doubles past a page and needs no more ends 64 bytes below a multiple of 4096 |
| PickleGrowth.ReserveGrowthExactly | base/pickle.cc:311-321 | the capacity after a growing reservation: the least multiple of 64 that holds twice the old one and the need |
| PickleGrowth.GrowthIsAmortized | base/pickle.cc:402-425 | over every run the buffer holds the payload, wastes at most a constant factor, and all reallocations together move at most twice its capacity |
| Pickle.ViewAccepts | base/pickle.cc:238-255 | despite 32-bit wrap-around, a view is kept exactly when the announced payload leaves a non-zero multiple of four bytes for the header |
| Pickle.Buffer.constructor | base/pickle.cc:227-236 | an empty payload behind a header of aligned size |
| Pickle.Buffer.View | base/pickle.cc:238-255 | the data is viewed or rejected by that condition |
| Pickle.Buffer.Copy | base/pickle.cc:257-264 | the same header, payload and write offset in fresh memory |
| Pickle.Buffer.Assign | base/pickle.cc:271-289 | self-assignment changes nothing; otherwise the other's header, payload and write offset in fresh memory, from any prior state |
| Pickle.Buffer.PayloadSize | base/pickle.h:250-252 | the payload's length, zero for a rejected view |
| Pickle.Buffer.Data | base/pickle.h:173-176 | the bytes sent are size, rest of the header, payload |
| Pickle.Buffer.Resize | base/pickle.cc:336-342 | whole units of memory with the old bytes kept |
| Pickle.Buffer.Claim | base/pickle.cc:402-425 | the payload up to the offset is kept, room is made, padding is zero, the size is announced |
| Pickle.Buffer.WriteBytes | base/pickle.cc:427-433 | the payload up to the offset, then the bytes and their zero padding; the rest of the header is untouched |
| Pickle.Buffer.ClaimBytes | base/pickle.cc:344-349 | zeros of that length are appended |
| Pickle.Buffer.Reserve | base/pickle.cc:311-321 | capacity for the length, with payload and header unchanged |
| Pickle.Buffer.Write | base/pickle.h:189-210 | a typed write of a value of its C++ type, with lengths that fit an int, appends exactly the value's encoding, and the memory grows by its one or two WriteBytes calls |
| Pickle.CopyThenWrite | base/pickle.cc:257-264 | writing to a copy appends if and only if the original's write offset is its payload's end; a copied view is overwritten |
| Pickle.Iterator.constructor | base/pickle.cc:25-29 | the iterator starts at the payload's beginning, or points nowhere if the Pickle's data was rejected |
| Pickle.Iterator.Advance | base/pickle.cc:43-50 | to the next field, or to the end if that is beyond it |
| Pickle.Iterator.TakeBytes | base/pickle.cc:52-72 | the bytes and the new position, or failure at the end |
| Pickle.Iterator.TakeCounted | base/pickle.cc:74-82 | a count that does not fit an int fails without moving |
| Pickle.Iterator.Next | base/pickle.cc:84-208 | each read method's result and position, null payloads included |
| PickleFraming.PartialFrame | base/pickle.cc:358-392 | of a Pickle still arriving, PeekNext knows the size once the header is there and FindNext waits for the whole |
| PickleFraming.FindNextExactly | base/pickle.cc:358-392 | for all bytes a next Pickle is found if and only if the header and the announced payload are there, and it ends where they end; a size beyond the range is clamped |
| PickleFraming.SplitKeepsAll | base/pickle.cc:358-369 | repeated FindNext loses no byte of any stream and stops only where no Pickle is complete |
| PickleFraming.SplitInvertsConcat | base/pickle.cc:358-392 | any Pickles of one header size sent back to back are split into the same list, with an unfinished one left over |
| PickleTransfer.WriteAll | base/pickle.cc:402-433 | writing any list of values to a fresh Pickle leaves their encodings as the payload, in memory that has grown as modelled, to less than twice the payload and a page |
| PickleTransfer.ReadTypes | base/pickle.cc:84-208 | reading a list of types with an iterator gives the specified values and position, or stops at the first failure |
| PickleTransfer.Receive | base/pickle.cc:238-255 | a view of the bytes a Pickle is sent as is accepted and has its payload |
| PickleTransfer.Transfer | base/pickle.h:111-126 | any typed values written to a Pickle, sent, viewed and read with their types come back, and nothing is left to read |
| CommandLineSwitches.GetPrefixLength | base/command_line.cc:47-54 | the loop finds the length of the first listed prefix |
| CommandLineSwitches.IsSwitchExactly | base/command_line.cc:58-72 | what begins with a dash, or a slash where that counts, is a switch unless it is nothing but a prefix |
| WindowsQuoting.RunEnd | base/command_line.cc:124-126 | the inner loop finds the end of the run of backslashes |
| WindowsQuoting.Quote | base/command_line.cc:106-151 | the nested loops compute the specified quoting |
| WindowsPlaceholders.WrittenPlainExactly | base/command_line.cc:111-117 | an argument is written as it is if and only if it holds no space, backslash or quote and, with placeholders, no percent sign |
| WindowsQuoting.EscapedReadsBack | base/command_line.cc:120-148 | read by Microsoft's rules, the escaped text and its closing quote are the argument, for every argument and context |
| WindowsCommandLine.GetArgumentsString | base/command_line.cc:456-485 | the loop writes each argument's token, separated by spaces |
| WindowsRoundTrip.QuotedNameIsLost | base/command_line.cc:467-473 | arguments with a quote in a switch name never come back |
| WindowsRoundTrip.RoundTripExactly | base/command_line.cc:456-485 | for all arguments, and whether or not the slash is a switch prefix, the string splits back into exactly them if and only if each is not empty, has no unquoted tab and, for a switch, no blank or quote in its name and no bare equals sign |
| WindowsPlaceholders.FillsExactly | base/command_line.cc:106-151 | with placeholders on, replacing every percent sign of a written argument by any text without quotes and backslashes, blanks included, still splits into that one argument with the same replacement, if and only if the argument is not empty, has no unquoted tab and, for an empty text, no backslash that this brings up to a quote |
| WindowsPlaceholders.EmptyTextCanBreak | base/command_line.cc:120-148 | an argument that an empty replacement breaks |
| WindowsPlaceholders.CommandLineFills | base/command_line.cc:456-485 | the same for whole command lines, switch values included |
| WindowsRoundTrip.PlainArgumentsRoundTrip | base/command_line.cc:106-151 | every list of non-empty, tab-free arguments that are not switches or stand behind the terminator comes back, with either placeholder flag |
| Strings.TrimIs | base/strings/string_util.cc:282-314 | trimming leaves nothing to trim and changes exactly the strings that need it |
| Strings.TrimKeeps | base/strings/string_util.cc:282-314 | what is kept is one stretch with only white space around it |
| Strings.SpaceExactly | base/strings/string_util_constants.cc:45-53 | white space is the six ASCII characters |
| PosixCommandLine.CommandLine.AppendSwitch | base/command_line.cc:327-348 | the switch is inserted before the arguments, with a prefix if it has none, and its value is recorded |
| PosixCommandLine.CommandLine.InitFromArgv | base/command_line.cc:261-267 | the state is the trimmed program, the switches in order, the others in order, and the map of last values |
| PosixCommandLine.SortedKeepsAll | base/command_line.cc:75-102 | every argument is kept, once |
| PosixCommandLine.SortedIs | base/command_line.cc:75-102 | what was not a switch would not be one in the stored order either |
| PosixCommandLine.LastWinsIs | base/command_line.cc:336-340 | a name's value is the one given last |
| PosixCommandLine.LastWinsOnly | base/command_line.cc:336-340 | only names that were given have a value |
| PosixCommandLine.CombinedIs | base/command_line.cc:327-348 | a switch is stored as it was given, but for a trailing equals sign |
| PosixCommandLine.GivesExactly | base/command_line.cc:58-72 | an argument is a switch n with value v if and only if it is one or two dashes, n without an equals sign and, unless there is no value, an equals sign and v |
| PosixCommandLine.HasSwitchExactly | base/command_line.cc:283-286 | for every argv a name is found if and only if some argument before the terminator gives it, dashes left off |
| PosixCommandLine.SwitchValueExactly | base/command_line.cc:311-316 | and its value is the one given last |
| PosixCommandLine.ProgramIsTrimmed | base/command_line.cc:273-281 | the program is stored without the white space around it |
| PosixCommandLine.ReparseExactly | base/command_line.cc:58-102 | for every argv, empty or not, parsing the stored argv again changes nothing if and only if no switch is `name=` with the name "-" or "--" or one ending in white space |
| PosixCommandLine.ReparseCanChange | base/command_line.cc:78-92 | a command line whose second parse names another switch |
| FeatureList.SplitFeatureList | base/strings/string_split.cc:73-105 | the loop computes the trimmed, non-empty pieces between commas |
| FeatureList.List.RegisterOverride | base/feature_list.cc:358-376 | a leading star means the default state, and the first entry for a name stays |
| FeatureList.ParseExactly | base/feature_list.cc:339-376 | a leading star means the default state on either list, the first less-than sign ends the name, and what follows is the trial if there is one of that name |
| FeatureList.List.RegisterOverridesFromCommandLine | base/feature_list.cc:339-356 | every term is registered in order, with its trial looked up |
| FeatureList.List.InitializeFromCommandLine | base/feature_list.cc:88-99 | the disabled list wins over the enabled one, and overrides that were there before win over both |
| FeatureList.DisabledWins | base/feature_list.cc:88-99 | a feature is what the first term naming it on the disabled list says or, if there is none, the first on the enabled list |
| FeatureList.List.GetFeatureOverrides | base/feature_list.cc:378-417 | both lists hold the texts of their overrides in iteration order |
| FeatureRoundTrip.KeptJoined | base/feature_list.cc:408-416 | joined texts without commas come apart again |
| FeatureRoundTrip.TermsExactly | base/strings/string_split.cc:73-105 | the terms of any pieces joined by commas are the pieces in order, trimmed, left out if nothing is left |
| FeatureRoundTrip.TextsExactly | base/feature_list.cc:378-417 | disabled overrides go on the one list, enabled and default ones on the other, each in iteration order |
| FeatureRoundTrip.OnlyTellable | base/feature_list.cc:339-376 | whatever the two strings, no restored name holds a comma or a less-than sign, one that begins with a star is in the default state, and every restored trial is registered and holds no comma |
| FeatureRoundTrip.RestoresExactly | base/feature_list.cc:378-417 | for any overrides in any iteration order, the two strings restore the map if and only if each override is of that form and its text is not empty and is trimmed |
| FeatureRoundTrip.OverridesRoundTrip | base/feature_list.cc:88-99 | in particular for valid, non-empty, trimmed names and trials |
| Environment.ParseEnvLine | base/environment.cc:107-119 | the key before the first equals sign and the length with the NUL |
| Environment.AlterEnvironment | base/environment.cc:186-234 | a reader of the returned table sees exactly the untouched lines and then the changes if and only if no added line holds a NUL; everything fits in the computed number of words and no fewer would do |
| Environment.BlockHoldsLines | base/environment.cc:217-233 | for any lines the null-terminated table leads, in order, to each line up to its first NUL: to the lines themselves if and only if none holds one |
| Environment.UntouchedExactly | base/environment.cc:190-205 | lines are kept one by one and in order, except those about a changed variable |
| Environment.ChangedExactly | base/environment.cc:207-215 | each change that is not a removal adds one line, in iteration order |
| Environment.AlteredMeaning | base/environment.cc:186-215 | a changed variable has its new value or none, and any other is as it was |
| PathService.BaseProviderIsWellBehaved | base/base_paths.cc:13-49 | the platform-neutral provider asks at most once, of a lower key, and fails with it |
| PathService.DirectoriesFound | base/base_paths.cc:29-33 | DIR_TEMP and DIR_HOME resolve to the temporary and the home directory, made absolute if that refers to a parent |
| PathService.DerivedDirectoriesFound | base/base_paths.cc:17-46 | DIR_EXE and DIR_MODULE are the directories of their files, DIR_ASSETS that of the module, DIR_TEST_DATA lies below the source root, and each fails with what it is derived from |
| PathService.Service.Get | base/path_service.cc:179-229 | the answer is that of the resolver without a cache, nested lookups included, only the cache changes, and for the current directory not even that |
| PathService.NoParentComesBack | base/path_service.cc:213-221 | no path from a provider is empty or refers to a parent, provided making a path absolute removes such references |
| PathService.Service.Override | base/path_service.cc:239-276 | when it succeeds, what the key resolves to then, and that a failure changes nothing; no stale entry stays cached |
| PathService.Service.RemoveOverride | base/path_service.cc:279-295 | the override is gone and no stale entry stays cached |
| PathService.Service.RegisterProvider | base/path_service.cc:298-327 | the provider is consulted first and the kept cache is still right |
| PathService.Service.DisableCache | base/path_service.cc:330-337 | the cache is emptied for good |
| PathService.StillResolves | base/path_service.cc:298-327 | a new provider with keys of its own changes no answer that there was, through any depth of nested lookups |
| PathService.Serve | base/path_service.cc:147-337 | every sequence of calls gets the answers of the service without a cache |

## Left out

- Weak memory: every atomic operation is one sequentially consistent step.
- `base/bind.h` and callbacks: a callback is an identifier; what it does is the next steps of the run.
- Allocation failure, locks and thread scheduling other than the order of steps.
- LazyProtocol.MovesAreBounded: turns of the spin loop while the winner is still creating are not counted, because nothing bounds how long a creator takes.
- AtExit.RunsAreBalanced: exit is single-threaded and callbacks register nothing, as the code demands.
- ThreadSafeObservers.DrainedMeansDelivered: AddObserver outside a sequence, which does nothing, is not a step; that a sequence runs one task at a time is not assumed.
- CallbackList.FinishedNotifyRanAll: a callback added while the iterator stands at the end is not reached, and none is claimed.
- Md5.ByteReverse: memory is little-endian.
- MD5DigestToBase16 and MD5String only format the digest.
- PickleReader.RoundTrip: floating-point values are their bit patterns, and a long has 64 bits, so ReadLong never truncates.
- Pickle.Buffer.Assign: assigning to a Pickle a view of its own memory is not covered, because the reallocation frees what is viewed.
- Pickle attachments do nothing in this class.
- WindowsPlaceholders.CommandLineFills: one direction only; a percent sign in a switch name is replaced outside quotes, where the text's blanks split it.
- The program name's own splitting rule, PrependWrapper and the lower-casing of switch names on Windows.
- FeatureRoundTrip.RestoresExactly: whether the state came from the trial or from the command line is not written, so it is not restored.
- Feature lists in shared memory, and GetCommandLineFeatureOverrides, which writes fewer entries.
- Environment.AlterEnvironment: pointers have eight bytes; the Windows version, which builds one string, is not modelled.
- Environment.AlteredMeaning: variable names hold no equals sign; a change whose name has one sets another variable.
- PathService.Serve: each call is one atomic step, and the current directory and the file system do not change during a run; providers are deterministic, fail when a nested lookup fails, and claim disjoint keys.
- Logging, Base64, JSON, string conversion and the rest of `base/`.
