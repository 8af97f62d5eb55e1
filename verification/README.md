# JACLibc, modelled and verified

JACLibc is a header-only C library. This project models its stateful core in Dafny and
proves what each piece is for: which states a protocol can reach, which plain object a
buffer, table or tree stands for, and which conversions undo each other.

| files | what they model | main results |
|---|---|---|
| `Barrier.dfy` | `pthread_barrier_wait`, one atomic access or futex call a step | `BarrierSafety`, `BarrierProgress`, `LeavesInOwnSteps` |
| `Mutex.dfy` | lock, trylock, timedlock and unlock, one access a step | `MutexSafety`, `MutexNoLostUnlock`, `LockCall` |
| `CondVar.dfy`, `Cardinality.dfy` | wait, timedwait, signal and broadcast with their mutex | `NoLostWakeup`, `BroadcastReachesAll`, `SignalReleasesOne`, `ReleasedGetsOut` |
| `CondNotify.dfy` | signal and broadcast without the mutex | `NotifierActs`, `BroadcastLeavesOneAsleep` |
| `ReadStream.dfy`, `StdioBuffer.dfy` | a read-only `FILE` | class `InStream` refines a plain file with pushed-back bytes; `FreadInChunks` |
| `WriteStream.dfy` | a write-only `FILE` | class `OutStream` conserves the accepted bytes; `FwriteSucceeds` |
| `HashTable.dfy` | `hcreate`, `hsearch`, `hdestroy` | `TableIsBoundedMap` |
| `SearchTree.dfy` | `tsearch`, `tfind`, `tdelete` over an explicit heap of nodes | `TreeIsSortedSet`, class `SearchTree` |
| `TreeWalk.dfy` | `twalk` | `WalkOrder`, `WalkDepths` |
| `MessageQueue.dfy` | message queues, descriptors, notification | `QueueLifecycle`, `ReceivedInOrder`, `MessagesConserved`, `FiresAtMostOnce` |
| `MessageCalls.dfy` | what each call means to its caller | `SendMeans`, `ReceiveMeans`, `ReceivedByPriority` |
| `MessageList.dfy`, `MessageTables.dfy` | the same in place: linked lists on a heap of nodes, and the tables | classes `Lists` and `Tables` |
| `Fnmatch.dfy` | `fnmatch` without the path-name flags | `FnMatch`, `WrittenPatternMeans`, `PlainTextMatchesItself` |
| `Calendar.dfy` | `mktime` and `gmtime` | `GmtimeThenMktime`, `MktimeThenGmtime` |
| `Utf8.dfy` | the multibyte conversions of `wchar.h` | `DecodingIsExact`, `StringRoundTrip` |
| `Utf16Stream.dfy` | the restartable conversions of `uchar.h` | `DecoderIsExact`, `Transcode` |
| `Iconv.dfy` | `iconv` on any input | `EveryInput`, `Descriptor.Iconv` |
| `IconvScalars.dfy` | `iconv` against the Unicode encoding forms | `PieceIsCodeExactly`, `ThereAndBack` |
| `AioPool.dfy` | the fallback I/O pool, one access a step | `PoolSafety`, `LeavesZeroAtMostOnce`, `PerformedIfInStateZero` |
| `AioCalls.dfy` | a producer's call and a worker's turn in that pool | `SubmissionOutcome`, `TakenIsDisposed` |
| `StdBit32.dfy`, `StdBit64.dfy` | the bit counters of `stdbit.h` | `CtzCounts`, `ClzCounts`, `PopCounts` |
| `Futex.dfy`, `Schedule.dfy`, `Octets.dfy`, `Arithmetic.dfy` | what several of these share: the futex word and its wakes, who takes a step, bytes, products and quotients | |

The step systems (barrier, mutex, condition variable, I/O pool) have a state, one
predicate per atomic step and runs as sequences of states; the theorems hold of every
state of every run, for any number of threads and any interleaving. What a call comes to
is stated from any of its states to its return, and that it returns by the number of steps
its own thread takes, whatever the others do. Code that works in
place is a class whose ghost field or view is the plain object it stands for, and every
method says how that object changes. Values that come from outside (the kernel's answers,
what `malloc` returns, the hash function, the comparator) are parameters.

Several promises turned out to hold only under a condition. Each is stated as it is, with
the exact condition or a witness:

- a broadcast without the mutex wakes as many threads as it counted, and others may fall
  asleep between the count and the wake: it is bound to get every sleeper exactly when they
  are no more than were counted (`WakeIsCompleteExactly`), and may leave asleep one that
  waited before it began (`BroadcastLeavesOneAsleep`).
- `fwrite` overruns its buffer exactly when it comes to a flush that works and takes less
  than the next piece of data needs; it falls short without that exactly when it comes to
  a flush that fails (`Fwrite`, `Ends`, `OverrunWitness`).
- a line-buffered newline is reported as EOF and yet accepted exactly when there was place
  for it and the flush of its line fails (`Fputc`).
- seeking to what `ftell` reports restores the stream exactly when the pushed-back bytes
  are the file's own, or there are none (`TellSeekRoundTrip`).
- a bracket range such as `[z-a]` stands for the characters between its ends exactly when
  they are in order; otherwise its first end still matches (`SpanNeedsOrder`). A `-` in
  front of the members is read as the range from 0 to the first of them (`DashMakesRange`,
  `LeadingDash`).
- the postorder visits of `twalk` are in key order exactly when no node has a right
  child: POSIX puts them between the subtrees, the code after both (`WalkSortedExactly`).
- `wcrtomb` accepts, besides the scalars, every negative wide character (`WcrtombAccepts`).
- `iconv` takes any lead byte with its continuation bytes for a character. `mbrtowc` takes
  the same bytes for the same character exactly when the value is not too small for their
  number and is a scalar (`PieceAgainstMbrtowc`); C0 80 and ED A0 80 are not
  (`IllFormedPieces`).
- `iconv` loses the character that no longer fits its output: it has been consumed but
  not written (`Iconv.Descriptor.Iconv`).
- `iconv` keeps the count of bytes to come between calls, and not the bits it has: a UTF-8
  sequence cut in two comes out right exactly when the first part holds no bits
  (`ResumedPiece`, `SplitCharacter`).
- the loop of `iconv` never ends exactly on UTF-16 and UTF-32 input cut off inside a
  character behind characters that all fit the output (`FirstTurns`); if one of those does
  not fit, the call returns there (`CutOffYetEnds`).
- `mktime` returns -1 for the dates it refuses, and also for the accepted second before
  the Epoch (`Mktime`, `MinusOneIsAmbiguous`).
- the broken-down year fits an `int` exactly below one time (`YearFitsInt`).
- a request on the fallback pool is never dropped if its control block is in state 0 when
  it is accepted and is accepted once (`PerformedIfInStateZero`); it is taken and dropped if
  the block is in another state from acceptance on, since that path does not reset the
  state itself (`DroppedIfUnfit`, `SomeRequestIsDropped`).

## Model

| member | source | states |
|---|---|---|
| Barrier.StepKeepsInv | include/pthread.h:633-646 | every atomic step of `pthread_barrier_wait`, by any thread, keeps the inductive invariant that ties count, phase and each thread's place to the current round |
| Barrier.BarrierSafety | include/pthread.h:621-646 | in every state of every run of exactly `limit` threads: nobody leaves round k before all have arrived in it, nobody is two rounds ahead of another, and each round gives at most one serial result, exactly one once all have left |
| Barrier.BarrierProgress | include/pthread.h:633-646 | a thread asleep on an old phase still has its round's wake ahead of it, and the threads are never all asleep |
| Barrier.ArrivesInOwnSteps | include/pthread.h:633-635 | a thread has arrived in its round after two steps of its own |
| Barrier.FullRoundIsEnding | include/pthread.h:633-646 | once every thread has arrived in the round that is on, one of them is ending it |
| Barrier.LeavesInOwnSteps | include/pthread.h:636-645 | a thread whose round is over, or that is ending it, has left after three steps of its own, however the others are scheduled |
| Barrier.NobodyStuck | include/pthread.h:633-646 | in every reachable state every thread can take its next step |
| Barrier.WakeReachesAll | include/pthread.h:641-644 | waking limit - 1 threads wakes every sleeper, since the waker is not one of them |
| Mutex.StepKeepsInv | include/pthread.h:299-391 | every load, store, compare-and-swap and futex call of the four operations keeps the invariant, for all mutex kinds |
| Mutex.MutexSafety | include/pthread.h:299-391 | in every reachable state at most one thread is between a successful lock and its last unlock; `owner` names only a holder; the futex word is 1 exactly while some thread holds; a recursive count equals the unmatched locks; and, as long as the kernel reports no dead owner, a holder of a recursive or error-checking mutex never waits for itself |
| Mutex.MutexNoLostUnlock | include/pthread.h:299-341 | unless the kernel reports a dead owner, a thread sleeps on a free mutex only while another is on its way to try the word or to wake it |
| Mutex.TryLockDecides | include/pthread.h:343-354 | a trylock at its compare-and-swap wins if no thread holds the mutex, and otherwise returns without it |
| Mutex.LockCall | include/pthread.h:299-375 | over a run, a lock, trylock or timedlock comes back with one more unmatched lock, or with as many as before: only for the holder of an error-checking mutex (EDEADLK), a timed call, a dead owner, or a trylock while some thread holds the mutex (EBUSY); the holder of a recursive mutex always gets one more, that of an error-checking one never |
| Mutex.UnlockCall | include/pthread.h:380-391 | over a run, an unlock takes off exactly one of the unmatched locks |
| Mutex.BriefCallsEnd | include/pthread.h:343-391 | a trylock or an unlock that has not returned has taken at most four steps of its own, however the others are scheduled |
| Mutex.NobodyStuck | include/pthread.h:299-391 | in every reachable state every thread can take its next step, and every locking call can win a free word |
| CondVar.StepKeepsInv | include/pthread.h:445-496 | every step of waiters, timed waiters and notifiers keeps the invariant on waiter count, captured words and mutex ownership |
| CondVar.BumpMakesAllStale | include/pthread.h:483-496 | after the fetch-add of a mutex-holding notifier every waiter's captured count is older than the current one; the futex words then differ unless the 32-bit word has gone all the way round |
| CondVar.BroadcastWakesAll | include/pthread.h:491-496 | waking as many threads as were counted leaves nobody asleep |
| CondVar.BroadcastReachesAll | include/pthread.h:445-459 | when a broadcast made with the mutex held returns, no thread that had entered the wait sleeps or can fall asleep on its captured word |
| CondVar.SignalReachesOne | include/pthread.h:483-490 | when a signal made with the mutex held returns and some thread waits, at least one waiter is awake for good, whether this signal or an earlier one woke it |
| CondVar.SignalReleasesOne | include/pthread.h:483-490 | if, when a signal made with the mutex held begins, some waiter sleeps or could still fall asleep on its captured word, then when it returns one of those waiters neither sleeps nor can |
| CondVar.NoLostWakeup | include/pthread.h:445-496 | a thread in a wait when such a broadcast completes never sleeps again in that wait, however the run goes on |
| CondVar.BusyCallsEnd | include/pthread.h:445-496 | a wait, signal or broadcast is over, or waits for a notification, after eight steps of its thread that are not failed tries for the mutex |
| CondVar.ReleasedGetsOut | include/pthread.h:445-478 | a released waiter is back from its wait, holding the mutex, after six such steps |
| CondVar.NobodyStuck | include/pthread.h:445-496 | in every reachable state every thread can take its next step, and a released waiter can get the mutex whenever nobody holds it |
| CondNotify.NotifierActs | include/pthread.h:483-496 | a signal or broadcast, with or without the mutex, that returns while some thread has been waiting all the time has moved the word on, so that thread cannot fall asleep again, and has asked the kernel for one sleeper, or for as many as it counted |
| CondNotify.WakeGets | include/pthread.h:487-494 | that wake gets at least one of the sleepers, and all of them if they are no more than were counted |
| CondNotify.WakeIsCompleteExactly | include/pthread.h:493-494 | a wake of n threads is bound to get all sleepers if and only if they are no more than n |
| CondNotify.BroadcastLeavesOneAsleep | include/pthread.h:491-496 | there is a run in which a broadcast without the mutex returns and a thread that slept before it began still sleeps |
| ReadStream.InStream.Reload | include/stdio.h:250-273 | one refill under any short read: EOF, with the error flag, exactly when the kernel fails; EOF, with the end-of-file flag, exactly when it works and the file has no more; else the next byte of the plain file, with the rest buffered |
| ReadStream.InStream.Fgetc | include/stdio.h:294-315 | delivers the next byte of the plain stream, from the buffer alone while it holds any; EOF with nothing consumed exactly when the buffer is empty and the kernel fails or the stream is at its end, each setting its own flag, whatever flags were set before |
| ReadStream.InStream.FreadTurn | include/stdio.h:535-547 | one turn of the copy loop moves a prefix of the plain stream to the destination and touches nothing else; it makes no progress exactly when the buffer is empty and the kernel fails or the stream is at its end |
| ReadStream.InStream.Fread | include/stdio.h:528-551 | copies a prefix of the plain stream to the destination, leaves the rest of it alone and returns the whole items; with a kernel that works it copies all that was asked for or all there is, sets no error and sets end-of-file exactly when asked for more; with any kernel it falls short of that only with the error flag set |
| ReadStream.InStream.Ungetc | include/stdio.h:614-622 | pushes one byte in front of the stream; refused only for EOF or a cursor at the start of the zone, never with fewer than 32 outstanding |
| ReadStream.InStream.Fseek | include/stdio.h:631-644 | moves the plain stream to the target and drops the pushback, or fails with no change; succeeds exactly for a non-negative target on a seekable file |
| ReadStream.InStream.Ftell | include/stdio.h:645-655 | reports the logical position of the plain stream |
| ReadStream.UngetGet | include/stdio.h:614-622 | reading after a pushback returns the byte and restores the stream |
| ReadStream.TellSeekRoundTrip | include/stdio.h:631-655 | at any position, seeking to the told one preserves the bytes to come if and only if nothing is pushed back, or the pushed-back bytes are the file's own |
| ReadStream.ChunkingIsInvisible | include/stdio.h:528-551 | reading in pieces of any sizes gives one prefix of the plain stream, of their total size or to its end |
| ReadStream.FreadInChunks | include/stdio.h:528-551 | successive `fread` calls of any sizes, with any short reads, together deliver that prefix: how reads are cut up cannot be seen |
| WriteStream.OutStream.FlushPartial | include/stdio.h:179-185 | moves the unwritten tail to the front of the data area |
| WriteStream.OutStream.Flush | include/stdio.h:186-202 | what the kernel takes leaves the buffer in order; a failed flush drops and duplicates nothing |
| WriteStream.OutStream.BufferOutput | include/stdio.h:316-324 | flushes exactly when unbuffered, full or at the end of a line, and keeps kernel contents plus pending bytes equal to the accepted bytes |
| WriteStream.OutStream.Fputc | include/stdio.h:492-511 | fails exactly when the byte has no place and the write that would make it fails, or when the flush of a line fails; appends its byte to the accepted bytes except in the first case; the cursor and the error flag are exact; nothing reaches the kernel early, and a complete flush of a line leaves nothing pending |
| WriteStream.OutStream.FwriteTurn | include/stdio.h:575-592 | one turn appends exactly the next piece, as much as the buffer's free or freed space takes; nothing when the flush fails; it runs past the buffer if and only if the flush of a full buffer works and takes less than that piece needs |
| WriteStream.OutStream.Fwrite | include/stdio.h:552-597 | the accepted bytes grow by a prefix of the data; a buffered stream takes all of it, or falls short exactly when some flush it comes to fails, or overruns exactly when one takes less than the data behind it needs, and stops at that flush; where the data ends in the buffer follows from the last flush reached, and behind it only a line-buffered stream flushes once more, if the data holds a newline and the buffer is full or ends in one; so what fits and completes no line stays pending, and a complete line is written out |
| WriteStream.CompleteWrites | include/stdio.h:575-592 | writes that take a whole buffer never overrun it, and if they all work no call falls short |
| WriteStream.FwriteSucceeds | include/stdio.h:552-597 | with complete writes that work, in any buffering mode, `fwrite` accepts all bytes, returns all items and sets no error |
| WriteStream.OverrunWitness | include/stdio.h:575-592 | one `fwrite` of two buffers of data, with writes of one byte, overruns the buffer |
| WriteStream.OutStream.Ftell | include/stdio.h:645-655 | reports the number of accepted bytes, or -1 exactly when `lseek` fails |
| HashTable.ProbeFindsKey | include/search.h:74-94 | for any hash, one probe sequence decides membership: it stops at the key, at an empty slot, or nowhere in a full table |
| HashTable.EnterKeepsInv | include/search.h:77-92 | entering keeps keys distinct and every slot from a key's home to its position occupied |
| HashTable.EnterIsMapUpdate | include/search.h:67-95 | entering is map update, except for a new key in a full table |
| HashTable.FullMeansCapacity | include/search.h:53-59 | the number of keys reaches the capacity exactly when no slot is empty |
| HashTable.Table.Hcreate | include/search.h:53-59 | creates an empty table of the requested or default size, or refuses when one exists |
| HashTable.Table.Hdestroy | include/search.h:61-65 | leaves no table and no entry |
| HashTable.Table.ProbeSlots | include/search.h:74-92 | the loop stops within capacity steps, at the specified slot |
| HashTable.Table.Hsearch | include/search.h:67-95 | found exactly when the key is present or can be entered; ENOSPC exactly when the table is full and the key absent; ESRCH exactly when it is absent otherwise; the map changes by at most that entry |
| HashTable.TableIsBoundedMap | include/search.h:53-95 | after any sequence of entries the table is the bounded finite map, and FIND is membership in it |
| SearchTree.LookupIsMembership | include/search.h:111-117 | in a search tree, the descent finds a node if and only if the key is present, and that key's node |
| SearchTree.InsertAddsKey | include/search.h:122-128 | insertion keeps the order and adds exactly the key |
| SearchTree.DeleteRemovesKey | include/search.h:131-167 | deletion, the successor splice included, keeps the order and removes exactly the key |
| SearchTree.InOrderIsSorted | include/search.h:97-167 | the in-order walk of a search tree is increasing and lists exactly its keys |
| SearchTree.UnlinkNode | include/search.h:163-166 | storing the only child through the pointer-to-pointer and freeing the node links the smaller tree |
| SearchTree.RekeyAbove | include/search.h:148-160 | overwriting a node's key far above the successor leaves everything linked |
| SearchTree.SearchTree.Descend | include/search.h:134-142 | the pointer-to-pointer ends at the slot where the search for the key stops |
| SearchTree.SearchTree.Tfind | include/search.h:109-118 | returns a node if and only if the key is in the set, and that key's node |
| SearchTree.SearchTree.Tsearch | include/search.h:120-129 | the set gains the key unless memory runs out; a present key changes nothing |
| SearchTree.SearchTree.SpliceSuccessor | include/search.h:148-161 | in place, the two-child case leaves the linked tree without the node's old key |
| SearchTree.SearchTree.Tdelete | include/search.h:131-167 | in place, the heap links the tree with exactly the key removed; the result is the root, or null for an absent key |
| SearchTree.TreeIsSortedSet | include/search.h:109-167 | after any sequence of tsearch and tdelete the in-order keys are the abstract set in order, and tfind is membership |
| SearchTree.WalkVisits | include/search.h:169-177 | each kind of visit of the walk reaches every node once, in preorder or in postorder, and the childless nodes once more |
| SearchTree.WalkSortedExactly | include/search.h:169-177 | the postorder visits list the keys in increasing order if and only if no node has a right child, since they come after both subtrees |
| TreeWalk.WalkDepths | include/search.h:169-181 | the action is told the number of nodes above the visited one |
| TreeWalk.WalkOrder | include/search.h:169-177 | over the whole walk: a node's visits come in the order preorder, leaf, postorder, endorder; those of the nodes below it come between its preorder and its postorder visit; of two nodes neither below the other all visits of the smaller key come first |
| MessageList.InsertKeepsOrder | include/mqueue.h:264-276 | insertion before the first lower priority keeps the list sorted by priority, first come first served within one |
| MessageList.InsertContents | include/mqueue.h:264-276 | insertion adds exactly the message |
| MessageList.StoreInserts | include/mqueue.h:264-274 | a new node that points to what a slot holds, stored through that slot, stands there in its list; no other list changes, and no node is shared or lost |
| MessageList.PopTakesFirst | include/mqueue.h:305-314 | moving the head to the next node and freeing the first leaves the rest of the list and all others |
| MessageList.Lists.Walk | include/mqueue.h:271-272 | the pointer-to-pointer ends at the slot in front of the first message of lower priority, and every load is of a live node |
| MessageList.Lists.Link | include/mqueue.h:264-274 | in place, the message is inserted at that slot of its list |
| MessageList.Lists.Clear | include/mqueue.h:119-125 | the loop terminates, frees every node of the list and no other |
| MessageQueue.ApplyKeepsInv | include/mqueue.h:166-318 | every open, close, unlink, send, receive and notify, successful or not, and every waiting call that goes on, keeps the life-cycle, queue, message and registration invariants |
| MessageQueue.QueueLifecycle | include/mqueue.h:80-244 | in every reachable state the reference count is the number of active descriptors, these name active queues only, an unlinked live queue has a descriptor, and names of linked queues are unique |
| MessageQueue.DestroyedExactlyAtLastClose | include/mqueue.h:209-244 | a call destroys a live queue exactly when it leaves it unlinked with no descriptor |
| MessageQueue.QueueIsBoundedAndOrdered | include/mqueue.h:246-318 | in every reachable state `mq_curmsgs` is the list length and at most `mq_maxmsg`, the list is in leaving order, and no message is received twice |
| MessageQueue.ReceiveTakesFirst | include/mqueue.h:285-318 | a receive takes the oldest message of the highest priority and only that one; a failed receive, a too small buffer included, leaves all queues unchanged |
| MessageQueue.ReceivedInOrder | include/mqueue.h:264-318 | over whole runs: of two messages of one queue, the one that must leave first, by priority and then by arrival, and was there no later than the other, is received first |
| MessageCalls.SendMeans | include/mqueue.h:246-283 | a send succeeds exactly on an open writable descriptor with data that fits and a queue with room; then exactly the message with the given bytes and priority has come into that descriptor's queue, in leaving order, and no other queue, descriptor or receipt has changed; otherwise nothing has |
| MessageCalls.SendErrors | include/mqueue.h:247-254 | which error a send with a null pointer, too long a message or a read-only descriptor gives |
| MessageCalls.ReceiveMeans | include/mqueue.h:285-318 | a receive returns the message of that descriptor's queue that must leave before all others and takes out exactly that one; it fails exactly on an empty queue or a buffer too small for that message; the notification is dropped in each case |
| MessageCalls.ReceiveErrors | include/mqueue.h:286-292 | which error a receive on a bad descriptor or buffer gives, with no change |
| MessageCalls.ReceivedByPriority | include/mqueue.h:246-318 | over whole runs, by the arguments of the calls: of two messages sent to one queue and received, the first sent comes out first if its priority is at least the other's, and else the other does if both were there |
| MessageCalls.OpenExisting | include/mqueue.h:166-207 | opening an existing name without O_CREAT gives an unused descriptor for the queue of that name with the access asked for; with O_CREAT it gives EEXIST |
| MessageCalls.OpenNew | include/mqueue.h:166-207 | opening a new name with O_CREAT makes an empty queue of that name, with the attributes asked for or 10 messages of 8192 bytes, in an unused slot, and a descriptor for it; without, ENOENT |
| MessageCalls.OpenNewFails | include/mqueue.h:175-201 | it fails with ENFILE, EINVAL or EMFILE exactly for want of a slot, of good attributes or of a descriptor |
| MessageCalls.OpenBadCall | include/mqueue.h:166-168 | a bad name, or O_EXCL without O_CREAT, gives EINVAL |
| MessageCalls.UnlinkMeans | include/mqueue.h:230-244 | an unlink succeeds exactly on the name of a linked queue; then no linked queue has the name, and the queue is otherwise as it was while anybody has it open, and gone if nobody has |
| MessageCalls.CloseMeans | include/mqueue.h:209-228 | a close closes exactly the given descriptor, drops the process's own registration, and destroys the queue exactly with the last reference to an unlinked one |
| MessageCalls.NotifyMeans | include/mqueue.h:396-428 | one registration a queue: EBUSY for a second one, and only its own process takes it back |
| MessageQueue.MessagesConserved | include/mqueue.h:246-318 | a call that destroys no queue neither loses nor invents a message |
| MessageQueue.FiresOnlyOnFirstMessage | include/mqueue.h:276-282 | what fires is the registration of a queue that goes from empty to one message; it fires for the first time, and is then gone |
| MessageQueue.FiresExactly | include/mqueue.h:246-283 | a call fires a registration if and only if it is a send that goes through to an empty queue with a registration in force |
| MessageQueue.FiresAtMostOnce | include/mqueue.h:131-142 | over a whole run no registration fires twice |
| MessageTables.Tables.MqOpen | include/mqueue.h:166-207 | the tables in place become those of the specification, with the same result; what these are is said by the rows of MessageCalls |
| MessageTables.Tables.MqClose | include/mqueue.h:209-228 | likewise for close |
| MessageTables.Tables.MqUnlink | include/mqueue.h:230-244 | likewise for unlink |
| MessageTables.Tables.MqSend | include/mqueue.h:246-283 | likewise for send, the relinking of the list in the heap included |
| MessageTables.Tables.MqReceive | include/mqueue.h:285-318 | likewise for receive, the freed node included; a call that waits has deregistered the notification, and goes on without doing so again |
| MessageTables.Tables.MqNotify | include/mqueue.h:396-428 | likewise for notify |
| Fnmatch.Bracket | include/fnmatch.h:83-120 | the scan ends at a place independent of the character tested, and answers membership in the bracket's items |
| Fnmatch.Literal | include/fnmatch.h:123-139 | one possibly escaped character is compared, folded when asked |
| Fnmatch.StarsMean | include/fnmatch.h:52-78 | a row of stars matches exactly when some split of the rest does |
| Fnmatch.NoEmptySplit | include/fnmatch.h:66-77 | skipping the split at the end of the string loses no match |
| Fnmatch.StarMatch | include/fnmatch.h:52-78 | terminates and answers exactly the language of the pattern from the star on |
| Fnmatch.Match | include/fnmatch.h:145-178 | terminates and answers exactly the language of the rest of the pattern |
| Fnmatch.FnMatch | include/fnmatch.h:184-187 | a match if and only if the text is in the language of the pattern as it is read; what reading gives is said by the rows below |
| Fnmatch.WrittenPatternMeans | include/fnmatch.h:83-178 | however a pattern is spelled, with or without a backslash in front of a character, with `!` or `^`, with `]` first or `-` last in a set, matching what is written accepts exactly the texts its writer meant |
| Fnmatch.PlainTextMatchesItself | include/fnmatch.h:123-175 | a pattern without special characters matches its own text, up to case where that is folded, and nothing else |
| Fnmatch.FoldPairsLetters | include/fnmatch.h:131-135 | two characters fold alike exactly when they are equal or the two cases of one letter |
| Fnmatch.UnclosedMatchesNothing | include/fnmatch.h:115-166 | a bracket that is never closed matches nothing, whatever stands in front of it |
| Fnmatch.SpanNeedsOrder | include/fnmatch.h:97-113 | a range stands for the characters between its ends if and only if they are in order |
| Fnmatch.DashMakesRange | include/fnmatch.h:97-113 | a `-` in front of another character is read as the range from the single character before it, and from 0 in front of all members or right behind a range, whatever follows |
| Fnmatch.LeadingDash | include/fnmatch.h:97-113 | with only one other member, such a pattern never stands for the two characters |
| Calendar.DaysBeforeYearClosed | include/time.h:386 | the year loop equals the leap-year terms of section 4.16 of POSIX.1-2017 Base Definitions |
| Calendar.DaysBeforeMonthClosed | include/time.h:45-51 | adding up the month table gives the closed form of a month's first day: 0, 31, and from March on 59, the leap day and (153 (m - 2) + 2) / 5; twelve months make the year |
| Calendar.NormalIsUnique | include/time.h:408-461 | a second since the Epoch has only one normal broken-down time |
| Calendar.Mktime | include/time.h:375-402 | a refused date gives -1 and stays as it is; any other is completed with the weekday and the day of the year, in closed form, and gives its POSIX seconds; so -1 comes back exactly for refused dates and for those seconds being -1 |
| Calendar.MinusOneIsAmbiguous | include/time.h:375-402 | 1970-01-01 00:00:-1 is accepted and completed, and gives -1 |
| Calendar.Gmtime | include/time.h:408-461 | every non-negative time becomes a normal date, by the closed form of the month starts, with those POSIX seconds |
| Calendar.GmtimeThenMktime | include/time.h:375-461 | mktime inverts gmtime |
| Calendar.MktimeThenGmtime | include/time.h:375-461 | gmtime inverts mktime on every normal date, weekday and day of the year included |
| Calendar.MktimeCompletes | include/time.h:375-461 | the same when only date and clock are given |
| Calendar.YearFitsInt | include/time.h:408-461 | the exact bound below which the year fits an `int` |
| Utf8.MbrlenAgrees | include/wchar.h:145-187 | `mbrlen` returns what `mbrtowc` does on every input, although it tests other bits |
| Utf8.WcrtombAccepts | include/wchar.h:100-129 | `wcrtomb` accepts exactly the scalars and the negative wide characters |
| Utf8.EncodesAsInTable | include/wchar.h:100-129 | `wcrtomb` writes the shortest bytes of the table in section 3 of RFC 3629 whose bits are the scalar's |
| Utf8.IncompleteExactly | include/wchar.h:58-98 | `mbrtowc` asks for more exactly while fewer bytes may be read than the first one announces |
| Utf8.DecodeEncoded | include/wchar.h:58-129 | every encoded scalar decodes to itself, whatever follows |
| Utf8.EncodeDecoded | include/wchar.h:58-129 | whatever decodes is the shortest encoding of a scalar |
| Utf8.DecodingIsExact | include/wchar.h:58-129 | k bytes decode to wc if and only if `wcrtomb` of wc writes those k bytes |
| Utf8.PrefixCode | include/wchar.h:241-290 | one encoded string begins another if and only if the string itself does, and what follows is the encoding of the rest |
| Utf8.Wcsrtombs | include/wchar.h:269-290 | writes the encoding of the longest prefix that fits, negative wide characters included, and a terminating zero where there is room; only counts for a null destination; fails exactly at a character `wcrtomb` rejects; sets the source to null exactly at the end |
| Utf8.Mbsrtowcs | include/wchar.h:241-267 | reads the encoding of what it writes; fails exactly where, with a place left, the bytes do not decode; ends with the string, writing the terminating zero, exactly when a place is left for it; only counts for a null destination |
| Utf8.StringRoundTrip | include/wchar.h:241-290 | `mbsrtowcs` undoes `wcsrtombs` on every string of non-zero scalars, terminator included, given room |
| Utf16Stream.PassSingle | include/uchar.h:31-108 | a scalar of the basic plane passes both converters in one unit and leaves both states initial |
| Utf16Stream.PassHigh | include/uchar.h:31-108 | the first unit of a pair takes all the scalar's bytes and is kept back |
| Utf16Stream.PassLow | include/uchar.h:31-108 | the second unit comes without input (the -3 result), the bytes come out, and both states are initial again |
| Utf16Stream.DecoderIsExact | include/uchar.h:31-65 | from the initial state `mbrtoc16` takes k bytes and delivers the first UTF-16 unit of a non-null scalar, keeping the second if there is one, if and only if those k bytes are the scalar's encoding |
| Utf16Stream.DecoderOtherwise | include/uchar.h:31-65 | and it asks for more exactly while the first byte announces more, ends at a zero byte, and refuses exactly what `mbrtowc` does |
| Utf16Stream.KeptUnitFollows | include/uchar.h:39-44 | after a first unit the next call delivers the second, looks at no input and leaves the initial state |
| Utf16Stream.EncoderStarts | include/uchar.h:67-108 | from the initial state `c16rtomb` keeps a high surrogate, refuses a low one, and writes the encoding of the scalar that any other unit stands for |
| Utf16Stream.EncoderCompletes | include/uchar.h:67-108 | with a high surrogate kept it writes exactly when the unit is a low one, and then the encoding of the scalar with those two units |
| Utf16Stream.Transcode | include/uchar.h:31-108 | on every stream of non-null scalars the units are its UTF-16 encoding, the bytes come back unchanged and both states end initial |
| Iconv.LeadByte | include/iconv.h:45-52 | the first byte of a UTF-8 sequence gives the code point, or its leading bits and the number of bytes to come, or is refused |
| Iconv.NextByte | include/iconv.h:34-44 | after j bytes of a UTF-8 sequence the decoder holds its leading bits; a continuation byte extends them, the last one completes the code point, and any other byte is refused |
| Iconv.WholePiece | include/iconv.h:53-78 | UTF-16 and UTF-32 input is decoded one code point a call |
| Iconv.StallsExactly | include/iconv.h:53-75 | at a boundary one decoder call leaves everything as it is if and only if UTF-16 or UTF-32 is cut off there |
| Iconv.Descriptor.FirstTurns | include/iconv.h:147-164 | the conversion loop ends, within as many turns as there are input bytes, except on UTF-16 and UTF-32 cut off behind pieces that all fit the output: then it has not ended after any number of turns |
| Iconv.CutOffYetEnds | include/iconv.h:147-158 | UTF-16 cut off behind a character that does not fit returns 0 |
| Iconv.EveryInput | include/iconv.h:26-82 | every input is a row of pieces that can be converted and one end: nothing, a sequence cut off, one broken by a byte that cannot follow, or a code point the target cannot hold |
| Iconv.StartsOneWay | include/iconv.h:26-82 | an input starts with a piece, a cut-off or a broken sequence, in only one of these ways and with only one piece |
| Iconv.Descriptor.Iconv | include/iconv.h:138-167 | on every input where the loop ends, and from every state an earlier call leaves: with enough room it writes the target's form of every piece and returns their number, a cut-off UTF-8 sequence staying pending in the state, or -1 behind them when the end is broken or too large; without room it stops at the first code point that does not fit, which is lost; a call that resumes inside a UTF-8 sequence takes what is missing for a first byte C0, E0 or F0 |
| IconvScalars.ToIsCode | include/iconv.h:84-115 | the encoder writes the encoding form of every scalar, or nothing when it does not fit |
| IconvScalars.ReadsBackExactly | include/iconv.h:26-115 | what the encoder writes is decoded to the same code point if and only if it is below 256 in a single byte and no surrogate in UTF-16 |
| IconvScalars.CodeIsPiece | include/iconv.h:26-82 | the encoding form of a scalar is decoded as one piece, to that scalar |
| IconvScalars.PieceAgainstMbrtowc | include/iconv.h:34-52 | on the bytes of a UTF-8 piece `mbrtowc` gives the same code point exactly when it is not too small for their number, no surrogate and at most 0x10FFFF, and refuses them otherwise |
| IconvScalars.PieceIsCodeExactly | include/iconv.h:26-82 | a piece is the encoding form of the scalar it stands for exactly under that condition in UTF-8, for scalars in UTF-32, and always in UTF-16 |
| IconvScalars.IllFormedPieces | include/iconv.h:34-52 | C0 80 and ED A0 80 are taken as U+0000 and U+D800 though `mbrtowc` refuses them, and U+D800 is written to UTF-16 |
| IconvScalars.ResumedPiece | include/iconv.h:144-148 | a UTF-8 sequence cut in two between calls is one code point for the second call, and the right one if and only if the bytes before the cut hold no bits of it |
| IconvScalars.SplitCharacter | include/iconv.h:144-148 | the bytes C3 and A9 in two calls come out as 29 |
| IconvScalars.Convert | include/iconv.h:138-167 | given room, a string of scalars becomes the same string in the target's encoding form, wholly consumed and counted |
| IconvScalars.ThereAndBack | include/iconv.h:26-167 | from one encoding to another and back is the identity on strings of scalars |
| AioPool.StepKeepsInv | include/aio.h:272-387 | every step of producers, workers and the application keeps the invariant |
| AioPool.RingTests | include/aio.h:374-378 | the head meets the tail exactly when nothing waits, and the next tail exactly when size - 1 requests do |
| AioPool.PoolSafety | include/aio.h:272-387 | in every state of every run requests have been claimed in acceptance order, no two workers have the same one, and at most size - 1 wait |
| AioPool.HistoryGrows | include/aio.h:286-289 | acceptances and claims are never taken back, so a request has one taker for good |
| AioPool.RefusedExactlyWhenFull | include/aio.h:369-387 | a producer is refused exactly when the ring is full, and the queue stays as it is |
| AioCalls.SubmissionOutcome | include/aio.h:369-387 | over a run, a producer's call is undecided, or has been accepted exactly once and for the block it was called with, or is refused at a full ring with nothing accepted |
| AioCalls.BusyThreadsRest | include/aio.h:272-387 | no producer or worker takes six steps of its own without returning or going back to wait, however the others are scheduled |
| AioCalls.WorkIsClaimed | include/aio.h:276-289 | a worker that holds the lock while a request waits has claimed one after three steps of its own |
| AioCalls.TakenIsDisposed | include/aio.h:286-310 | a claimed request has been performed or dropped after three steps of the worker that has it |
| AioCalls.PerformedStores | include/aio.h:310 | performing a request leaves its block in state 1 or 2 |
| AioCalls.NobodyStuck | include/aio.h:272-387 | every thread can take its next step, except that one in front of the lock needs it to be free |
| AioPool.LeavesZeroAtMostOnce | include/aio.h:291-310 | a control block accepted once leaves state 0 at most once, even if the application resets it |
| AioPool.NothingLost | include/aio.h:272-324 | when nothing waits and no worker is busy, every accepted request has met its fate, and was performed exactly when its block was written for it |
| AioPool.PerformedIfInStateZero | include/aio.h:291-310 | a request with a block in state 0 at its acceptance, accepted once, is never dropped in any later state |
| AioPool.DroppedIfUnfit | include/aio.h:291-310 | a request whose block is null or in another state from acceptance on is never performed |
| AioPool.SomeRequestIsDropped | include/aio.h:291-310 | there is a run in which an accepted request finds its block in state 1 and is dropped |
| AioPool.SomeRequestIsPerformed | include/aio.h:291-310 | and one in which a request with a block in state 0 is performed |
| AioPool.NothingStranded | include/aio.h:272-324 | with the lock free no request waits while all workers sleep |
| AioPool.RequestRing.Enqueue | include/aio.h:372-386 | in place, appends to the waiting requests, or refuses exactly with size - 1 of them |
| AioPool.RequestRing.Dequeue | include/aio.h:286-287 | in place, takes the oldest waiting request |
| StdBit32.CtzCounts | include/stdbit.h:30-39 | the de Bruijn lookup counts the trailing zeros of every word |
| StdBit32.ClzCounts | include/stdbit.h:54-65 | the lookup after smearing counts the leading zeros of every word |
| StdBit32.PopCounts | include/stdbit.h:82-90 | the parallel sum counts the ones of every word |
| StdBit64.CtzCounts | include/stdbit.h:41-52 | the same for 64 bits |
| StdBit64.ClzCounts | include/stdbit.h:67-80 | the same for 64 bits |
| StdBit64.PopCounts | include/stdbit.h:92-100 | the same for 64 bits |

## Left out

- Barrier.BarrierSafety: speaks of exactly `limit` threads using the barrier; destroying one in use is not modelled.
- Mutex.MutexSafety: a thread unlocks only a mutex it holds; unlock demands this of its callers without checking it.
- CondVar.NoLostWakeup: the 32-bit word must not wrap around within one wait; with 2^32 notifications in one wait the property fails by design of the futex word.
- CondVar.ReleasedGetsOut: whether a timed wait that returns says ETIMEDOUT or 0 is not modelled.
- AioCalls.PerformedStores: the system call a worker makes, its result and errno, and which of 1 and 2 they give are not modelled.
- Calendar.Gmtime: integers are unbounded; YearFitsInt says up to which time the C `int` holds the year.
- WriteStream.OutStream.FwriteTurn: the write past the buffer is reported and not carried out.
- WriteStream.OutStream.Flush: a `write` that returns 0 for a non-empty request is not modelled.
- ReadStream.InStream.Fread: overflow of `size * nmemb` is not modelled.
- Iconv.Descriptor.Iconv: calls on which the loop never ends have no result to state; Iconv.Descriptor.FirstTurns says which they are.
- MessageTables.Tables.MqReceive: a call that must wait is the result Blocks, and what it does when woken is a call of its own, which may come at any time while the queue lives.
- MessageTables.Tables.MqOpen: as in the code, O_CREAT on an existing name fails with EEXIST even without O_EXCL, and a slot may stay allocated with no reference after a failed open.
- MessageTables.Tables.MqSend: running out of memory is not modelled, and the bytes of a message are part of its node.
- AioPool.PoolSafety: the pool's set-up and shutdown are outside the runs, and the lock is an atomic lock, as Mutex.MutexSafety shows it to be.
- Reader-writer locks: they test and update in separate steps, so exclusion is not an invariant of them.
- `qsort`: its partition can leave an element out of both recursive calls, so sortedness does not hold.
- FNM_PATHNAME and FNM_PERIOD in `fnmatch`.
- Update-mode streams, user buffers, memory and custom streams, `popen`.
- Timed send and receive, `mq_getattr` and `mq_setattr`.
- io_uring, kqueue and Windows back ends, signals and delivery of notifications.
- NULL arguments that the code rejects before doing anything.
- Floating-point, regular expressions, locale, network and password-file code: no self-contained exact specification.
