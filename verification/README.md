# acached, modelled and verified

acached is a multithreaded in-memory cache that speaks the memcached text protocol. These
Dafny modules model its five connected cores as the C++ code is, interleavings included, and
prove what they promise, or exactly when they keep the promise.

| module | models | main results |
|---|---|---|
| `Hash` | hash.cpp: `mix`, `final`, `hash` with its aligned-32, VALGRIND, aligned-16 and byte paths | all paths compute one function of the key's bytes; mix and final are bijections; keys that differ in one block, in zero bytes at the end or in the initial value end in different states; one key worked out |
| `Chain` | one bucket chain under any history of commands, with `strncmp`'s prefix test | a chain behaves as a map if and only if its keys are prefix-free; read-your-write without any condition |
| `HashTable` | ahashtable.cpp: the bucket array and its doubly linked chains, in place | every method keeps the chains well linked and does to them what `Chain` says; whole histories answer like a map |
| `Store` | comm threads, two worker queues, unlocked head reads, striped locks, as a machine of steps | every interleaving linearizes; the unlocked head read is never stale, and no worker ever follows a pointer to a freed node, if and only if each bucket has one owner; the workers never block each other for good |
| `Monitor` | adaptThreadedSharedQ.cpp: mutex, condition variable, wait loop | no lost wakeup; first in, first out from the producers' calls to the workers' hands; a queued message can always be delivered |
| `FanIn` | a multi-key get: `reqCount`, `concPending`, `replyCount`, slot reservations, instruction by instruction | no early completion; exactly who completes; what every slot of the reply holds, and exactly when that is the pairs and END; exactly when nothing happens after the reset of the slot index; every get comes to an end |
| `Reply` | aConnReply.cpp: scatter/gather slots advanced in place after short sends | bytes sent and bytes left are always the bytes appended; what `WriteAllOnce` sends, and exactly when that is everything |
| `Backlog` | replies and flushes of several workers, each flush cut into taking the flag, sending, reading each length again, moving `windexlast` and releasing, with the other workers' steps in between | no slot has two owners; what the account of bytes sent and left says |
| `BacklogSends`, `BacklogChecks` | its steps up to the end of a check, and the end of a check | each orderly step keeps the account |
| `BacklogRuns` | its orderly runs | exactly when the bytes sent and left are all bytes written |
| `AllFlushes` | the same over all runs, racing flushes included | each byte is sent once and in order, or still left to be, if and only if the run is orderly, no check counts a slot that was empty when it was sent, and no slot passed empty is written later; no worker is ever stuck |
| `LostReplies` | runs of `Backlog` | replies that are never sent, or sent twice |
| `RepliesInPlace` | what the workers of `Backlog` write | each worker's own reply, line first, in the order in which they reserved |
| `Totals` | `totalsize` of `Backlog` | in every run it is what was added and not sent, but for what flushes are still to take off it |
| `Client` | the reply to a get as its client reads it | a whole reply is read as exactly what was found, and no part of one is read as anything |
| `Gate` | `Busy`, `PendingCmdQ` and the 'P' wake-ups | one command in flight; each command in one place; arrival order is kept if and only if no post pops a null ahead of commands; exactly which steps leave commands without a wake-up |
| `Tokenizer` | `tokenize_command` | the tokens are the maximal words; rerun to the end they are all of them |
| `Header` | `IsBufferComplete`, `ProcessHeader`, `safe_strtoul` | header round trip; exactly which headers are accepted and as what, which line ends are found and which numbers are read |
| `Pool` | `aSGAAllocate`, `aSGARelease`, `aMsgAllocate`, the free and busy lists | every object in one place, no two owners, if and only if each held object is released once |
| `Bytes` | bytes, decimal notation, powers of two, bit masks | masking with a power of two less one is the remainder |

Classes stand for the objects that the code updates in place (`HashTable.KVdata`,
`HashTable.Table`, `Reply.Conn`, `Pool.Queue`, `Pool.MessagePool`); arrays for its buffers.
Protocols between threads are state machines: a run is a sequence of steps, `Legal` says that
each is enabled, and every interleaving of any length is a run. The atomic helpers of
platform.cpp are single steps of those machines. The kernel's side of `sendmsg` is a script
that says, call by call, how much it takes or how it fails. Sockets, `select`, pipes, the
clock, logging and thread creation do not appear.

A step of the reply buffer is orderly (`Backlog.Orderly`) unless it sends from behind
`windexlast`, or fills a slot there that a check may still count. A flush that starts behind
`windexlast`, finds nothing there and stops inside the slot at `windexlast` is orderly too.

Where the code and its documentation or names differ, the model follows the code:

- The table is built with the power of the intended lock ratio, 7, as its ratio
  (acacheSGA.cpp:86-87), so it has 16384 locks, each shared by four buckets.
- Keys are compared by `strncmp` over the length of the key asked for against the stored key
  followed by its value (ahashtable.cpp:57, ahashtable.cpp:134): a prefix test.
  `Chain.PrefixConfuses` is a get that is answered for a key never set.
- `safe_strtoul` accepts a number of up to 64 bits and keeps the low 32
  (`Header.PrintedNumber`), and lets negative numbers below -2^63 pass (`Header.NegativeRead`).
- `IsBufferComplete` never moves its counter, and misses a line end after an even number of
  carriage returns (`Header.LineEndFoundExactly`).
- `QReply` looks for an unwritten slot by testing the flag of the last slot again and again
  (aConnReply.cpp:212), so a flush can pass a slot that another worker has reserved and not yet
  written; that reply is never sent (`LostReplies.ReplyCanBeLost`).
- The writing flag keeps out other flushes, not other workers' writes, and
  `CheckIOVTotalWritten` reads the lengths again after `sendmsg` (aConnReply.cpp:45): it can
  count a slot filled in between for one that was sent (`LostReplies.SlotCanBeMiscounted`).
- A flush reads `windexlast` before it takes the flag (aConnReply.cpp:208), and can send again
  what another one has just sent (`LostReplies.StaleStartRepeats`).
- `WriteAllOnce` takes a send that stops exactly at a slot's end for the last one, and does
  not reduce its count of slots, so it reads as many slots past the range (aConnReply.cpp:333-340).
- An allocation that finds the free list empty leaves a null on the busy list for good
  (`Pool.NullsStayOnTheBusyList`).
- Two workers can both complete one get (`FanIn.BothComplete`), and then END can be written
  behind a slot that is still empty (`FanIn.EndCanFollowAGap`), or once more after the first of
  them has reset the buffer for the next command (`FanIn.SecondEndAfterReset`).
- A command can overtake another (`Gate.CommandsCanOvertake`). One can be left without a
  wake-up in two ways: queued after the worker has looked (`Gate.QueuedTooLate`), or with its
  wake-up spent on a null in front of it (`Gate.WakeUpSpentOnNull`).

## Model

| member | source | states |
|---|---|---|
| Hash.MixStepInverse | hash.cpp:83-91 | each line of mix has an inverse, both ways |
| Hash.FinalStepInverse | hash.cpp:118-127 | each line of final has an inverse, both ways |
| Hash.MixBijective | hash.cpp:39-91 | mix is a bijection on 32-bit triples: it has a two-sided inverse, as its comment claims |
| Hash.FinalBijective | hash.cpp:118-127 | final is a bijection on 32-bit triples |
| Hash.MixMacro | hash.cpp:83-91 | the macro's eighteen updates in place have the effect of the rotated step function |
| Hash.FinalMacro | hash.cpp:118-127 | the same for the macro final |
| Hash.MaskLaws | hash.cpp:161-186 | the masks cut away exactly the bytes read past the key's end |
| Hash.ByteSumLaws | hash.cpp:263-294 | bytes added one at a time, in either order of the code, add the word they form |
| Hash.AddWord | hash.cpp:151-153 | on every path the loop body adds the same little-endian word |
| Hash.AddLastWord | hash.cpp:171-186 | on every path the last switch adds the key's bytes of a word, zero-padded, whatever follows them |
| Hash.AddBlock | hash.cpp:149-157 | a whole block is absorbed alike on every path |
| Hash.AddLastBlock | hash.cpp:171-208 | the last, partial block is absorbed alike on every path and does not depend on bytes past the key |
| Hash.HashBlocks | hash.cpp:149-157 | the loop leaves at most twelve bytes, and what is still to do gives the result of the whole |
| Hash.Hash | hash.cpp:130-302 | for every memory, alignment, length, initval and build flag the result is one function of the key's bytes |
| Hash.AbsorbInjective | hash.cpp:171-186 | two different blocks of one length change the state differently |
| Hash.AbsorbKeepsApart | hash.cpp:151-153 | absorbing a block keeps different states different |
| Hash.RoundsKeepApart | hash.cpp:149-157 | different states stay different through any number of blocks |
| Hash.BlockDifferenceSurvives | hash.cpp:149-302 | a difference in one block survives all the blocks behind it |
| Hash.OneBlockInjective | hash.cpp:130-302 | keys of one length that differ in exactly one 12-byte block, the last included, never reach the same final (a,b,c) |
| Hash.LengthTellsPaddedApart | hash.cpp:139 | a key and the same key with zero bytes added within its last block never reach the same final (a,b,c), as the length goes into the start |
| Hash.InitvalTellsApart | hash.cpp:139 | neither do two initial values of one key |
| Hash.HashOfNothing | hash.cpp:139-208 | an empty key hashes to the start value itself |
| Hash.HashOfFourScore | hash.cpp:83-208 | one key of three blocks worked out, which fixes every rotation and the order of the words |
| Chain.StrncmpIsPrefixTest | ahashtable.cpp:57 | strncmp over the length of a NUL-free key is the test for a prefix |
| Chain.FirstMatch | ahashtable.cpp:129-146 | the walk stops at the first node that matches, and only there |
| Chain.MatchIsEquality | ahashtable.cpp:134 | among prefix-free keys a match is equality of keys |
| Chain.SetRepresents | ahashtable.cpp:52-97 | set keeps each key once and the abstract map's values, whether it splices or appends |
| Chain.GetRepresents | aConnReply.cpp:173-176 | the line end that a reply writes into the node leaves the map as it is |
| Chain.ChainRefinesMap | ahashtable.cpp:32-153 | after any history on prefix-free keys a get finds the value of the last set of its key, or nothing if there is none |
| Chain.PrefixFreeIsExact | ahashtable.cpp:52-146 | a key set behaves as a map under all histories if and only if no key is a prefix of another |
| Chain.PrefixFreeSuits | ahashtable.cpp:134 | any history on prefix-free keys is one that buckets answer like a map |
| Chain.PrefixConfuses | ahashtable.cpp:134 | the failing case: a get of a key never set is answered from a shorter key and its value |
| Chain.ReadYourWrite | ahashtable.cpp:52-97 | in any chain with any keys, a get right after a set of its key finds the node just set, and no other node moves |
| Chain.GetEndsLine | aConnReply.cpp:173-176 | a get leaves a line end in memory behind the value it found, and every other byte of the chain alone |
| Chain.SetStoresBytes | threadKVdata.cpp:55-71 | a set leaves key, value and zeros, whatever a reply wrote there before |
| Chain.LastSetInBucket | ahashtable.cpp:40-42 | splitting a history over buckets loses no set of a key |
| Chain.BucketRefinesMap | ahashtable.cpp:106-153 | a bucket answers like the map of the whole history if the keys that share it are prefix-free |
| HashTable.KVdata.constructor | threadKVdata.cpp:55-71 | a new node holds key, value and two zero bytes, unlinked |
| HashTable.KVdata.Value | aConnReply.cpp:174 | the bytes from valptr are the stored value |
| HashTable.KVdata.TerminateValue | aConnReply.cpp:175-176 | the line end goes behind the value and changes neither key nor value |
| HashTable.Table.constructor | ahashtable.cpp:10-27 | an empty, well-formed table; the number of locks and both masks |
| HashTable.Table.BucketInRange | ahashtable.cpp:40 | the masked hash value stays inside the array, whatever the size, and is the remainder if the size is a power of two |
| HashTable.Table.Walk | ahashtable.cpp:52-85 | the pointer walk ends at the first match and the node before it, or past the last node |
| HashTable.Table.Set | ahashtable.cpp:32-104 | the bucket's contents become what the map function of set says; every other bucket is untouched; chains stay well linked |
| HashTable.Table.Splice | ahashtable.cpp:60-80 | the new node takes the exact place of the old one, which leaves the table |
| HashTable.Table.Relink | ahashtable.cpp:60-73 | which links and which head change, and that no others do |
| HashTable.Table.Append | ahashtable.cpp:87-97 | the new node becomes the last of its chain, or the head of an empty one |
| HashTable.Table.Get | ahashtable.cpp:106-153 | null exactly if the abstract lookup finds nothing, else the first matching node |
| HashTable.Table.GetAfterSet | ahashtable.cpp:52-146 | in any table with any keys, a get right after a set of its key returns the very node that was set |
| HashTable.Table.Replied | aConnReply.cpp:173-176 | writing the reply's line end changes one node's trailer and nothing else |
| HashTable.Table.Serve | threadKVdata.cpp:53-143 | one command in place is one step of the abstract chain, and a get's answer is the abstract one |
| HashTable.Table.Execute | threadKVdata.cpp:40-143 | any history on an empty table: contents follow the abstract chains and every get answers with the last set of its key, if the keys of a bucket are prefix-free |
| Store.BucketOf | aConnReq.cpp:180 | the bucket of a hash value is its remainder by the table size |
| Store.PostKeeps | aConnReq.cpp:107-116 | a post to a worker's queue disturbs no worker |
| Store.PrepareKeeps | ahashtable.cpp:40-50 | taking a command, reading the head unlocked and locking keep the invariant |
| Store.SetKeeps | ahashtable.cpp:52-100 | a set from a head read before the lock has the effect of a set on the current chain |
| Store.GetHitKeeps | ahashtable.cpp:129-146 | a get that finds a node answers as the commands served so far demand |
| Store.GetMissKeeps | ahashtable.cpp:148-151 | so does one that finds none |
| Store.ReplyKeeps | threadKVdata.cpp:142-143 | the unlocked write into the node found still meets a live node of the same bucket |
| Store.RunKeeps | threadKVdata.cpp:40-143 | the invariant holds after every run |
| Store.PostedIsSent | aConnReq.cpp:180-189 | a worker's queue is sent exactly the commands of a run's posts that the routing gives it |
| Store.StoreLinearizes | threadKVdata.cpp:42-143 | in every interleaving each answered get carries the value of the last set of its key that was posted to its worker ahead of it, and no worker follows a pointer to a freed node |
| Store.CommandsAreServedInOrder | adapt/adaptThreadedSharedQ.cpp:59-82 | per worker, the commands posted to it are those served, in hand and queued, in order |
| Store.LockGrantedExactly | ahashtable.cpp:41-50 | a stripe's lock is granted exactly when that keeps writers apart from everyone |
| Store.StripesExclude | ahashtable.cpp:41-50 | in every run two workers are in one stripe at once only if both read |
| Store.StripesOfFour | ahashtable.cpp:10-27 | each lock is shared by the four buckets of one remainder |
| Store.AllCanBeServed | adapt/adaptThreadedSharedQ.cpp:59-82 | from every reachable state the workers alone can serve all that was posted, in order: they never block each other for good |
| Store.OnlyLocksBlock | ahashtable.cpp:41-50 | a post is always possible, and a worker with a command waits nowhere but at the lock |
| Store.OneOwnerIsExact | ahashtable.cpp:41-50 | the head snapshot equals the current head in every reachable state if and only if each bucket has a single owning worker |
| Store.StaleRun | ahashtable.cpp:41-50 | a routing that gives one bucket to two workers has a run with a stale head |
| Store.WildIsFollowingFreed | ahashtable.cpp:129-146 | what counts as following a pointer to a freed node |
| Store.WildRun | ahashtable.cpp:41-80 | such a routing has a run in which a worker does that |
| Store.NeverWildExactly | ahashtable.cpp:41-80 | no worker ever does, in any run, if and only if each bucket has a single owner |
| Store.RouteGivesOneOwner | aConnReq.cpp:180-189 | the routing of acached gives every bucket one owner, for every hash function |
| Store.RouteSplitsTable | aConnReq.cpp:180-186 | which remainders of the hash value go to which worker |
| Store.WorkersShareLocks | ahashtable.cpp:42 | buckets of different workers can share a striped lock |
| Monitor.WorkerKeeps | adapt/adaptThreadedSharedQ.cpp:40-70 | the invariant survives every step of a worker, spurious wakeups included |
| Monitor.ProducerKeeps | adapt/adaptThreadedSharedQ.cpp:73-85 | and every step of a producer but the signal |
| Monitor.SignalKeeps | adapt/adaptThreadedSharedQ.cpp:81 | and the signal, whichever waiters it wakes |
| Monitor.FirstInFirstOut | adapt/adaptThreadedSharedQ.cpp:40-85 | what producers were called with and have put is what workers took and what is queued, in order; what workers leave with is what they took, in order |
| Monitor.NoLostWakeup | adapt/adaptThreadedSharedQ.cpp:40-85 | if a worker waits unsignalled, the queue is no longer than the number of woken workers yet to look, plus one exactly while a producer is between its put and its signal |
| Monitor.RecheckersWereWoken | adapt/adaptThreadedSharedQ.cpp:46-58 | the workers counted there are exactly those woken since they last looked |
| Monitor.AwakeDelivers | adapt/adaptThreadedSharedQ.cpp:46-68 | an awake worker left alone gets the front message in hand |
| Monitor.PutGoesThrough | adapt/adaptThreadedSharedQ.cpp:73-85 | a producer left alone puts its message at the end, and its signal may wake any waiting workers, but at least one |
| Monitor.QueuedMessageIsDeliverable | adapt/adaptThreadedSharedQ.cpp:40-85 | whenever the mutex is free and a message is queued, some worker can get it in hand with no further signal |
| Monitor.OnlyMutexBlocks | adapt/adaptThreadedSharedQ.cpp:40-85 | in every state each worker and producer can take its next step, unless it is about to lock and the mutex is not free |
| FanIn.CommKeeps | aConnReq.cpp:90-118 | the counters' invariant survives each instruction of the fan-out loop |
| FanIn.CountKeeps | threadKVdata.cpp:151-156 | and a worker's increment and its reads before the swap |
| FanIn.SwapKeeps | threadKVdata.cpp:156-157 | and the compare-and-swap of replyCount |
| FanIn.SecondReadKeeps | threadKVdata.cpp:157 | and the second read of reqCount |
| FanIn.LookupKeepsLayout | aConnReply.cpp:178 | a fetch-and-add of two keeps reservations disjoint and without gaps |
| FanIn.WriteKeepsLayout | aConnReply.cpp:200-203 | each reserved slot is written by its owner, once |
| FanIn.ReserveEndKeepsLayout | threadKVdata.cpp:162 | the slot of END comes behind all pairs |
| FanIn.NoEarlyCompletion | threadKVdata.cpp:151-160 | in every interleaving a worker passes the completion test only after all n replies are counted |
| FanIn.WhoCompletes | threadKVdata.cpp:156-160 | in every finished run some worker passes; the winners are given exactly, and there is one if and only if no late swap is followed by a late read of reqCount |
| FanIn.ExactlyOneCompletes | threadKVdata.cpp:151-160 | exactly one passes if no two increment-and-tests interleave |
| FanIn.BothComplete | threadKVdata.cpp:156-160 | a run of two keys in which both workers pass |
| FanIn.EveryGetFinishes | threadKVdata.cpp:141-171 | no run of a get has more than 17 steps per key, and from every reachable state it can be finished, with some worker completing it |
| FanIn.NobodyWaits | threadKVdata.cpp:141-171 | in every reachable state all messages posted and not done can move, and so can the comm thread until it has posted them all |
| FanIn.EndersAreWinners | threadKVdata.cpp:156-162 | those that reserve a slot for END are different winners |
| FanIn.ReplyLayout | threadKVdata.cpp:162-171 | at the first completion every slot is accounted for: one adjacent VALUE line and data block per key found, in reservation order, each written once; then one slot per winner that has reserved for END, in that order, with END or still empty; then nothing. END is directly behind the pairs if and only if its writer reserved first, and nothing else follows if and only if no other winner has reserved |
| FanIn.LayoutIsExact | threadKVdata.cpp:162-171 | with one winner the slots are exactly the pairs and END |
| FanIn.LayoutIsExactInTurn | threadKVdata.cpp:151-171 | so they are whenever no two increment-and-tests interleave |
| FanIn.EndCanFollowAGap | threadKVdata.cpp:156-164 | a run of two keys in which END is written behind an empty slot |
| FanIn.UntouchedExactly | threadKVdata.cpp:160-260 | from the reset of the slot index to the end of the run no counter, slot or reservation is touched if and only if every winner had written END by then |
| FanIn.NothingAfterReset | threadKVdata.cpp:156-260 | with one winner nothing is touched after the reset, in any continuation, and the counters are clear |
| FanIn.SecondEndAfterReset | threadKVdata.cpp:160-171 | a run of two keys in which the second winner writes END into slot 0 after the reset |
| Reply.LineLength | aConnReply.cpp:167-173 | a VALUE line fits its 512-byte buffer |
| Reply.AfterAdvance | aConnReply.cpp:71-77 | advancing one slot drops exactly the bytes that were sent |
| Reply.RestStays | aConnReply.cpp:87-133 | a send from the first slots of a backlog is a send from the backlog |
| Reply.Conn.SendMsg | aConnReply.cpp:115 | a call takes the first bytes of the slots offered, as many as the script allows, or nothing |
| Reply.Conn.SendRetrying | aConnReply.cpp:108-116 | interrupted calls change nothing and the result is that of the first other call |
| Reply.Conn.FindStop | aConnReply.cpp:43-60 | the slot found is the first at whose end the count is reached |
| Reply.Conn.CheckIOVTotalWritten | aConnReply.cpp:34-85 | what the slots hold from the end found is exactly what was not sent; the result says whether the send stopped at a slot's end, and only the slot it stopped in changes |
| Reply.Conn.AddIOVReply | aConnReply.cpp:143-162 | one slot is filled and flagged, no other changes |
| Reply.Conn.WriteIOVReply | aConnReply.cpp:87-141 | at most IOV_MAX slots are offered; sent and left add up; windexlast moves only from the start given; nothing happens while another send runs |
| Reply.Conn.FillSlots | aConnReply.cpp:200-203 | the VALUE line and the value with its line end fill two slots and no other changes |
| Reply.Conn.Enqueue | aConnReply.cpp:178-206 | both parts of a reply are appended and counted |
| Reply.Conn.Flush | aConnReply.cpp:227-235 | bytes sent move from the slots to the client and off totalsize |
| Reply.Conn.QReply | aConnReply.cpp:164-239 | bytes sent and bytes in the slots stay the bytes appended and totalsize the number unsent; when a flush is due and exactly what it sends |
| Reply.OutcomeOfSend | aConnReply.cpp:285-338 | a round of the loop, interrupted calls included, as one step of the outcome function |
| Reply.AdvancedRest | aConnReply.cpp:333-337 | slots advanced in place hold the concatenation from the bytes sent on, with no gap or repeat |
| Reply.StopsInside | aConnReply.cpp:67-77 | a send that stops inside a slot stops at no slot's end of the original range |
| Reply.Conn.Round | aConnReply.cpp:285-338 | one round sends the next bytes of the range and reports a stop at a slot's end of the original slots exactly if there was one |
| Reply.Conn.WriteAllOnce | aConnReply.cpp:266-342 | for every behaviour of the kernel: what is sent is a prefix of the range, of the length that the outcome function gives, and the return value is that length or says why not |
| Reply.WholeExactly | aConnReply.cpp:330-340 | over positive sends the loop ends at a slot's end, and everything is sent if and only if no send stops short exactly at one |
| Reply.SlotEndCutsShort | aConnReply.cpp:330-340 | the failing case: a first send of exactly the first slot is taken for the last |
| Reply.Conn.EnqueueEnd | threadKVdata.cpp:162-169 | END takes the next slot and is counted |
| Reply.Conn.ResetSlots | threadKVdata.cpp:246-260 | the slots used are empty again and none is marked as written |
| Reply.Conn.SendRest | threadKVdata.cpp:174-227 | of the slots left, the client gets the prefix that the outcome function gives |
| Reply.Conn.Reset | threadKVdata.cpp:240-260 | the buffer is as empty as for the first command |
| Reply.Conn.FinishReply | threadKVdata.cpp:162-260 | what the client has afterwards, exactly; slots and bytes sent were all replies and END; the connection is ready for the next get |
| Reply.Conn.ReplyToGet | threadKVdata.cpp:141-260 | the client gets a prefix of the replies and END in order, and all of it if the kernel takes what it is offered |
| Client.LineIsRead | aConnReply.cpp:173 | a VALUE line is read as its key and its byte count |
| Client.FirstReply | aConnReply.cpp:200-203 | the replies of a get begin with the line and the value of the first key found |
| Client.ReadExactly | threadKVdata.cpp:141-171 | of all that a client may get of a reply, only the whole is read, and as exactly the keys and values found |
| Client.GetIsRead | threadKVdata.cpp:141-260 | what a get puts on the wire is read as what was found, if the kernel takes what it is offered; with any other kernel it is read as that or as incomplete |
| Backlog.PrefixForm | aConnReply.cpp:71-77 | what has been sent is the slots passed and the part of the next one that was taken |
| BacklogSends.ReserveKeeps | aConnReply.cpp:178 | reserving two slots changes nothing of what is sent and left |
| BacklogSends.WriteKeeps | aConnReply.cpp:143-162 | a slot filled at any moment, between a send and its check too, keeps the account of what is sent and left; behind a check that started behind windexlast it does not (`AllFlushes.OverlookedScrambles`) |
| BacklogSends.SendKeeps | aConnReply.cpp:108-116 | a send that starts at windexlast, or finds nothing behind it and stops inside its slot, takes bytes that were not sent before |
| BacklogSends.ReadKeeps | aConnReply.cpp:43-54 | a length read again is that of what was sent, or of a slot filled since, none of whose bytes is sent |
| BacklogChecks.SettleAccounts | aConnReply.cpp:57-77 | windexlast and the slot where the check stops move past exactly as many bytes as were sent |
| BacklogChecks.SettlePrefix | aConnReply.cpp:57-77 | and past exactly those bytes, if no check has counted a slot that was empty when it was sent |
| BacklogChecks.StaleStop | aConnReply.cpp:43-60 | a flush from behind windexlast that finds nothing there and sends part of the slot at windexlast has its check stop there |
| Backlog.WriteKeepsSlots | aConnReply.cpp:178-203 | no slot is reserved twice, and each unwritten one is still to be written by the worker that reserved it |
| Backlog.DueAsUnsigned | aConnReply.cpp:226 | when a flush is due, in unsigned arithmetic |
| BacklogRuns.ConservedExactly | aConnReply.cpp:102-235 | in every orderly run, with no check under way: the bytes left are the bytes of all slots not passed empty from the number of bytes sent on; bytes sent and left are all bytes written if and only if no check counted a slot that was empty when it was sent and each slot passed empty is still unwritten |
| BacklogRuns.WrittenOffersConserve | aConnReply.cpp:210-221 | if no flush sends while a slot that it offers is empty, as the loop over the flags is meant to see to, an orderly run loses and repeats nothing |
| AllFlushes.SettleLeaves | aConnReply.cpp:208 | wherever windexlast has moved on from a start, a full slot is left behind, or part of the next one is sent |
| AllFlushes.SendScrambles | aConnReply.cpp:102-116 | a flush that starts behind windexlast and finds bytes there sends out of order or twice |
| AllFlushes.OverrunSticks | aConnReply.cpp:128-129 | one that finds none and sends to the end of the slot at windexlast leaves there what it has sent |
| AllFlushes.OverlookedScrambles | aConnReply.cpp:143-162 | a slot written behind windexlast while a check may count it comes too late |
| AllFlushes.NeverConserved | aConnReply.cpp:102-235 | no continuation of such a run, orderly or not, makes it good |
| AllFlushes.ConservedInEveryRun | aConnReply.cpp:102-235 | in every interleaving, with no check under way: each byte written is sent once and in order, or left to be, if and only if the run is orderly, no check counted a slot that was empty when it was sent, and each slot passed empty is still unwritten |
| AllFlushes.FinishedInEveryRun | aConnReply.cpp:102-235 | when all workers are done: if and only if the run is orderly, no check counted such a slot and none was passed empty |
| AllFlushes.EveryWorkerCanMove | aConnReply.cpp:102-235 | in every reachable state each worker that is not done has a step, and sendmsg may take any part of what is offered; the check never runs out of slots |
| LostReplies.ReplyCanBeLost | aConnReply.cpp:210-227 | a run of two workers, with any large second reply, in which the first reply is never sent |
| LostReplies.SlotCanBeMiscounted | aConnReply.cpp:115-124 | with any two lines of one length: a run in which the first is counted for the second, never sent, and the second sent twice |
| LostReplies.StaleStartRepeats | aConnReply.cpp:208-227 | with any two large replies: a run in which the second flush sends the first line again |
| RepliesInPlace.WorkersWriteTheirOwn | aConnReply.cpp:178-203 | in every run the slots are the workers' pairs in the order of their reservations, each with its own line and value as far as they are written |
| RepliesInPlace.ClientSeesReplies | aConnReply.cpp:173-235 | when all workers are done what is written is their replies, each once, in that order; and so are the bytes sent and left, under the condition of `AllFlushes.FinishedInEveryRun` |
| Totals.TotalCountsUnsent | aConnReply.cpp:206-232 | in every run totalsize is the bytes added to it less those sent, plus those that flushes have sent and not yet taken off it, modulo 2^32 |
| Totals.FinishedTotal | aConnReply.cpp:206-232 | when all workers are done it is the size of all replies less what was sent, in runs that send bytes twice or never too |
| Gate.BusyKeeps | aConnReq.cpp:153-198 | Busy is set exactly while the comm thread or one command in flight holds it |
| Gate.DoneKeeps | threadKVdata.cpp:271-278 | dispatched commands are completed or in flight, never both |
| Gate.LineKept | aConnReq.cpp:158-165 | a step that leaves the line alone but for a newcomer keeps place and order |
| Gate.OvertakeKeeps | aConnReq.cpp:158-165 | a null popped ahead of commands breaks the order for good, but loses no command |
| Gate.OneAtATime | aConnReq.cpp:145-211 | in every run at most one command is in flight and each accepted one is in exactly one place |
| Gate.StateRecordsRun | aConnReq.cpp:145-211 | as many commands have arrived as were posted, and they are completed in the order of dispatch |
| Gate.NobodyWaits | aConnReq.cpp:145-211 | within three steps of its own the comm thread is ready for the next command, and a worker that holds a command or has just cleared Busy can go on |
| Gate.OrderIsKeptExactly | aConnReq.cpp:145-211 | dispatched and pending commands are the order of arrival if and only if no post popped a null with commands behind it |
| Gate.InOrderIfWakeUpsFindBusyClear | aConnReq.cpp:200-208 | they are if every wake-up is handled while Busy is 0 |
| Gate.CommandsCanOvertake | aConnReq.cpp:158-165 | a run in which the fourth command is dispatched before the third |
| Gate.StrandedIsStuck | aConnReq.cpp:145-211 | in every run: commands wait with Busy clear and no wake-up on its way if and only if nothing but another command can move |
| Gate.StrandedExactly | aConnReq.cpp:192-204 | a run ends like that if and only if its last step queues a command after Busy was cleared and looked after, or gives Busy back with commands behind a popped null, with no wake-up left in either case |
| Gate.QueuedTooLate | aConnReq.cpp:200-204 | a run of the first kind |
| Gate.WakeUpSpentOnNull | aConnReq.cpp:158-198 | a run of the second kind |
| Tokenizer.WordsAreMaximal | aConnParse.cpp:41-58 | the words are maximal space-free ranges, disjoint and in order |
| Tokenizer.WordsCoverAll | aConnParse.cpp:41-64 | every character that is not a space lies in one of the words |
| Tokenizer.Scan | aConnParse.cpp:41-58 | the loop stores and cuts the first words, leaves the bytes ahead alone and stops at the limit or the end |
| Tokenizer.TokenizeCommand | aConnParse.cpp:32-75 | the tokens are the first max_tokens - 1 words of any string, each cut off by a NUL, then the terminal pointer; the index stays in bounds |
| Tokenizer.WordsResume | aConnParse.cpp:66-72 | the terminal pointer is null only if no word is left, else all that are left lie behind it |
| Tokenizer.TokenizeAll | aConnParse.cpp:25-30 | run again from the terminal pointer until it is null: all words, once each, in order |
| Header.NumberRead | aUtil.cpp:316-343 | for every string, cut into spaces, sign, digits and rest: when safe_strtoul accepts it and as what |
| Header.ParsedExactly | aUtil.cpp:316-343 | a string is accepted if and only if it can be cut up like that, and as that number |
| Header.SpacesAre | aUtil.cpp:328-330 | the bytes that may stand in front of a number or end it |
| Header.NegativeRead | aUtil.cpp:329-337 | a negative number is refused exactly if it lies in -2^63 .. -1 or exceeds 64 bits |
| Header.PrintedNumber | aUtil.cpp:316-343 | a printed number is accepted exactly below 2^64 and read back exactly below 2^32 |
| Header.IsBufferComplete | aConnParse.cpp:262-283 | where the scan ends, that it ends, and the two bytes it clears |
| Header.LineEndFoundExactly | aConnParse.cpp:268-280 | the line end found is the first with an odd number of carriage returns in front of its line feed; the scan leaves the buffer if and only if there is none |
| Header.LineEndCanBeMissed | aConnParse.cpp:268-280 | two carriage returns and a line feed: the scan leaves the buffer |
| Header.ReadHeader | aConnParse.cpp:318-335 | the outcome depends on the words of the line alone |
| Header.ProcessHeader | aConnParse.cpp:286-341 | leading spaces and NULs are skipped and the words of the original line decide the outcome |
| Header.TokensAreStrings | aConnParse.cpp:320-326 | each stored token is a C string with the bytes of its word |
| Header.WordsOfJoin | aConnParse.cpp:32-75 | words joined by single spaces are cut up into the same words |
| Header.MeaningOfSetLine | aConnParse.cpp:318-328 | a set line means its key and its three numbers |
| Header.HeaderReadExactly | aConnParse.cpp:286-341 | any line of plain words, behind spaces and NULs: accepted, as its key and three numbers, if and only if its third, fourth and fifth words are numbers; rejected otherwise; undefined with two to four words or too long a key |
| Header.SetHeaderRoundTrip | aConnParse.cpp:262-341 | printing a set header and running the scan, the tokenizer and the number reader gives back key, numbers and line length, whatever follows the line |
| Pool.Without | adapt/adaptQ.cpp:56-65 | removal takes every copy of a pointer and no other element |
| Pool.PopKeeps | adapt/adaptQ.cpp:45-54 | the pop of an allocation moves an object from the free list into the thread's hands |
| Pool.PutBusyKeeps | acacheSGA.cpp:166-168 | putting it on the busy list makes it its caller's |
| Pool.CreateKeeps | acacheSGA.cpp:200-203 | a new object is in its creator's hands alone |
| Pool.RemoveKeeps | acacheSGA.cpp:176 | removal from the busy list takes exactly the object released |
| Pool.PoolIsConserved | acacheSGA.cpp:161-180 | in every interleaving each object is in exactly one of free list, busy list and a thread's hands; none has two owners; what is held is on the busy list alone |
| Pool.AllocationIsFresh | acacheSGA.cpp:193-207 | an allocation returns an object that nobody holds, handles or is about to give back |
| Pool.ReleaseIsExact | acacheSGA.cpp:171-180 | a release run alone keeps the pool's invariant if and only if some caller holds the object |
| Pool.HeldIsReturnedNotReleased | acacheSGA.cpp:161-207 | in every run callers hold what allocations have returned less what releases were given |
| Pool.GrowthEnds | acacheSGA.cpp:198-206 | from anywhere in the growth the thread alone creates the rest and succeeds |
| Pool.AloneReturns | acacheSGA.cpp:193-207 | run alone, aMsgAllocate returns, never null, after at most one growth, with the lists it leaves |
| Pool.ReleaseAfterAllocate | acacheSGA.cpp:161-180 | a release undoes an allocation, up to the object's place on the free list |
| Pool.NullsStayOnTheBusyList | acacheSGA.cpp:166-167 | in every run the nulls on the busy list count the growths begun |
| Pool.Queue.Get | adapt/adaptQ.cpp:45-54 | from the front, null from an empty list |
| Pool.Queue.Empty | adapt/adaptSharedQ.cpp:106-114 | true exactly if no element is there |
| Pool.Queue.FindPtr | adapt/adaptQ.cpp:72-89 | the first element that passes the test, or null if none does |
| Pool.MessagePool.constructor | acacheSGA.cpp:89-92 | the pool starts as the machine's initial state |
| Pool.MessagePool.Grow | acacheSGA.cpp:200-203 | a batch of new objects behind the free ones |
| Pool.MessagePool.Allocate | acacheSGA.cpp:161-169 | the front of the free list moves to the end of the busy one, or a null does |
| Pool.MessagePool.Release | acacheSGA.cpp:171-180 | off the busy list, to the end of the free one |
| Pool.MessagePool.MsgAllocate | acacheSGA.cpp:193-207 | never null; the retry succeeds; the lists it leaves are those of the machine run alone |
| Bytes.MaskIsRemainder | ahashtable.cpp:17 | masking with a power of two less one is the remainder |

## Left out

- Store.StoreLinearizes: walking a chain under its lock is one step, and freed memory is not handed out again; the value is copied at the moment of the get, so the lifetime of value memory that a slot still points to is not covered. Prefix-free keys per bucket are the exact condition, by `Chain.PrefixFreeIsExact`.
- FanIn.ReplyLayout: the machine has the slots reserved and written, not the flushes in the middle of a command nor totalsize; those are in `Reply` and `Backlog`. Counters do not wrap around.
- FanIn.UntouchedExactly: what a late winner does, not what the next command makes of it: the machine holds one command.
- Reply.Conn.FinishReply: only for fewer than IOV_MAX slots, one chunk; the loop over more chunks with short sends makes no simple promise.
- Reply.Conn.ReplyToGet: the same bound on the slots; and `Reply` runs the replies of one get one after another.
- Reply.Conn.QReply: for calls that run one at a time; `Backlog` interleaves them.
- Reply.Conn.SendRest: the same bound, that fewer than IOV_MAX slots are left.
- Reply.Conn.WriteAllOnce: only for a range with empty slots behind it, as many as it has itself; a chunk of IOV_MAX slots has full ones there, and the loop, which does not reduce its count, then sends them too.
- Reply.Conn.Round: the same bound. It is not a function of the source but one round of that loop.
- BacklogRuns.ConservedExactly: for orderly runs; `AllFlushes.ConservedInEveryRun` is the statement over all.
- AllFlushes.ConservedInEveryRun: sendmsg takes what the slots hold at one moment; advancing the slot where a check stops and moving windexlast are one step, between which no other worker looks at that slot. It is about one get up to its last reply.
- BacklogRuns.WrittenOffersConserve: one way only; flushes of empty slots that stay empty lose nothing either.
- Monitor.NoLostWakeup: fairness of the scheduler is not modelled, so delivery is possible in every state, not inevitable.
- Gate.OneAtATime: commands are of one type and each completes once, so a get completed twice is not covered here.
- Gate.StrandedExactly: progress in every other state is possible, not inevitable: the scheduler need not be fair.
- Client.GetIsRead: the bounds of `Reply.Conn.ReplyToGet`, and keys without spaces or control characters, as a client can send them.
- Pool.AloneReturns: a thread that competes with others may have to grow more than once.
- Pool.MessagePool: `new` never fails and never returns an address in use.
- Hash.Hash: the big-endian variant, which is not built.
- Header.NumberRead: `unsigned long` of 64 bits, C locale.
- Header.ProcessHeader: headers of fewer than five words or with an oversized key have the outcome `Undefined`, where the C code reads unset tokens or overruns its buffer.
- HashTable.FloorLog2: the logarithms are taken over the reals, not rounded to floats.
- HashTable.Table: no locks; memory that is freed is only dropped.
- The set command's reply path: its buffer counters are reset after Busy is cleared.
- Reassembly of a command's body from arbitrary chunks, and pipelined commands.
- The strtok loop that cuts the keys of a get; the fan-out machine starts from the keys.
- QUIT, VERSION, gets without keys, mixed command types in the pending list.
- Core counts other than two.
- Sockets, libevent, pipes, threads, affinity, logging, and the code that is not used.
