# Verified models of a C/C++ systems library

This project models the algorithmic core of a library of queues, allocators, string matchers, argument and
directory scanners and small codecs, and proves what they are for. Everything is a statement about all
inputs, all schedules or all reachable states. `dafny verify dfyconfig.toml` checks the whole project.

| files | component |
|---|---|
| `RingProtocol.dfy`, `RingCalls.dfy`, `RingTable.dfy`, `RingRuns.dfy` | the multi-producer/multi-consumer ring `inc/fast/ringbuf.h` |
| `MpmcQueue.dfy`, `MpmcCalls.dfy`, `MpmcWords.dfy` | the ticket queue `inc/fast/mpmc_bounded_queue.h` |
| `SyncQueue.dfy`, `SyncCalls.dfy` | the semaphore queue `inc/fast/syncq.h` |
| `SpscQueue.dfy` | the single-producer/single-consumer queue `inc/fast/spsc_bounded_queue.h` |
| `Fifo.dfy`, `Slots.dfy` | the FIFO queue all four are compared with, and counters in a table of fixed size |
| `Matching.dfy`, `BoyerMoore.dfy`, `TurboBoyerMoore.dfy`, `Kmp.dfy` | the string matchers of `inc/utils/strmatch.h` |
| `BlockExchange.dfy`, `Getopt.dfy`, `OptionStrings.dfy`, `LongOptions.dfy` | `src/getopt_long.c` |
| `FtsWalk.dfy`, `Fts.dfy`, `FtsEntries.dfy` | the file tree walk `src/fts.c` |
| `DList.dfy`, `PoolLayout.dfy`, `Mempool.dfy` | the block allocator `src/mempool.c` and the list of `inc/fast/list.h` |
| `Base64.dfy`, `Base64Coders.dfy` | `src/b64_encode.c`, `src/b64_decode.c` |
| `Fletcher.dfy`, `Uniform.dfy` | `src/fletcher-cksum.c`, `arc4random_uniform` of `src/arc4random.c` |

**How the queues are modelled.** A state holds the shared variables and, for each thread, where it stands in a
call with its local variables. Every atomic load, compare-and-swap, fetch-add and store, every semaphore and
mutex operation, and every read or write of a slot is one step; the schedule is arbitrary and steps are
sequentially consistent. Indices are unbounded counters. For the ring, the stored words give the same answers
in all its differences, comparisons and slots as long as no shared index gets a full round of the words ahead of
a loaded one (`WrappedExpressionsExact`, `WordTestsExact`, `WrappedSlot`, `CountExactIff`). For the ticket queue
the comparisons and slots do so too (`TicketTestsExact`, `TurnWordsAgreeIff`), but the turns only for tickets
below the word range, or sizes 1 and 2. History variables record who reserved what; no step reads them.

**How the sequential code is modelled.** Objects with mutable fields are classes, tables and buffers are
arrays, loops are loops; each method is proved against a function or a property stated without reference to its
body (the occurrences of a pattern, the stable partition of an argument vector, the recursive traversal of a
tree, the encoding of section 4 of RFC 4648). System calls, the random generator and the memory manager are
parameters.

## Where the code and its documentation part

- `inc/fast/ringbuf.h:412-425` promises 0 for a successful fixed-size enqueue; the code returns the number of objects, and the model follows the code.
- `inc/fast/ringbuf.h:441-449` says the free entries are always between 0 and size - 1. They are if and only if cons.tail has not passed the prod.head that was loaded; where it has, the compare-and-swap fails (`FreeEntriesBounded`), and `FreeEntriesGoStale` gets there from every empty ring of at least two slots.
- A call of the multi-producer enqueue with no objects may store an old `prod.tail` over a newer one, and a multi-consumer dequeue of none an old `cons.tail`. `EmptyEnqueueWedgesRing` and `EmptyDequeueWedgesRing` build such runs from every ring with room, or with an object, and no other call of the kind under way; `WedgedForever` and `WedgedBehindForever` show that nothing repairs it. On the single-producer and single-consumer forms such calls are harmless, and `StepInv` covers them.
- `__mpmc_q_len` answers head - tail, as it loaded them, if and only if that is not negative and not wrapped. It is one too small after a wrap; and it is close to 2^64 when tail has overtaken the head loaded before, as it does with one waiting dequeuer (`WaitingDequeuerBreaksLength`), or when an enqueue and a dequeue come between the two loads (`StaleHeadBreaksLength`).
- Once a ticket has wrapped around its word, the turn computed from it is the true one if and only if the size divides twice the number of wraps (`TurnWordsAgreeIff`): with 4 or more slots it is wrong right after the first wrap.
- `__spscq_size` is exact if and only if fewer than `sz` elements lie between the two reads (`SizeExactIff`).
- `turbo_matchall` of `inc/utils/strmatch.h:356-409` can miss an occurrence: the rule in lines 400-401 assumes that the remembered stretch is preceded by a mismatch, which is not so when it is a border of the pattern. `TurboExactIff` says exactly for which patterns it misses one in some text, by a condition (`MissProne`) on the pattern and its two tables that a caller can evaluate; patterns without a border are safe (`UnborderedNotProne`), and `TurboMissesOccurrence` gives a pattern of length 8 and a text of length 21.
- `src/mempool.c:52-63` speaks of a most-recently-used list; blocks are put at the head and taken from the tail, so the block freed longest ago comes first (`Pool.Alloc`, `Pool.Free`).
- `_Isaligned_p` of `src/mempool.c:178` holds exactly of addresses below 8 (`AlignIsNearest`); block sizes above 2^32 - 8 round to 0 (`RoundedFits`); a pool clamped to one block, or growing by one, trips the assertion in `new_chunk` (`Pool.Init`); a zone that ends before its first aligned address passes the size check and trips the last assertion only after a header was written behind it (`Pool.InitFromMem`).
- The bound check of `base64_decode_value` lets `'{'` read the byte behind the table (`ValueRoundTrip`); no encoding contains it, so the round trip does not depend on that byte.
- `getopt_long` does not always prefer an exact name: it is found if and only if at most one name before it in the table begins with it (`ExactWinsIff`); otherwise the option is called ambiguous.
- `getopt` treats every argument that starts with `--` as the end of the options, since it has no table of long ones (`src/getopt_long.c:321-334`).
- `fts_read` after `fts_open` with no paths at all follows a parent pointer that was never set; `Walker.Read` therefore asks for at least one root.

## Model

| member | source | states |
|---|---|---|
| RingProtocol.StepInv | inc/fast/ringbuf.h:422-477 | for any number of threads and any schedule (calls of at least one object on the multi forms, one caller at a time on the single forms) every step keeps cons.tail <= cons.head <= prod.tail <= prod.head <= cons.tail + size - 1, every published unclaimed slot holds its object, and every in-flight thread owns its reservation |
| RingProtocol.StepRefinesFifo | inc/fast/ringbuf.h:564-614 | each step is a step of a FIFO queue of capacity size - 1: a bulk enqueue adds its objects contiguously when it stores prod.tail, a bulk dequeue removes that many from the front when it moves cons.head, all other steps are silent |
| RingProtocol.RunIsFifo | inc/fast/ringbuf.h:422-614 | over every run, everything enqueued equals everything dequeued, in order and once each, followed by what the ring still offers |
| RingProtocol.DequeueReturnsItsClaim | inc/fast/ringbuf.h:595-614 | a dequeue that took objects from the queue at one step returns, when it is done, exactly those objects and their number, whatever ran in between |
| RingCalls.EnqueueReturns | inc/fast/ringbuf.h:422-477 | over every run, a call of an enqueue returns a positive number if and only if it put in objects, and then that many of its first ones in a single publication; a fixed call returns the number of all its objects or -ENOBUFS, a variable one never an error |
| RingCalls.DequeueReturns | inc/fast/ringbuf.h:564-614 | over every run, a call of a dequeue returns exactly the objects it took from the queue, in a single claim, and their number; a fixed call returns as many as it asked for, or -ENOENT and none |
| RingCalls.EnqueueGivesUpIff | inc/fast/ringbuf.h:445-460 | an enqueue gives up if and only if it finds too few free entries (none, for the variable form), and otherwise goes for as many objects as it can have; the free entries found are the true ones where prod.head has not moved |
| RingCalls.DequeueGivesUpIff | inc/fast/ringbuf.h:585-593 | a dequeue gives up if and only if it finds too few entries (none, for the variable form), and otherwise goes for as many as it can have; the entries found are the length of the queue where cons.head has not moved |
| RingProtocol.ReservationsDisjoint | inc/fast/ringbuf.h:457-461 | no two producers in flight, and no two consumers, hold a common index |
| RingProtocol.NextPublisherInFlight | inc/fast/ringbuf.h:470-474 | whenever an index is reserved but not published, the thread whose turn it is to publish is in flight and may do so, so nobody waits for a thread that has left |
| RingProtocol.EnqueueRefusalIsTrue | inc/fast/ringbuf.h:452-460 | an enqueue that gives up does so when there really was too little room (none, for the variable form) |
| RingProtocol.DequeueRefusalIsTrue | inc/fast/ringbuf.h:587-593 | a dequeue that gives up does so when the queue really was too short (empty, for the variable form) |
| RingProtocol.SingleFormAssertions | inc/fast/ringbuf.h:502-538 | in the single-producer and single-consumer forms the tail equals the head the thread read until it publishes |
| RingRuns.EmptyEnqueueWedgesRing | inc/fast/ringbuf.h:422-477 | from every multi-producer ring with room and no enqueue under way, an enqueue of no objects and one of one object can leave prod.tail behind prod.head with nobody in flight to move it |
| RingRuns.WedgedForever | inc/fast/ringbuf.h:470-474 | from such a state no step of any thread moves prod.tail again |
| RingRuns.EmptyDequeueWedgesRing | inc/fast/ringbuf.h:564-614 | from every multi-consumer ring that holds an object and has no dequeue under way, a dequeue of no objects can leave cons.tail behind cons.head for good |
| RingRuns.WedgedBehindForever | inc/fast/ringbuf.h:603-611 | from such a state no step of any thread moves cons.tail again |
| RingRuns.FreeEntriesBounded | inc/fast/ringbuf.h:441-450 | the free entries lie in 0..size-1 if and only if cons.tail has not passed the prod.head loaded, and the compare-and-swap fails where it has |
| RingRuns.FreeEntriesGoStale | inc/fast/ringbuf.h:438-450 | every empty ring of at least two slots has an allowed run to a state with size free entries computed |
| RingTable.StoreRing | inc/fast/ringbuf.h:307-348 | the unrolled copy without wrap and the masked loop both equal storing one object at a time at index modulo size |
| RingTable.StoreEachContents | inc/fast/ringbuf.h:307-348 | storing one at a time puts object i into slot (head + i) modulo size and changes no other slot |
| RingTable.LoadRing | inc/fast/ringbuf.h:354-394 | the unrolled and the masked load both read the slots in index order and touch nothing else |
| RingTable.WrappedExpressionsExact | inc/fast/ringbuf.h:445-445 | on counters reduced modulo the word size the free-entry expression, and the entry expression of line 585, give the true values in every reachable state, provided no index went once round between load and use |
| RingTable.WordTestsExact | inc/fast/ringbuf.h:457-470 | the compare-and-swaps and the waits for the tail compare words as they would compare the counters, the former provided the shared index is not a full round ahead |
| RingTable.CountExactIff | inc/fast/ringbuf.h:1094-1114 | with prod.tail loaded at one step of a run and cons.tail at a later one, count and free count are exact if and only if cons.tail has not overtaken that prod.tail |
| RingTable.WrappedSlot | inc/fast/ringbuf.h:311-311 | masking a reduced counter selects the slot of the unbounded one when the word size is a multiple of the ring size |
| MpmcQueue.StepInv | inc/fast/mpmc_bounded_queue.h:241-325 | with try and wait operations mixed freely, every step keeps tickets, turns and slot contents consistent |
| MpmcQueue.SlotExclusive | inc/fast/mpmc_bounded_queue.h:299-325 | at most one thread is between being let into a slot and storing its turn |
| MpmcQueue.TurnsClimb | inc/fast/mpmc_bounded_queue.h:253-256 | a slot's turn only ever goes up, by one, by the thread inside the slot |
| MpmcQueue.TicketsPair | inc/fast/mpmc_bounded_queue.h:270-294 | in every run the dequeuer with ticket k returns the value of the enqueuer with ticket k |
| MpmcQueue.TicketsDistinct | inc/fast/mpmc_bounded_queue.h:299-325 | no two threads hold the same ticket of the same kind |
| MpmcQueue.FailedEnqueueHadNoRoom | inc/fast/mpmc_bounded_queue.h:258-262 | wherever in a run an enqueue answers no, there was an instant, from which on it was on its way to that answer, when the dequeue of the ticket one round before head had not been released |
| MpmcQueue.TryClaims | inc/fast/mpmc_bounded_queue.h:241-294 | with try operations only, a compare-and-swap that succeeds leaves 0 <= head - tail <= sz |
| MpmcQueue.TryStepRefinesFifo | inc/fast/mpmc_bounded_queue.h:241-294 | each step of the try operations is a step of a FIFO queue of capacity sz, taking effect at the compare-and-swap |
| MpmcQueue.TryRunIsFifo | inc/fast/mpmc_bounded_queue.h:241-294 | every run of try operations is a run of that queue |
| MpmcQueue.FailedDequeueFoundNothing | inc/fast/mpmc_bounded_queue.h:287-291 | wherever in a run a dequeue fails, there was an instant, from which on it was on its way to that answer, with nothing to read at tail |
| MpmcCalls.EnqueueAnswers | inc/fast/mpmc_bounded_queue.h:241-312 | over every run, a call of an enqueue answers yes if and only if it drew one ticket, for its own value, and no if and only if it drew none; and a no means that there was no room at an instant of the call. The waiting form always answers yes |
| MpmcCalls.DequeueAnswers | inc/fast/mpmc_bounded_queue.h:270-325 | over every run, a call of a dequeue gives a value if and only if it drew one ticket, and then the value of the enqueuer of that ticket; it fails if and only if it drew none, and then there was nothing to read at an instant of the call. The waiting form never fails |
| MpmcWords.LengthExactIff | inc/fast/mpmc_bounded_queue.h:131-142 | with head loaded at one step of any run and tail at a later one, less than a word range apart, the length is head - tail if and only if that is neither negative nor wrapped, with its value in each other case |
| MpmcWords.WaitingDequeuerBreaksLength | inc/fast/mpmc_bounded_queue.h:314-325 | one waiting dequeuer on an empty queue of any size makes the length two less than the word range |
| MpmcWords.StaleHeadBreaksLength | inc/fast/mpmc_bounded_queue.h:131-142 | so do one try-enqueue and one try-dequeue between the two loads |
| MpmcWords.TurnWordsAgreeIff | inc/fast/mpmc_bounded_queue.h:184-185 | the turn computed from a ticket's word is the word of its true turn if and only if the size divides twice the number of wraps; the slot is always the true one |
| MpmcWords.TicketTestsExact | inc/fast/mpmc_bounded_queue.h:252-261 | the compare-and-swaps and re-reads compare words as they would compare the tickets, unless the shared one is a word range ahead |
| SyncQueue.StepInv | inc/fast/syncq.h:109-137 | every step of any number of threads keeps semaphores, mutex, indices and table consistent |
| SyncQueue.Conservation | inc/fast/syncq.h:70-82 | notfull + notempty + the threads between a wait and the matching post equals sz in every reachable state |
| SyncQueue.AccessesSafe | inc/fast/syncq.h:109-137 | the slot written holds no object still to be read; the slot read holds the object of the same place in lock order |
| SyncQueue.RunIsFifo | inc/fast/syncq.h:109-137 | every run is a run of a FIFO queue of capacity sz in the order of the lock operations |
| SyncQueue.DequeuersPairUp | inc/fast/syncq.h:126-137 | the k-th dequeuer to lock returns the object of the k-th enqueuer to lock, and no two return the same one |
| SyncCalls.EnqueueDoes | inc/fast/syncq.h:109-119 | over every run, a call of an enqueue that is over has put in its object, once, and nothing else |
| SyncCalls.DequeueReturns | inc/fast/syncq.h:126-137 | over every run, a call of a dequeue that is over has taken one place in the order and returns the object that was put in at that place |
| SyncQueue.NobodyStuckInside | inc/fast/syncq.h:109-137 | while some thread is between its wait and its post, one of them can go on |
| SyncQueue.BlockedRightly | inc/fast/syncq.h:112-129 | once all threads are idle or wait for a semaphore, enqueuers wait only on a full queue and dequeuers only on an empty one |
| SpscQueue.StepInv | inc/fast/spsc_bounded_queue.h:231-259 | under every interleaving, what each side concluded from a stale index stays true until it stores its own |
| SpscQueue.RefusalsTrue | inc/fast/spsc_bounded_queue.h:237-253 | "full" and "empty" are answered if and only if they were true at the moment the other index was read |
| SpscQueue.EnqueueAnswers | inc/fast/spsc_bounded_queue.h:231-242 | over every run, an enqueue answers yes if and only if it published its element and nothing else, and no if and only if it published nothing; and then the queue was full at some moment of the call |
| SpscQueue.DequeueAnswers | inc/fast/spsc_bounded_queue.h:249-259 | over every run, a dequeue gives the next element if and only if it took it, and nothing if and only if it took none; and then the queue was empty at some moment of the call |
| SpscQueue.SidesApart | inc/fast/spsc_bounded_queue.h:231-259 | the slot being written is none that still has to be read, in particular not the one being read |
| SpscQueue.RunIsFifo | inc/fast/spsc_bounded_queue.h:231-259 | every run is a run of a FIFO queue of capacity sz - 1 |
| SpscQueue.SizeExactIff | inc/fast/spsc_bounded_queue.h:211-224 | with the two indices read at different times the size is exact if and only if fewer than sz elements lie between them |
| SpscQueue.QueriesExact | inc/fast/spsc_bounded_queue.h:186-224 | the size, full and empty queries on the indices of one moment are exact |
| SpscQueue.FullAtTwoMoments | inc/fast/spsc_bounded_queue.h:187-195 | the full query with its two loads at different steps of a run: when it says yes, and when that means the queue was full |
| SpscQueue.EmptyAtTwoMoments | inc/fast/spsc_bounded_queue.h:198-204 | the empty query with its two loads at different steps: it is right unless whole rounds lie between them |
| BoyerMoore.CalcSuffixes | inc/utils/strmatch.h:246-271 | the table holds, for each i, the length of the longest common suffix of the pattern and its prefix ending at i |
| BoyerMoore.CalcGoodShift | inc/utils/strmatch.h:275-300 | each entry is the least shift at which the matched suffix could match again |
| BoyerMoore.CalcBadChar | inc/utils/strmatch.h:234-244 | each entry is the distance from the last occurrence of the character before the end, or the pattern length |
| BoyerMoore.PlausibleIff | inc/utils/strmatch.h:286-299 | a shift keeps the matched suffix if and only if the suffix table says so (inside the pattern) or it is a period of the pattern (beyond) |
| BoyerMoore.AttemptComplete | inc/utils/strmatch.h:334-351 | no offset skipped after an attempt is an occurrence, and a full match is recorded exactly when there is one |
| BoyerMoore.Searcher.MatchAll | inc/utils/strmatch.h:326-354 | the result is the increasing list of all offsets where the pattern occurs, overlaps included |
| TurboBoyerMoore.TurboMatchAll | inc/utils/strmatch.h:356-409 | the result is an increasing list of occurrences, and of all of them if the pattern is not prone; it equals the search specified as a function of the tables |
| TurboBoyerMoore.TurboSafe | inc/utils/strmatch.h:391-394 | no shift below the turbo shift can be an occurrence: it would put one character of the pattern on two different characters of the text |
| TurboBoyerMoore.RaiseSafe | inc/utils/strmatch.h:400-401 | no shift up to the remembered length can be an occurrence, if the remembered stretch is preceded by a mismatch |
| TurboBoyerMoore.ScanStops | inc/utils/strmatch.h:375-380 | jumping over the remembered stretch does not change where the comparison stops |
| TurboBoyerMoore.NextSource | inc/utils/strmatch.h:386-397 | what an attempt remembers is preceded by a mismatch, or is a border that the attempt reached in one of two ways |
| TurboBoyerMoore.TurboResult | inc/utils/strmatch.h:356-409 | for all patterns and texts the result is an increasing list of occurrences, and of all of them if the pattern is not prone |
| TurboBoyerMoore.ProneIsMissed | inc/utils/strmatch.h:396-405 | every prone pattern has a text in which two attempts jump over an occurrence of it |
| TurboBoyerMoore.TurboExactIff | inc/utils/strmatch.h:356-409 | a pattern is found wherever it occurs in every text over its alphabet if and only if it is not prone |
| TurboBoyerMoore.UnborderedNotProne | inc/utils/strmatch.h:386-397 | a pattern without a border is not prone |
| TurboBoyerMoore.TurboMissesOccurrence | inc/utils/strmatch.h:400-401 | a prone pattern that occurs in a text for which nothing is reported |
| Matching.Occurrences | inc/utils/strmatch.h:326-354 | the naive reference: strictly increasing, and containing an offset if and only if the pattern occurs there |
| Kmp.Searcher.CalcPrefixTable | inc/utils/strmatch.h:92-105 | every entry is the length of the longest proper border of that prefix |
| Kmp.Searcher.Follow | inc/utils/strmatch.h:136-144 | following the table finds the longest prefix of the pattern that ends at the next character |
| Kmp.Searcher.Match | inc/utils/strmatch.h:129-153 | returns the leftmost occurrence, and reports none if and only if there is none |
| Kmp.Searcher.MatchAll | inc/utils/strmatch.h:157-179 | returns the leftmost-greedy non-overlapping occurrences |
| Kmp.LongestIsBorder | inc/utils/strmatch.h:92-105 | the length the table construction finds is the longest border in the usual sense, p[..k] equal to the last k characters |
| BlockExchange.Gcd | src/getopt_long.c:99-112 | the result divides both numbers and is a combination of them |
| BlockExchange.GcdGreatest | src/getopt_long.c:99-112 | whatever divides both numbers divides every combination of them, so the result of Gcd is the greatest common divisor |
| BlockExchange.PosDistinct | src/getopt_long.c:133-164 | the positions of one cycle are all different |
| BlockExchange.PosCovers | src/getopt_long.c:133-164 | every position of the range lies on the cycle of its residue modulo the gcd |
| BlockExchange.CycleDone | src/getopt_long.c:133-164 | one cycle brings exactly its own positions to their final places |
| BlockExchange.PermuteArgs | src/getopt_long.c:133-164 | the two blocks change places with their order kept, and nothing outside the range changes |
| Getopt.ParseIsStablePartition | src/getopt_long.c:187-251 | the reference reading splits the arguments into options and others, each in original order |
| Getopt.BehindDashes | src/getopt_long.c:321-335 | everything behind the "--" that ends the options is at the end of the others, in order, and the "--" is the last of the options |
| OptionStrings.KindIs | src/getopt_long.c:252-301 | of the option string alone: a listed letter takes no argument, needs one or may have one if and only if nothing, one colon or two colons follow its first place, behind an optional first character that chooses the mode |
| OptionStrings.UnknownIff | src/getopt_long.c:252-261 | a letter is unknown if and only if it is not listed or is the colon |
| OptionStrings.ModesAre | src/getopt_long.c:59-66 | arguments are permuted, or reported in order, exactly as the first character of the option string and the environment say |
| OptionStrings.ShapesAre | src/getopt_long.c:213-214 | an argument is no option if and only if it does not start with a dash or is a dash alone |
| OptionStrings.LoneLetter | src/getopt_long.c:281-304 | what "-c" in front of any arguments reports and uses up, for each of the three kinds, with the missing argument |
| OptionStrings.AttachedText | src/getopt_long.c:281-304 | the text behind "-c" is the argument of a letter that takes one, and more letters otherwise |
| OptionStrings.UnlistedLetter | src/getopt_long.c:252-261 | a letter that is not listed is reported as bad and uses up its argument alone |
| OptionStrings.NoOption | src/getopt_long.c:213-230 | where arguments are permuted, an argument that is no option becomes the first of the others and changes nothing else |
| OptionStrings.RunLetter | src/getopt_long.c:252-336 | a whole run whose first argument is "-c" first reports the letter with the next argument, with none, or as lacking one, as the option string says, and leaves the argument in front |
| Getopt.ReportedPermutes | src/getopt_long.c:187-251 | after every report the vector is a permutation of what it was |
| Getopt.AfterPermute | src/getopt_long.c:231-244 | moving the skipped block behind the options read changes nothing of what is still to be reported |
| Getopt.Scanner.MoveBlock | src/getopt_long.c:196-202 | permute_args is called with two non-empty blocks only and settles the skipped block |
| Getopt.Scanner.NextArgument | src/getopt_long.c:192-246 | skips to the next option, or ends with the vector in its final order and optind at the first non-option |
| Getopt.Scanner.ReadLetter | src/getopt_long.c:252-304 | one option letter with its argument is reported as the reference says, with the same error cases; what the reference says of each letter is fixed by KindIs, UnknownIff and LoneLetter |
| Getopt.Scanner.NextOption | src/getopt_long.c:313-336 | each call reports the next event of the reference, or ends with the vector partitioned |
| Getopt.Scanner.NextOptionLong | src/getopt_long.c:343-462 | the same for getopt_long, for every outcome of the search in the table of long options |
| LongOptions.FindLong | src/getopt_long.c:386-408 | the loop finds the first exact name unless two abbreviations precede it, a single abbreviation without one, and is ambiguous otherwise |
| LongOptions.ExactWinsIff | src/getopt_long.c:386-408 | an exact name is found if and only if at most one name before it begins with it |
| LongOptions.AbbreviationNeedsOne | src/getopt_long.c:398-407 | without an exact name the search finds nothing, one entry or ambiguity as no, one or more names begin with the one asked for |
| LongOptions.AbbreviatesIff | src/getopt_long.c:388-392 | a name is matched by the one asked for if and only if it is that name with something, or nothing, behind it |
| LongOptions.LookupIs | src/getopt_long.c:379-456 | what "--name" and "--name=arg" come to for an entry without argument, with a required and with an optional one |
| LongOptions.LookupRefuses | src/getopt_long.c:386-462 | a name that is not found, or is ambiguous, is refused with and without an argument |
| Getopt.Scanner.Run | src/getopt_long.c:313-462 | over a whole run the reports are those of the reference, and the final vector is the program name, the options with their arguments, then the other arguments starting at optind, all in original order: a stable rearrangement and a permutation of the original in which nothing behind the closing "--" moves |
| FtsWalk.StepIsNextVisit | src/fts.c:325-518 | each step of the walk returns exactly the next visit of the recursive traversal, and the walk ends exactly when none is left |
| FtsWalk.OpenedIsWholeWalk | src/fts.c:149-195 | after opening, the whole traversal root by root lies ahead |
| FtsWalk.CycleMark | src/fts.c:938-981 | a directory entry is marked as a cycle if and only if a directory on the way to it is the same (device, inode), and descended into otherwise |
| FtsWalk.DepthBounded | src/fts.c:376-425 | the chain of directories being walked repeats none, so it is no longer than there are directories, on cyclic graphs too |
| FtsEntries.ChildrenAre | src/fts.c:746-858 | the children of a directory are its entries in order, all but "." and ".." unless these are asked for, each with the kind that lstat, or stat where links are followed, gives it: file, link, dangling link, failed stat, other, directory, or a cycle if it is among those above |
| FtsEntries.RootsAre | src/fts.c:149-165 | each root in order is described the same way, as what it links to if that is asked for, with "." and ".." as ordinary directories |
| FtsEntries.EntriesVisitedOnce | src/fts.c:325-518 | of the visits below a directory those at its own entries are, in order, one for each entry and two for each descended directory, and nothing else |
| FtsEntries.BelowStandsBetween | src/fts.c:376-518 | everything below a descended directory, and nothing else, stands between its two visits |
| FtsEntries.RootsVisitedOnce | src/fts.c:325-518 | the roots are visited once each in the order given, directories before and after |
| Fts.Walker.Stat | src/fts.c:894-981 | fts_stat classifies an entry as the reference does, following parent pointers for the cycle check |
| Fts.Walker.Build | src/fts.c:628-858 | fts_build links one node per child in directory order under the current node, or turns an empty directory to its post-order visit; which entries are children, and as what, is fixed by ChildrenAre |
| Fts.Walker.constructor | src/fts.c:149-195 | fts_open leaves the linked roots behind a dummy, representing the opened walk |
| Fts.Walker.Read | src/fts.c:325-518 | each call on the linked nodes performs the walk's next step, keeps the representation, and returns the node of that visit |
| Fts.Walker.ReadAll | src/fts.c:325-518 | reading until null terminates and yields the recursive traversal, of which EntriesVisitedOnce says that each listed entry has one visit and each descended directory one before and one after its contents |
| DList.SpelledOnce | inc/fast/list.h:309-316 | the links of a well-formed list determine its sequence of elements |
| DList.List.InsertHead | inc/fast/list.h:309-316 | prepends, keeping both directions of links consistent |
| DList.List.RemoveTail | inc/fast/list.h:396-405 | removes the last element, 0 if there is none |
| DList.List.Remove | inc/fast/list.h:366-375 | removes an element anywhere in the list |
| PoolLayout.AlignIsNearest | src/mempool.c:177-178 | the result is the next multiple of 8 from 8 on, and a multiple of 8 if and only if the address is 0 or at least 8 |
| PoolLayout.RoundedFits | src/mempool.c:325-331 | the block size is rounded up to a multiple of 8 of at least 16, and becomes 0 if and only if it exceeds 2^32 - 8 |
| PoolLayout.CarvedSeparated | src/mempool.c:266-278 | carved blocks of all chunks never overlap and are as many as the chunks have given |
| PoolLayout.CarvedInside | src/mempool.c:253-255 | every carved block is aligned and lies inside a chunk's memory, clear of its header |
| PoolLayout.CarveAddsOne | src/mempool.c:272-275 | carving yields a block that was not carved before and adds exactly that one |
| PoolLayout.HasRoom | src/mempool.c:272-275 | the room test is exact: a whole block fits or none |
| Mempool.ChunkSizeFits | src/mempool.c:229-234 | the sizes never overflow, and the assertions fail if and only if there is one unit or the block size is 0 |
| Mempool.Pool.NewChunk | src/mempool.c:226-258 | a granted chunk is laid out from the first aligned address behind its header with exactly min_units blocks, none carved, and is put in front; the outcome under exact conditions |
| Mempool.Pool.Init | src/mempool.c:320-349 | succeeds, reports no memory or trips an assertion under exactly the stated conditions; on success the block size is rounded, and the one chunk has as many blocks as the clamp, or as asked for, or 4096, says |
| Mempool.Pool.InitFromMem | src/mempool.c:408-467 | the outcome for every zone and block size, and on success a pool clamped to as many blocks as fit between the first aligned address behind the header and the end of the zone |
| Mempool.Pool.Alloc | src/mempool.c:537-571 | the block is new to the client; freed blocks come back oldest first, then the next of the latest chunk, then the first of a new one; a clamped pool refuses if and only if exactly max_blocks are in use; memory is asked for if and only if every block there is is in use and the pool is not clamped |
| Mempool.Pool.Free | src/mempool.c:578-588 | a block in use passes the debug check and moves to the front of the free list |
| Mempool.Pool.ValidBlock | src/mempool.c:289-304 | answers whether the address lies in the block area of some chunk |
| Mempool.Pool.LiveBlocksApart | src/mempool.c:537-588 | in every valid state blocks in use and free blocks are disjoint and separated, aligned and inside a chunk, and together are all carved blocks |
| Mempool.Pool.ClampReached | src/mempool.c:552-559 | a clamped pool has nothing left if and only if max_blocks blocks are in use |
| Mempool.Pool.NothingLeft | src/mempool.c:562-566 | without a free block and without room in the latest chunk every block there is is in use |
| Mempool.Pool.WritesMissLinks | src/mempool.c:139-142 | the bytes of a block in use miss both link words of every block on the free list |
| Mempool.Pool.Write | src/mempool.c:139-142 | what a client writes anywhere in its own block never disturbs the intrusive free list |
| Base64.ValueRoundTrip | src/b64_decode.c:12-27 | the two tables are inverse on 6-bit values; exactly the letters of the alphabet have a value, apart from '{' |
| Base64.AlphabetIs | src/b64_encode.c:16-22 | the letter of each 6-bit value is the one of table 1 of RFC 4648, given as a literal string |
| Base64.OthersPassedOver | src/b64_decode.c:50-95 | characters outside the alphabet, apart from the open brace, change nothing wherever they stand: decoding a text is decoding its letters |
| Base64.BitsAreDigits | src/b64_encode.c:56-82 | the masks and shifts produce the four base-64 digits of the 24-bit number |
| Base64.EncodeInPieces | src/b64_encode.c:33-119 | however the input is cut into calls, the output is the one encoding of it, of length 4*ceil(n/3) + floor(n/54) + 1 |
| Base64.RoundTripInPieces | src/b64_decode.c:36-100 | however input and code are cut into calls, decoding gives back the input |
| Base64.EncoderIsEncoding | src/b64_encode.c:33-119 | from any point in a line, the encoder and finish produce the encoding of section 4 of RFC 4648 with its newlines |
| Base64Coders.Encoder.Block | src/b64_encode.c:33-94 | the resumable loop writes exactly the specified text into the buffer, leaves the specified state and touches nothing else |
| Base64Coders.Encoder.Finish | src/b64_encode.c:96-119 | writes padding, newline and a terminating zero |
| Base64Coders.Decoder.Block | src/b64_decode.c:36-100 | the resumable loop writes exactly the specified bytes, keeping the partial byte behind them |
| Fletcher.AddBlock | src/fletcher-cksum.c:25-31 | with blocks of at most 360 words no 32-bit addition wraps, and both sums stay congruent to the plain ones |
| Fletcher.GrowthFits | src/fletcher-cksum.c:25-31 | the largest possible growth of the second sum over a block stays below 2^32 |
| Fletcher.Fletcher32 | src/fletcher-cksum.c:18-39 | the halves are the plain sum and the running sum modulo 65535, as numbers from 1 to 65535 |
| Uniform.MinIs | src/arc4random.c:341-342 | min equals 2^32 modulo the bound |
| Uniform.Unbiased | src/arc4random.c:333-357 | each number below the bound is produced by exactly floor(2^32 / bound) accepted values |
| Uniform.MostAccepted | src/arc4random.c:344-349 | more than half of all values are accepted |
| Uniform.RandomUniform | src/arc4random.c:333-357 | returns the residue of the first accepted draw, having rejected exactly the draws before it |

## Left out

- Weak memory, cache-line padding, spinning and fairness: steps are sequentially consistent, and the results are about safety.
- Counters that go once round their whole word between a load and its compare-and-swap, tickets of the ticket queue beyond the word range (the step machine goes on with unbounded ones), and mixing the single and multi forms of the ring on one side.
- Ring creation, naming, watermarks and the dump functions of `inc/fast/ringbuf.h`; `MPMC_QUEUE_DESC` and the allocation macros of the queues.
- Rabin-Karp in `inc/utils/strmatch.h`; patterns of length 0 and signed characters, which would index the tables negatively.
- The `-W` form, the values and flags of long options, and error messages in `src/getopt_long.c`. An option string whose letters include `W;` is read as if `;` were a plain letter.
- Fts.Walker.Read: does not model fts_set instructions, FTS_XDEV, FTS_NOSTAT, chdir, sorting, path buffers and failing system calls, because the file system is a fixed value; nodes are never freed, so use after free is not captured. Paths are sequences of names.
- Resetting and deleting pools and queues; a memory manager that hands out overlapping memory; freeing a block that is not in use, which the source does not detect.
- The capacity checks of `base64_encode_buf` and `base64_decode_buf`: the block functions are given a large enough buffer. A platform where `char` is unsigned, on which the decoder would not skip characters without a value.
- Uniform.RandomUniform: does not model the generator or a loop that never ends, because its outputs are a finite sequence given as a parameter.
- Hash functions, hash tables, heaps, timers, pack/unpack, ULIDs, escaping, the resolver and the other parts of the repository, which have no state worth a proof beyond their formulas, whose promised laws do not hold, or which are I/O.
