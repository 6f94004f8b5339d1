# A verified model of the containers and the select loop

The repository is a small C library: an intrusive doubly linked list, a chained hash table built on it, a growable
array of pointers, a string trim, and an event loop whose `select` backend keeps its events in hash tables. This
project models those layers in Dafny and proves what they promise, from the pointer ring up to whole runs of the event
loop.

## Structure

| file | models |
|---|---|
| `Seqs.dfy`, `Bits.dfy` | vocabulary on sequences; bits of numbers |
| `List.dfy` | `util/mcl_list.c`: the ring on the heap, its iterator, erasing walks |
| `Chains.dfy` | the hash table as a value: a sequence of chains, positions of a walk |
| `Hash.dfy` | `util/mcl_hash.c` on the heap: the bucket array of lazily created lists, tied to the value |
| `HashRuns.dfy`, `HashClient.dfy` | whole runs of table operations: refinement of a finite map, conservation of values; the same runs on the heap |
| `Elf.dfy`, `HashFn.dfy` | the hash functions, with C's 32- and 64-bit arithmetic written out |
| `Arrays.dfy`, `ArrayRuns.dfy` | `util/mcl_array.c` on the heap, runs, the amortised bound, who owns the elements |
| `Text.dfy` | `mcl_trim` of `util/mcl_string.c` |
| `Registry.dfy`, `Dispatch.dfy` | `net/mcl_select.c` as a value: add and delete, one turn, a pass, a round, the loop, runs |
| `Commands.dfy` | what additions, deletions, turns and dispatches do to the registry, read as maps from descriptors to events |
| `History.dfy` | the invariant over all runs: each accepted event is freed as often as it was accepted, and used only while it is owned |
| `Passes.dfy`, `Callbacks.dfy`, `TooEarly.dfy` | what a pass visits and calls, with callbacks that add events or do not |
| `Rounds.dfy`, `Calls.dfy` | a whole round, whatever its callbacks add: when `select_del` works afterwards, and exactly which events are called, freed and left registered |
| `AnyTime.dfy` | what the bits of the descriptor sets mean, and when `select_del` works, at any moment of any run |
| `Findings.dfy` | the real hash; what a quiet round does to each event; whole runs that show where deletion fails and callbacks come too early |
| `Select.dfy`, `Session.dfy` | the backend on the heap, tied to the value step by step; a whole session |

Heap classes carry a ghost view of themselves (`contents`, `table`, `State()`), and every method says what the new view
is as a function of the old one. The theorems about runs are lemmas about these functions.

Memory is modelled by object references and by logs: the values handed to a free function are out-parameters
(`freed`), and the backend has a ghost log of the events it takes over, callbacks, cleanup callbacks and frees.

## What the proofs show about the code

Behaviour that differs from the code's own comments, headers or from what a caller may expect. The model follows the code.

- The exception set is always empty. `MCL_EV_EXP` is 3 and overlaps both `MCL_EV_READ` and `MCL_EV_WRITE`, so the branch
  at net/mcl_select.c:228 is never taken, although the comment at line 229 says that all events are added to it
  (`Registry.ExpBitsSet`, `History.RunInv`).
- `select_del` looks at the bit that the last `select` call left. After a round with a positive `select` it works only
  on registered descriptors whose event was reported ready in that round, or was accepted during it; after a failed
  `select` it works on every registered descriptor, after a timeout on none (`Rounds.DelAfterRound`,
  `Rounds.DelAfterLoop`; for any moment of a run `AnyTime.DelAnyTime`). So a client that stops the loop from a callback
  cannot delete the events that were idle in the last round (`Findings.DelFailsRun`, with numbers in `Findings.DelFailsExample`).
- An event that a callback adds has its bit set in the very set that the pass takes for readiness. If it has a
  callback, it is called in the same round, without being ready, exactly when a read callback adds it to the write
  set, or when it goes to a later bucket of the set under way; a read event that a write callback adds is not
  (`Calls.RoundCallsExactly`; a whole run in `Findings.CalledTooEarlyRun`). If it is one-shot it is then freed in that
  round, even without having a callback to be told through (`Calls.RoundFreesExactly`).
- Adding an event on descriptor 0 stores it but reports failure (`Registry.AddExact`).
- An event with both read and write bits is only put into the read set (`Registry.KindExact`).
- A negative int key is refused unless it is a multiple of 1021 (`HashFn.Accepted`).
- The string hash sign-extends bytes of 128 and more, unlike the System V ABI (`Elf.FirstHighByte`).
- `mcl_list_find` gives up at the first NULL pointer it meets (`Lists.List.FindSees`). An array walk ends at the first
  NULL element (`Arrays.EraseWalk`).
- `mcl_array_insert` at position 0 of an empty array returns 1 and loses the element (`ArrayRuns.InsertAfterExact`); it is
  the only operation that loses one (`ArrayRuns.RunBalances`).
- Stepping an array iterator that has run off the end starts over at the head (`Arrays.Array.IterNext`).
- `mcl_array_delete_range` is documented as deleting `[b, e)`, but deletes one element when `b == e` and refuses
  `e == size` (`ArrayRuns.RangeDeletes`, `ArrayRuns.RangeExact`).
- Tightening an empty array leaves a capacity of 0, which doubling cannot raise (`ArrayRuns.RoomToGrow`).

## Assumptions

- LP64: `int` has 32 bits, `long` 64; `char` is signed; a left shift and an addition on `long` wrap around.
- Memory allocation succeeds. A NULL container, iterator or event argument, which the code turns away at once, is not a
  value of the model.
- Pairs in a hash chain are values. In the code a pair is a heap object found by address; since no two pairs of a chain
  share a key, the first equal value is the same pair.
- String keys contain no NUL, so that `strcmp` decides equality and `_len` is the length.
- `free` callbacks do not touch the containers, and cleanup callbacks do not touch the backend. Event callbacks may add
  events and may end the loop (`mcl_event_loopexit`); what the n-th callback of a run does is a parameter of the run.
- `select` is a parameter too: a finite sequence of outcomes, each any subsets of the watched descriptors, a timeout,
  which leaves the sets empty, or an error, which leaves them alone.
- Descriptors that are added or deleted are below `FD_SETSIZE`, as `FD_SET` and `FD_ISSET` demand.
- The fields of an event do not change while the backend owns it. The event passed to `select_del` is not the registered
  object itself: net/mcl_select.c:238 reads its type after the registered one was freed.
- Callers keep inside the array block: they do not delete position 0 of an empty array, and they do not insert into an
  array of capacity 0 nor step an unset iterator over one. `mcl_trim` gets a string with at least one character that is neither space nor tab; on other
  strings its backward scan leaves the buffer.

## Model

| member | source | states |
|---|---|---|
| `Lists.LinkBetween` | util/mcl_list.c:249-265 | splicing a node between two neighbours turns the ring of `nodes` into the ring of `nodes` with the node at that place: `next` and `prev` stay inverse all the way round |
| `Lists.Unlink` | util/mcl_list.c:271-274 | taking a node out leaves a ring of exactly the other nodes, in order |
| `Lists.List.constructor` | util/mcl_list.c:203-214 | a new list is an empty ring of size 0 with no erase function |
| `Lists.List.Insert` | util/mcl_list.c:239-253 | refused exactly at the maximum size, and then nothing changes; otherwise one new node in front, the old nodes behind it unmoved, size counted |
| `Lists.List.InsertTail` | util/mcl_list.c:255-269 | the same at the back |
| `Lists.List.HandleElem` | util/mcl_list.c:271-280 | one node is unlinked, counted out, and its data freed exactly when asked for and not NULL |
| `Lists.List.ListDel` | util/mcl_list.c:282-304 | removes the first stored pointer that compares equal or is the pointer itself, and nothing else; says whether there was one and frees at most that one |
| `Lists.List.Delete` | util/mcl_list.c:306-309 | removes the first occurrence of a pointer |
| `Lists.List.DelCmp` | util/mcl_list.c:311-314 | removes the first pointer that the comparison accepts or that is the given pointer |
| `Lists.List.Find` | util/mcl_list.c:328-354 | the first match, provided the scan does not stop at a NULL pointer first |
| `Lists.List.FindSees` | util/mcl_list.c:336-351 | a match is reported if and only if some stored pointer matches and no NULL stands at or before it |
| `Lists.List.Destroy` | util/mcl_list.c:216-237 | frees every non-NULL pointer once, first to last |
| `Lists.List.IterHead` | util/mcl_list.c:33-53 | the iterator stands on the first node, or is null on an empty list |
| `Lists.List.IterTail` | util/mcl_list.c:55-75 | the iterator stands on the last node, or is null on an empty list |
| `Lists.List.IterNext` | util/mcl_list.c:77-108 | one position on, null after the last |
| `Lists.List.IterPrev` | util/mcl_list.c:110-141 | one position back, null before the first |
| `Lists.List.IterInfo` | util/mcl_list.c:143-164 | the pointer stored in the node under the iterator |
| `Lists.List.IterErase` | util/mcl_list.c:166-201 | the iterator ends on the node object that followed, still in the ring; the first occurrence of the pointer, at or before the old position, is what left the list |
| `Lists.List.Forward` | util/mcl_list.c:203-304 | following `next` k times from the sentinel of any valid list gives element k modulo size + 1 of sentinel and contents |
| `Lists.List.Backward` | util/mcl_list.c:203-304 | following `prev` k times gives the reverse order |
| `Lists.RemoveFirst` | util/mcl_list.c:290-300 | removing the first copy of what stands at a position leaves everything behind that position; without repetitions it removes exactly that position |
| `Lists.WalkTurn` | util/mcl_list.c:77-108 | one turn of a walk, erasing or stepping, leaves all that is ahead of the iterator untouched |
| `Lists.WalkAdvances` | util/mcl_list.c:166-201 | a turn keeps the relation between the original contents, what was met, what was chosen and what is in the list |
| `Lists.EraseWalk` | util/mcl_list.c:166-201 | walking with any choice of erasures meets every stored pointer once in order, even with repeated pointers; as many copies go as were chosen; without repetitions exactly the chosen ones go |
| `Chains.FirstFromIs` | util/mcl_hash.c:31-37 | the scan for a non-empty bucket finds the first one, or none exactly when all are empty |
| `Chains.RemainingSteps` | util/mcl_hash.c:63-122 | stepping and erasing both leave exactly the rest of the walk ahead |
| `Chains.PassedNext` | util/mcl_hash.c:63-122 | stepping leaves exactly the pair that was visited behind |
| `Chains.PassedErase` | util/mcl_hash.c:139-172 | erasing leaves nothing behind, also when it empties a bucket and the iterator has moved to a later one |
| `Chains.FlattenErase` | util/mcl_hash.c:162-168 | erasing takes exactly one pair out of the order of the walk |
| `Chains.EraseKeepsOk` | util/mcl_hash.c:139-172 | erasing keeps every chain bounded, in its bucket, and free of repeated keys |
| `Chains.WalkVisitsAll` | util/mcl_hash.c:63-172 | for every choice of erasures, a walk from any position visits exactly the pairs that were ahead, in order, and leaves exactly those not erased |
| `Chains.WalkFromHead` | util/mcl_hash.c:19-172 | from the head: every pair of the table exactly once, no key twice, and the table ends as the pairs not erased, well formed |
| `Chains.InFlatten` | util/mcl_hash.c:429-433 | a walk meets a pair exactly when the chain of its own key holds it |
| `Chains.FlattenDistinct` | util/mcl_hash.c:435-446 | no key is met twice |
| `Hashes.HashTable.constructor` | util/mcl_hash.c:351-372 | a new table is empty |
| `Hashes.HashTable.RegisterEraseFn` | util/mcl_hash.c:605-616 | the erase function is set, the table unchanged |
| `Hashes.HashTable.Insert` | util/mcl_hash.c:449-493 | both inserting calls, on the heap: the table, the return value and the freed values are those of the insertion on the value; a safe insert puts its node at the front of its chain and moves no other node |
| `Hashes.HashTable.DoInsert` | util/mcl_hash.c:422-447 | the same after hashing: lazy list creation, search, optional replacement, insertion |
| `Hashes.HashTable.Delete` | util/mcl_hash.c:495-547 | removal by key on the heap is removal on the value |
| `Hashes.HashTable.Find` | util/mcl_hash.c:549-602 | the value stored for the key, or NULL |
| `Hashes.HashTable.Scan` | util/mcl_hash.c:101-107 | the scan ends at the first non-empty bucket; off the end it may hold the last bucket's list, but only an empty one |
| `Hashes.HashTable.HeadOf` | util/mcl_hash.c:43-52 | entering the scanned list gives its first pair, and a null iterator if it is the empty last list |
| `Hashes.HashTable.IterHead` | util/mcl_hash.c:19-55 | the iterator stands on the first pair of the first non-empty bucket |
| `Hashes.HashTable.IterNext` | util/mcl_hash.c:63-122 | the iterator stands on the next pair, in the same chain or in a later bucket, or is null |
| `Hashes.HashTable.IterErase` | util/mcl_hash.c:139-172 | the step comes first, possibly into another bucket; then the old pair leaves the old chain: the table loses exactly that pair and the iterator stands on the pair that followed |
| `Hashes.HashTable.CleanBucket` | util/mcl_hash.c:409-418 | one bucket emptied, its values freed once each |
| `Hashes.HashTable.Clean` | util/mcl_hash.c:395-420 | the table is empty and every value was freed once, in the order of a walk |
| `Hashes.WalkAdvances` | util/mcl_hash.c:63-172 | a turn of the walk keeps the relation between the original pairs, what was visited, what is behind and what is ahead |
| `Hashes.EraseWalk` | util/mcl_hash.c:19-172 | a client loop over the heap table visits every original pair once, ends with a null iterator, and leaves exactly the pairs it did not erase |
| `HashRuns.PutKeepsOk` | util/mcl_hash.c:422-447 | insertion keeps every chain bounded, in its own bucket and free of repeated keys |
| `HashRuns.RemoveRepresents` | util/mcl_hash.c:495-516 | removal is removal from the finite map, and drops exactly the old value |
| `HashRuns.PutNewRepresents` | util/mcl_hash.c:422-447 | insertion of an absent key extends the map, refused exactly when its bucket is full |
| `HashRuns.PutOldRepresents` | util/mcl_hash.c:436-446 | a replacing insertion of a present key always succeeds, even in a full bucket, and drops the old value; a safe one is refused and changes nothing |
| `HashRuns.PutRefines` | util/mcl_hash.c:449-473 | the exact condition of success of both insertions, what is dropped, and the map afterwards, for NULL values and refused hashes too |
| `HashRuns.ReplaceIsRemovePut` | util/mcl_hash.c:440-446 | replacing is removing and then inserting |
| `HashRuns.EraseIsRemove` | util/mcl_hash.c:139-172 | erasing through the iterator is removal by key |
| `HashRuns.EraseNthExact` | util/mcl_hash.c:139-172 | erasing after n steps from the head takes exactly the n-th pair out of the walk order; past the end nothing changes |
| `HashRuns.ChainCount` | util/mcl_hash.c:422-447 | a chain is as long as the map has keys of that bucket |
| `HashRuns.PairCount` | util/mcl_hash.c:19-122 | a walk meets as many pairs as the map has keys |
| `HashRuns.StepRefines` | util/mcl_hash.c:395-570 | every operation on a table that stands for a map answers as the map does and leaves a table that stands for the new map |
| `HashRuns.RunRefinesMap` | util/mcl_hash.c:395-570 | the same over every run of insert, safe insert, find, delete, iterator erase and clean |
| `HashRuns.PutConserves` | util/mcl_hash.c:320-337 | an insertion stores one more value or none, and drops what it replaces |
| `HashRuns.StepConserves` | util/mcl_hash.c:320-473 | stored values plus dropped values are the values before plus the accepted one |
| `HashRuns.RunConserves` | util/mcl_hash.c:320-570 | the same over every run: nothing lost, nothing dropped twice |
| `HashRuns.StoredOrDropped` | util/mcl_hash.c:320-570 | a value accepted once is at any moment either stored once or dropped once |
| `HashClient.Perform` | util/mcl_hash.c:395-570 | one client operation on the heap table is one step on the value of the table |
| `HashClient.PerformAll` | util/mcl_hash.c:395-570 | a whole run on the heap ends with the table and the replies of the run on the value, for which RunRefinesMap and RunConserves are stated |
| `Elf.MixBits` | util/mcl_hash.c:199-202 | bit by bit, for every number: bits 4 to 7 come out exclusive-ored with bits 28 to 31, bits 28 to 31 come out clear, every other bit stays |
| `Elf.AbiTurnIs` | util/mcl_hash.c:198-202 | the turn of the ABI, written with and, exclusive-or and and-not on 32-bit words, is the shift followed by that mix |
| `Elf.MixFacts` | util/mcl_hash.c:198-202 | after the folding, bits 28 to 31 are clear whatever carries went above bit 31, and folding commutes with cutting the word to 32 bits |
| `Elf.TurnTruncates` | util/mcl_hash.c:198-202 | one turn on a long, cut to 32 bits, is one turn on a 32-bit word |
| `Elf.ElfLoop` | util/mcl_hash.c:189-203 | the loop of cal_hash_str, with bits 28 to 31 clear after every turn |
| `Elf.LoopTruncates` | util/mcl_hash.c:194-205 | for every string the 64-bit loop cut to int is the 32-bit loop |
| `Elf.SocketsHash` | util/mcl_hash.c:189-205 | a known answer: "sockets" hashes to 0x0a5a1cc3 |
| `Elf.ElfBound` | util/mcl_hash.c:189-205 | for every string of any length and any bytes the int is in [0, 2^28) |
| `Elf.AsciiIsAbi` | util/mcl_hash.c:189-205 | for bytes below 128 the result is the hash of the section "Hash Table" in chapter 5 of the System V ABI |
| `Elf.FirstHighByte` | util/mcl_hash.c:198-198 | a string of bytes below 128 and one more byte has the ABI's hash if and only if that byte is below 128 too |
| `HashFn.ProductFits` | util/mcl_hash.c:184-187 | no int key overflows the 64-bit product |
| `HashFn.HashIntIs` | util/mcl_hash.c:184-230 | the trip through unsigned int and back changes nothing |
| `HashFn.HashIntExact` | util/mcl_hash.c:184-230 | the hash of every int key: 142 times the key modulo 1021, with the sign of the key |
| `HashFn.MultiplierInvertible` | util/mcl_hash.c:184-187 | the multiplier keeps congruence modulo 1021 in both directions |
| `HashFn.SameBucket` | util/mcl_hash.c:184-187 | two non-negative keys share a bucket if and only if they are congruent modulo 1021 |
| `HashFn.Accepted` | util/mcl_hash.c:230-233 | a key is accepted if and only if it is non-negative or a multiple of 1021 |
| `HashFn.HashStrAvailable` | util/mcl_hash.c:189-233 | every string hashes to a bucket: 142 times the low word of its ELF hash, modulo 1021 |
| `HashFn.SocketsBucket` | util/mcl_hash.c:184-206 | and lands in bucket 619 |
| `HashFn.ChainBound` | util/mcl_hash.c:184-187 | with keys from [0, n) no chain is longer than n / 1021 rounded up |
| `Arrays.NewArray` | util/mcl_array.c:158-185 | NULL exactly for a negative size; otherwise an empty array of capacity 64, or twice a larger initial size |
| `Arrays.Array.Extend` | util/mcl_array.c:235-244 | growing keeps the contents and copies the old block once |
| `Arrays.Array.TryExtend` | util/mcl_array.c:246-253 | capacity doubles exactly when the array is full |
| `Arrays.Array.Append` | util/mcl_array.c:255-265 | the element comes last, order kept |
| `Arrays.Array.ShiftUp` | util/mcl_array.c:274-276 | the overlapping upward move |
| `Arrays.Array.Preappend` | util/mcl_array.c:267-283 | the element comes first, order kept |
| `Arrays.Array.Insert` | util/mcl_array.c:285-306 | the element comes right after a valid position; position 0 of an empty array is let through |
| `Arrays.Array.Preinsert` | util/mcl_array.c:308-329 | the element comes right before a valid position |
| `Arrays.Array.DeleteIndx` | util/mcl_array.c:331-351 | one position leaves, order kept, the vacated slot is NULL, the element freed on demand |
| `Arrays.Array.Delete` | util/mcl_array.c:353-370 | the last element takes the place of the deleted one |
| `Arrays.Array.DeleteObj` | util/mcl_array.c:372-386 | the first occurrence of a pointer goes by swap removal; -1 exactly when there is none |
| `Arrays.Array.FreeRange` | util/mcl_array.c:405-410 | with a free function each non-NULL element of the range is freed once and every cell of the range is NULL afterwards; without one nothing changes |
| `Arrays.Array.MoveDown` | util/mcl_array.c:412-415 | the overlapping downward move: every cell of the block up to the size, what was moved, what was cleared and what stays |
| `Arrays.Array.DeleteRange` | util/mcl_array.c:388-421 | contents, return value and freed elements for every pair of bounds, in range or not; with a free function no stale pointer is left behind the new size |
| `Arrays.Array.Clean` | util/mcl_array.c:200-214 | empty, every non-NULL element freed once |
| `Arrays.Array.Tighten` | util/mcl_array.c:216-233 | contents kept, capacity cut to twice the size when it was more |
| `Arrays.Array.IterNext` | util/mcl_array.c:72-86 | one position on, unset after the last; an unset iterator starts over at the head, and one left behind the erased last element becomes unset |
| `Arrays.Array.IterPrev` | util/mcl_array.c:88-102 | one position back; before the head and from an unset iterator it is unset |
| `Arrays.Array.IterErase` | util/mcl_array.c:118-146 | the element under the iterator leaves, the iterator shows the one that moved in, or NULL after the last |
| `Arrays.WalkAdvances` | util/mcl_array.c:118-146 | a turn of an erasing walk keeps the relation between the original, what was kept and what is ahead |
| `Arrays.MidwayHead` | util/mcl_array.c:72-146 | the walk goes on exactly while the original element it has reached is not NULL |
| `Arrays.NonNullCounts` | util/mcl_array.c:206-211 | in what a free function gets, each element is there as often as its pointer is stored, and NULL is not |
| `Arrays.WalkFreesExactly` | util/mcl_array.c:118-146 | a walk with a free function frees each element exactly as often as it erased its pointer; without one it frees nothing |
| `Arrays.EraseWalk` | util/mcl_array.c:41-146 | a walk meets every element before the first NULL once and in order, and leaves the order-preserving rest of those it did not erase; frees exactly the erased |
| `ArrayRuns.StepShape` | util/mcl_array.c:216-421 | size never exceeds capacity, and only tightening an empty array makes the capacity 0 |
| `ArrayRuns.StepPays` | util/mcl_array.c:216-421 | two credits per insertion pay for every growth; deletions, cleaning and tightening raise no credit |
| `ArrayRuns.AmortisedGrowth` | util/mcl_array.c:216-421 | over every run the cells copied by growth are at most the initial credit plus twice the insertions |
| `ArrayRuns.FreshGrowth` | util/mcl_array.c:158-421 | from a new array: at most twice the insertions |
| `ArrayRuns.GrowthDoubles` | util/mcl_array.c:246-253 | an operation that raises the capacity found the array full, doubles the capacity and copies every cell once; no operation raises it above twice the new size |
| `ArrayRuns.CapacityBound` | util/mcl_array.c:216-421 | over every run the capacity stays within twice the elements there were at the start or were inserted, or what it was at the start |
| `ArrayRuns.RoomToGrow` | util/mcl_array.c:246-253 | growth makes room if and only if the capacity is not 0 |
| `ArrayRuns.InsertAfterExact` | util/mcl_array.c:285-306 | the element lands right behind the position, with the rest kept and its index returned, if and only if the position exists; position 0 of an empty array loses it; any other changes nothing and returns -1 |
| `ArrayRuns.InsertBeforeExact` | util/mcl_array.c:308-329 | the element lands at the position with the rest kept, exactly for existing positions and position 0 of an empty array; otherwise nothing changes |
| `ArrayRuns.RangeDeletes` | util/mcl_array.c:388-421 | for any two bounds: inside the array and in order, [b, e) goes, or the one element at b when b == e, the order is kept, and the number of elements gone is returned; otherwise nothing changes and -1 is returned |
| `ArrayRuns.RangeExact` | util/mcl_array.c:388-421 | for bounds b <= e <= size of a non-empty array: [b, e) is what leaves if and only if b < e < size, or b == e == size |
| `ArrayRuns.SwapRemoveKeeps` | util/mcl_array.c:353-370 | swap removal loses exactly the one element and moves only the last |
| `ArrayRuns.StoredIs` | util/mcl_array.c:200-421 | what the balances below count: the slots that hold an element |
| `ArrayRuns.StepBalances` | util/mcl_array.c:200-421 | the non-NULL elements stored after an operation and those it took out are those stored before and the one it put in |
| `ArrayRuns.RunBalances` | util/mcl_array.c:200-421 | the same over every run: nothing is lost, but for the element of an insertion after position 0 of an empty array, and nothing is taken out twice |
| `ArrayRuns.RunFrees` | util/mcl_array.c:200-421 | a run frees only what it takes out, and all of it if every operation that takes elements out has a free function |
| `ArrayRuns.StoredOrFreed` | util/mcl_array.c:200-421 | from an empty array on, with a free function throughout: the slots that hold an element and the times it was freed are, together, the times it was put in |
| `ArrayRuns.Perform` | util/mcl_array.c:200-421 | one operation on the heap array is one step on its value: contents, capacity, return value, cells copied, elements freed |
| `ArrayRuns.PerformAll` | util/mcl_array.c:200-421 | a whole run on the heap, with the elements it frees, the amortised bound and the balance of elements |
| `Text.Str.Trim` | util/mcl_string.c:52-72 | in place, for every string with a character that is neither space nor tab: the buffer holds the slice from the first to the last character that is neither space nor tab, terminated, with the length that strlen finds |
| `Text.Str.CopyDown` | util/mcl_string.c:65-69 | the overlapping forward copy |
| `Text.TrimmedIs` | util/mcl_string.c:61-67 | spaces and tabs, a part that begins and ends with other characters, spaces and tabs: that part is the trim |
| `Text.TrimmedTwice` | util/mcl_string.c:52-72 | trimming again changes nothing, and both ends are solid |
| `Text.WholeTrim` | util/mcl_string.c:71-71 | the length kept ends before the first NUL; the whole slice is kept if and only if there is no NUL in it |
| `Registry.KindExact` | net/mcl_select.c:129-146 | odd types go to the read set, types that are 2 modulo 4 to the write set, the rest and no event to the exception set |
| `Registry.ExpBitsSet` | net/mcl_select.c:228-240 | an event that has a set has one of the two exception bits, so the branches for the exception set are never taken |
| `Registry.AddOk` | net/mcl_select.c:207-235 | adding keeps the registry in order: every pair under its own descriptor and kind, at most n_maxfdn, bits only for registered descriptors |
| `Registry.AddExact` | net/mcl_select.c:148-235 | for every set and descriptor, what is registered, what bit is set and what n_maxfdn is after select_add: an event is taken exactly if its descriptor is not negative and not used in the set that its type names, read by the number of the type; then and only there the lookup and the bit change; success is reported unless the descriptor is 0 |
| `Registry.DelOk` | net/mcl_select.c:176-193 | deleting keeps the registry in order |
| `Registry.DelExact` | net/mcl_select.c:176-243 | for every set and descriptor, what is registered and what bit is set after select_del: it succeeds exactly if the descriptor's bit is set in the set that the type names, and then the registered event and the bit go, and nothing else |
| `Dispatch.FirePrepends` | net/mcl_select.c:278-289 | whatever a callback adds goes to the front of chains |
| `Dispatch.TurnAdvances` | net/mcl_select.c:272-302 | every turn uses up a node of the current chain or moves to a later bucket, however much the callback adds: the loop ends |
| `Dispatch.LoopReturns` | net/mcl_select.c:342-379 | the loop returns 1 only when it was told to end, 0 only when select failed, and waits on only when neither happened; told to end beforehand, it does nothing |
| `Commands.AddsExact` | net/mcl_select.c:207-235 | a list of additions gives every free descriptor of every set to the first event that is for it, and leaves the others as they were |
| `Commands.FireExact` | net/mcl_select.c:278-289 | a callback is logged first, then makes the script's additions of its number, and ends the loop if the script says so |
| `Commands.TurnExact` | net/mcl_select.c:272-302 | what a turn leaves for every set and descriptor: nothing changes if the bit of the pair is clear; otherwise the additions of the script's next callback are made, if there is a callback, and then the pair and its bit go if the persist bit is clear |
| `Commands.IdleRound` | net/mcl_select.c:369-378 | a round in which select reports nothing makes no callback and changes no registration; a timeout clears every bit, an error leaves those of the registered descriptors |
| `Commands.LoopIsRounds` | net/mcl_select.c:342-379 | the loop is a sequence of rounds, each begun exactly if the loop was not told to end, the last select did not fail and an outcome is there; the return value tells which of these ended it |
| `Commands.RunMeans` | net/mcl_select.c:195-253 | every run begins with an empty registry, and each of its commands does what it must to it, for every set and descriptor: an addition takes a free descriptor, a deletion frees one whose bit is set, a dispatch is a sequence of rounds |
| `History.TurnInv` | net/mcl_select.c:272-302 | a turn keeps the registry in order and the history balanced |
| `History.WatchesRegistered` | net/mcl_select.c:305-360 | before each select call the fd_set of each table, and the part of it below nfds, are exactly the registered descriptors |
| `History.AfterSelectOk` | net/mcl_select.c:349-360 | whatever select leaves, each fd_set is a subset of its table's keys |
| `History.RoundInv` | net/mcl_select.c:342-379 | a whole round keeps the invariant |
| `History.LoopInv` | net/mcl_select.c:322-380 | the dispatch loop keeps the invariant over any outcomes of select |
| `History.DelInv` | net/mcl_select.c:176-243 | a deletion keeps the invariant |
| `History.RunInv` | net/mcl_select.c:76-380 | every run of adds, deletes and dispatches, with callbacks that add events, keeps the invariant: each accepted event is held by exactly one of the tables or was freed, as often as it was accepted; the exception set stays empty; every event goes through lives of being taken over, used and freed |
| `History.Alternates` | net/mcl_select.c:99-113 | after any part of the log an event was taken over as often as it was freed, or once more |
| `History.UsedWhileOwned` | net/mcl_select.c:99-127 | before every callback, cleanup callback and free of an event it was taken over, and it was not freed in between |
| `History.RunFreesAll` | net/mcl_select.c:76-380 | after any run and the final cleanup, every accepted event was freed exactly as often as accepted, with its cleanup callback each time; at every moment only events that the backend owned were called back, cleaned up or freed, and none it owned was taken over again |
| `Passes.PassVisits` | net/mcl_select.c:263-303 | a pass visits every pair that was ahead when it started, in order, whatever callbacks add and whatever it erases |
| `Passes.PassVisitsOnce` | net/mcl_select.c:263-303 | no descriptor is visited twice in a pass |
| `Passes.QuietPass` | net/mcl_select.c:263-303 | the exact effect of a pass whose callbacks leave the backend alone |
| `Passes.RoundExact` | net/mcl_select.c:342-379 | one round with ready sets: the log gains exactly the callbacks and destructions of the ready events in order, and each table is the old one minus exactly the ready one-shot events |
| `Passes.EntriesMeaning` | net/mcl_select.c:272-302 | in those entries each ready event with a callback is called exactly once with the right type, no other event is called, and exactly the ready one-shot events are freed |
| `Callbacks.PassCallsOnly` | net/mcl_select.c:263-303 | with callbacks that add events: every call a pass makes is of the type of its set, for an event of that kind whose bit was set when it began, or that was accepted since |
| `Callbacks.PassTracked` | net/mcl_select.c:263-303 | a pass, seen from any of the sets: each pair in it was there or joined since, and its bit is set exactly if it was set before or the pair joined |
| `Callbacks.PassCallsReady` | net/mcl_select.c:263-303 | every event that was ready when the pass began and has a callback is called |
| `Callbacks.PassLog` | net/mcl_select.c:278-297 | a pass calls an event, with the type of its set, as often as it meets it with its bit set, if it has a callback, and frees it as often, if it is one-shot |
| `Callbacks.ServesOnce` | net/mcl_select.c:263-303 | a pass meets no event twice with its bit set |
| `TooEarly.PassCallsOnce` | net/mcl_select.c:263-303 | no event is called twice in one pass |
| `TooEarly.FreshWriteIsCalled` | net/mcl_select.c:365-367 | every write event with a callback that is accepted during the read pass is called in the write pass of the same round, though select said nothing about it |
| `TooEarly.FreshReadIsCalled` | net/mcl_select.c:272-302 | an event with a callback that is added to the set under way is called in the same pass if and only if its bucket comes after the current one |
| `TooEarly.FreshIsServed` | net/mcl_select.c:272-302 | with or without a callback: an event added to the set under way is met in the same pass if and only if its bucket comes after the current one |
| `Calls.ServesExactly` | net/mcl_select.c:263-303 | for every behaviour of the callbacks: a pass serves, once, exactly the events ahead of it whose bit is set and those that a callback on its way adds to a later bucket |
| `Calls.PassCallsExactly` | net/mcl_select.c:263-303 | for every behaviour of the callbacks: a pass calls exactly the events ahead of it whose bit is set and those that a callback on its way adds to a later bucket |
| `Calls.RoundCallsExactly` | net/mcl_select.c:342-368 | for every event, every positive outcome of select and every behaviour of the callbacks, a round calls the event exactly once, with the type of its set, if it is registered and reported ready or joins in time, and otherwise never; in time is, for a read event, from a read callback in an earlier bucket, and for a write event, from any read callback or a write callback in an earlier bucket |
| `Calls.RoundFreesExactly` | net/mcl_select.c:291-297 | and it frees the event exactly once if it is one-shot and is registered and reported ready or joins in time, with or without a callback; otherwise never |
| `Calls.RoundRegistersExactly` | net/mcl_select.c:342-368 | for every behaviour of the callbacks: whether an event was registered, plus how often the round accepted it, is whether it is registered afterwards, plus whether the round freed it |
| `Findings.RoundCalls` | net/mcl_select.c:342-368 | for every event: a round whose callbacks leave the backend alone calls it exactly once, with the type of its set, if it is registered, reported ready and has a callback, and frees it exactly once if moreover it is one-shot; otherwise never |
| `Findings.RoundKeeps` | net/mcl_select.c:291-298 | after such a round an event is registered if and only if it was and was not both reported ready and one-shot |
| `Findings.CalledTooEarly` | net/mcl_select.c:272-302 | a write event registered by the first ready read callback is called in the write pass of the same round |
| `Findings.CalledTooEarlyRun` | net/mcl_select.c:342-368 | the same as a whole run from the start, whatever else select reports |
| `Findings.FdHashGood` | net/mcl_select.c:50-50 | with the real hash every descriptor is accepted, and no chain of descriptors has more than two pairs, so none is ever full |
| `Findings.BackendFreesAll` | net/mcl_select.c:76-380 | RunFreesAll with the real hash |
| `Rounds.BitAfterRound` | net/mcl_select.c:349-368 | the bit of a registered descriptor after a round, whatever callbacks add: set if and only if its event was registered and reported ready, or joined in the round |
| `Rounds.DelAfterRound` | net/mcl_select.c:176-193 | when select_del works after a round, for every outcome of select and every behaviour of the callbacks: after a positive select if and only if the descriptor is registered and its event was reported ready in that round or accepted in it; after a failed select if and only if it is registered; after a timeout never |
| `Rounds.LastRound` | net/mcl_select.c:342-379 | when select_dispatch has returned after a round, its last round had a failed select if it returns 0 and a positive one if it returns 1 |
| `Rounds.DelAfterLoop` | net/mcl_select.c:176-193 | the same condition for select_del once select_dispatch has returned |
| `AnyTime.BitAnyTime` | net/mcl_select.c:148-193 | in every state of every run the bit of a registered descriptor is set if and only if there was no call of select yet, or the last one failed, or it reported the event that is registered, or that event was accepted since |
| `AnyTime.DelAnyTime` | net/mcl_select.c:176-193 | select_del works, at any moment of any run, if and only if its descriptor is registered in the set that the type names and its bit is set for one of these reasons |
| `Rounds.RoundStops` | net/mcl_select.c:342-347 | if the next callback tells the loop to end, a round makes no callback or ends the loop |
| `Rounds.IdleEventStuck` | net/mcl_select.c:184-187 | a registered event that select did not report survives the round, whatever callbacks add, and select_del does not remove it |
| `Findings.DelFailsRun` | net/mcl_select.c:176-193 | a whole run: of two registered read events only the second is reported, its callback ends the loop; select_dispatch returns 1, the first event is still registered and select_del fails on it |
| `Findings.DelFailsExample` | net/mcl_select.c:176-193 | that run with the real hash, persistent events and descriptors 5 and 6 |
| `Findings.NeighbourCalls` | net/mcl_select.c:272-302 | with the real hash, a read event that the callback of descriptor 3 adds is called in the same pass on descriptor 4, and is not on descriptor 8 |
| `Select.CollectKeys` | net/mcl_select.c:305-320 | the walk of init_fds collects exactly the keys of the table |
| `Select.EvSetBox.AddEvent` | net/mcl_select.c:148-174 | add_event on the heap: table, fd_set and return value as on the value; nodes already there do not move |
| `Select.EvSetBox.DelEvent` | net/mcl_select.c:176-193 | del_event on the heap |
| `Select.NodeStays` | net/mcl_select.c:263-303 | an iterator keeps its node while nodes are added in front of the chains |
| `Select.Backend.constructor` | net/mcl_select.c:76-97 | the empty backend |
| `Select.Backend.Add` | net/mcl_select.c:207-248 | select_add on the heap is the addition on the value, and no node in any chain moves |
| `Select.Backend.Del` | net/mcl_select.c:207-253 | select_del on the heap is the deletion on the value |
| `Select.Backend.TurnOnce` | net/mcl_select.c:272-302 | one turn on the heap, the iterator live throughout, is the turn on the value |
| `Select.Backend.HandleEvents` | net/mcl_select.c:263-303 | handle_events on the heap is the pass on the value |
| `Select.Backend.RoundOnce` | net/mcl_select.c:349-379 | a round on the heap is the round on the value |
| `Select.Backend.Dispatch` | net/mcl_select.c:322-380 | select_dispatch on the heap: final state and return value of the loop on the value |
| `Select.Backend.Cleanup` | net/mcl_select.c:115-127 | every event of every set is destroyed once |
| `Select.Backend.PerformAll` | net/mcl_select.c:76-380 | a whole run on the heap is the run on the value |
| `Session.Live` | net/mcl_select.c:76-380 | from creation through any run to cleanup, on the heap with the real hash: every accepted event freed exactly as often as accepted, cleanup callbacks with it, and nothing called back, cleaned up or freed that the backend did not own |

## Left out

- Container-of arithmetic and the layout of `mcl_iter`: the node pointer and its enclosing entry are one reference, and
  the union member that each list step overwrites is the field `pair`.
- Reverse hash iteration: the code says it is not supported (util/mcl_hash.c:57-61, util/mcl_hash.c:124-128).
- Callbacks that delete events during a pass: the iterator is not made for it, and a deleted current node would be used
  after it was freed.
- Text.Str.Trim: says nothing about strings without a solid character, because the code then reads outside its buffer.
- Arrays.Array.Extend: does not model the 32-bit width of sizes, so doubling never overflows.
- Select.Backend.Dispatch: runs over a finite sequence of outcomes of `select`; waiting forever is the value None.
- Select.Backend.Cleanup: keeps the backend object, where the code frees it.
- Hashes.HashTable.Insert: the copy of a string key is not a separate object, and `_cur_elem_num`, which the code never
  updates, is omitted.
- The free function given to a hash call and the registered erase function are flags: which function it is does not
  matter to what is freed.
- User arguments of events, the timeout value, printing and warnings.
- `mcl_event.c` (forwarding through function pointers), `mcl_kqueue.c` (decided by the kernel's `kevent`),
  `mcl_net_raw.c` (socket calls), `mcl_log.c` (formatting and files).
- `mcl_array_qsort` is declared in util/mcl_array.h:65 without a definition.
- `mcl_array_at`, sizes, capacities and the other accessors: easy members.
- String reference counting, string copies, the copies under `include/`, tests and Makefiles.
