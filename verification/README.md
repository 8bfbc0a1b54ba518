# Havel: verified model of its data structures and state machines

This project models the parts of Havel whose correctness is hardest to see from the code, and proves
what they keep over every input, every run or every interleaving:

- **The Robin Hood hash map** (`Ring`, `RobinHoodTable`, `RobinHoodHashMap`): displacement insertion,
  early-exit lookup, backward-shift deletion, rehash and reserve, as a class over a slot array that
  is proved to be a plain `map` in every reachable state, for any hash function and any load factor
  between 0.1 and 0.95.
- **The lock-free queue** (`MpscQueue`, `QueueHistory`, `QueueCalls`): a state machine over the atomic steps
  of `push`, `pop` and `pop_all` with any number of producers and one consumer. Every interleaving keeps
  one inductive invariant, from which memory safety, order and the contents of `pop_all`'s chain
  follow. Order is stated against the values given to `push`, read off the steps alone.
- **The reference-counted values** (`ValueCells`, `ValueGraph`, `ValueReachability`, `ValueClient`): the
  recursive release over arrays and objects. The accounting, and exactly which values a release
  leaves live, are proved for every graph, cyclic ones included; that a value is live exactly when
  it is reachable is proved for runs that close no cycle.
- **The configuration store** (`Fnv`, `ConfigTable`, `ConfigMap`, `Text`, `ConfigText`, `ConfigEntries`,
  `ConfigRuns`, `ConfigReading`, `ConfigRoundTrip`, `ConfigStore`): the linear-probing map with growth
  and tombstone-free removal, the sectioned text printer and parser, reload and its watchers.
- **Conditional hotkeys** (`Conditions`, on top of `HotkeyGrabs`): re-evaluation only when a recorded
  dependency is written, against evaluation from scratch.
- **Hotkey grabs and combos** (`HotkeyGrabs`, `Combos`): suspension of grabs, and the exclusive
  matching of key combinations with remapped keys.
- **Template match suppression** (`Suppression`) and **the package manifest** (`Manifest`).

Each class method is proved against a function of its old state; the theorems about whole runs are
about those functions, or are methods that replay a list of calls.

`Wrappers` holds what the modules share.

## What the proofs found

- `cfgMapRemove` leaves no tombstone. In any table it removes exactly its key if and only if no other
  key is found past the freed slot (`ConfigTable.RemoveIff`); such a key is lost
  (`ConfigTable.CrossedIsLost`). Under the source's own hash, `!` and `a` collide in a table of the
  initial size, and removing the first loses the second (`ConfigMap.RemovalLosesAnother`). No run
  ever overruns an array allocated from `len` (`ConfigMap.CfgMap.AllKeys`).
- Growth makes a table whole again, whatever removals have done to it; but where a key is stored
  twice the last slot wins. After that run, setting `a` again and growing the table brings the older
  value back (`ConfigMap.GrowthBringsBack`). `ConfigTable.GrownAnswersIff` says exactly when growth
  changes no answer.
- `HavelConfig_save` stores a whole key where it later expects a section (`src/c/Config.c:468`), so a
  section's header is repeated before every one of its keys (`ConfigText.HeaderOmittedIff`). The
  text still reads back.
- A root key printed after a section is read back inside that section: `a.x` and `b` come back as
  `a.x` and `a.b` (`ConfigStore.RootMovesIntoSection`). For every store, saving and loading gives back
  what each key answers if and only if every entry is printable and every key without a dot is below
  every key with one in `strcmp` order (`ConfigStore.HavelConfig.SaveAndLoad`).
- `pop_all` unhooks the old dummy and never deletes it: the destructor frees every node if and only if
  `pop_all` never returned a chain (`MpscQueue.Destroy`).
- An array pushed into itself is never freed (`ValueReachability.SelfPushLeaks`). In general, a client
  that drops all its references frees everything if and only if the graph it had was acyclic
  (`ValueClient.Client.DropAll`), and storing keeps the graph acyclic if and only if the container is
  not reachable from the value stored (`ValueReachability.StoreKeepsAcyclicIff`).
- `havel_object_set` releases a field's old value before it counts the new one. A value the client has
  only borrowed is stored safely if and only if it is kept without that field
  (`ValueGraph.ValueHeap.ObjectSet`); setting a field to the value it already holds, when nothing else
  holds that value, stores a freed value (`ValueReachability.FieldHoldsAlone`).
- The comment at `src/core/init/Havel.cpp:366-370` says that replacing the dependency set instead of
  merging into it goes stale, and `src/havel-lang/runtime/execution/ExecutionEngine.cpp:749-757`
  replaces it. `Conditions.NotifiedIsFresh` proves both policies correct for conditions evaluated
  as a whole: what the last evaluation read is enough. Here the model follows the code.
- A write made while a conditional hotkey's goroutine runs is skipped. The goroutine is woken and parked
  again without recording what its condition evaluates to: its result goes stale until a dependency
  is written again
  (`Conditions.RunningWriteIsMissed`). Whatever the conditions, none with given dependencies is stale
  if and only if no dependency has changed since the last evaluation (`Conditions.NoneStaleIff`).
- Two conditionals on one hotkey do not combine: the one evaluated to a new result last decides
  (`Conditions.Engine.TwoOnOneHotkey`).
- A manifest is given back by its parser if and only if no field contains a newline and every
  dependency is clean: free of `=`, without blanks at its ends, not starting with `#`
  (`Manifest.RoundTripIff`). The empty dependency name is read back too.

## Modelling choices

- `& mask()` on a power-of-two capacity is `% capacity`, with the power of two proved; `max_load` is an
  exact real. Hash functions are arbitrary functions to `nat`; the configuration map's own hash is
  used for one witness.
- Integers are unbounded. Hash map distances, reference counts and queue counters have machine widths
  in the source that no run can reach without exhausting memory first.
- The queue is modelled under sequential consistency. Fields of its state below the line `history`
  only record what happened.
- Freed values keep their place in the heap, so an identifier is never reused.
- `strtod` is an arbitrary predicate on strings: the values it accepts whole are printed unquoted.
- `qsort` is an insertion sort; the text theorems use only that its result is sorted and has the
  same keys.
- The hotkey backend is the set of grabbed identifiers, and grabs succeed.
- Method bodies are split where a loop body or a branch has a contract of its own.

## Model

| member | source | states |
|---|---|---|
| RobinHoodTable.Climb | src/utils/RobinHoodHashMap.hpp:414-427 | a key stored at distance d leaves, at each step j of its probe path, an entry whose dib is at least j: the reason the early exit is sound |
| RobinHoodTable.EarlyExit | src/utils/RobinHoodHashMap.hpp:414-427 | a probe that meets an empty slot or a smaller dib after d steps proves the key is nowhere in the table |
| RobinHoodTable.DibBound | src/utils/RobinHoodHashMap.hpp:414-427 | every stored dib is below the capacity minus one slot, so every probe loop ends |
| RobinHoodTable.SmallMapLeavesRoom | src/utils/RobinHoodHashMap.hpp:104-108 | a table whose map is smaller than its capacity has an empty slot |
| RobinHoodTable.InsertDisplaces | src/utils/RobinHoodHashMap.hpp:302-333 | exchanging the carried pair for a richer entry keeps the loop invariant: a valid table plus one carried pair stand for the final map |
| RobinHoodTable.InsertEnds | src/utils/RobinHoodHashMap.hpp:302-333 | writing the carried pair into an empty slot gives a valid table for exactly the old map with the new pair |
| RobinHoodTable.ClearingMakesHole | src/utils/RobinHoodHashMap.hpp:467-501 | emptying a slot breaks the dib rule only right after that slot |
| RobinHoodTable.ShiftMovesHole | src/utils/RobinHoodHashMap.hpp:467-501 | one backward shift keeps every entry at its true distance and moves the only break one slot on |
| RobinHoodTable.ShiftKeepsContents | src/utils/RobinHoodHashMap.hpp:467-501 | one backward shift loses, duplicates and changes no pair |
| RobinHoodTable.HoleCloses | src/utils/RobinHoodHashMap.hpp:467-501 | once the next entry is at home or empty, the table is valid again |
| RobinHoodTable.RepresentsOnce | src/utils/RobinHoodHashMap.hpp:85-102 | a table stands for one map only, so rehashing every slot gives the same map |
| RobinHoodTable.OccupiedIsSize | src/utils/RobinHoodHashMap.hpp:85-133 | the occupied slots number exactly the pairs of the map |
| RobinHoodHashMap.LimitIs | src/utils/RobinHoodHashMap.hpp:104-108 | a size is within the limit exactly when it is at most the load factor times the capacity |
| RobinHoodHashMap.DoublingSuffices | src/utils/RobinHoodHashMap.hpp:104-108 | one doubling always makes room for one more pair under the load limit |
| RobinHoodHashMap.ReservedSuffices | src/utils/RobinHoodHashMap.hpp:293-300 | the capacity reserve asks for holds n pairs under the load limit |
| RobinHoodHashMap.RobinHoodHashMap.constructor | src/utils/RobinHoodHashMap.hpp:212-221 | an empty map of at least the capacity asked for, the initial one or less than twice that asked for, with the load factor clamped |
| RobinHoodHashMap.RobinHoodHashMap.Find | src/utils/RobinHoodHashMap.hpp:414-427 | finds the slot of the key with its value, and finds none exactly when the map lacks the key |
| RobinHoodHashMap.RobinHoodHashMap.Contains | src/utils/RobinHoodHashMap.hpp:444-446 | true exactly for the keys of the map |
| RobinHoodHashMap.RobinHoodHashMap.Step | src/utils/RobinHoodHashMap.hpp:302-333 | one turn of the insertion loop keeps "valid table plus carried pair" and comes closer to an empty slot |
| RobinHoodHashMap.RobinHoodHashMap.PlaceOrFind | src/utils/RobinHoodHashMap.hpp:302-371 | finds a stored key with nothing changed, or adds the pair with every other pair kept |
| RobinHoodHashMap.RobinHoodHashMap.InsertOrDie | src/utils/RobinHoodHashMap.hpp:110-133 | adds a pair whose key is absent |
| RobinHoodHashMap.RobinHoodHashMap.Rehash | src/utils/RobinHoodHashMap.hpp:85-102 | same map and size in a table of the new capacity |
| RobinHoodHashMap.RobinHoodHashMap.MaybeGrow | src/utils/RobinHoodHashMap.hpp:104-108 | afterwards one more pair fits under the load limit; doubles only when needed |
| RobinHoodHashMap.RobinHoodHashMap.Insert | src/utils/RobinHoodHashMap.hpp:302-333 | adds the pair unless the key is stored; the slot returned is the key's |
| RobinHoodHashMap.RobinHoodHashMap.InsertOrAssign | src/utils/RobinHoodHashMap.hpp:340-371 | the map gains or overwrites exactly this pair |
| RobinHoodHashMap.RobinHoodHashMap.Index | src/utils/RobinHoodHashMap.hpp:460-465 | a missing key is first given the default; the slot is the key's |
| RobinHoodHashMap.RobinHoodHashMap.Erase | src/utils/RobinHoodHashMap.hpp:467-501 | removes exactly the key, and says whether it was there |
| RobinHoodHashMap.RobinHoodHashMap.Reserve | src/utils/RobinHoodHashMap.hpp:293-300 | same map, with room for n pairs; the table is left alone exactly when it is large enough, and otherwise less than twice what is needed |
| RobinHoodHashMap.RobinHoodHashMap.Clear | src/utils/RobinHoodHashMap.hpp:503-509 | the empty map |
| RobinHoodHashMap.RobinHoodHashMap.Replay | src/utils/RobinHoodHashMap.hpp:293-509 | any run of calls gives the answers, and ends with the contents, of the same run on a plain map |
| MpscQueue.PushExchangeInv | src/utils/LockFreeQueue.hpp:37-47 | the tail exchange keeps the invariant |
| MpscQueue.PushLinkInv | src/utils/LockFreeQueue.hpp:37-47 | the store of the link keeps the invariant |
| MpscQueue.PrevIsLive | src/utils/LockFreeQueue.hpp:37-47 | the node a producer is about to store into has not been deleted |
| MpscQueue.PopMoveInv | src/utils/LockFreeQueue.hpp:49-59 | moving the value out of the next node keeps the invariant |
| MpscQueue.PopDeleteInv | src/utils/LockFreeQueue.hpp:49-59 | deleting the old head keeps the invariant |
| MpscQueue.DrainExchangeInv | src/utils/LockFreeQueue.hpp:83-98 | pop_all's exchange keeps the invariant |
| MpscQueue.NextInv | src/utils/LockFreeQueue.hpp:37-98 | every atomic step of any thread keeps the invariant |
| MpscQueue.RunInv | src/utils/LockFreeQueue.hpp:37-98 | every interleaving keeps the invariant |
| MpscQueue.LogSafety | src/utils/LockFreeQueue.hpp:37-98 | in every interleaving no step touches a deleted node, deletes one twice or takes a value twice, and the values consumed are a prefix of those in the nodes exchanged, in tail-exchange order |
| QueueHistory.RunAgrees | src/utils/LockFreeQueue.hpp:37-98 | in every interleaving each producer is where its calls say it is, its node holds the value it was called with, and what the nodes hold is what was given to push |
| QueueHistory.FifoSafety | src/utils/LockFreeQueue.hpp:37-98 | in every interleaving nothing faults and the values handed out are a prefix of the values given to push, which the steps alone determine: in tail-exchange order, none lost, duplicated or changed |
| MpscQueue.ChainFrom | src/utils/LockFreeQueue.hpp:83-98 | following the links of a drained chain from any of its nodes meets exactly the rest of its values |
| MpscQueue.DrainTakesTheRest | src/utils/LockFreeQueue.hpp:83-98 | in every later state in which the pending links are stored, pop_all's chain holds exactly the values pushed before its exchange and not popped, in order |
| MpscQueue.LaterPushesElsewhere | src/utils/LockFreeQueue.hpp:83-98 | a push exchanged after pop_all stores its link into no node of the chain |
| MpscQueue.PopCall | src/utils/LockFreeQueue.hpp:49-59 | with nothing else running, pop gives the oldest value, or none exactly when none is left |
| MpscQueue.Destroy | src/utils/LockFreeQueue.hpp:27-32 | the destructor hands out every value left and frees every node exactly when pop_all never returned a chain |
| MpscQueue.UnsafeSize | src/utils/LockFreeQueue.hpp:66-76 | with nothing else running, the number of values pushed and not consumed |
| QueueCalls.PushCall | src/utils/LockFreeQueue.hpp:37-47 | with nothing else running, push adds its value at the end |
| QueueCalls.DrainCall | src/utils/LockFreeQueue.hpp:83-98 | with nothing else running, pop_all leaves the queue empty and returns a chain of everything left in order, or none exactly when nothing is left |
| QueueCalls.Replay | src/utils/LockFreeQueue.hpp:27-98 | any run of whole calls, pushed by any producers, answers and leaves what the same run on a sequence does |
| ValueCells.ReleaseOne | src/extensions/HavelValue.cpp:312-318 | lowering one count keeps the accounting; at zero the children become owed |
| ValueCells.FreeOne | src/extensions/HavelValue.cpp:282-305 | freeing a value whose children are released keeps the accounting |
| ValueCells.FreeCalls | src/extensions/HavelValue.cpp:282-305 | the destructor call made at that point keeps calls and freed handles one to one |
| ValueCells.HandleDestroyed | src/extensions/HavelValue.cpp:282-318 | a handle freed by a release has had its destructor called once with its own pointer if it has one, and with no other |
| ValueCells.ReferenceAdded | src/extensions/HavelValue.cpp:192-208 | storing a value in a container and counting it keeps the accounting |
| ValueCells.SlotReleased | src/extensions/HavelValue.cpp:214-244 | releasing the old value of a field keeps the accounting of the heap without that field |
| ValueCells.LiveIsKept | src/extensions/HavelValue.cpp:262-318 | with exact counts, live values are exactly those that the references held keep: each held, or inside another of them |
| ValueCells.ReleasedExactly | src/extensions/HavelValue.cpp:312-318 | a release frees exactly what the remaining references do not keep |
| ValueCells.KeptAcrossRelease | src/extensions/HavelValue.cpp:312-318 | what fewer references would keep is the same before and after a release |
| ValueCells.AnchorsSpare | src/extensions/HavelValue.cpp:312-318 | a cascade never gives up the last reference to a value that others outside it keep |
| ValueGraph.ValueHeap.Decref | src/extensions/HavelValue.cpp:312-318 | the cascade keeps every count equal to held plus contained references, frees only values whose count reaches zero, each once, and ends |
| ValueGraph.ValueHeap.ReleaseKids | src/extensions/HavelValue.cpp:262-280 | each child owed is released once |
| ValueGraph.ValueHeap.FreeValue | src/extensions/HavelValue.cpp:282-305 | the value is freed after its children and its destructor called with its pointer |
| ValueGraph.ValueHeap.New | src/extensions/HavelValue.cpp:21-128 | a fresh value with one reference, the client's |
| ValueGraph.ValueHeap.Incref | src/extensions/HavelValue.cpp:307-310 | one more reference held and counted |
| ValueGraph.ValueHeap.Release | src/extensions/HavelValue.cpp:312-318 | giving up one of the client's references leaves live exactly what the others keep |
| ValueGraph.ValueHeap.ArrayPush | src/extensions/HavelValue.cpp:192-208 | the array ends with the value and the value counts one more, nothing else changes, for any live array and value, held or borrowed; nothing happens for null or a non-array |
| ValueGraph.ValueHeap.ObjectSet | src/extensions/HavelValue.cpp:214-244 | the field's old value is released, freeing exactly what is not kept without the field, then the value is stored and counted; a live value is stored after being freed exactly when it is not kept without the field |
| ValueReachability.PathIsLive | src/extensions/HavelValue.cpp:262-318 | whatever the client can reach is live |
| ValueReachability.LiveIffReachable | src/extensions/HavelValue.cpp:262-318 | without cycles a value is live exactly when the client can reach it |
| ValueReachability.KeptIffReachable | src/extensions/HavelValue.cpp:262-318 | without cycles some references keep exactly what can be reached from them |
| ValueReachability.AcyclicIffNothingKept | src/extensions/HavelValue.cpp:262-318 | a valid heap is acyclic exactly when no set of values keeps itself |
| ValueReachability.NothingLeaks | src/extensions/HavelValue.cpp:262-318 | a client holding nothing has left nothing exactly when what is left has no cycle |
| ValueReachability.ReachableObjectIsKept | src/extensions/HavelValue.cpp:214-244 | in any graph no release of an object's own field frees the object if the client can reach it |
| ValueReachability.BorrowedObjectIsKept | src/extensions/HavelValue.cpp:214-244 | without cycles no release of an object's own field can free the object |
| ValueReachability.FieldHoldsAlone | src/extensions/HavelValue.cpp:214-244 | a reachable heap on which setting a field to its own value would store a freed value |
| ValueReachability.StoreKeepsAcyclicIff | src/extensions/HavelValue.cpp:192-244 | a store keeps the graph acyclic exactly when the container is not reachable from the value |
| ValueReachability.SelfPushLeaks | src/extensions/HavelValue.cpp:192-208 | an array pushed into itself and released stays live with nobody holding it |
| ValueClient.StepKeepsAcyclic | src/extensions/HavelValue.cpp:192-318 | only a call that stores a value into a container reachable from it can make an acyclic heap cyclic |
| ValueClient.RunIsReachable | src/extensions/HavelValue.cpp:192-318 | after any run of calls that closes no cycle a value is live exactly when the client can reach it |
| ValueClient.HandleRun | src/extensions/HavelValue.cpp:192-318 | in any run a handle that was alive at some point has had its destructor called with its pointer once if it is freed at the end and has one, and never otherwise |
| ValueClient.Client.Perform | src/extensions/HavelValue.cpp:192-318 | each client call takes the heap and the references to the state StepOk fixes: which body changes, which count, what is freed |
| ValueClient.Client.Replay | src/extensions/HavelValue.cpp:192-318 | any run of calls goes through states each of which follows from the one before; if none closes a cycle live and reachable agree at the end; each freed handle had its destructor called once |
| ValueClient.Client.DropAll | src/extensions/HavelValue.cpp:262-318 | dropping every reference leaves exactly what keeps itself, and frees everything exactly when the heap was acyclic |
| ConfigTable.FoundIff | src/c/Config.c:68-76 | the slot found is the first on the probe path that is vacant or holds the key |
| ConfigTable.LookupIff | src/c/Config.c:109-114 | in a table with intact probe paths the answers are exactly the stored pairs |
| ConfigTable.StoreLookup | src/c/Config.c:94-107 | storing changes exactly one answer |
| ConfigTable.CrossedIsLost | src/c/Config.c:116-126 | a key found past the freed slot can no longer be found, in any table |
| ConfigTable.RemoveIff | src/c/Config.c:116-126 | in any table removal takes away exactly its key if and only if no other key is found past the freed slot |
| ConfigTable.RemoveKeepsIntactIff | src/c/Config.c:116-126 | the same condition decides whether an intact table stays intact |
| ConfigTable.ProbeSucceeds | src/c/Config.c:68-76 | with a vacant slot in the table every slot search succeeds |
| ConfigTable.Reinserted | src/c/Config.c:78-92 | one re-insertion keeps the new table intact, answering with the last slot of each key so far |
| ConfigTable.RefilledIs | src/c/Config.c:78-92 | re-inserting any table, duplicates and all, gives an intact one that answers with each key's last slot |
| ConfigTable.GrownAnswersIff | src/c/Config.c:78-92 | growth changes no answer exactly when each key already answers with the value of its last slot |
| ConfigTable.KeysOfMembers | src/c/Config.c:735-747 | the collected keys are exactly the stored ones |
| ConfigTable.KeysOfDistinct | src/c/Config.c:735-747 | in a table without duplicates each key is collected once |
| ConfigMap.CfgMap.FindSlot | src/c/Config.c:68-76 | the probing loop computes the specified slot |
| ConfigMap.CfgMap.Get | src/c/Config.c:109-114 | the value stored for the key, or none |
| ConfigMap.CfgMap.Grow | src/c/Config.c:78-92 | twice the capacity, every probe path whole whatever it was before, each key answering with its last slot's value; the count still bounds the occupied slots |
| ConfigMap.CfgMap.Set | src/c/Config.c:94-107 | slots and count become those of the table function for a set, in any state; the key answers with its value; in a whole table no other answer changes; with growth the table is whole |
| ConfigMap.CfgMap.Remove | src/c/Config.c:116-126 | in any table the key is gone, its slot vacant and the count one less, and the exact condition for no other key going with it |
| ConfigMap.RemovalLosesAnother | src/c/Config.c:46-126 | after setting two keys with the same home and removing the first, the second is still stored and not found |
| ConfigMap.GrowthBringsBack | src/c/Config.c:46-126 | the lost key, set again, answers its new value before growth and its old one after |
| Fnv.SameHome | src/c/Config.c:46-50 | `!` and `a` have the same home in a table of 64 slots |
| ConfigMap.CfgMap.AllKeys | src/c/Config.c:735-747 | the array of len strings is never overrun and holds the stored keys in slot order |
| Text.TrimKeepsIff | src/c/Config.c:132-141 | trimming keeps a string exactly when it has no space at either end |
| Text.LinesUnlines | src/c/Config.c:361-385 | reading back printed lines gives the lines |
| Text.BelowIff | src/c/Config.c:414 | strcmp order without recursion: a proper prefix, or smaller at the first difference |
| Text.PrefixBelow | src/c/Config.c:414 | a string is below every longer string that starts with it |
| ConfigText.ValueReadsIff | src/c/Config.c:387-412 | a printed value is read back exactly when it is not wrapped in quotes and, printed raw, has no spaces at its ends |
| ConfigText.PrintKinds | src/c/Config.c:387-412 | exactly the booleans, the numbers, what is wrapped in quotes and what starts with a bracket or brace are printed raw; all else between double quotes |
| ConfigText.UnquoteKinds | src/c/Config.c:303-355 | one pair of equal quotes is taken off; unequal ones, a single character and unquoted text stay |
| ConfigText.CutKinds | src/c/Config.c:361-385 | a line ends at its first carriage return or newline |
| ConfigText.ApplyKinds | src/c/Config.c:303-355 | a header changes the section only, and an assignment stores under the section, a dot and the key, or under the key where no section is open |
| ConfigText.HeaderReads | src/c/Config.c:303-355 | a printed header opens its section |
| ConfigText.AssignReads | src/c/Config.c:303-355 | a printed assignment gives back name and value |
| ConfigText.HeaderOmittedIff | src/c/Config.c:459-472 | the header is left out only for an empty section while none is open |
| ConfigText.SaveReads | src/c/Config.c:452-481 | the printed lines file each key under the section left open before it |
| ConfigEntries.AssignReadsIff | src/c/Config.c:303-355 | a printed assignment is read back as itself exactly when name and value meet the stated conditions |
| ConfigEntries.HeaderReadsIff | src/c/Config.c:303-355 | a printed header opens exactly its section if and only if that is trimmed and not itself in brackets |
| ConfigEntries.HeaderLine | src/c/Config.c:303-355 | a line in one or two pairs of brackets, with spaces around it, opens the section between them, trimmed |
| ConfigEntries.AssignmentLine | src/c/Config.c:303-355 | a line with spaces anywhere around key, equals sign and value assigns to the key the value unquoted |
| ConfigEntries.CommentLine | src/c/Config.c:303-355 | a line whose first character after spaces is a hash or a semicolon does nothing |
| ConfigEntries.OtherLine | src/c/Config.c:303-355 | a line that is no header and has no equals sign does nothing |
| ConfigEntries.ReadIsSingle | src/c/Config.c:361-385 | no key or value read from a text holds a line end |
| ConfigEntries.EntryRoundTripIff | src/c/Config.c:303-481 | saving one entry and reading it back gives it back if and only if it is printable |
| ConfigText.LateRootIsLost | src/c/Config.c:474-480 | a root key printed after a section is missing after reading back |
| ConfigText.RoundTripIff | src/c/Config.c:418-486 | for printable entries, in any order of keys, saving and reading back gives the map if and only if root keys come first |
| ConfigRuns.EachAssigns | src/c/Config.c:361-385 | if as many keys come back as lines were read, each line assigned a key not read before |
| ConfigReading.SecIsFixed | src/c/Config.c:303-355 | if the keys read are the keys printed, every section in use is opened by its own header |
| ConfigReading.DotsKept | src/c/Config.c:303-355 | in that case no key with two dots or more loses one |
| ConfigReading.ReadAsItself | src/c/Config.c:303-355 | in that case every line is read under its own key and in its own section |
| ConfigRoundTrip.SaveRoundTripIff | src/c/Config.c:303-486 | for every map and every order of its keys, saving and reading back gives the map if and only if every entry is printable and root keys come first |
| ConfigRoundTrip.SortedRoundTripIff | src/c/Config.c:303-486 | the same for sorted keys with duplicates and with keys that answer nothing |
| ConfigText.RootsFirstWhenSorted | src/c/Config.c:452 | for sorted keys that condition is about the keys alone |
| ConfigStore.TrimDup | src/c/Config.c:132-141 | the two trimming loops compute the trimmed string |
| ConfigStore.ParseTomlLine | src/c/Config.c:303-355 | one line changes section and map as specified |
| ConfigStore.AllCallsCount | src/c/Config.c:552-570 | each due callback is made once |
| ConfigStore.ReloadCallsExactly | src/c/Config.c:552-570 | a watcher is called once for each pair of the new map that is new or different and matches it, and never otherwise |
| ConfigStore.HavelConfig.Load | src/c/Config.c:361-385 | in any state the table becomes the fold of the text's assignments; in a whole table that adds what the text says to the map |
| ConfigStore.HavelConfig.Reload | src/c/Config.c:488-572 | from any state the map becomes what the text says to an empty one, and the callbacks are those specified |
| ConfigStore.HavelConfig.SetString | src/c/Config.c:692-698 | in any state the table becomes that of one set and the key answers its value; in a whole table nothing else changes; every matching watcher is called |
| ConfigStore.HavelConfig.Remove | src/c/Config.c:723-729 | in any state exactly the key goes if and only if no other key is found past it |
| ConfigStore.HavelConfig.NotifyWatchers | src/c/Config.c:683-690 | one call for each watcher of the key or of every key |
| ConfigStore.SetCallsExactly | src/c/Config.c:683-690 | a set calls a watcher once, with the key and the value, if it watches that key or every key, and no other |
| ConfigStore.KeysEnumerate | src/c/Config.c:443-452 | the collected and sorted keys are those of the map, each once, in strcmp order |
| ConfigStore.RootSavedFirst | src/c/Config.c:443-452 | a root key is saved before every key of the section of its name |
| ConfigStore.EntryText | src/c/Config.c:459-480 | the text of one entry: blank line and header where the section needs one, then name, equals sign and printed value |
| ConfigStore.HavelConfig.Save | src/c/Config.c:418-486 | in any state prints the stored keys in strcmp order with what they answer, as specified for the text |
| ConfigStore.HavelConfig.PrintEntry | src/c/Config.c:459-480 | header, blank line and assignment as specified |
| ConfigStore.HavelConfig.SaveAndLoad | src/c/Config.c:361-572 | in any state save then load into an empty store gives what reading the text specifies, which is the same map exactly when every entry is printable and root keys are below dotted ones; reload agrees with load |
| ConfigStore.RootMovesIntoSection | src/c/Config.c:418-572 | a printable store of `a.x` and `b` is saved as the text specified for it, which reads back, on reload too, as `a.x` and `a.b` |
| Conditions.ReadsSuffice | src/core/init/Havel.cpp:337-386 | a condition's value and reads depend only on the variables its evaluation read |
| Conditions.MetOfLeaves | src/core/init/Havel.cpp:337-386 | a literal and a global are met exactly when they are not zero, one that throws or is undefined is not; what each reads |
| Conditions.MetOfNot | src/core/init/Havel.cpp:337-386 | a negation is met exactly when its operand evaluates to zero, and reads what that reads |
| Conditions.MetOfAnd | src/core/init/Havel.cpp:337-386 | a conjunction is met exactly when both sides are; the right one is read exactly when the left one is met |
| Conditions.MetOfOr | src/core/init/Havel.cpp:337-386 | a disjunction is met exactly when its left side is, or is zero and the right one is met; only then is the right one read |
| Conditions.MetOfComparisons | src/core/init/Havel.cpp:337-386 | a comparison is met exactly when both sides evaluate and compare so; the right one is read unless the left one throws |
| Conditions.NotifiedIsFresh | src/core/init/Havel.cpp:337-386 | after a write, result and dependencies are as if evaluated from scratch, with merging and with replacing |
| Conditions.ParkedStaysFresh | src/core/init/Havel.cpp:337-386 | in every run of events a parked conditional that is fresh and not woken stays parked and fresh |
| Conditions.RunTracks | src/core/init/Havel.cpp:337-386 | in every run, woken or not, a conditional records the result and the reads of its last evaluation |
| Conditions.RunKeepsConditions | src/havel-lang/stdlib/HotkeyModule.cpp:1139-1189 | after any events a conditional has the condition of its last replacement, or its first one without any, and its alias |
| Conditions.NoneStaleIff | src/core/init/Havel.cpp:337-386 | no condition with given dependencies is stale if and only if no dependency has changed since the last evaluation |
| Conditions.RunningWriteIsMissed | src/havel-lang/runtime/execution/ExecutionEngine.cpp:523-551 | a write while the goroutine runs leaves it parked with the old result, until a dependency is written again |
| Conditions.Engine.AddConditional | src/host/module/ModularHostBridges.cpp:3713-3783 | a new conditional starts fresh, its hotkey flagged and grabbed by its result, also when another conditional has the alias |
| Conditions.Engine.TwoOnOneHotkey | src/host/module/ModularHostBridges.cpp:3713-3783 | of two conditionals on one hotkey the one registered last decides, against the first one's result |
| Conditions.Engine.SetCondition | src/havel-lang/stdlib/HotkeyModule.cpp:1139-1189 | exactly that conditional changes: it holds the new condition, its result under the present globals and its reads besides the old ones, and its hotkey is flagged by that result, parked or not |
| Conditions.Engine.SetGlobal | src/core/init/Havel.cpp:337-386 | the variable is written; every parked conditional that depends on it gets the result and the added reads of its own condition under the new globals, and every other one is unchanged; flags follow results and grabs follow flags |
| Conditions.Engine.Replay | src/core/init/Havel.cpp:337-386 | any run of writes, wakes, returns and new conditions ends in the state the fold of the events gives |
| Conditions.Engine.SetGlobals | src/core/init/Havel.cpp:337-386 | after any writes the globals are those written, and each parked fresh conditional has its old condition's result there; its hotkey, if no other conditional shares it, is flagged so and grabbed exactly then unless grabs are suspended |
| HotkeyGrabs.RunConsistent | src/core/hotkey/HotkeyManager.cpp:139-230 | in every run nothing is grabbed while suspended, and otherwise exactly what the flags say |
| HotkeyGrabs.UnsuspendedFlags | src/core/hotkey/HotkeyManager.cpp:155-216 | suspension changes no hotkey's flags |
| HotkeyGrabs.SuspensionLeavesNoTrace | src/core/hotkey/HotkeyManager.cpp:139-230 | once resumed, the grabbed hotkeys are those of the same run without suspension |
| HotkeyGrabs.RemovedStaysUngrabbed | src/core/hotkey/HotkeyManager.cpp:139-230 | after a removal by alias no hotkey that had the alias is in the table or grabbed again, whatever follows, suspensions included |
| HotkeyGrabs.HotkeyManager.FindAlias | src/core/hotkey/HotkeyManager.cpp:139-189 | finds a hotkey with the alias exactly when there is one |
| HotkeyGrabs.HotkeyManager.SetHotkeyGrab | src/core/hotkey/HotkeyManager.cpp:155-189 | the hotkey of the alias gets both flags and, unless grabs are suspended or it is an evdev one, is grabbed or released accordingly; every other hotkey and grab is unchanged |
| HotkeyGrabs.HotkeyManager.RemoveHotkey | src/core/hotkey/HotkeyManager.cpp:139-153 | afterwards the hotkeys are the old ones without the alias, unchanged, and the grabs the old ones without its hotkey; true exactly when there was one |
| HotkeyGrabs.HotkeyManager.RemoveHotkeyById | src/core/hotkey/HotkeyManager.cpp:218-230 | exactly that hotkey leaves the table and the grabs; true exactly when it was there |
| HotkeyGrabs.HotkeyManager.SuspendGrabs | src/core/hotkey/HotkeyManager.cpp:191-199 | nothing stays grabbed, no flag changes |
| HotkeyGrabs.HotkeyManager.ResumeGrabs | src/core/hotkey/HotkeyManager.cpp:201-216 | every enabled hotkey that is not an evdev one is grabbed exactly when its flag says so; no other grab and no flag changes |
| Combos.PressRecords | src/core/hotkey/HotkeyManager.cpp:882-917 | a press records the key under both its codes and keeps the record of all held keys |
| Combos.ReleaseRecords | src/core/hotkey/HotkeyManager.cpp:882-917 | a release takes out that key's codes and no other's |
| Combos.ModifierCodes | src/core/io/KeyMap.cpp:138-143 | which key codes carry each modifier |
| Combos.RequiredIff | src/core/hotkey/HotkeyManager.cpp:630-774 | a code is required exactly when some key of the combo needs it |
| Combos.RequiredModsIff | src/core/hotkey/HotkeyManager.cpp:630-774 | a modifier is required exactly when some keyboard key of the combo has it |
| Combos.ComboState.MaskIff | src/core/hotkey/HotkeyManager.cpp:470-490 | a modifier is in the mask exactly when a held modifier code carries it |
| Combos.ComboState.HandleKey | src/core/hotkey/HotkeyManager.cpp:877-951 | the record of held keys gains or loses that key; modifiers gain or lose its code if it is a modifier; its codes become active at this time or inactive; its physical state follows; nothing else changes |
| Combos.ComboState.Tolerated | src/core/hotkey/HotkeyManager.cpp:689-720 | a held code is passed over exactly when it is a modifier, required, or pressed at the same time as a required one |
| Combos.ComboState.Exclusive | src/core/hotkey/HotkeyManager.cpp:689-720 | accepts exactly when every held key with a code that is no modifier has a required code: the remapped twin never blocks, an unrelated key always does |
| Combos.ComboState.EvaluateCombo | src/core/hotkey/HotkeyManager.cpp:630-774 | matches exactly when the wheel, if needed, is being processed; nothing but needed keys is held unless wildcard; every needed code is active within the window; physical keys are down; and each modifier is needed exactly when (wildcard: only if) a held code carries it |
| Suppression.CompareWithLater | src/core/automation/PixelAutomation.cpp:213-227 | one turn: a point already dropped does nothing; one still kept drops every later near point that is no better, before and after it meets a better one, and is dropped itself exactly if it meets one |
| Suppression.Suppress | src/core/automation/PixelAutomation.cpp:210-237 | the points kept after every turn in order; no two of them near on both axes; each dropped one beaten by a near neighbour |
| Suppression.TurnIsUnique | src/core/automation/PixelAutomation.cpp:213-227 | one turn has one outcome |
| Suppression.CollectedAt | src/core/automation/PixelAutomation.cpp:229-237 | each kept point is in the result once, at the place given by the kept ones before it, with its own place and confidence |
| Suppression.BestIsKept | src/core/automation/PixelAutomation.cpp:210-227 | the first point of maximum confidence is kept |
| Suppression.ChainToKept | src/core/automation/PixelAutomation.cpp:210-227 | from every point a chain of near neighbours, each better ranked than the last, reaches a kept point |
| Manifest.ParseToml | src/hpkg/main.cpp:32-87 | the parsing loop computes the specified manifest |
| Manifest.WriteToml | src/hpkg/main.cpp:89-109 | the writer emits the specified lines |
| Manifest.FieldReads | src/hpkg/main.cpp:62-84 | a written field is read back whatever its value |
| Manifest.EmptyFile | src/hpkg/main.cpp:12-87 | an empty file gives the defaults |
| Manifest.OtherLines | src/hpkg/main.cpp:32-60 | section titles switch sections; comments and empty lines do nothing |
| Manifest.ValueKinds | src/hpkg/main.cpp:62-84 | one pair of double quotes is taken off, and an unquoted value is read as it stands |
| Manifest.FieldLineReads | src/hpkg/main.cpp:62-84 | a line of the package section, however spaced, sets exactly the field it names |
| Manifest.DependencyLineReads | src/hpkg/main.cpp:51-60 | a line of the dependency section adds what stands before its equals sign, or the whole line |
| Manifest.ReadBackIff | src/hpkg/main.cpp:51-60 | a written dependency is read back exactly when it is clean |
| Manifest.ParsedSingle | src/hpkg/main.cpp:32-87 | nothing read from a file contains a newline |
| Manifest.RoundTripIff | src/hpkg/main.cpp:32-109 | parsing a written manifest gives it back if and only if its fields are single lines and its dependencies clean |
| Manifest.WriteAndParse | src/hpkg/main.cpp:32-109 | the same of the two loops run one after the other |

## Left out

- Hash map: placement new, raw storage, exceptions, copies, swap and moved-from maps. `insert` of a pair
  is `insert_or_assign`; `emplace` and `try_emplace` repeat `insert`'s loop and are modelled by it. The
  iterator that `insert_or_assign` and `emplace` return is not modelled: after a displacement it points
  at the last displaced pair.
- Queue: weak memory orderings, more than one consumer, and `empty`, which is pop's first two loads.
- MpscQueue.UnsafeSize: with no other thread running only; with others its walk is not meaningful.
- Values: `havel_array_set` and direct calls of `havel_free_value`, which take ownership or free
  without regard to the count and so do not follow the accounting of the other operations.
- Values: capacities, failed allocations and reuse of addresses.
- Configuration: files, inotify, threads, the debounced save, the limit of 4096 bytes on a line, how
  `strtod` reads numbers, and the defaults of the typed getters.
- ValueGraph.ValueHeap.ObjectSet: an object that the release of its own field would free is excluded; the
  source would go on to write into it. The client can no longer reach such an object
  (`ValueReachability.ReachableObjectIsKept`).
- Conditional hotkeys: the virtual machine, dependencies on object fields and the grab context.
  Conditions are integer expressions with the language's short-circuiting.
- Grabs: backend failures, executor modes, `EnableHotkey`, `DisableHotkey` and `AddHotkey`. The map of
  pending grabs is written but never read.
- Combos: wheel combos, hotkeys that are not combos, and the gesture engine.
- Suppression: OpenCV; the input is a list of points with confidences that are real numbers.
- Manifest: the list of files, which is never written, and files that cannot be opened.
- The interpreter, compiler, scheduler, window managers, display, logger, browser and timers.
