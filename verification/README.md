# Verification of the logging wrapper

A Dafny model of the two logging managers of the repository, with proofs about every sequence of calls and every
interleaving of threads. Check it with `dafny verify dfyconfig.toml`.

## What is modelled

**The C manager** (`src/libs/loggingf_wrapper/details/manager.c`) keeps channels in a chained hash table keyed by the
first 15 bytes of the channel name. Under the dynamic policy the table doubles and relinks its nodes in place; under
the fixed policy nodes come from a preallocated pool.

- `Names.dfy`: truncated names and the 64-bit hash, with wrap-around and both signs of plain `char`.
- `Layout.dfy`: the layout of the table as a function of the registered names alone: chain `j` of a table with `c`
  buckets lists, in registration order, the channels whose hash modulo `c` is `j`. The stable split on doubling and the
  exactness of lookups are facts about this function.
- `Links.dfy`: buckets and `p_next` fields as sequences of pointers, a `hash_node_t**` as a slot ("bucket j" or "next of
  node n"), and the invariants of the insertion and of the in-place rehash.
- `Registry.dfy`: the manager as a state machine over values, one transition per public call.
- `RegistryRuns.dfy`: what holds over every run: one call by cases, accounts of capacity and relinking, stable handles,
  the freeze.
- `NameMap.dfy`: refinement of a plain map, and isolation of channels.
- `Policies.dfy`: agreement of the two policies, and the full pool.
- `Filtering.dfy`: the messages of a run, judged by calls and replies, and what raising thresholds does to them.
- `Manager.dfy`: the manager as classes on the heap. Nodes are linked through `next`, the rehash and probe loops are
  the loops of the source, a ghost set holds the live allocations. Every public call is proved equal to the transition
  of `Registry.dfy`, and `Deinit` and every failing path of `Init` give back exactly what was allocated.
- `Threads.dfy`: get-or-create by any number of threads: read section node by node, gap, write section, resize one
  store at a time, restart, and the read of `*p_node` after the unlock; the invariant that every schedule keeps.
- `LateReads.dfy`: what that last read gives in every reachable state, and when the results of a run are right.
- `Progress.dfy`: a schedule takes only so many steps for its calls, and every call can be brought to its end.
- `EnoughBuckets.dfy`, `TooFewBuckets.dfy`: what makes every result of the dynamic policy right, and the schedules that
  make one wrong.
- `Linearization.dfy`: every such interleaving is a run of the sequential registry, thread by thread.
- `CallsAlone.dfy`: every such interleaving is its own calls, each answered once, on a plain map.
- `Setters.dfy`: the level setters on top of concurrent get-or-create: which level they write, by a book of their orders.
- `SettersAlone.dfy`: a setter that runs alone is the one call of the sequential registry.
- `BucketBounds.dfy`: the exact number of buckets that the dynamic policy needs, for results and for setters.
- `Freeze.dfy`: the global level and the immutable flag, one atomic access at a time.

**The C++ manager** (`src/libs/logging_wrapper/manager.h`, `details/manager.cpp`) keeps a map of holders, each with a
level and a lazily created logger that handles share.

- `CppRegistry.dfy`: the manager as a state machine, and what its runs keep.
- `CppManager.dfy`: holders, loggers and the manager as classes, proved against it.

**Both**: `Severity.dfy` holds the levels, `Options.dfy` optional values, `Timestamp.dfy` the printer of
`YYYY-MM-DD hh:mm:ss.mmm`.

### Assumptions

- A capacity fits `int` and its double does not wrap (`int i = hash % capacity`, `capacity * 2`).
- `malloc` may fail at any call; a block that is returned is new.
- A slot of a freed bucket array holds nothing that is a logger. Storing and loading a pointer is one atomic access.
- Read/write locks exclude writers, a mutex makes its section one step, `std::call_once` runs once.
- `char` is signed where a full hash is reduced to a bucket; the lemmas on the hash hold for both signs.

### Where the code and its documentation differ

The model follows the code.

- The example in `src/libs/loggingf_wrapper/manager.h:132` creates a dynamic manager with 0 channels. Every later
  request for a channel computes `hash % 0`. `RegistryRuns.TrapsExactlyWithoutBuckets` says that this is the only case.
- Under the dynamic policy a new logger is returned by reading `*p_node` after the unlock
  (`src/libs/loggingf_wrapper/details/manager.c:222-223`). If another thread resizes the table in between, the read can
  give a logger of another channel or an address that belongs to no logger. A program can rule this out when it creates
  the manager. Without a root channel, every result of every interleaving is right if and only if there are at least as
  many buckets as different stored names that its threads may ask for (`BucketBounds.RightIffEnoughBuckets`). With a
  root channel, the root is one of the names, and a table of one bucket counts as one of two
  (`BucketBounds.RightIffEnoughBucketsWithRoot`). `LateReads.LateReturnIsWrong` is the smallest failing schedule,
  `LateReads.RereadInEveryRun` the exact condition on the state at the read, also between two stores of the resize.
  Under the fixed policy it cannot happen.
- A level setter that meets this read writes the level of another channel, or of none
  (`Setters.SetterWritesWhereItReads`). The same bounds on the buckets are exact for the setters
  (`BucketBounds.SettersRightIffEnoughBuckets`, `BucketBounds.SettersRightIffEnoughBucketsWithRoot`).
- `src/libs/loggingf_wrapper/manager.h:171-172` says that setters called after the freeze are ignored. That holds for
  calls that start after it; a setter that had already read the flag still overwrites the frozen level
  (`Freeze.LateSetterWins`, `Freeze.LevelCanChangeIff`). Whatever the schedule, the level stays from the freeze on if
  and only if at most one thread calls the setters at all (`Freeze.FreezeHoldsIffOneCaller`). An out-of-range level
  freezes the level that was in force (`RegistryRuns.FreezeIsFinal`).
- `src/libs/loggingf_wrapper/manager.h:102-105` describes the level of `lw_get_logger_dfl` as a default for a new
  channel. The code writes it, without a range check, to an existing channel as well
  (`LoggingManager.Manager.GetLoggerDfl`, `NameMap.ChannelsAreIsolated`).
- Raising a threshold past `trace` is not raising it: the setters ignore such a level, and messages can be lost.
  `Filtering.RaisedCallExact` says exactly which replacement of a level by another never loses a message.
- `lw_timestamp` is documented (`src/libs/loggingf_wrapper/manager.h:187`) to return the number of characters and returns
  0. It writes its terminator at the returned length of `snprintf` whatever the buffer size, so the 24 bytes that are
  "recommended" are required (`Timestamp.TerminatorInBoundsIff`).
- The C++ `init` has an effect until its callback has returned once in the process. After a `deinit` the level is
  `warning` whatever a later `init` asks for (`CppRegistry.InitOnlyOnce`).

## Model

| member | source | states |
|---|---|---|
| Names.SameStoredName | src/libs/loggingf_wrapper/manager.h:33-36 | Two requested names are stored alike if and only if they are equal or agree in their first 15 bytes |
| Names.StoredName | src/libs/loggingf_wrapper/details/manager.c:130-133 | A name shorter than 15 bytes is stored as it is, and of every other name the first 15 bytes are |
| Names.HashFn | src/libs/loggingf_wrapper/details/manager.c:106-115 | The accumulator loop with shift, add and xor folds `h -> (33*h mod 2^64) xor byte` over exactly the first `length` bytes, so it depends on that prefix only |
| Names.MixByShift | src/libs/loggingf_wrapper/details/manager.c:110-112 | The shifted addition of the code is the multiplication by 33 of its comment, modulo 2^64 |
| Names.ByteEnters | src/libs/loggingf_wrapper/details/manager.c:109-113 | A byte below 128, or any where `char` is unsigned, is xored with its own value into 33 times the hash |
| Names.HighByteEnters | src/libs/loggingf_wrapper/details/manager.c:109-113 | Where `char` is signed, a byte from 128 on enters with 56 ones above its own eight bits |
| Names.HashFromConcat | src/libs/loggingf_wrapper/details/manager.c:109-113 | The hash of two pieces is the hash of the second from the hash of the first; of no bytes it is the seed |
| Names.HashNumbers | src/libs/loggingf_wrapper/details/manager.c:106-115 | The hashes of the empty name (5381), of "a" (177604), of "ab" (5860902) and of the byte 0xE9 (18446744073709374028), as the library computes them on x86-64 |
| Names.SeedsStayApart | src/libs/loggingf_wrapper/details/manager.c:106-115 | Hashing the same remaining bytes never merges two different intermediate hashes: a round is a bijection of the hash |
| Names.OneByteChangesHash | src/libs/loggingf_wrapper/details/manager.c:106-115 | Two equally long keys that differ in exactly one byte never have equal full hashes, for every seed and both signs of `char` |
| Layout.HomeIsRemainder | src/libs/loggingf_wrapper/details/manager.c:134-138 | The bucket of a name is its hash, seeded with 5381 and with signed `char`, less whole multiples of the capacity |
| Layout.HomeOfA | src/libs/loggingf_wrapper/details/manager.c:134-138 | Of 1000 buckets the channel "a" lives in number 604 |
| Layout.ChainMembers | src/libs/loggingf_wrapper/details/manager.c:136-148 | A chain holds exactly the registered names whose hash selects its bucket |
| Layout.ChainsPartition | src/libs/loggingf_wrapper/details/manager.c:165-193 | The chains together have exactly as many nodes as there are registered names |
| Layout.StableSplit | src/libs/loggingf_wrapper/details/manager.c:173-193 | Doubling is an exact stable split: new chain `j` is the subsequence of old chain `j mod c` whose names hash to `j`, in the old order |
| Layout.LookupExact | src/libs/loggingf_wrapper/details/manager.c:136-148 | Walking the one chain that the hash selects finds the id of the name if and only if the name is registered anywhere in the table |
| Layout.LookupIgnoresCapacity | src/libs/loggingf_wrapper/details/manager.c:191-196 | What a lookup finds does not depend on the capacity, so the retry after a resize searches for the same thing |
| Links.InsertKeepsTable | src/libs/loggingf_wrapper/details/manager.c:207-213 | Writing the new node through the slot where the probe ended, and null into its link, gives the linked table of the extended list of names |
| Links.MoveKeepsRehashing | src/libs/loggingf_wrapper/details/manager.c:180-189 | One round of the inner rehash loop: the slot found is not the link of the node being moved, the old chains lose exactly that node and its new chain gains it at the end; no node is lost, duplicated or left in a cycle |
| Links.RehashEnds | src/libs/loggingf_wrapper/details/manager.c:176-193 | When the last old bucket is empty, the new buckets are the table that the doubled capacity prescribes |
| Links.UnmovedLink | src/libs/loggingf_wrapper/details/manager.c:176-189 | In the middle of the rehash the link of a node not yet moved is its successor in the old table |
| Links.MovedLink | src/libs/loggingf_wrapper/details/manager.c:176-189 | In the middle of the rehash the link of a moved node is the next moved node with the same new bucket |
| Severity.Numbers | src/libs/loggingf_wrapper/severity_level.h:38-46 | The numbers of the levels, and that a setter accepts exactly 0 to 8 |
| RegistryRuns.GetOutcome | src/libs/loggingf_wrapper/details/manager.c:126-224 | Everything a get-or-create does, by cases on the state before: a registered name changes nothing and gives its logger; a new one costs at most one resize and one registration, and without memory or pool entry gives null and registers nothing |
| RegistryRuns.RunKeepsInv | src/libs/loggingf_wrapper/details/manager.c:126-294 | In every run stored names are distinct, each has a level, and they fit the capacity |
| RegistryRuns.TrapsExactlyWithoutBuckets | src/libs/loggingf_wrapper/details/manager.c:136-138 | A request divides by zero after some run exactly when the manager was created with zero buckets |
| RegistryRuns.AccountsSinceInit | src/libs/loggingf_wrapper/details/manager.c:165-193 | In every run from init on, size is at most capacity, capacity is the initial one times a power of two and is the initial one or at most twice the size, the nodes relinked by all resizes are exactly the buckets gained, and there are at most as many resizes as calls; init makes none |
| RegistryRuns.HandlesSinceInit | src/libs/loggingf_wrapper/details/manager.c:176-224 | A logger given out keeps its identity and name through every later run, and any request for a name with the same first 15 bytes gives the same logger and changes nothing |
| RegistryRuns.SameLoggerIff | src/libs/loggingf_wrapper/details/manager.c:130-145 | From init on, whatever is called before and between: two granted requests get the same logger if and only if their names are equal or agree in their first 15 bytes, and the logger carries those bytes |
| RegistryRuns.InitialOutcome | src/libs/loggingf_wrapper/details/manager.c:366-405 | What a successful init leaves, by its arguments: the level as given, no freeze, no output, and the root channel as the only one, at debug (7), exactly if one is asked for and buckets and memory allow it |
| RegistryRuns.RootIsItsChannel | src/libs/loggingf_wrapper/details/manager.c:403-405 | A root logger that exists equals, after any run, a get of the root channel |
| NameMap.RunRefinesMap | src/libs/loggingf_wrapper/details/manager.c:126-224 | The hash table refines a map from truncated names to loggers over every run of get, get with level and set level, resizes included. The map runs alone: whether a new name finds room follows from the size of the map, its account of the capacity and which allocations succeed |
| NameMap.ChannelsAreIsolated | src/libs/loggingf_wrapper/details/manager.c:328-337 | A channel's level after any run is the last accepted write to a name with the same stored prefix, or debug, whatever was done to other channels or resized in between |
| NameMap.StepRefinesMap | src/libs/loggingf_wrapper/details/manager.c:470-481 | One call on the table is one call on the map, with equal replies; the range check of the level comes after the creation of the channel |
| Policies.PoliciesAgree | src/libs/loggingf_wrapper/details/manager.c:126-294 | With memory to spare, the policies give equal answers and equal states up to `channel_count` names; beyond that the fixed table holds the first `channel_count` channels of the dynamic one, at equal levels |
| Policies.DynamicRegistersAll | src/libs/loggingf_wrapper/details/manager.c:126-224 | With memory to spare the dynamic table registers exactly the names asked for |
| Policies.FullPoolIsFinal | src/libs/loggingf_wrapper/details/manager.c:234-294 | A name is rejected exactly when it is new and the pool is full; the rejection changes nothing and is final, and registered names still resolve |
| Filtering.OutputOfRun | src/libs/loggingf_wrapper/logging.h:95-102 | The output of any run is exactly its messages that pass, in order |
| Filtering.MessageOfRun | src/libs/loggingf_wrapper/logging.h:95-102 | A message after any run passes, judged by the calls before it and their replies alone, if and only if its logger has been given out and its level is valid, at most the last accepted global level before the freeze, and at most the last write to its channel |
| Filtering.RaisingAddsMessages | src/libs/loggingf_wrapper/details/manager.c:300-320 | Raising thresholds pointwise through a run gives an output of which the original is a subsequence |
| Filtering.WiderExact | src/libs/loggingf_wrapper/details/manager.c:300-320 | One threshold lets through every message that another does if and only if the other lets through none, or it is not lower, or it lets through all |
| Filtering.RaisedCallExact | src/libs/loggingf_wrapper/details/manager.c:328-337 | For every pair of calls that differ in their level only: the second never loses a message of the first, from whatever state, if and only if it is raised (a default: at least as wide; a checked level: both accepted and not lower, both ignored, or the second `trace`); every other pair loses one after an init and one get |
| Filtering.GlobalLoses | src/libs/loggingf_wrapper/details/manager.c:450-468 | For every other pair of levels of the two global setters, the manager and the message that is lost |
| Filtering.ChannelLoses | src/libs/loggingf_wrapper/details/manager.c:470-481 | For every other pair of levels of the channel setter, the manager and the message that is lost |
| RegistryRuns.FreezeIsFinal | src/libs/loggingf_wrapper/details/manager.c:461-468 | With complete calls, the global level never changes after the freeze, also when the freezing level was out of range and therefore ignored |
| LoggingManager.Probe | src/libs/loggingf_wrapper/details/manager.c:140-148 | The probe loop returns the first node of the chain with the requested length and bytes, or the slot where the chain ends |
| LoggingManager.WalkToTail | src/libs/loggingf_wrapper/details/manager.c:182-185 | The pointer-to-pointer loop stops at the last slot of the list |
| LoggingManager.MoveNode | src/libs/loggingf_wrapper/details/manager.c:181-188 | One round of the rehash on the heap: hashing the stored name, finding the end of its new chain, the two stores, and the successor read between them |
| LoggingManager.MoveBucket | src/libs/loggingf_wrapper/details/manager.c:176-190 | Emptying one old bucket relinks each of its nodes once |
| LoggingManager.Rehash | src/libs/loggingf_wrapper/details/manager.c:173-190 | From any linked table on the heap the loops leave the linked table of twice the buckets, and relink as many nodes as there are names |
| LoggingManager.Manager.Grow | src/libs/loggingf_wrapper/details/manager.c:166-193 | The resize doubles the manager's table, keeps every node, and frees the old bucket array and nothing else |
| LoggingManager.Manager.Register | src/libs/loggingf_wrapper/details/manager.c:207-220 | A new node is linked, counted and filled in: level debug, truncated terminated name, output function |
| LoggingManager.Manager.WriteDynamic | src/libs/loggingf_wrapper/details/manager.c:153-224 | The write section and the recursive retry are one transition of the registry; nodes given out before are still the same objects |
| LoggingManager.Manager.GetDynamic | src/libs/loggingf_wrapper/details/manager.c:126-224 | The whole dynamic get-or-create on the heap is one transition of the registry |
| LoggingManager.Manager.TakeFromPool | src/libs/loggingf_wrapper/details/manager.c:282-290 | A new name takes pool entry number `size`, so the registered nodes stay exactly the first `size` entries |
| LoggingManager.Manager.GetFixed | src/libs/loggingf_wrapper/details/manager.c:234-294 | The whole fixed get-or-create on the heap is one transition of the registry and allocates nothing |
| LoggingManager.Manager.GetLogger | src/libs/loggingf_wrapper/details/manager.c:322-326 | The policy chosen at init selects the function; handles, pool and foreign memory stay as they were |
| LoggingManager.Manager.GetLoggerDfl | src/libs/loggingf_wrapper/details/manager.c:328-337 | The level is written to the channel, new or not, without a range check |
| LoggingManager.Manager.SetLoggerLevel | src/libs/loggingf_wrapper/details/manager.c:470-481 | The channel is created even when the level is then refused |
| LoggingManager.Manager.SetGlobalLevel | src/libs/loggingf_wrapper/details/manager.c:450-459 | The level changes exactly when it is valid and the manager is not frozen |
| LoggingManager.Manager.SetImmutableGlobalLevel | src/libs/loggingf_wrapper/details/manager.c:461-468 | The first freeze sets a valid level and the flag; later ones do nothing |
| LoggingManager.Manager.LogLine | src/libs/loggingf_wrapper/logging.h:95-102 | A line reaches the output exactly when both filters pass |
| LoggingManager.Manager.Dispose | src/libs/loggingf_wrapper/details/manager.c:416-439 | Deinit frees every node, bucket array, pool and the manager exactly once, and nothing else |
| LoggingManager.FreeChain | src/libs/loggingf_wrapper/details/manager.c:427-434 | The freeing loop reads each successor before it frees the node, and frees exactly the nodes of its bucket |
| LoggingManager.Library.DeinitLogging | src/libs/loggingf_wrapper/details/manager.c:410-442 | After deinit nothing that the library allocated is live |
| LoggingManager.Library.Allocate | src/libs/loggingf_wrapper/details/manager.c:351-401 | Init succeeds exactly when the manager, its lock and its buckets are obtained and, under the fixed policy, at least one channel is asked for and the pool is obtained; each failing path gives back exactly what it had taken and leaves no manager |
| LoggingManager.Library.InitLogging | src/libs/loggingf_wrapper/details/manager.c:345-408 | Init fails for the reasons of the allocation and no other: memory for the root channel is not one. A successful init leaves a valid manager with the given output function, in the state that the registry starts from, its root logger being a get of the root channel |
| LoggingManager.Manager.Perform | src/libs/loggingf_wrapper/details/manager.c:300-481 | On the heap, one public call, a message included, is the transition of the registry with its reply, and the loggers of the program are the same objects, with at most the one asked for added |
| LoggingManager.Manager.Replay | src/libs/loggingf_wrapper/details/manager.c:300-481 | On the heap, any sequence of public calls, messages included, is the run of the registry with the same replies, and every logger given out on the way is still the same object; it ends at the first division by zero |
| LoggingManager.Library.Session | src/libs/loggingf_wrapper/details/manager.c:345-442 | Init, any sequence of calls, deinit: the calls do and answer what the registry says, and afterwards nothing that was allocated is live, unless a division by zero ends the program first. That needs the dynamic policy with zero buckets: under the fixed policy a successful init has channels, and no session traps |
| Threads.RunKeepsInv | src/libs/loggingf_wrapper/details/manager.c:136-223 | In every interleaving, at every step and between any two stores of a resize: names are distinct, at most one writer is inside and no reader beside it, and the links are those of the table or of a partly done rehash |
| Threads.TableInEveryRun | src/libs/loggingf_wrapper/details/manager.c:136-223 | Whatever the schedule, no truncated name is registered twice, every bucket holds its chain whenever no resize is under way, the restarts of all threads are the doublings, and the nodes moved are the buckets gained and never more than twice the channels |
| Threads.HopKeepsInv | src/libs/loggingf_wrapper/details/manager.c:140-148 | A reader walks a table at rest: each node it reaches is on the chain of its name |
| Threads.FirstStoreKeepsResize | src/libs/loggingf_wrapper/details/manager.c:186-186 | The links between the two stores of a move: the new chain already reaches the node while its link still leads into the old chain |
| Threads.PublishKeepsMemory | src/libs/loggingf_wrapper/details/manager.c:191-195 | Installing the new array restores the table invariant with doubled capacity, and the account of moved nodes is then exactly the buckets gained |
| LateReads.RereadInEveryRun | src/libs/loggingf_wrapper/details/manager.c:222-223 | In every reachable state the read of `*p_node` after the unlock gives the inserted logger if and only if the slot is stable: a bucket of the array in use, or the link of a node that is on one chain with the inserted node |
| LateReads.LateReturnGives | src/libs/loggingf_wrapper/details/manager.c:222-223 | With the table at rest again, what a late return through a link field gives is the next channel registered in the bucket of the node that holds the slot, whatever its name |
| LateReads.ReturnBeforeResizeIsClean | src/libs/loggingf_wrapper/details/manager.c:222-223 | A return before the next resize begins gives the inserted logger |
| LateReads.LateReturnIsWrong | src/libs/loggingf_wrapper/details/manager.c:191-223 | The smallest failing schedule: two threads, one bucket, two names, and a call that returns an address of no logger |
| LateReads.ResultsRightIffClean | src/libs/loggingf_wrapper/details/manager.c:126-224 | All results of a run are null or loggers of the requested name if and only if every late read found its slot stable |
| LateReads.SameNameSameLogger | src/libs/loggingf_wrapper/details/manager.c:126-224 | In such a run two loggers were given for the same truncated name if and only if they are the same node |
| LateReads.FixedRunsAreClean | src/libs/loggingf_wrapper/details/manager.c:264-293 | Under the fixed policy the read after the unlock finds the inserted logger in every interleaving |
| LateReads.FixedResults | src/libs/loggingf_wrapper/details/manager.c:234-294 | Fixed policy, every interleaving: every result is right and one name means one logger |
| EnoughBuckets.EnoughBucketsAreSafe | src/libs/loggingf_wrapper/details/manager.c:126-224 | Dynamic policy, every interleaving: a table created with at least as many buckets as different truncated names are asked for never resizes, and then every result is right |
| EnoughBuckets.EnoughBucketsWithRoot | src/libs/loggingf_wrapper/details/manager.c:126-224 | Dynamic policy with a root channel: enough buckets, or one bucket and one other name, whose resize meets no pending return, give right results in every interleaving |
| EnoughBuckets.StartWithRootIsInitial | src/libs/loggingf_wrapper/details/manager.c:403-405 | The concurrent model with a root channel starts from the table that init leaves |
| BucketBounds.RightIffEnoughBuckets | src/libs/loggingf_wrapper/details/manager.c:126-224 | Dynamic policy without a root channel, for every number of buckets and every set of names that may be asked for: every result of every interleaving is right if and only if there is a bucket for each of the names |
| BucketBounds.RightIffEnoughBucketsWithRoot | src/libs/loggingf_wrapper/details/manager.c:403-405 | Dynamic policy with a root channel: every result of every interleaving is right if and only if there is a bucket for each name, the root included, where one bucket counts as two |
| BucketBounds.SettersRightIffEnoughBuckets | src/libs/loggingf_wrapper/details/manager.c:470-481 | Dynamic policy without a root channel: in every interleaving every setter writes the channel it asked for, and every channel is at the last level that the book of orders has for it, if and only if there is a bucket for each name |
| BucketBounds.SettersRightIffEnoughBucketsWithRoot | src/libs/loggingf_wrapper/details/manager.c:328-337 | The same for setters with a root channel, with the bound of the requests |
| TooFewBuckets.Strand | src/libs/loggingf_wrapper/details/manager.c:165-223 | From any full table with a suspended first registration, a call for one more name leads to where that registration's late read is wrong: its bucket array is freed, or the link it reads is cut and not yet stored again |
| TooFewBuckets.RunToCut | src/libs/loggingf_wrapper/details/manager.c:180-189 | A resize can be stopped just after it has cut any given node |
| TooFewBuckets.FinishResize | src/libs/loggingf_wrapper/details/manager.c:176-196 | From any point inside a resize, its thread running alone ends it, with a new array in use, no other thread moved, and its call starting over |
| LateReads.FixedSlotsInEveryRun | src/libs/loggingf_wrapper/details/manager.c:282-284 | Fixed policy, every interleaving: a slot that holds a node holds it for ever, so a slot changes at most once |
| Threads.NoDeadlockInAnyRun | src/libs/loggingf_wrapper/details/manager.c:137-153 | While some call is unfinished, some thread can take a step |
| Progress.CallsEnd | src/libs/loggingf_wrapper/details/manager.c:126-224 | A schedule that makes n calls takes at most 6n^2 + 25n steps for them, walks, resizes and restarts included; a step is left exactly as long as a call is unfinished; and every call under way can be brought to its end without a new one |
| Progress.StepsAreBounded | src/libs/loggingf_wrapper/details/manager.c:126-224 | From any reachable state: the steps taken are paid for by the threads inside, by the nodes and restarts still possible, and by the calls made |
| Progress.WaitsIff | src/libs/loggingf_wrapper/details/manager.c:136-153 | In any reachable state a thread waits before its read section if and only if another is in a write section, and before its write section if and only if another is in a section of either kind; no other thread waits, so read sections run together |
| Threads.WriteIsSequentialGet | src/libs/loggingf_wrapper/details/manager.c:153-224 | A write section is the sequential get-or-create of the registry, or the start of the one resize that it makes |
| Linearization.StepMatches | src/libs/loggingf_wrapper/details/manager.c:136-223 | Each step of each thread does to the table what at most one request to the sequential registry does |
| Linearization.StepGives | src/libs/loggingf_wrapper/details/manager.c:136-223 | The step at which a call takes effect gives its own thread the answer of the sequential registry in that state, and other threads nothing |
| Linearization.EveryRunIsSequential | src/libs/loggingf_wrapper/details/manager.c:126-294 | Linearization: every schedule leaves the table of its sequential history, whose requests are one for each answered call and, for each resize, one that doubles the table and gets no node. Each thread gets the answers to its own calls in their order, under the fixed policy, and under the dynamic one when every late read is clean |
| CallsAlone.EveryRunIsItsCallsOnAMap | src/libs/loggingf_wrapper/details/manager.c:126-294 | The calls of a schedule alone, each once, on a plain map that keeps nothing of the table: a new name finds room while the pool is not full, or when its allocation is made. They leave the registered names, and each thread gets the answers to its own calls in their order, under the same condition; with memory to spare no allocation fails |
| CallsAlone.EachCallOnce | src/libs/loggingf_wrapper/details/manager.c:126-294 | The calls of each thread are answered exactly once each, in their order; the last may still wait |
| Setters.SetterWritesWhereItReads | src/libs/loggingf_wrapper/details/manager.c:328-337 | A setter running beside other threads writes its level to the channel it asked for if and only if its late read is stable; otherwise that level stays, and the write goes to a channel of another name or to none. A checked level outside 0 to 8 is not written |
| Setters.FixedSettersAreRight | src/libs/loggingf_wrapper/details/manager.c:470-481 | Fixed policy: whatever the schedule, each channel is at the last level of the book of orders for its name, or at debug (7), and no setter writes to another channel. The book is a fold over the moves: a call of a setter orders its own level for its own channel, unless it is checked and not from 0 to 8, and the order is met when its write comes |
| Setters.CleanSettersAreRight | src/libs/loggingf_wrapper/details/manager.c:470-481 | The same, against the same book of orders, in every run of either policy whose late reads are clean |
| Setters.StrandedSetter | src/libs/loggingf_wrapper/details/manager.c:328-337 | Where a first call can be stranded, the setter that makes it leaves a write to the wrong place |
| Setters.NextAgrees | src/libs/loggingf_wrapper/details/manager.c:328-337 | Each move does to the setters under way what it does to the book: the write that comes is the one that the call of its thread ordered |
| SettersAlone.SetterAlone | src/libs/loggingf_wrapper/details/manager.c:470-481 | A setter whose moves run alone from rest, in whatever order they are tried and with whatever memory: once it has ended, names, capacity and levels are those that the one call of the sequential registry leaves, and its get-or-create has answered as that call does |
| SettersAlone.SetterAloneEnds | src/libs/loggingf_wrapper/details/manager.c:328-337 | Wherever such a setter has got to, its own moves bring it to its end |
| Freeze.FrozenRun | src/libs/loggingf_wrapper/details/manager.c:450-468 | In every interleaving after the freeze: a setter that read the flag as clear before it writes exactly once or is still pending, no other setter writes, and the level ends as it was or as one of them sets it |
| Freeze.LevelCanChangeIff | src/libs/loggingf_wrapper/details/manager.c:450-468 | After the freeze the level can still change if and only if some pending setter carries another level |
| Freeze.FreezeIsFinalWhenQuiet | src/libs/logging_wrapper/details/manager.cpp:81-98 | With no setter pending at the freeze, the level is constant in every interleaving |
| Freeze.SetAloneIsSetGlobal | src/libs/loggingf_wrapper/details/manager.c:450-459 | A setter whose accesses are not interrupted is the sequential setter |
| Freeze.FreezeAloneIsSetImmutable | src/libs/loggingf_wrapper/details/manager.c:461-468 | A freezing call whose accesses are not interrupted is the sequential one |
| Freeze.AccessesOfACall | src/libs/loggingf_wrapper/details/manager.c:450-468 | Uninterrupted, a setter makes one access if it is refused and two if it writes; a freezing call one if the flag is set, three if its level is refused, four if it writes |
| Freeze.AloneIsCpp | src/libs/logging_wrapper/details/manager.cpp:81-98 | The uninterrupted setter and freezing call are those of the C++ manager as well |
| Freeze.LevelStaysInRange | src/libs/logging_wrapper/details/manager.cpp:81-98 | Whatever the schedule, the level that the setters leave is a valid one if the first was |
| Freeze.LateSetterWins | src/libs/loggingf_wrapper/details/manager.c:450-468 | A schedule in which a setter past its check overwrites the frozen level |
| Freeze.FreezeHoldsIffOneCaller | src/libs/loggingf_wrapper/details/manager.c:450-468 | Whatever the schedule, the level stays from the freeze on if and only if at most one thread calls the setters |
| CppRegistry.EveryReachableStateIsCoherent | src/libs/logging_wrapper/manager.h:426-449 | In every state reachable from the start of the process the level in a holder is valid and equals the level in its lazily created logger |
| CppRegistry.LevelIsLastSet | src/libs/logging_wrapper/details/manager.cpp:100-113 | A channel's level is the last accepted set since the last deinit, before or after the creation of its logger, or debug |
| CppRegistry.HandleFollowsChannel | src/libs/logging_wrapper/manager.h:455-488 | A handle answers by the last accepted set for its channel until the first deinit and keeps that level for ever after |
| CppRegistry.DetachedIsFrozen | src/libs/logging_wrapper/details/manager.cpp:54-60 | No later call changes the level or the name of a logger that outlived a deinit |
| CppRegistry.GetGivesAttached | src/libs/logging_wrapper/manager.h:455-475 | A request gives the channel's own logger at the channel's level: the one it had, with nothing changed, or a new one |
| CppRegistry.DefaultInTwoSections | src/libs/logging_wrapper/manager.h:477-488 | A get with a default level whose two locked sections have any calls of other threads between them gives the channel's own logger, at the default or at what those calls set last |
| CppRegistry.GlobalIsLast | src/libs/logging_wrapper/details/manager.cpp:35-98 | After any calls from the start of the process, the global level, the freeze and the once flag are those of an account of the calls: info (6) at first, each valid level asked for by a setter, a freezing call or an init before the first that completes, unless frozen, and warning (4), unfrozen, after a deinit |
| CppRegistry.InitOnlyOnce | src/libs/logging_wrapper/details/manager.cpp:62-70 | After an init whose callback returned, a second one changes nothing, and after a deinit the level is warning whatever it asks; after an init whose callback threw, the next one has its full effect |
| CppRegistry.DeinitResets | src/libs/logging_wrapper/details/manager.cpp:54-60 | A deinit lifts the freeze, sets the level to warning, puts every channel back to debug, and leaves the loggers that handles refer to as they are |
| CppRegistry.FreezeUntilDeinit | src/libs/logging_wrapper/details/manager.cpp:81-98 | Between two deinits the freeze is final |
| CppManager.LoggerHolder.GetLogger | src/libs/logging_wrapper/manager.h:426-449 | The logger is created on the first request with the holder's name and level, and the same object is given ever after |
| CppManager.SetBoth | src/libs/logging_wrapper/details/manager.cpp:43-49 | Setting a level changes both copies for the one channel and no other holder or logger |
| CppManager.Manager.RegisterLogger | src/libs/logging_wrapper/details/manager.cpp:72-79 | A registration keeps an entry that the map already has |
| CppManager.Manager.SetLoggerLevel | src/libs/logging_wrapper/details/manager.cpp:100-113 | On the heap, a set of an unknown channel registers it and a set of a known one changes both copies |
| CppManager.Manager.GetLogger | src/libs/logging_wrapper/manager.h:455-475 | On the heap, a get is the transition of the registry, and loggers given out before are the same objects |
| CppManager.Manager.GetLoggerDfl | src/libs/logging_wrapper/manager.h:477-488 | On the heap: a set and a get, each under the mutex, with any sections of other threads between them |
| CppManager.Manager.SetImmutableGlobalLevel | src/libs/logging_wrapper/details/manager.cpp:92-98 | The first freeze sets a valid level and the flag |
| CppManager.Manager.Init | src/libs/logging_wrapper/details/manager.cpp:62-70 | The level is set and the once flag raised only while no callback has returned; a callback that throws leaves the flag clear and the level set |
| CppManager.Manager.Deinit | src/libs/logging_wrapper/details/manager.cpp:54-60 | The registry is emptied and unfrozen at level warning; no logger object that a handle refers to is written |
| Timestamp.FormatLength | src/libs/logging_wrapper/details/manager.cpp:129-131 | The text is exactly 23 characters if and only if no field outgrows its width, and never shorter |
| Timestamp.ParseInvertsFormat | src/libs/logging_wrapper/details/manager.cpp:129-131 | Printing and parsing are inverse: fields that fit read back, and any text that parses is the print of what it parses to |
| Timestamp.TextOfClock | src/libs/loggingf_wrapper/details/manager.c:497-499 | The text of a clock reads back as the calendar year and month, counted from 1900 and from 0 in `struct tm`, and the whole milliseconds of its microseconds |
| Timestamp.TextOfOneClock | src/libs/logging_wrapper/details/manager.cpp:129-131 | The text of one clock, character by character |
| Timestamp.TimestampsSort | src/libs/loggingf_wrapper/details/manager.c:497-499 | Timestamps compare lexicographically exactly as their fields compare in time order |
| Timestamp.WriteTimestamp | src/libs/loggingf_wrapper/details/manager.c:483-506 | The buffer and the result on success, on a clock that fails and on a print that fails, where the template "yyyy-MM-dd hh:mm:ss.mil" stands, whether or not the text fits in `size`, and that the final terminator lies outside the buffer exactly when the text is as long as the buffer or longer |
| Timestamp.TerminatorInBoundsIff | src/libs/loggingf_wrapper/details/manager.c:504-504 | For every clock time with a four-digit year, the terminator is in bounds exactly for buffers of 24 bytes or more |
| Timestamp.TimestampString | src/libs/logging_wrapper/details/manager.cpp:140-147 | The string has 23 characters, and is the full text, or the template on failure, whenever the text fits |

## Left out

- Threads.Step: the double check and the insertion are one step. Between its lock and its unlock no other thread writes, and the one thing another thread may read there, its own slot after its unlock, is changed by an insertion only where nothing was stored. In the resize, the walk to the end of a new chain is one step with the store that follows it: it reads links that only its own thread writes. That the walk finds that slot is `LoggingManager.WalkToTail`.
- LoggingManager.Manager.Perform: a program is given the loggers in the order in which they are registered, also those that a set created; a message to a number it has not been given goes to the null logger.
- Threads: levels are added in `Setters.dfy`, as atomic fields; a write through an address of no logger changes no level there. Deinit while another thread is inside a call is assumed not to happen.
- Timestamp.WriteTimestamp: what a failing `snprintf` leaves in the buffer behind the template, within `size`, is not known. The clock, the time zone and the calendar are an input, and the sum `tm_year + 1900` is assumed to fit `int`.
- LoggingManager: the truncation of the bucket index to `int` and the overflow of the doubled capacity are outside the assumption above. Freed blocks are tracked by a ghost set, so the reuse of an address by a later allocation is not modelled.
- LoggingManager.Library.InitLogging: the asserts on a second init, on a null output function and on a missing manager are preconditions. The initialisation of the lock is a flag that says whether it succeeded.
- CppManager.Manager.Init: what the callback does is not modelled, only whether it returns. Calls that it makes to the manager are calls of a run; an init inside it is not modelled.
- CppManager.Manager.GetLogger: one channel requested with two logger types is not modelled; the type parameter is dropped.
- Output functions, `printf` formatting and stream chaining: the backend is a list of lines, and a message text is a number.
- Writing the public `level` field of a logger directly: only the functions of the managers write it.
- Severity names, text tags, the `_LOG` macros of the C++ side, accessors, the wildcard matcher of the test library, examples and build files: they would add only easy members.
