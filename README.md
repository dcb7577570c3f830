# MiCA gossip core in Dafny

This project models the core of MiCA, a Java middleware for gossip
protocols. A MiCA protocol is a class with three annotated members:

- a `select` member that picks a peer;
- an `update` method that merges two instances;
- a `rate` method.

The runtime binds these members by reflection. It then runs pull-gossip
exchanges: the initiator sends its protocol instance and its runtime state.
The receiver runs `update` on that visiting copy, with its own instance as
the argument, and sends the visitor back. The initiator adopts what comes
back.

The model covers:

- **the exchange engine** of `SimpleRuntimeAgent` (`exchange.dfy`). This is
  `select`, the initiator's `gossip`, the receiver's `acceptConnection`, and
  the exception classification of `runGossipUpdate` and `getRate`.
  Messages are plain values. A connection is a one-shot channel whose faults
  are fixed when it is made. The peer's reply is a function of the request
  it receives. The update method found by reflection is a function from the
  visitor, the host and the foreign runtime state to the visitor's state
  afterwards and the way the call ended.
- **the binding** of `select`, `update` and `rate` in `process` and the
  `locate*` methods (`binding.dfy`). Reflection becomes a list of elements.
  Each element has a kind, its annotations, and the depth of its declaring
  class below the protocol class. "Most-derived declaring class wins" is
  then "least depth wins".
- **the runtime's bookkeeping** in `Runtime` (`runtimes.dfy`, `java_int.dfy`):
  - the static UID counter, with Java's 32-bit wrap-around;
  - the thread-local "current runtime" slot;
  - the cached log file name;
  - the JSON-log guard;
  - the diagnostic handlers, `punt` and `fatal`.
- **the multi-runtime registry** `A1RuntimeInterface` (`a1.dfy`). Runtimes
  are registered with start times, sorted by start time, and started one
  after another. Each sleep is replaced by the delay the loop would sleep.
- **protocol naming and defaults** in `BaseProtocol` (`protocols.dfy`).
  `DEFAULT_STATE_STRING` is `"-"` and `DEFAULT_RATE` is `1.0`.
- **the array helpers** in `util/Array.java` (`arrays.dfy`).
- **both copies of the example protocol `FindMinPull`** (`find_min.dfy`,
  `find_min_sugar.dfy`). `decimal.dfy` holds the `%d` rendering its
  `getStateString` uses.
- **a full pull round** between two runtimes (`scenarios.dfy`). It puts
  `gossip` and `acceptConnection` together, and instantiates it with
  FindMinPull's update.

Java exceptions are values of the `Throwable` datatype (`throwables.dfy`).
Calls that can throw return a `Result`, a `Status` or a `Completion`.

## Model

| member | source | states |
|---|---|---|
| Arrays.ArrayCopy | src/org/princehouse/mica/util/Array.java:38 | System.arraycopy: the block `src[srcPos..srcPos+length]` replaces the same-length block of dst at dstPos, and every other element of dst is unchanged |
| Arrays.Append | src/org/princehouse/mica/util/Array.java:4-16 | a freshly allocated array holding src followed by x; src is not modified |
| Arrays.Prepend | src/org/princehouse/mica/util/Array.java:18-30 | a freshly allocated array holding x followed by src |
| Arrays.SubArray | src/org/princehouse/mica/util/Array.java:36-40 | a negative length fails with NegativeArraySizeException; a range outside src fails with ArrayIndexOutOfBoundsException; otherwise a fresh array equal to `src[start..start+length]` |
| Arrays.SubArrayFrom | src/org/princehouse/mica/util/Array.java:32-34 | the suffix of src from start. The length `src.length - start` is a Java int: a start past the end, or one so far below zero that the subtraction wraps (Integer.MIN_VALUE, say), fails with NegativeArraySizeException; any other negative start fails with ArrayIndexOutOfBoundsException |
| JavaInt.WrapAboveMax | src/org/princehouse/mica/util/Array.java:33 | an int subtraction whose true value lies between Integer.MAX_VALUE and 2^32 wraps to that value minus 2^32, which is negative |
| Arrays.Join | src/org/princehouse/mica/util/Array.java:42-52 | the loop computes the elements' strings ("null" for null) separated by exactly one bridge each: "" for no elements, the element's own string for one |
| Arrays.JoinLength | src/org/princehouse/mica/util/Array.java:46-52 | a join of n strings is as long as the strings together plus n-1 bridges |
| Arrays.JoinSplit | src/org/princehouse/mica/util/Array.java:46-52 | with a one-character bridge that no element contains, splitting at the bridge gives back the elements |
| JavaInt.Increment | src/org/princehouse/mica/base/model/Runtime.java:69 | `i++` on a Java int adds one below Integer.MAX_VALUE and wraps to Integer.MIN_VALUE at it |
| Runtimes.UidCounter.constructor | src/org/princehouse/mica/base/model/Runtime.java:58 | the counter starts at 0 |
| Runtimes.UidCounter.GetNewUID | src/org/princehouse/mica/base/model/Runtime.java:67-72 | returns the counter's old value and advances the counter by a 32-bit increment |
| Runtimes.IssuedUidAt | src/org/princehouse/mica/base/model/Runtime.java:67-72 | the i-th UID handed out from counter value c is c + i wrapped to 32 bits |
| Runtimes.UidsDistinct | src/org/princehouse/mica/base/model/Runtime.java:67-72 | any 2^32 successive UIDs are pairwise distinct, even across the wrap-around |
| Runtimes.UidsIncreasing | src/org/princehouse/mica/base/model/Runtime.java:67-72 | until Integer.MAX_VALUE is reached, successive UIDs increase by exactly one |
| Runtimes.SlotAfterSet | src/org/princehouse/mica/base/model/Runtime.java:301-307 | setRuntime fails exactly when a runtime is set and the new one is non-null; otherwise the slot holds the new value, and null always empties it |
| Runtimes.SlotAfterClear | src/org/princehouse/mica/base/model/Runtime.java:316-322 | clearRuntime fails exactly when a different runtime is current; otherwise the slot is empty |
| Runtimes.SetThenClear | src/org/princehouse/mica/base/model/Runtime.java:301-322 | setting a runtime into an empty slot and clearing it again succeeds and leaves the slot empty |
| Runtimes.RuntimeSlot.constructor | src/org/princehouse/mica/base/model/Runtime.java:299 | the thread-local slot starts empty |
| Runtimes.RuntimeSlot.SetRuntime | src/org/princehouse/mica/base/model/Runtime.java:301-307 | throws "two runtimes in one thread" exactly when the slot is occupied and rt is non-null, leaving the slot as it was; otherwise the slot holds rt |
| Runtimes.RuntimeSlot.GetRuntime | src/org/princehouse/mica/base/model/Runtime.java:309-314 | throws on an empty slot; otherwise returns exactly the runtime in the slot |
| Runtimes.RuntimeSlot.ClearRuntime | src/org/princehouse/mica/base/model/Runtime.java:316-322 | throws "replace active runtime" exactly when another runtime is current; otherwise empties the slot |
| Runtimes.ReplaceSlashes | src/org/princehouse/mica/base/model/Runtime.java:86 | replace("/", "_"): same length, each "/" becomes "_", every other character is kept |
| Runtimes.LogFileName | src/org/princehouse/mica/base/model/Runtime.java:85-87 | the name is the address with slashes replaced, plus ".log"; it holds no "/" |
| Runtimes.LogFileNameMergesSlashAndUnderscore | src/org/princehouse/mica/base/model/Runtime.java:85-87 | the addresses "a/b" and "a_b" get the same log file name |
| Runtimes.Punt | src/org/princehouse/mica/base/model/Runtime.java:265-267 | punt always throws a RuntimeException whose cause is the given exception |
| Runtimes.Runtime.constructor | src/org/princehouse/mica/base/model/Runtime.java:74-78 | no log file yet, log directory "mica_log", no instance, no foreign state |
| Runtimes.Runtime.GetLogFile | src/org/princehouse/mica/base/model/Runtime.java:80-90 | the first call computes and caches `mica_log/<address with / as _>.log`; later calls return the cached file |
| Runtimes.Runtime.SetLogFile | src/org/princehouse/mica/base/model/Runtime.java:92-94 | overrides the cached log file |
| Runtimes.Runtime.LogJson | src/org/princehouse/mica/base/model/Runtime.java:160-212 | with JSON logging off, nothing changes; otherwise the log file is fixed, and one event is appended unless the file cannot be opened |
| Runtimes.Runtime.Tolerate | src/org/princehouse/mica/base/model/Runtime.java:277-281 | returns normally and records one "suppressed" diagnostic |
| Runtimes.Runtime.HandleUpdateException | src/org/princehouse/mica/base/model/Runtime.java:283-286 | returns normally and records one "update execution" diagnostic |
| Runtimes.Runtime.HandleSelectException | src/org/princehouse/mica/base/model/Runtime.java:288-291 | returns normally and records one "select execution" diagnostic |
| Runtimes.Runtime.Fatal | src/org/princehouse/mica/base/model/Runtime.java:269-275 | calls stop exactly once; the exit that follows is the caller's Halted outcome |
| Runtimes.Runtime.SetProtocolInstance | src/org/princehouse/mica/base/model/Runtime.java:246-252 | the runtime's protocol instance becomes p |
| Runtimes.Runtime.Configure | src/org/princehouse/mica/base/a1/A1RuntimeInterface.java:47-49 | sets the random seed, round length and lock timeout |
| Runtimes.Runtime.Stop | src/org/princehouse/mica/base/model/Runtime.java:257 | counts one more call of the subclass's stop |
| Protocols.FreshName | src/org/princehouse/mica/base/BaseProtocol.java:89 | "p" followed by the UID in decimal, which reads back as the UID |
| Protocols.FreshNamesDistinct | src/org/princehouse/mica/base/BaseProtocol.java:87-92 | two default names are equal exactly when their UIDs are |
| Protocols.LogstateMessage | src/org/princehouse/mica/base/BaseProtocol.java:119-121 | the logstate message is "state," followed by the state string |
| Protocols.DefaultLogstate | src/org/princehouse/mica/base/BaseProtocol.java:119-129 | with the default state string "-", logstate logs "state,-" |
| Protocols.Bracketed | src/org/princehouse/mica/base/BaseProtocol.java:48-50 | `[name@address]`, with name and address at their positions |
| Protocols.BaseProtocol.constructor | src/org/princehouse/mica/base/BaseProtocol.java:32 | a new protocol has no name (the field starts as null) |
| Protocols.BaseProtocol.GetName | src/org/princehouse/mica/base/BaseProtocol.java:87-92 | a set name is returned with no UID used; an unnamed protocol takes "p" + a fresh UID, stores it and uses exactly one UID |
| Protocols.BaseProtocol.SetName | src/org/princehouse/mica/base/BaseProtocol.java:96-99 | stores the name and returns the receiver itself |
| Protocols.BaseProtocol.ToString | src/org/princehouse/mica/base/BaseProtocol.java:47-54 | "[!]" when there is no current runtime, otherwise `[name@address]`; the name is assigned either way |
| Protocols.NamedThenGet | src/org/princehouse/mica/base/BaseProtocol.java:87-99 | after setName(n), getName returns n and uses no UID |
| Protocols.GetNameTwice | src/org/princehouse/mica/base/BaseProtocol.java:87-92 | two getName calls on an unnamed protocol return the same "p<uid>" and use one UID |
| FindMin.MinPull | src/org/princehouse/mica/example/FindMinPull.java:35-36 | Math.min: no greater than either value, and equal to one of them |
| FindMin.MinPullFixedPoint | src/org/princehouse/mica/example/FindMinPull.java:35-36 | pulling from an equal value changes nothing |
| FindMin.MinPullIdempotent | src/org/princehouse/mica/example/FindMinPull.java:35-36 | repeating the same pull changes nothing more |
| FindMin.FindMinPull.constructor | src/org/princehouse/mica/example/FindMinPull.java:27-30 | x is the given value |
| FindMin.FindMinPull.Update | src/org/princehouse/mica/example/FindMinPull.java:32-37 | x becomes min(old x, other.x) and other is unchanged; a null argument throws NullPointerException and x is unchanged |
| FindMin.FindMinPull.GetStateString | src/org/princehouse/mica/example/FindMinPull.java:39-41 | the decimal rendering of x, which parses back to x |
| Decimal.DecimalString | src/org/princehouse/mica/example/FindMinPull.java:40 | the `%d` rendering: never empty, with a leading "-" exactly for negative values |
| Decimal.DecimalRoundTrip | src/org/princehouse/mica/example/FindMinPull.java:40 | parsing the `%d` rendering of any integer gives the integer back |
| Decimal.DecimalInjective | src/org/princehouse/mica/example/FindMinPull.java:40 | two integers have the same `%d` rendering exactly when they are equal |
| FindMinSugar.FindMinPull.constructor | src/main/java/org/princehouse/mica/example/FindMinPull.java:21-24 | x is the given value |
| FindMinSugar.FindMinPull.Update | src/main/java/org/princehouse/mica/example/FindMinPull.java:26-32 | another protocol class throws ClassCastException, null throws NullPointerException, both leaving x unchanged; a FindMinPull sets x to min(old x, other.x) and leaves other unchanged |
| FindMinSugar.PullFromThree | src/main/java/org/princehouse/mica/example/FindMinPull.java:28-32 | an instance holding 5 updated against one holding 3 ends with 3, and the other still holds 3 |
| FindMinSugar.UpdateTwice | src/main/java/org/princehouse/mica/example/FindMinPull.java:30-31 | applying the same update twice leaves x where the first left it |
| A1.SortByStart | src/org/princehouse/mica/base/a1/A1RuntimeInterface.java:68-73 | the sorted registry has the same runtimes with the same multiplicities |
| A1.SortByStartStable | src/org/princehouse/mica/base/a1/A1RuntimeInterface.java:68-73 | the sort is stable: for every start time, the runtimes with that start time appear in the sorted registry in the same order as in the registration order |
| A1.InsertKeepsSorted | src/org/princehouse/mica/base/a1/A1RuntimeInterface.java:68-73 | inserting a runtime into a registry sorted by start time keeps it sorted |
| A1.SortByStartSorted | src/org/princehouse/mica/base/a1/A1RuntimeInterface.java:68-73 | the sorted registry is in ascending order of start time |
| A1.PermutationKeepsRegistry | src/org/princehouse/mica/base/a1/A1RuntimeInterface.java:68-73 | reordering the registry keeps it free of duplicates and keeps its set of runtimes |
| A1.CumulativeDelay | src/org/princehouse/mica/base/a1/A1RuntimeInterface.java:75-88 | the delays slept up to and including the k-th start add up to the k-th start time |
| A1.StartSchedule | src/org/princehouse/mica/base/a1/A1RuntimeInterface.java:75-88 | with ascending, non-negative start times, no delay is negative, and each runtime starts after exactly its start time |
| A1.A1RuntimeInterface.constructor | src/org/princehouse/mica/base/a1/A1RuntimeInterface.java:22-24 | no runtimes, no start times, not running, slot empty |
| A1.A1RuntimeInterface.AddRuntime | src/org/princehouse/mica/base/a1/A1RuntimeInterface.java:35-53 | appends exactly one fresh runtime and records its start time; the runtime carries the address, protocol and settings; nothing else in the registry changes; the slot is empty on return |
| A1.A1RuntimeInterface.Run | src/org/princehouse/mica/base/a1/A1RuntimeInterface.java:57-88 | an empty registry throws IndexOutOfBoundsException and changes nothing; otherwise running is set and the registry becomes its stable sort by start time (an ascending permutation of itself, equal start times keeping their registration order); a negative first start time throws IllegalArgumentException before any start; otherwise every runtime is started once, in sorted order, after the delays `t1 - t0`, and the slot is empty afterwards |
| A1.A1RuntimeInterface.SortRegistry | src/org/princehouse/mica/base/a1/A1RuntimeInterface.java:67-73 | the registry becomes its sort by start time: an ascending permutation of itself |
| A1.A1RuntimeInterface.StartInOrder | src/org/princehouse/mica/base/a1/A1RuntimeInterface.java:75-88 | on a sorted registry: the loop's delays are exactly the `t1 - t0` schedule, each runtime is started once in registry order, and the slot is cleared after each start |
| A1.A1RuntimeInterface.Stop | src/org/princehouse/mica/base/a1/A1RuntimeInterface.java:104-110 | running becomes false and every registered runtime is stopped exactly once; nothing else changes, in the registry or in the runtimes |
| A1.A1RuntimeInterface.Reset | src/org/princehouse/mica/base/a1/A1RuntimeInterface.java:26-32 | every runtime is stopped once, then no runtimes, no start times and running is false; the slot, the start log and the runtimes' other fields are kept |
| Binding.FindExactlyOne | src/org/princehouse/mica/base/simple/SimpleRuntimeAgent.java:240-243 | NotFound exactly when nothing is annotated; One names the only annotated element; TooMany lists all annotated elements, at least two |
| Binding.Locate | src/org/princehouse/mica/base/simple/SimpleRuntimeAgent.java:236-287 | locateUpdateMethod and locateFrequencyMethod: an element found is annotated and in the list; a TooMany lists at least two annotated elements of the list |
| Binding.Matching | src/org/princehouse/mica/base/simple/SimpleRuntimeAgent.java:240-243 | the candidates are exactly the elements carrying a wanted annotation |
| Binding.TieBreak | src/org/princehouse/mica/base/simple/SimpleRuntimeAgent.java:244-259 | the tie-break never reports NotFound, and a TooMany it reports lists at least two elements |
| Binding.LocateNotFound | src/org/princehouse/mica/base/simple/SimpleRuntimeAgent.java:236-261 | NotFound exactly when no element carries the annotation |
| Binding.LocateOne | src/org/princehouse/mica/base/simple/SimpleRuntimeAgent.java:244-259 | the lookup succeeds exactly when the most-derived declaring class declares one annotated element |
| Binding.LocateFound | src/org/princehouse/mica/base/simple/SimpleRuntimeAgent.java:244-259 | the element found is annotated, is declared in the most-derived class that declares any, and is alone there |
| Binding.LocateTooMany | src/org/princehouse/mica/base/simple/SimpleRuntimeAgent.java:271-286 | TooMany lists the annotated elements of the most-derived declaring class, at least two of them |
| Binding.TieBreakStable | src/org/princehouse/mica/base/simple/SimpleRuntimeAgent.java:314-328 | running the tie-break again on the options of its own TooMany gives the same TooMany |
| Binding.SelectorFor | src/org/princehouse/mica/base/simple/SimpleRuntimeAgent.java:334-358 | @Select on a method or field gives a method or field selector; @SelectUniformRandom only on a field; both annotations are rejected as multiple; anything else is an invalid entity |
| Binding.LocateSelectAsWritten | src/org/princehouse/mica/base/simple/SimpleRuntimeAgent.java:289-360 | locateSelectMethod as written; wherever it does not reach the tests on a null element, its result is the corrected lookup's |
| Binding.LocateSelect | src/org/princehouse/mica/base/simple/SimpleRuntimeAgent.java:289-360 | locateSelectMethod with the superclass's selector kept; it never reaches the tests on a null element |
| Binding.DefersToSuperclass | src/org/princehouse/mica/base/simple/SimpleRuntimeAgent.java:307-313 | a class that declares no select element has its superclass's selector |
| Binding.AsWrittenAgreesWhenInheritedListed | src/org/princehouse/mica/base/simple/SimpleRuntimeAgent.java:299-358 | if each class's element list includes the select elements it inherits, the code as written and the corrected lookup agree on every class |
| Binding.LocateSelectNotFound | src/org/princehouse/mica/base/simple/SimpleRuntimeAgent.java:307-313 | NotFound only when no class up the hierarchy declares a select element |
| Binding.LocateSelectUsesFirstDeclaring | src/org/princehouse/mica/base/simple/SimpleRuntimeAgent.java:307-313 | the selector is the one of the first class up the hierarchy that declares a select element |
| Binding.AsWrittenAgreesOnOwnSelect | src/org/princehouse/mica/base/simple/SimpleRuntimeAgent.java:299-358 | when the class declares its own select element, the code as written and the corrected lookup agree |
| Binding.AsWrittenLosesInheritedSelect | src/org/princehouse/mica/base/simple/SimpleRuntimeAgent.java:307-358 | when the select element is inherited and the superclass lookup succeeds, the code as written fails |
| Binding.InheritedSelectCounterexample | src/org/princehouse/mica/base/simple/SimpleRuntimeAgent.java:307-358 | a concrete class with an inherited @Select method: the code as written fails, and the corrected lookup binds the inherited method |
| Binding.SelectFailure | src/org/princehouse/mica/base/simple/SimpleRuntimeAgent.java:199-208 | NotFound and TooMany from the select lookup become a CompilerException for select; the invalid-entity RuntimeException passes through |
| Binding.MethodFailuresAreCompilerExceptions | src/org/princehouse/mica/base/simple/SimpleRuntimeAgent.java:210-228 | a failed update or rate lookup is a CompilerException for that stage, caused by NotFound exactly when nothing is annotated |
| Binding.SimpleRuntimeAgent.constructor | src/org/princehouse/mica/base/simple/SimpleRuntimeAgent.java:107-113 | no selector, update method or rate method yet |
| Binding.SimpleRuntimeAgent.Process | src/org/princehouse/mica/base/simple/SimpleRuntimeAgent.java:196-234 | select, update and rate are located in turn; the first failure ends process and leaves the later fields as they were; success binds all three |
| Binding.NewAgent | src/org/princehouse/mica/base/simple/SimpleRuntimeAgent.java:122-125 | construction succeeds exactly when all three lookups do, and the agent is then bound to their results |
| Exchange.ClassifyInvocation | src/org/princehouse/mica/base/simple/SimpleRuntimeAgent.java:423-444 | IllegalArgument and IllegalAccess are fatal; a RuntimeException from the target is rethrown unchanged; any other target exception is wrapped in a RuntimeException; whatever is thrown is a RuntimeException |
| Exchange.RunGossipUpdate | src/org/princehouse/mica/base/simple/SimpleRuntimeAgent.java:423-444 | the update runs on the visitor with the host as argument and sees the current foreign state; its outcome is classified, and a fatal one stops the runtime once |
| Exchange.GetRate | src/org/princehouse/mica/base/simple/SimpleRuntimeAgent.java:457-477 | the rate call is classified the same way, and a fatal one stops the runtime once |
| Exchange.Select | src/org/princehouse/mica/base/simple/SimpleRuntimeAgent.java:128-134 | no peer exactly when there is no distribution or its sample is null (as for an empty distribution); a peer returned is the sample drawn with the next random long |
| Exchange.Connection.constructor | src/org/princehouse/mica/base/simple/SimpleRuntimeAgent.java:137 | the `Connection` handed to gossip and acceptConnection (its interface is not part of this model): it starts with nothing written and no close call, its faults and its peer's replies fixed when it is made |
| Exchange.Gossip | src/org/princehouse/mica/base/simple/SimpleRuntimeAgent.java:137-189 | a failed write punts the IOException and nothing else happens; otherwise the request holds the local instance and the runtime's state; a SocketException on open returns early with nothing changed and no close; any other IOException is tolerated; a missing response class punts with no close; a response read sets the instance to the response's and merges the response's state into the runtime's; every other path closes the connection, tolerating a close failure |
| Exchange.ReceiverResponse | src/org/princehouse/mica/base/simple/SimpleRuntimeAgent.java:386-404 | the response carries the request's own runtime state back |
| Exchange.AcceptConnection | src/org/princehouse/mica/base/simple/SimpleRuntimeAgent.java:373-414 | the host instance and state never change; EOF on open is tolerated; other open failures and read failures propagate; a missing request class ends quietly; otherwise the foreign state is set, the update runs, a RuntimeException goes to handleUpdateException, the foreign state is cleared, and the visitor is sent back with the request's state; a fatal update halts with no reply |
| Scenarios.PullRound | src/org/princehouse/mica/base/simple/SimpleRuntimeAgent.java:137-189 | over fault-free connections, the initiator ends with the visitor the update produced against the receiver's instance; it merges its own state with itself; the receiver's instance is unchanged and its foreign state cleared |
| Scenarios.MinUpdate | src/org/princehouse/mica/example/FindMinPull.java:32-37 | FindMinPull's update as the exchange sees it: the visitor keeps the smaller value and the call returns |
| Scenarios.MinPullRounds | src/main/java/org/princehouse/mica/example/FindMinPull.java:30-31 | with the nodes holding a and b, a pull round leaves the initiator with the minimum of a and b, a second round changes nothing, and the receiver still holds b |
| Scenarios.FiveMeetsThree | src/main/java/org/princehouse/mica/example/FindMinPull.java:28-32 | a node holding 5 pulling from a node holding 3 ends with 3, and the other node still holds 3 |

## Left out

- Java serialization (`ObjectOutputStream`, `MarkingObjectInputStream`, `BaseProtocol.readObject`) is not modelled. A message that is read back equals the message written. The foreign object set that `setForeignState` receives is not modelled either. The unchecked casts of what is read (a ClassCastException) are also left out.
- Reflection is not modelled. `Method.invoke`, `getMethods` and `getAnnotatedElements` are given as element lists. Annotation tests are set membership. The subclass comparator is the order on declaring-class depth.
- Sockets, ReentrantLocks and thread-local storage are not modelled. The current-runtime slot is one slot. `A1RuntimeInterface.setRuntime`, which goes through `ThreadLocalRuntimeMechanism`, is modelled as plain writes to the registry's own slot field. ThreadLocalRuntimeMechanism is not part of this model.
- Timing is not modelled. `Thread.sleep` becomes the sequence of delays; only its IllegalArgumentException on a negative delay is kept. The `while (running)` wait loop and the final `stop()` of `run` are not modelled. Neither are `scheduleTask`, clocks and `Random`; `select` takes the next random long as a parameter.
- A1.A1RuntimeInterface.Run: A1 calls a Runtime API that is not in model/Runtime.java: `start()`, `logJson(LogFlag, ...)`, `setRandomSeed`, `setRoundLength` and `setLockWaitTimeout`. The `logJson` call on the first runtime is not modelled. Each `rt.start()` is recorded as an entry in the registry's start log. `Configure` stands for the three setters. The int subtraction `t1 - t0` cannot overflow: t0 starts at 0, a negative first start time throws at the first sleep, and otherwise the times are non-negative and ascending, so every delay lies between 0 and Integer.MAX_VALUE (A1.StartSchedule).
- Logging output is not modelled: the debug and error streams, `logCsv`, `logstate` and Gson. `LogJson` records the event as a value. `mkdirs` and `setLogDirectory`'s existence checks are left out because they are file-system effects.
- Runtimes.Runtime.Fatal: `System.exit(1)` is not modelled inside the method. The callers in the exchange end with a `Halted` outcome instead.
- `Distribution`, `RuntimeState` and its `update`, the selectors and the Merge operators are outside the modelled files. The model keeps them abstract: a sampling function, an opaque state type and a `merge` function. The sampling function returns no address for a sample that is null, which is what sampling an empty distribution gives.
- Floating-point rates are not modelled. `DEFAULT_RATE` is the constant 1.0, and `GetRate` is generic in the rate's type.
- Exchange.Gossip: after a response is read, the `logstate()` call under `LOGGING_CSV` and the `rt.logJson("state", ...getLogState())` call are not modelled. So the JSON log and the cached log file name are not in Gossip's frame, and an exception thrown by `getLogState` is not modelled.
- Exchange.RunGossipUpdate: an update that mutates its argument (the host) is not modelled. Only the visitor's state after the call is kept.
- Binding.LocateSelect: the message-only TooManyException for an element with both select annotations is not modelled when it comes from a superclass frame. The calling frame catches it and re-groups its options, and `TooManyException.getOptions` is outside the modelled files. The model lets it propagate unchanged.
- Binding.LocateSelectAsWritten: the model takes `hasAnnotation` on a null element to throw NullPointerException.
- Binding.SimpleRuntimeAgent.Process, Binding.NewAgent: these use the corrected lookup `LocateSelect`. A class whose element list lacks a select element its superclass declares is bound to the inherited selector; the code as written throws there instead (see Findings). `FunctionalReflection.getAnnotatedElements` is outside the modelled files, so each class's element list is taken as given. If it lists inherited members as well, the two lookups agree on every class (Binding.AsWrittenAgreesWhenInheritedListed).
- Arrays.Append, Arrays.Prepend, Arrays.SubArray, Arrays.SubArrayFrom, Arrays.Join: a null `src` (NullPointerException) is not modelled, because Dafny arrays are non-null. A null `bridge` in `join`, which Java renders as "null", is not modelled either: the bridge is a string. `SubArray` takes unbounded integers; the Java int bounds matter only for the subtraction in `SubArrayFrom`, which is modelled.
- Protocols.LogstateMessage: `logstate` hands the message to `log` as a format string. A '%' in the state string therefore changes the logged text or throws a format exception. The model gives the message before formatting, which is what is logged when the state string holds no '%'.
- Protocols.BaseProtocol.ToString: the address comes from `getRuntimeState().getAddress()`. The model uses the current runtime's address, because RuntimeState is abstract here.
- Protocol interfaces with no logic, `RuntimeErrorCondition`, the test mains, `SocketConnection` and `AddressStringConverter` are not modelled.

## Findings

| source | as written | input that shows it | evidently intended | confidence | as-written member | corrected member |
|---|---|---|---|---|---|---|
| src/org/princehouse/mica/base/simple/SimpleRuntimeAgent.java:307-358 | when the class declares no select element, the superclass lookup runs and installs its selector. Control then falls through to the annotation tests with `selectElement` still null, so the lookup fails | a protocol class `Sub` with no select element whose superclass `Base` declares an `@Select` method | an inherited select element is bound, as for one declared in the class itself. Whether any class reaches this path depends on whether `getAnnotatedElements` lists inherited members; if it does, the two agree (Binding.AsWrittenAgreesWhenInheritedListed) | not executed | Binding.LocateSelectAsWritten, Binding.InheritedSelectCounterexample | Binding.LocateSelect, Binding.LocateSelectUsesFirstDeclaring |
