# The Aerospike Node.js client: a verified model of its JavaScript cores

Most of the Aerospike client for Node.js hands arguments to a native add-on. Some of its
JavaScript decides things on its own, and this project models that part and proves what it is
for:

- **Expressions** (`ExpSyntax`, `ExpCodec`, `ExpMachine`, `ExpBuilders`, `CdtBuilders`,
  `CdtDistinct`, `CdtTokens`). The builders compile an expression tree into one flat token array in prefix
  order, with three framing rules. The array can be read back in exactly one way, every builder
  yields exactly one expression, the array of a list, map, bit or HyperLogLog builder determines
  the call that made it up to a few named collisions, and one pass over the array with a stack
  computes what the tree means, for every interpretation of the operators.
- **Multi-record transactions** (`TxnSpec`, `TxnRuns`, `TxnPool`, `TxnProgram`). The shared pool
  keeps exact accounts in every reachable state and its index-based removal is a filter. Closing
  completed transactions behind the program's back cannot be seen through the getters, `commit` or
  `abort`; it can be seen through `setTimeout`, and the theorem says exactly in which runs. The
  objects with their fields take exactly the steps of the specification on which this is proved.
- **Protocols** (`Command`, `JobPoll`, `Lifecycle`, `LifecycleClasses`, `Paging`, `Darts`,
  `DartsRuns`). State machines in which the native side does anything that its contract allows,
  with theorems over all runs, and classes with the fields of the source whose methods are proved
  against them.
- **Texts** (`InfoText`, `InfoRoundTrip`, `InfoNested`, `Decimals`, `IndexJob`, `Lines`,
  `MemoryReport`, `HostString`, `HostRegex`). The info-protocol parser with the round trip of whole responses
  and the wait for an index built on it, the reassembly of lines from chunks with the counters kept
  over them, and host strings; round trips and exact conditions.

Code that computes is modelled by functions; code that changes fields or variables step by step
is modelled by classes and loops, proved against such functions. `Prelude` holds what the modules
share. Constants that come from the native add-on (operation codes, type codes, return types) are
kept symbolic.

Where the code does not do what one would expect, the model follows the code, and a theorem says
when exactly:

- `setTimeout` throws on a completed transaction that tending has closed and succeeds on one that
  it has not. A run shows no difference to one without tending if and only if it never calls
  `setTimeout` on a transaction that is destroyed without having been there at the last destroyAll
  or last close (`TxnRuns.TendingInvisible`). For a pool of any capacity there is a run that does
  (`TxnRuns.SetTimeoutTells`).
- Connecting a client twice makes the connection counter too high for ever
  (`Lifecycle.CountExact`, with a run in `DoubleConnect`).
- A chunk without a newline overwrites a partial line (`Lines.ReaderExact`, `Lines.LinesExact`,
  with all such lines in `Overwrite`).
- A text that is a number is never split by its key's separators; a whole response comes back if
  and only if there is none (`InfoNested.ResponseExact`), that is, with integers as the numbers, no
  list of one integer and no bins of one integer name (`InfoNested.IntegerResponse`). A third string
  separator makes the info parser throw on every text but the empty one
  (`InfoRoundTrip.ThirdLevelThrows`).
- The info parser loses the key `__proto__`, so an object comes back if and only if it has no such
  key (`InfoRoundTrip.ObjectExact`).
- `_paramsExp` nests the arrays of its arguments instead of joining them, so what it returns is a
  flat token array if and only if it has no arguments (`ExpBuilders.ParamsCallNests`); with the
  tokens spread it is right if and only if every argument is one token
  (`ExpBuilders.ParamsExpExact`).
- When tending brings the running total back under the limit, `pushTransaction` neither pushes
  nor counts the new transaction. The next destroyAll destroys a new transaction if and only if it
  was pooled (`TxnRuns.DestroyedIffPooled`). For a pool of any capacity there is a run that leaves
  one out (`TxnRuns.LeftOutReached`).
- Callbacks that came synchronously would make `throwDarts` throw too many darts and resolve
  more than once, unless the pipe holds one dart only (`Darts.SynchronousCallbacks`); on real
  commands they cannot (`DartsRuns.AnySchedule`). With no darts or no request allowed in flight it
  never resolves (`Darts.NeverResolves`).
- src/main/enums/exp_enum.cc:57 gives IS_TOMBSTONE the code of NOT, so `isTombstone` is a NOT of
  nothing in every interpretation (`ExpBuilders.TombstoneIsNot`).
- The `removeBy…` builders of lib/exp_lists.js take a return type and ignore it: what is asked for
  is what was requested if and only if that was NONE (`CdtDistinct.ReturnTypeIgnored`).
- `digestModulo` takes no argument, although its documentation names one: with arguments after it,
  its array is an expression if and only if there are none (`ExpBuilders.MetaTakesNoArgument`).

## Model

| member | source | states |
|---|---|---|
| `ExpCodec.RoundTrip` | lib/exp_lists.js:65-82 | Unique readability: decoding the array of any tree followed by any tokens gives exactly that tree and those tokens |
| `ExpCodec.RoundTripKids` | lib/exp.js:634-638 | A list of children, under a count, an end marker or an operation count, splits in only one way |
| `ExpCodec.Sound` | lib/exp.js:528-638 | Whatever the decoder reads off an array re-encodes to exactly the tokens it consumed |
| `ExpCodec.PrefixFree` | lib/exp.js:528-638 | Two expressions whose arrays agree with anything after them are the same, and so is what follows |
| `ExpCodec.Injective` | lib/exp.js:528-638 | The array of one expression is a prefix of the array of another if and only if they are the same expression |
| `ExpCodec.ListsInjective` | lib/exp.js:634-638 | Lists of arguments have the same tokens if and only if they are the same list |
| `ExpCodec.CompleteIffEncoding` | lib/exp_lists.js:65-82 | An array is complete for the decoder if and only if it is the encoding of some expression, and then of the decoded one |
| `ExpMachine.RunExpr` | lib/exp.js:528-638 | In any machine state, the tokens of a tree come to the same as handing its folded value to that state |
| `ExpMachine.RunKids` | lib/exp_lists.js:79-82 | The tokens of children fill the frame of their header, whatever kind of header it is, with their values in order |
| `ExpMachine.MeaningPreserved` | lib/exp.js:634-638 | For every interpretation, one pass with a stack over the array gives the value of the tree |
| `ExpMachine.CompleteArraysEvaluate` | lib/exp.js:980-996 | The same for every complete array, however it was put together |
| `ExpBuilders.CountedClosed` | lib/exp.js:528-528 | A counted header before complete arrays is one expression if and only if the count is their number plus one, and then it is the branch of their trees |
| `ExpBuilders.DecodeCounted` | lib/exp.js:528-528 | What a wrong count does: too small takes the first children and leaves the rest, too large is no expression |
| `ExpBuilders.VariadicClosed` | lib/exp.js:634-638 | The variadic builder yields one expression, the branch of its arguments, for any number of them |
| `ExpBuilders.FixedBuildersClosed` | lib/exp.js:253-632 | Key, bin, bin type, metadata, comparison, regular expression, not and variable builders each yield one expression, with these children in this order |
| `ExpBuilders.BinExistsClosed` | lib/exp.js:401-414 | `binExists` is the comparison of the bin's type with the undefined type |
| `ExpBuilders.LetClosed` | lib/exp.js:969-983 | A `let` over any number of definitions is one expression: names and values alternate before the body |
| `ExpBuilders.LetInjective` | lib/exp.js:969-983 | Two `let` arrays are equal only if they make the same definitions and have the same body |
| `ExpBuilders.ParamsExpExact` | lib/exp.js:722-725 | With the tokens of its arguments spread into it, `_paramsExp` yields one expression if and only if every argument is a single token |
| `ExpBuilders.ParamsCallNests` | lib/exp.js:722-725 | Called with the arrays of its arguments, `_paramsExp` has the right count, but the array is flat if and only if there are no arguments |
| `ExpBuilders.TombstoneIsNot` | lib/exp.js:489-489 | `isTombstone` is one expression, means NOT of nothing in every interpretation, and is no negation of any expression |
| `ExpBuilders.MetaTakesNoArgument` | lib/exp.js:522-522 | The array of `digestModulo` or any metadata builder with arguments after it is an expression if and only if there are none |
| `CdtBuilders.TypeLaws` | lib/exp_lists.js:28-63 | Naming the type that was worked out changes nothing, and maps accept what lists accept with the same answer |
| `CdtBuilders.TypeExact` | lib/exp_maps.js:13-54 | Which value types a read accepts: any type for a single value or key, else auto and the one type that auto comes to, if the return type is allowed (`CdtTokens.TypeIsAnswer` says which one) |
| `CdtBuilders.EmitClosed` | lib/exp_lists.js:65-82 | A builder whose stated count is its number of operands yields exactly the CALL tree with four children, for any policy and context |
| `CdtBuilders.CountForced` | lib/exp_maps.js:56-73 | The array is one expression if and only if the stated count is the number of operands before the bin or, with a policy, the units are more than that |
| `CdtBuilders.ListReadersClosed` | lib/exp_lists.js:98-316 | Every list read: right count and the CALL tree, or a TypeError exactly when the types do not match |
| `CdtBuilders.ListModifiersClosed` | lib/exp_lists.js:330-630 | Every list modification, with the policy token weighted as its builder says |
| `CdtBuilders.MapModifiersClosed` | lib/exp_maps.js:93-432 | Every map modification |
| `CdtBuilders.MapReadersClosed` | lib/exp_maps.js:445-767 | Every map read |
| `CdtBuilders.BitModifiersClosed` | lib/exp_bit.js:69-304 | Every bit modification |
| `CdtBuilders.BitReadersClosed` | lib/exp_bit.js:318-389 | Every bit read |
| `CdtBuilders.HllBuildersClosed` | lib/exp_hll.js:66-233 | Every HyperLogLog builder |
| `CdtBuilders.BuilderMeaning` | lib/exp_lists.js:65-82 | What the array of a builder means in every interpretation: CALL on return type, system, the operation on its operands in order, and the bin |
| `CdtDistinct.EmitInjective` | lib/exp_lists.js:65-82 | Two builders yield the same array if and only if type, system, policy token, context, operation, operands and bin are the same |
| `CdtDistinct.ListReadersDistinct` | lib/exp_lists.js:98-316 | Two list reads yield the same array if and only if they are the same call up to naming the worked-out value type |
| `CdtDistinct.ListModifiersDistinct` | lib/exp_lists.js:330-630 | Two list modifications yield the same array if and only if they are the same call up to the return type of removals |
| `CdtDistinct.MapModifiersDistinct` | lib/exp_maps.js:93-432 | Two map modifications yield the same array if and only if they are the same call |
| `CdtDistinct.MapReadersDistinct` | lib/exp_maps.js:445-767 | Two map reads yield the same array if and only if they are the same call up to naming the worked-out value type |
| `CdtDistinct.BitModifiersDistinct` | lib/exp_bit.js:69-304 | The same for bit modifications, up to null against flags 0 and what else a policy says |
| `CdtDistinct.BitReadersDistinct` | lib/exp_bit.js:318-389 | The same for bit reads, with no collisions |
| `CdtDistinct.HllBuildersDistinct` | lib/exp_hll.js:66-233 | The same for HyperLogLog builders, up to `add` and `update` standing for `addMH` with −1 and policies beside their flags |
| `CdtDistinct.ReturnTypeIgnored` | lib/exp_lists.js:460-630 | A removal from a list yields the same array whatever the return type, and asks for the requested one if and only if that is NONE |
| `CdtDistinct.SameOperands` | lib/exp_maps.js:161-767 | A removal from a map takes the operands of the corresponding read in the same order; list reads and removals take those of maps |
| `CdtTokens.TypeIsAnswer` | lib/exp_lists.js:28-63 | The type of a read: BOOL for EXISTS, INT for COUNT and for one index or rank, MAP for pairs, the named type for one value or key, and otherwise LIST; refused exactly if not allowed or not named so |
| `CdtTokens.ListReadHead` | lib/exp_lists.js:65-82 | The array of a list read starts with CALL, that type, the collection system without the modify flag, and the header with the number of operands; it throws exactly when refused |
| `CdtTokens.MapReadHead` | lib/exp_maps.js:56-65 | The same for map reads |
| `CdtTokens.ContextYields` | lib/cdt_context.js:228-242 | Without a context a modification yields its own collection, otherwise that of the innermost item; an empty context throws |
| `CdtTokens.ListModifyHead` | lib/exp_lists.js:71-77 | The array of a list modification starts with CALL, what it yields, the collection system with the modify flag, and the header with the operands and 2 units (append, increment) or 1 unit (insert, set) for a policy; which of them have a policy token |
| `CdtTokens.MapModifyHead` | lib/exp_maps.js:67-73 | The same for map modifications |
| `CdtTokens.BitHead` | lib/exp_bit.js:28-50 | Bit modifications yield a blob and bit reads but `get` a number, each with its system and number of operands; the sign of `getInt` is 1 or 0 |
| `CdtTokens.HllHead` | lib/exp_hll.js:27-49 | The same for HyperLogLog builders with their types |
| `TxnSpec.SpliceIsFilter` | lib/transaction_pool.js:66-72 | Splicing out the indices collected in descending order leaves exactly the other elements in their order |
| `TxnSpec.SpliceExact` | lib/transaction_pool.js:66-72 | An index takes out exactly the element at it, and an index out of range nothing |
| `TxnSpec.TendInv` | lib/transaction_pool.js:84-103 | Tending keeps the accounts, never raises the total and loses no transaction |
| `TxnSpec.TendExact` | lib/transaction_pool.js:84-103 | Above the capacity exactly the committed and aborted transactions leave the pool, closed with what they show; the others stay in order and untouched, and the capacity doubles if they still exceed it |
| `TxnSpec.RemoveAllInv` | lib/transaction_pool.js:74-79 | Removing all transactions leaves an empty pool with total 0 |
| `TxnSpec.StepInv` | lib/transaction.js:140-154 | Every step (construction, native change, commit, abort, setTimeout, destroyAll) keeps the running total equal to the summed capacities of pooled transactions, none of them destroyed |
| `TxnSpec.Accounting` | lib/transaction_pool.js:46-56 | Pool accounting in every reachable state, and its bounds 0 and 500000 + 2·(2^32 − 1) |
| `TxnSpec.LeftOut` | lib/transaction_pool.js:46-56 | A transaction is left out of the pool exactly when the total was above the limit and tending has brought it back, and then it is never tended or destroyed in any run |
| `TxnSpec.CreateAnswers` | lib/transaction.js:54-72 | What a construction answers: out of range unless both capacities are 32-bit, pooled up to a total of 500000, above it refused or let through by what tending leaves |
| `TxnRuns.SameAnswers` | lib/transaction.js:102-125 | In simulated states the three getters and both gates answer the same |
| `TxnRuns.StepSim` | lib/client.js:224-260 | One step of the program and of a program that never tends: same outcome and still indistinguishable if the step is careful, different outcomes if not |
| `TxnRuns.RunSim` | lib/client.js:224-260 | For whole runs, from any simulated pair: the outcomes are the same if and only if the run is careful |
| `TxnRuns.TendingInvisible` | lib/transaction_pool.js:84-103 | From an empty pool of any capacity, in every run in which native completed states are final: all outcomes are as if the pool had never been tended if and only if `setTimeout` never meets a transaction that tending has closed, and then all answers are the same too |
| `TxnRuns.NativeCallsAreSafe` | lib/client.js:224-260 | In every run, a native commit or abort is issued only for a transaction neither completed nor destroyed |
| `TxnRuns.FinishedAnswers` | lib/client.js:224-260 | From a committed or aborted transaction on, in every run, each commit answers already committed or throws, and each abort throws or answers already aborted, whether tending has closed it or not |
| `TxnRuns.AfterCompletion` | lib/client.js:224-260 | So it is after the native side has completed a transaction that is not destroyed |
| `TxnRuns.UnfinishedAnswer` | lib/client.js:224-260 | An unfinished transaction gets the native call if and only if it is not destroyed |
| `TxnRuns.GettersShow` | lib/transaction.js:102-137 | Getters show what the native side and `setTimeout` set last, and of a destroyed transaction what they showed when it was destroyed |
| `TxnRuns.DestroyedFrozen` | lib/transaction.js:102-125 | What a destroyed transaction shows never changes in any run |
| `TxnRuns.DestroyedIffPooled` | lib/transaction_pool.js:46-79 | Whatever happens in between, the next destroyAll leaves a new transaction destroyed if and only if it was pooled |
| `TxnRuns.LeftOutReached` | lib/transaction_pool.js:46-56 | For every capacity, a run from the empty pool after which a construction is left out of it |
| `TxnRuns.SetTimeoutTells` | lib/transaction.js:132-137 | For every capacity, a run of constructions, one completion, one commit and one `setTimeout` that does tell |
| `TxnPool.Transaction.GetState` | lib/transaction.js:113-118 | The state of the transaction's value: live, or the snapshot |
| `TxnPool.Transaction.GetInDoubt` | lib/transaction.js:102-107 | The same for the in-doubt flag |
| `TxnPool.Transaction.GetTimeout` | lib/transaction.js:120-125 | The same for the timeout |
| `TxnPool.Transaction.SetTimeout` | lib/transaction.js:132-137 | Changes the native timeout, or throws and changes nothing once destroyed |
| `TxnPool.Transaction.PrepareToClose` | lib/transaction.js:140-146 | Takes the snapshot and gives back the capacity |
| `TxnPool.Transaction.Shut` | lib/transaction.js:149-154 | Closing is idempotent, on the value and on the pool's total; the native handle is closed exactly once |
| `TxnPool.TransactionPool.RemoveTransactions` | lib/transaction_pool.js:66-72 | The loop splices as specified, skipping indices out of range |
| `TxnPool.TransactionPool.RemoveAllTransactions` | lib/transaction_pool.js:74-79 | Every pooled transaction and its native handle are closed, the pool is empty and the total 0 |
| `TxnPool.TransactionPool.CloseCompleted` | lib/transaction_pool.js:86-95 | The loop closes exactly the completed transactions and collects their indices, the last first |
| `TxnPool.TransactionPool.TendTransactions` | lib/transaction_pool.js:84-103 | Tend refines filter: survivors in order and unchanged with open handles, removed ones closed with their handles, capacity doubled exactly when survivors still exceed it, accounts kept |
| `TxnPool.TransactionPool.PushTransaction` | lib/transaction_pool.js:46-56 | Pushed and counted up to the limit; above it tended, and then refused or let through uncounted |
| `TxnProgram.NewPool` | lib/transaction_pool.js:26-31 | A new pool shows the initial state of the specification |
| `TxnProgram.TheOnlyPool` | lib/aerospike.js:24-24 | The one pool of the program is for 128 transactions |
| `TxnProgram.Tended` | lib/transaction_pool.js:84-103 | Tending the pool is the specified step on all transactions of the program |
| `TxnProgram.NewTransaction` | lib/transaction.js:42-90 | The constructor takes the specified step: capacity error, pooled, refused by a full pool, or let through uncounted; there is a transaction exactly if it does not throw |
| `TxnProgram.Commit` | lib/client.js:243-260 | `commit` takes the specified step and answers already committed, throws for an aborted or destroyed transaction, and otherwise lets the native call through |
| `TxnProgram.Abort` | lib/client.js:224-241 | `abort` takes the specified step and throws for a committed or destroyed transaction, answers already aborted, and otherwise lets the native call through |
| `TxnProgram.SetTimeout` | lib/transaction.js:132-137 | `setTimeout` takes the specified step and has its outcome; all other transactions stay as they are |
| `TxnProgram.DestroyAll` | lib/transaction.js:156-158 | `destroyAll` takes the specified step |
| `Command.StepOrdered` | lib/commands/command.js:120-133 | A step keeps the order of callbacks if and only if it was in order and the tick queue was drained where it must be |
| `Command.CallbackDiscipline` | lib/commands/command.js:105-133 | In every run no user callback comes before `execute` returns, and user callbacks are the native ones, one for one and in order, if and only if the tick queue is drained before each later native callback |
| `Command.InitOk` | lib/commands/command.js:105-108 | A command starts in order, whether connected or with its error put off |
| `Command.CallsBack` | lib/commands/command.js:105-133 | In every run, once `execute` has returned and the queue is empty, there has been one user callback for each native one, and one more if there was no connection; none while it runs |
| `Command.ErrorComes` | lib/commands/command.js:171-178 | Without a connection there is something to happen until the one callback with the error has run |
| `Command.Execution.OnNativeCallback` | lib/commands/command.js:125-131 | Puts the callback off while `execute` is on the stack, and calls it otherwise |
| `Command.Execution.Return` | lib/commands/command.js:132-132 | The flag is cleared and nothing else |
| `Command.Execution.RunTick` | lib/commands/command.js:127-127 | The first queued callback runs |
| `JobPoll.PollSafety` | lib/job.js:49-71 | In every interleaving: the interval is created at most once, a settled promise has no active interval, the first terminal answer decides, no status call starts after it, and an unsettled promise always has a poll on its way or to come |
| `JobPoll.CallsCount` | lib/job.js:54-61 | One status call at first and one more each time the interval fires, each answered at most once |
| `JobPoll.KeepsPolling` | lib/job.js:60-62 | As long as no answer is terminal the promise is pending, and the interval runs from the first answer on |
| `JobPoll.PollUntilDone.OnInterval` | lib/job.js:54-61 | Starts one status call |
| `JobPoll.PollUntilDone.OnAnswer` | lib/job.js:56-67 | The two handlers take exactly the step of the machine |
| `Lifecycle.StepInv` | lib/event_loop.js:71-117 | Every event keeps the trace in its language, the count right up to double connections, and the accounts of the pool; traces only grow |
| `Lifecycle.EveryRun` | lib/event_loop.js:71-117 | In every run: an optional register, then refs and unrefs only after it, then at most one release, made at cluster count 0, with nothing after it |
| `Lifecycle.LanguageExact` | lib/event_loop.js:71-117 | A trace of native calls is possible if and only if it is in that language |
| `Lifecycle.ReleaseComes` | lib/event_loop.js:71-79 | Once a release has been asked for it stays done or coming in every run, and the next retry without clusters makes it |
| `Lifecycle.ConnectExact` | lib/client.js:1979-1987 | Connecting throws exactly when the loop has been released; otherwise the loop is registered at first and then referenced |
| `Lifecycle.ConnectedExact` | lib/client.js:1988-1999 | A connect that succeeds is counted and one that fails is not |
| `Lifecycle.StartExact` | lib/event_loop.js:26-30 | At the start nothing is connected, registered or pooled |
| `Lifecycle.ProgramRuns` | lib/client.js:1914-1930 | A program that produces any given trace of the language |
| `Lifecycle.ConnectionCount` | lib/client.js:1979-2000 | In every run that never connects a client already connected or connecting, the counter is the number of connected clients |
| `Lifecycle.CountExact` | lib/client.js:1988-1994 | In every run the counter is right if and only if no connection has succeeded on a connected client |
| `Lifecycle.DoubleConnect` | lib/client.js:1979-2000 | A run that makes the counter 2 with one client |
| `Lifecycle.LastClose` | lib/client.js:1914-1930 | A close that leaves the counter at 0 with destroyTransactions set leaves the pool empty with total 0; otherwise pool and loop are untouched |
| `Lifecycle.CloseExact` | lib/client.js:1914-1930 | What a close does to counter, pool and event loop, and that it throws only without a loop to unreference |
| `LifecycleClasses.EventLoop.ReleaseEventLoop` | lib/event_loop.js:71-79 | Releases once, or starts a retry timer while clusters remain |
| `LifecycleClasses.EventLoop.RegisterASEventLoop` | lib/event_loop.js:84-95 | Registers, references or throws |
| `LifecycleClasses.EventLoop.ReferenceEventLoop` | lib/event_loop.js:100-106 | References, or throws and changes nothing |
| `LifecycleClasses.EventLoop.UnreferenceEventLoop` | lib/event_loop.js:111-117 | Unreferences, or throws and changes nothing |
| `LifecycleClasses.ClientModule.OnConnected` | lib/client.js:1988-1990 | The handler takes the step of the system: counter, client and loop are again as the system says |
| `LifecycleClasses.ClientModule.Close` | lib/client.js:1914-1930 | `close` takes the step of the system: counter, client, event loop and pool are again as the system says, with its outcome |
| `Paging.Query.Results` | lib/query.js:650-661 | Resolves with the records before the first call without bins and takes its state, rejects with the first error and keeps the state, or stays pending |
| `Paging.EmittedExact` | lib/commands/stream_command.js:29-44 | An error comes first whatever else there is, bins make a record, and otherwise the page ends |
| `Paging.FetchPage` | lib/commands/stream_command.js:29-44 | One call of `results` returns one whole page and moves on or, when the native side fails, rejects and can be tried again from the same state |
| `Paging.FetchAll` | lib/scan.js:530-541 | Paging completeness: repeating `results`, again after each failure, until it has succeeded and `hasNextPage` is false, returns every record once and in order, with bounds on the successful calls |
| `Paging.FetchRest` | lib/query.js:650-661 | The same from any position of a query, for any pattern of finitely many failures |
| `Paging.Resume` | lib/query.js:429-431 | A query given a saved state with `nextPage` returns exactly what is left from there |
| `Paging.PagesArePrefixes` | lib/query.js:595-626 | Whichever calls fail, after any number of attempts the records are a run from the starting position, complete only with all of them, and complete once more calls have succeeded than there were records left |
| `Paging.NoProgress` | lib/query.js:650-661 | Empty pages that are not last can go on for ever, so the contract is needed |
| `Darts.Scheduler` | examples/geospatialMonteCarlo.js:108-140 | After any number of completions: ids thrown once and in order, at most min(maxInFlight, noDarts) in flight, current = completed + inflight, resolved once and exactly at the end |
| `Darts.AnyOrder` | examples/geospatialMonteCarlo.js:108-149 | In whatever order the ids complete: they are different, another can complete until the last, and at the end they are 1..noDarts |
| `Darts.LandKeeps` | examples/geospatialMonteCarlo.js:116-133 | One completion keeps the invariant |
| `Darts.NeverResolves` | examples/geospatialMonteCarlo.js:134-138 | Nothing is thrown if and only if there are no darts or no request is allowed, and then the promise is not resolved |
| `Darts.SynchronousCallbacks` | lib/commands/command.js:120-133 | With synchronous callbacks min(maxInFlight, noDarts) − 1 darts too many are thrown and the promise is resolved min(maxInFlight, noDarts) times, so the game is right if and only if that minimum is 1 |
| `DartsRuns.StepInv` | lib/commands/command.js:120-133 | Every step of puts on real commands, whenever their callbacks come, keeps the scheduler's state one of those played |
| `DartsRuns.AnySchedule` | examples/geospatialMonteCarlo.js:108-149 | For every native schedule, synchronous callbacks included: nothing lands before the first loop has run, the game is as played, it ends within four events for each dart, and then all darts have landed once and the promise has been resolved once |
| `DartsRuns.BothTimings` | lib/commands/command.js:120-133 | A put can be called back while it is running and later |
| `Darts.ThrowDarts.Fill` | examples/geospatialMonteCarlo.js:134-138 | The loop fills the pipe as specified |
| `Darts.ThrowDarts.OnLanded` | examples/geospatialMonteCarlo.js:116-133 | The callback takes the step of the machine |
| `InfoText.SplitJoin` | lib/info.js:111-113 | Splitting joined pieces that contain no separator gives them back |
| `InfoText.JoinSplit` | lib/info.js:192-207 | Splitting loses nothing and leaves no separator in the pieces |
| `InfoText.ParseKeyValue` | lib/info.js:109-118 | The loop computes the object of the items: empty items and the key `__proto__` skipped, later keys win, text after a second separator dropped |
| `InfoText.ParseInfo` | lib/info.js:73-82 | Lines of key and value, each value split by the separators of its key, or the exception |
| `InfoRoundTrip.ListExact` | lib/info.js:192-207 | A list of words comes back if and only if its last word is not empty or, with a trailing separator, the list is not empty |
| `InfoRoundTrip.ObjectExact` | lib/info.js:109-118 | An object comes back from its text if and only if none of its keys is `__proto__` |
| `InfoRoundTrip.ObjectBack` | lib/info.js:109-118 | An object comes back, with or without a trailing separator, canonical numbers becoming numbers |
| `InfoRoundTrip.PairLookup` | lib/info.js:109-118 | With different keys, every pair can be looked up and nothing else |
| `InfoRoundTrip.PairExact` | lib/info.js:111-115 | An item without separator has no value, and what follows a second separator is dropped |
| `InfoRoundTrip.LastCounts` | lib/info.js:109-118 | Of equal keys the last one counts |
| `InfoRoundTrip.NeverProto` | lib/info.js:109-118 | No parsed object has the key `__proto__` |
| `InfoRoundTrip.KeyOnly` | lib/info.js:73-82 | A line without a tab is a field without a value |
| `InfoRoundTrip.OnlyText` | lib/info.js:133-144 | `smartParse` hands back what is no text, and nothing else can split it |
| `InfoRoundTrip.ShapeBack` | lib/info.js:192-207 | A list or object shaped by its separator comes back from one split |
| `InfoRoundTrip.ListOfShapesBack` | lib/info.js:163-190 | A list of lists or of objects comes back through two levels of `deepSplitString` |
| `InfoRoundTrip.ChoppedBack` | lib/info.js:219-245 | The text of one set, less its last character, comes back as one object |
| `InfoRoundTrip.NumberIsNotSplit` | lib/info.js:93-98 | A list comes back as a list if and only if its text is not a number |
| `InfoRoundTrip.ThirdLevelThrows` | lib/info.js:163-190 | With three list separators the parser throws on every text but the empty one |
| `InfoNested.BinsExact` | lib/info.js:247-262 | Statistics and names of `splitBins` come back from their text, in fields `stats` and `names`, if and only if there are any |
| `InfoNested.NestedExact` | lib/info.js:163-207 | A value of any shape of the separator table comes back from its text if and only if nothing that is to be split is the text of a number |
| `InfoNested.ResponseExact` | lib/info.js:73-82 | Info round trip: a whole printed response, with or without trailing separators, parses to the object of its values if and only if nothing that is to be split is the text of a number |
| `InfoNested.IntegersBack` | lib/info.js:93-98 | With exact integers as the numbers, exactly the texts of integers become numbers, each that number |
| `InfoNested.IntegerExact` | lib/info.js:163-232 | With exact integers as the numbers, a value of any shape of the separator table has nothing numeric to be split if and only if it is no list of one integer and has no bins of one integer name |
| `InfoNested.IntegerResponse` | lib/info.js:73-98 | With exact integers as the numbers, a whole response comes back if and only if none of its values is one of those |
| `Decimals.IntExact` | lib/info.js:93-98 | The canonical texts are exactly the texts of exact integers |
| `IndexJob.WaitSound` | lib/index_job.js:93-119 | `wait` resolves only if one poll was answered by at least one node and every node's text parses to an object whose entry for the index has load_pct 100; after every answer before it polling went on |
| `IndexJob.NodeDoneExact` | lib/index_job.js:116-118 | A node counts as done if and only if its text has an entry for the index, an object with load_pct 100; a missing entry never counts |
| `IndexJob.StatusExact` | lib/index_job.js:93-119 | What one answer comes to: go on while the index is not found or not complete everywhere, fail on another error or a text that does not parse, and otherwise finish |
| `IndexJob.WaitExact` | lib/index_job.js:93-119 | The promise is pending as long as polling goes on, and the first other answer rejects or resolves it accordingly |
| `IndexJob.SecondPoll` | lib/job.js:49-71 | A wait that resolves at the second poll |
| `IndexJob.NodeDoneText` | lib/index_job.js:106-119 | A node that prints the fields of the index counts as done if and only if it prints 100 for load_pct |
| `Lines.FeedSize` | benchmarks/memory.js:300-316 | A chunk adds all its characters to lines and partial line, unless it overwrites the partial line |
| `Lines.FeedRight` | benchmarks/memory.js:300-316 | From the right partial line, a chunk that does not overwrite it leads to the right lines and partial line |
| `Lines.ReaderExact` | benchmarks/memory.js:298-316 | Lines and partial line are those of the whole input if and only if no non-empty chunk without a newline comes in the middle of a line |
| `Lines.LinesExact` | benchmarks/memory.js:298-316 | `readline` gets exactly the newline-terminated lines in order if and only if that holds for the chunks up to the last one with a newline |
| `Lines.ChunkIndependence` | benchmarks/memory.js:298-316 | Two such ways of cutting one input give the same |
| `Lines.Overwrite` | benchmarks/memory.js:314-315 | Every line that comes in three chunks loses the first |
| `MemoryReport.StepsAddUp` | benchmarks/memory.js:258-292 | Recorded steps, current count and number of ranges add up to the iterations |
| `MemoryReport.ReadIsRecord` | benchmarks/memory.js:258-292 | The counters depend only on the heap sizes up to the first unreadable line; blank lines do not count |
| `MemoryReport.RangesAreRuns` | benchmarks/memory.js:276-289 | The ranges are the maximal ascending runs of the heap sizes, with their ends and step counts |
| `MemoryReport.RunsUnique` | benchmarks/memory.js:276-289 | There is only one way to cut heap sizes into maximal ascending runs |
| `MemoryReport.IndexOfNewline` | benchmarks/memory.js:304-304 | The first newline from a position on, or −1 exactly when there is none |
| `MemoryReport.Report.ReadLine` | benchmarks/memory.js:258-292 | Updates the counters as specified and leaves the partial line alone |
| `MemoryReport.Report.OnChunk` | benchmarks/memory.js:300-316 | The loop hands over exactly the lines of the specification, in order, and keeps its partial line |
| `MemoryReport.ReadInput` | benchmarks/memory.js:298-316 | After a whole input the counters are those of the reassembled lines |
| `HostString.FormsDisjoint` | lib/utils.js:19-19 | The first character tells the three forms of an address apart, and only the bracketed form has colons |
| `HostString.MatchExact` | lib/utils.js:19-25 | The matcher finds groups if and only if the string is made of such parts |
| `HostString.Unambiguous` | lib/utils.js:19-19 | No string can be read in two ways |
| `HostString.ParseExact` | lib/utils.js:21-44 | A host is returned if and only if the string matches, and it is the host of the groups; otherwise the call throws |
| `HostString.HostParts` | lib/utils.js:27-42 | The port is 3000 if the string has none, and the brackets of an address are taken off |
| `HostRegex.RegexExact` | lib/utils.js:19-19 | The regular expression as it is written matches exactly the strings made of an address and the two suffixes |
| `HostRegex.ParsedIffMatched` | lib/utils.js:21-25 | A host string is parsed if and only if that regular expression matches it |
| `Decimals.DecimalBack` | lib/utils.js:41-41 | A printed port is read back |
| `HostString.OnlyValid` | lib/utils.js:21-44 | Only valid hosts come out |
| `HostString.HostRoundTrip` | lib/utils.js:19-44 | A host comes back from its printed form if and only if it is valid, with or without the default port; addresses with colons are printed in brackets |

## Left out

- The native add-on and the server appear only as environments with a stated contract, or as uninterpreted operators.
- The values of the add-on's constants are symbolic; that two of them could be equal matters only for IS_TOMBSTONE.
- A CALL_VOP_START without a context property (bit and HyperLogLog builders) and one with a null context are one and the same token in the model.
- Command: the promise path of commands, stream commands without a connection, and exceptions in callbacks.
- Paging: reports after an end or an error, the stream's abort flag, `foreach` with callbacks of its own, the error for a stream UDF on a paged query, and the forwarding of a CDT context; scans share the model of queries, whose code they repeat.
- JobPoll: the length of the interval, and status functions that throw synchronously.
- Lifecycle: `setCommandQueuePolicy` and the check of tender errors in `isConnected`.
- Transaction capacities that are not integers, and a native constructor that fails.
- Codes of operations of different families (a list and a map operation, say) are not compared.
- IndexJob: the text of requests to the cluster, which is not part of this model.
- InfoText: which separators belong to a key (glob patterns) and which texts are the canonical text of a number are parameters; the latter are worked out for integers up to 2^53.
- MemoryReport: which lines are blank or unreadable and what heap size they state is a parameter, and heap sizes are exact numbers; the report itself is not part of this model.
- HostString: ports above 2^53, which JavaScript rounds.
- Lists, maps, bitwise, HyperLogLog and other operations, policies, status tables and configuration, which only build records.
- Admin, index, UDF and batch methods of the client, which only arrange arguments.
- Release and binding scripts, the other examples, tables, e-mail alerts.
