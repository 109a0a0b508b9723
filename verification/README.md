# HyperKitty, verified

A Dafny model of the parts of HyperKitty that carry real algorithms, with proofs of what they guarantee.

| part | files | what is proved |
|---|---|---|
| message bus | `BusTypes`, `BusConnection`, `BusProtocol`, `BusInvariant`, `BusOwner`, `BusTheorems`, `BusRuns`, `BusSignals`, `BusCalls` | what each call does when it runs alone; and for any number of threads and every interleaving total order, one copy per call, FIFO, conservation, shortest-queue routing, deadlock freedom, and that no wake-up for a message is lost |
| bus codec | `BusCodec`, `BusRoundTrip`, `BusFields` | decoding undoes encoding exactly for a characterised set of messages; what is written, and what is read from any text |
| HKCL compiler | `HkclLexer`, `HkclLayout`, `HkclParser`, `HkclGrammar`, `HkclErrors` | `compile` accepts exactly the texts that write a program down, in any layout, and reports the first failure of any other; the grammar is unambiguous |
| NAND filter | `NandConflicts`, `NandFilter`, `NandLimits`, `BooleanAst` | conflict-freeness and justified suppression; exactly when order is irrelevant, the result maximal and the documented rule followed; truth tables decide equivalence; NAND is complete |
| tree to matrix to squaring | `InvertedAst`, `JordanMatrix` | the squaring loop stops within `ceil(log2 depth)` squarings on the matrix of everything that can be unfolded, which is tight; exactly when adding a child keeps it so; exactly when the matrix is strictly upper triangular |
| WORM chain | `Bytes`, `WormRecord`, `WormChain` | records are a prefix code; appended chains verify; the last hash fixes a verifying chain up to exactly the division of payloads |
| ledgers and replay | `Ledger`, `Runtime`, `Words` | the accumulated frame depends on sums only; replaying flattened actions gives the current state |

`Wrappers` holds `Option` and `Result`, `Basics` shared facts about sequences, sets, powers and quotients. `dafny verify dfyconfig.toml` checks everything.

## How it is modelled

Code that changes state is a class or a method with loops; each is proved against a specification function over
plain values, and the theorems are about those functions.

**The bus** is modelled twice. `BusConnection` has the ring buffer, the subscription list and the connection table
over arrays, with their loops. `BusProtocol` is a transition system: each thread has a program counter, every lock
is taken and released in a step of its own, and what a thread does while it holds a queue lock to state that only
that lock protects is one step. Both use the same functions (`Pushed`, `Subscribed`, `SwapRemove`, `AnyMatch`) for
what an operation does to a queue, a list or a table. A run is any finite schedule of enabled steps of any number
of threads; a state is reachable if some run leads to it. A timed wait may end with or without a timeout at any
moment. `BusSignals` adds the condition variables: a waiting thread sleeps until a signal, a broadcast, its timeout
or nothing at all releases it; a signal wakes at least one sleeper. It reaches the same states
(`SameStatesReached`), so everything proved about them holds there too. The fields `attempts`, `popped`, `calls`,
`fanned`, `outcomes`, `hits`, `seen` and `missed` only record what happened.

**Text.** C strings are sequences without their terminator and contain no NUL. The character classes of the HKCL
lexer (white space, letters, digits) are the ASCII ones; strings and comments may hold any character. The layout
specification of `HkclLayout` describes every legal way to write tokens: blanks and `#` comments before each token,
a last comment without line end, layout wherever two tokens would run together, and for each string character
whether it stands for itself, is written with its letter escape, or has a plain backslash before it.

**Numbers.** `double` is `real`. The test `sqrt(diff) < tolerance` of the squaring loop is made on squares:
`tolerance > 0 && diff < tolerance * tolerance`. Counters, the ledger and tick indices wrap at 64 bits, as in C and
in Rust release builds (a debug build panics instead). Array sizes, `usize` and record counts are unbounded.
The byte operations of the wire frame (`& 0x0F`, `& 0xF0`, `<< 4`, `wrapping_neg`) are nibble arithmetic.

**The hash** of the WORM chain is an arbitrary function from bytes to 32-byte digests. No such function is free of
collisions, so the results either return two records of the chains that collide, or assume that the hash tells the
records of these chains apart.

**Where documentation and code differ**, the code is modelled. The grammar in the HKCL crate's documentation makes
`otherwise` mandatory and without semicolon; the parser makes it optional (reject by default) and wants a
semicolon (`DocumentedClauseIsRejected`). The NAND filter's documentation suppresses the lighter expert of every
active conflicting pair; the code skips pairs of which one is already suppressed, and follows the rule on every
input exactly if the registered conflicts are transitive (`RuleExactlyWhenTransitive`). The WORM header comment says
Blake2b, the chain uses SHA-256. As long as the bus is not destroyed, the `active` tests in its delivery loops can never
fail, since only connections that have left the table become inactive (`RegisteredIsActive`).

**What turned out not to hold in general** comes with its exact condition, in both directions:

| promise | exact condition | stated by |
|---|---|---|
| the bus codec round-trips | no quote in the four texts, and a body that survives the scan | `RoundTrip` |
| records round-trip; `append` makes such records | supported header and consistent lengths; parts that fit their length fields | `RecordRoundTrip`, `AppendedIsWellFormed` |
| the last hash fixes a verifying chain | for two chains, payloads divided at the same places; for one chain against all others, no record of it has a payload | `HistoryIsUnique`, `OnlyOneExactlyWithoutPayload` |
| decoding undoes encoding of ledgers | the ledger balances | `DecodeOfEncode` |
| the filter ignores the order of its input | all active entries of an expert fare alike against every entry of another; under the conflicts of one registry, of another in conflict | `OrderMattersExactlyWhenAmbiguous`, `OrderMattersUnderRegistry` |
| the admitted set is maximal, whatever is active | conflicts are transitive; for some experts, those among them | `MaximalExactlyWhenTransitive`, `ExactlyWhenTransitiveAmong` |
| the documented suppression rule, whatever is active | conflicts are transitive; for some experts, those among them | `RuleExactlyWhenTransitive`, `ExactlyWhenTransitiveAmong` |
| a tree stays a tree when another is added in it | it does not list the new parent, or the other does not | `AddSubtree` |
| a disconnect wakes the receivers of its connection | none of them is between its test of `active` and its sleep when the broadcast comes | `DisconnectMissedExactly` |
| the adjacency matrix is strictly upper triangular | no structural node with children is listed twice, none stands behind a child | `TreeMatrixExactly` |

## Model

| member | source | states |
|---|---|---|
| BusTypes.TopicMatchesMeaning | reasoning/hyperkitty_bus.c:111-119 | a pattern matches a topic exactly if it equals it, or is a prefix of it followed by one star |
| BusTypes.SwapRemoveTakesOne | reasoning/hyperkitty_bus.c:258-263 | moving the last entry into the gap removes exactly one copy of the entry and loses nothing else |
| BusTypes.SwapRemoveDistinct | reasoning/hyperkitty_bus.c:297-305 | in a list without repetitions the entry is gone and the others remain, still without repetitions |
| BusTypes.SubscribeKeepsDistinct | reasoning/hyperkitty_bus.c:272-292 | subscribing keeps the list free of repetitions exactly unless a topic is cut to one already stored |
| BusTypes.UnsubscribeUndoesSubscribe | reasoning/hyperkitty_bus.c:272-308 | subscribing to a new topic and unsubscribing restores the subscriptions exactly if the topic fits its buffer |
| BusConnection.NextSlot | reasoning/hyperkitty_bus.c:128-137 | the index modulo the buffer size stays inside the buffer |
| BusConnection.RingPush | reasoning/hyperkitty_bus.c:124-131 | writing at the tail appends to the live window and marks exactly the window as used |
| BusConnection.RingPop | reasoning/hyperkitty_bus.c:133-140 | clearing the head drops the oldest entry of the window and nothing else |
| BusConnection.Connection.constructor | reasoning/hyperkitty_bus.c:232-240 | a new connection is active, has its identifier cut to the field, an empty queue and no subscriptions |
| BusConnection.Connection.QPush | reasoning/hyperkitty_bus.c:124-131 | the ring buffer is a bounded FIFO: refused when 256 are waiting, else appended |
| BusConnection.Connection.QPop | reasoning/hyperkitty_bus.c:133-140 | the oldest message comes out; nothing when empty |
| BusConnection.Connection.Subscribe | reasoning/hyperkitty_bus.c:272-292 | full list: -1; known topic: unchanged; else appended, cut to its buffer |
| BusConnection.Connection.Unsubscribe | reasoning/hyperkitty_bus.c:294-308 | the first entry with the topic is swap-removed |
| BusConnection.Connection.HasMatch | reasoning/hyperkitty_bus.c:332-337 | the scan finds a match exactly if some subscription matches |
| BusConnection.ConnTable.constructor | reasoning/hyperkitty_bus.h:62-66 | an empty table |
| BusConnection.ConnTable.Connect | reasoning/hyperkitty_bus.c:242-252 | appended if there is room, else refused and unchanged |
| BusConnection.ConnTable.Disconnect | reasoning/hyperkitty_bus.c:255-264 | the connection is swap-removed if it is listed |
| BusOwner.StepKeepsInvariant | reasoning/hyperkitty_bus.c:229-448 | every enabled step of every thread keeps the whole invariant: locks, table, history, progress of the bus-lock holder, counters |
| BusOwner.ReachableInvariant | reasoning/hyperkitty_bus.c:229-448 | the invariant holds in every state of every run |
| BusTheorems.DeliveryFollowsLockOrder | reasoning/hyperkitty_bus.c:313-448 | what a connection accepted is a subsequence of the calls in bus-lock order, at most one copy per call; received followed by queued is exactly that |
| BusTheorems.ReceiversAgreeOnOrder | reasoning/hyperkitty_bus.c:313-448 | any two receivers get the calls they share in the same order |
| BusTheorems.RouteHasOneTarget | reasoning/hyperkitty_bus.c:361-413 | a call offered to two connections was a publish; a route has at most one target |
| BusTheorems.PublishVisitsEveryone | reasoning/hyperkitty_bus.c:317-355 | at the end of the fan-out a push was tried exactly on the connections whose identifier is the address and, without address or with address `*`, on those whose subscriptions matched; the delivered count is the number accepted; nobody else was touched |
| BusTheorems.PushQueuesOrDrops | reasoning/hyperkitty_bus.c:124-131 | a push with fewer than 256 waiting appends the message and reports success, any other leaves the queue and reports a drop; the attempt is recorded, no other connection is touched |
| BusTheorems.OnlyLockHoldersWrite | reasoning/hyperkitty_bus.c:272-448 | only the holder of a queue lock changes that queue or its subscriptions |
| BusTheorems.RoutePrefersTheAddressee | reasoning/hyperkitty_bus.c:367-375 | route pushes to the first connection of the table that is addressed; the topic search starts only if nobody there is |
| BusTheorems.RouteChoseShortest | reasoning/hyperkitty_bus.c:377-396 | the fallback has looked at the whole table and pushes to the first of the matching connections with the shortest queue seen, which has not grown since |
| BusTheorems.RouteDropsOnlyWhenAllFull | reasoning/hyperkitty_bus.c:377-410 | the push of the fallback succeeds if the chosen queue was seen with room; if it fails every matching connection was full when looked at |
| BusTheorems.RouteGivesUpOnlyUnmatched | reasoning/hyperkitty_bus.c:378-412 | route ends without a push only if no connection of the table matched |
| BusTheorems.RegisteredIsActive | reasoning/hyperkitty_bus.c:229-267 | the table lists distinct, active connections, at most 256 |
| BusTheorems.PublishesAreCounted | reasoning/hyperkitty_bus.c:318 | `total_published` is the number of publish calls in every reachable state, modulo 2^64 |
| BusTheorems.CountersConserve | reasoning/hyperkitty_bus.c:317-410 | outside push sections all three bus counters are right modulo 2^64: publishes, and the sums of accepted and of dropped messages of all connections ever made; accepted is popped plus queued |
| BusTheorems.WaitGraphAcyclic | reasoning/hyperkitty_bus.c:229-448 | no cycle of threads waiting for each other's locks, no chain of more than two waits |
| BusTheorems.LockOrder | reasoning/hyperkitty_bus.c:229-448 | the holder of a queue lock waits for no lock and holds no second queue lock |
| BusTheorems.NoDeadlock | reasoning/hyperkitty_bus.c:229-448 | each thread can step, or waits for one that can, or for one that waits for one that can |
| BusRuns.RunRecordsTruth | reasoning/hyperkitty_bus.c:320-396 | in every run, what the thread inside the bus lock has recorded of each connection was true of it at a moment of the same call |
| BusRuns.PublishReachedItsMatches | reasoning/hyperkitty_bus.c:320-353 | when the fan-out ends, a push was tried on a connection exactly if it is addressed or, for a broadcast, its subscriptions matched at a moment of the call |
| BusRuns.RouteChoiceWasShortest | reasoning/hyperkitty_bus.c:377-399 | the chosen queue is no longer than that of each other connection which matched, at a moment of the call |
| BusRuns.RouteDropWasForced | reasoning/hyperkitty_bus.c:377-410 | when the push of the fallback fails, every connection of the table was, at a moment of the call, not matching or full |
| BusRuns.RouteGaveUpRightly | reasoning/hyperkitty_bus.c:378-412 | route gives up only if each connection of the table was not matching at a moment of the call |
| BusRuns.EveryAttemptWasTried | reasoning/hyperkitty_bus.c:317-410 | in every run each recorded attempt was made at a moment of the run, with its message, and accepted exactly if the queue had room then |
| BusSignals.SameStatesReached | reasoning/hyperkitty_bus.c:440-443 | with condition variables the bus reaches exactly the states it reaches when waits may end at any time |
| BusSignals.MoveKeepsSignals | reasoning/hyperkitty_bus.c:255-448 | every move keeps the signalling invariant: nobody sleeps unless every queued message has an awake thread that will take it, and who attends an inactive connection missed a broadcast or one is to come |
| BusSignals.PossibleIsOk | reasoning/hyperkitty_bus.c:255-448 | so it holds in every state of every run |
| BusSignals.NoMessageWakeupIsLost | reasoning/hyperkitty_bus.c:342-446 | whenever a receiver sleeps on a connection whose lock is free, at least as many threads have been released from their sleep there as messages wait |
| BusSignals.NobodySleepsOnMessages | reasoning/hyperkitty_bus.c:255-446 | when all threads are idle or asleep, nobody sleeps on a connection with a message, and on an inactive one only who missed the broadcast |
| BusSignals.DisconnectMissedExactly | reasoning/hyperkitty_bus.c:265-266 | with no broadcast to come, a sleeping receiver's connection is inactive if and only if a broadcast came between the receiver's test and its sleep |
| BusSignals.DisconnectPassesDozer | reasoning/hyperkitty_bus.c:255-267 | from every such moment a disconnect can run to its end and leave the receiver asleep on the inactive connection |
| BusSignals.DisconnectCanBeMissed | reasoning/hyperkitty_bus.c:255-267 | such a run exists with two threads and one connection: the receiver sleeps, the other thread is idle again |
| BusCalls.OneOutcome | reasoning/hyperkitty_bus.c:229-448 | a call that runs alone to its end has one outcome |
| BusCalls.PublishAlone | reasoning/hyperkitty_bus.c:313-356 | a publish that runs alone delivers to exactly the connections of the table that want the message: appended to the queue, or dropped and counted if 256 wait; nothing else changes and the call ends |
| BusCalls.RouteAlone | reasoning/hyperkitty_bus.c:361-413 | a route that runs alone delivers to the first addressee or, without one, to the first interested connection with the shortest queue, and to nobody if there is none |
| BusCalls.ReceiveAlone | reasoning/hyperkitty_bus.c:418-448 | a receive takes the oldest message if there is one; without one it sleeps if it has a timeout and the connection is active, and else ends |
| BusCalls.WokenAlone | reasoning/hyperkitty_bus.c:440-447 | after its sleep it takes the oldest message if there is one; without one it sleeps again, unless the time is over or the connection inactive |
| BusCalls.SubscribeAlone | reasoning/hyperkitty_bus.c:272-292 | the topic, cut to 127 characters, is appended unless 64 are there or it is there already |
| BusCalls.UnsubscribeAlone | reasoning/hyperkitty_bus.c:294-308 | the last entry moves to the first place of the topic; nothing changes if it is not there |
| BusCalls.ConnectAlone | reasoning/hyperkitty_bus.c:229-252 | a fresh active connection, its identifier cut to 63 characters, is appended to the table unless 256 are listed |
| BusCalls.DisconnectAlone | reasoning/hyperkitty_bus.c:255-267 | the last entry of the table moves to the place of the connection, which becomes inactive |
| BusCodec.EncodeInto | reasoning/hyperkitty_bus.c:37-44 | the buffer gets a prefix of the text and room for the terminator; the returned length is below the size exactly if nothing was cut |
| BusCodec.ScanBody | reasoning/hyperkitty_bus.c:93-99 | the scan stops at the first quote not skipped with a backslash before it, or at the end |
| BusCodec.BodyText | reasoning/hyperkitty_bus.c:88-104 | the body as the scan delimits it, cut to its buffer |
| BusCodec.DecodeMessage | reasoning/hyperkitty_bus.c:77-106 | the decoded fields; -1 for empty input |
| BusRoundTrip.NumberRoundTrip | reasoning/hyperkitty_bus.c:64-75 | `strtoull` reads back a printed 64-bit number whatever non-digit follows |
| BusRoundTrip.ExtractAtField | reasoning/hyperkitty_bus.c:48-62 | a field reads back up to the first quote in it |
| BusRoundTrip.KeyComesFirst | reasoning/hyperkitty_bus.c:48-91 | as long as the fields before hold no quote, `strstr` finds a key at its own field and nowhere before |
| BusRoundTrip.BodyBackIsBody | reasoning/hyperkitty_bus.c:88-104 | a body reads back exactly if its quotes follow backslashes and it does not end in a backslash (or fills its buffer) |
| BusRoundTrip.RoundTrip | reasoning/hyperkitty_bus.c:37-106 | for every message that fits its buffers: decode of encode is the message if and only if its four texts hold no quote and its body survives the scan |
| BusFields.EncodedText | reasoning/hyperkitty_bus.c:37-44 | the text in full: the six keys in order with their values |
| BusFields.DecimalMeans | reasoning/hyperkitty_bus.c:37-44 | numbers are written in digits with their value and without leading zeros |
| BusFields.FirstDigitWeighs | reasoning/hyperkitty_bus.c:64-75 | the first of several digits weighs ten to the number of the others |
| BusFields.NumberMeans | reasoning/hyperkitty_bus.c:64-75 | `strtoull` on blanks, sign, digits and anything else: the value, at most 2^64 - 1, complemented after a minus; 0 without digits |
| BusFields.FieldMeans | reasoning/hyperkitty_bus.c:48-62 | a field begins behind the first place of its key and ends at the next quote, both before `len`; longer text is cut to the buffer |
| BusFields.FieldMissing | reasoning/hyperkitty_bus.c:48-62 | without a place of its key before `len` there is no field |
| BusFields.FieldOpen | reasoning/hyperkitty_bus.c:48-62 | nor without a quote behind it |
| BusFields.NumberFieldMeans | reasoning/hyperkitty_bus.c:64-75 | a number is read behind the first place of its key; 0 without one |
| BusFields.BodyEndMeans | reasoning/hyperkitty_bus.c:93-99 | the scan stops at the first quote without a backslash before it; without one at the end, or at `len`, or behind a skipped quote that stands there |
| BusFields.BodyMeans | reasoning/hyperkitty_bus.c:88-104 | the body is what the scan delimits behind the first place of its key, at most 8191 characters; empty without one |
| BusFields.DecodedSizes | reasoning/hyperkitty_bus.c:77-106 | 31, 63, 63, 127 and 8191 characters are kept of the texts |
| HkclLexer.Lexer.constructor | rust/crates/hyperkitty-constraints/src/lexer.rs:37-43 | the whole source is still to be read, at line 1 |
| HkclLexer.Lexer.Advance | rust/crates/hyperkitty-constraints/src/lexer.rs:53-60 | one character further; the line number counts the line ends passed |
| HkclLexer.Lexer.SkipWhitespace | rust/crates/hyperkitty-constraints/src/lexer.rs:62-78 | exactly the layout at the front is passed |
| HkclLexer.Lexer.SkipComment | rust/crates/hyperkitty-constraints/src/lexer.rs:66-73 | a comment ends behind its line end or with the text |
| HkclLexer.Lexer.ReadString | rust/crates/hyperkitty-constraints/src/lexer.rs:80-106 | the unescaped text up to the closing quote, or which end is missing |
| HkclLexer.Lexer.ReadRun | rust/crates/hyperkitty-constraints/src/lexer.rs:108-132 | the longest run of characters of the class |
| HkclLexer.Lexer.ReadToken | rust/crates/hyperkitty-constraints/src/lexer.rs:140-208 | the token at the front, or the error with its line |
| HkclLexer.Lexer.Tokenize | rust/crates/hyperkitty-constraints/src/lexer.rs:134-212 | all tokens with `Eof` last, or the first error |
| HkclLayout.StringReadsBack | rust/crates/hyperkitty-constraints/src/lexer.rs:80-106 | escapes undo themselves: every legal spelling of a text between quotes reads as that text |
| HkclLayout.LexReadsBack | rust/crates/hyperkitty-constraints/src/lexer.rs:53-212 | every legal text, in any layout, lexes to the tokens it was written from |
| HkclLayout.AcceptedTextIsLegal | rust/crates/hyperkitty-constraints/src/lexer.rs:53-212 | conversely every text the lexer accepts is a legal way to write its tokens |
| HkclParser.EvaluateConstraint | rust/crates/hyperkitty-constraints/src/ast.rs:64-74 | a constraint holds exactly if failures are accepted or each requirement is the check `always_true`, or is not the check `always_false` and its name is bound to true |
| HkclParser.ProgramsAreMonotone | rust/crates/hyperkitty-constraints/src/ast.rs:39-89 | making more names true never turns an accepted program into a rejected one |
| HkclParser.Parser.constructor | rust/crates/hyperkitty-constraints/src/parser.rs:10-12 | all tokens are still to be read |
| HkclParser.Parser.Current | rust/crates/hyperkitty-constraints/src/parser.rs:14-19 | the first token left, `Eof` past the end |
| HkclParser.Parser.Advance | rust/crates/hyperkitty-constraints/src/parser.rs:28-32 | one token is consumed, if there is one |
| HkclParser.Parser.Expect | rust/crates/hyperkitty-constraints/src/parser.rs:34-43 | a token of the kind is consumed, any other is reported |
| HkclParser.Parser.ParseRequirement | rust/crates/hyperkitty-constraints/src/parser.rs:126-144 | agrees with the reading of a requirement by value |
| HkclParser.Parser.ParseName | rust/crates/hyperkitty-constraints/src/parser.rs:57-69 | the parenthesised name, or the first token that does not fit |
| HkclParser.Parser.ParseParam | rust/crates/hyperkitty-constraints/src/parser.rs:71-89 | an identifier or string and the opening brace, or the first token that does not fit |
| HkclParser.Parser.ParseHead | rust/crates/hyperkitty-constraints/src/parser.rs:57-89 | name and parameter, in that order |
| HkclParser.Parser.ParseOneRequirement | rust/crates/hyperkitty-constraints/src/parser.rs:95-98 | one `require` statement |
| HkclParser.Parser.ParseRequirements | rust/crates/hyperkitty-constraints/src/parser.rs:93-99 | all `require` statements up to `otherwise` or the brace |
| HkclParser.Parser.ParseOtherwise | rust/crates/hyperkitty-constraints/src/parser.rs:101-119 | the action, reject if the clause is missing |
| HkclParser.Parser.ParseConstraint | rust/crates/hyperkitty-constraints/src/parser.rs:56-124 | one constraint and the tokens behind it, or the first error |
| HkclParser.Parser.ParseProgram | rust/crates/hyperkitty-constraints/src/parser.rs:45-54 | the loop terminates and yields the meaning of the parse trees, or the first error |
| HkclGrammar.DerivedIsAccepted | rust/crates/hyperkitty-constraints/src/parser.rs:45-144 | the tokens of parse trees parse to these trees |
| HkclGrammar.AcceptedIsDerived | rust/crates/hyperkitty-constraints/src/parser.rs:45-144 | accepted tokens are those of the trees they parse to |
| HkclGrammar.ParserIsExactlyTheGrammar | rust/crates/hyperkitty-constraints/src/parser.rs:34-144 | `parse` returns a program if and only if the tokens up to an end derive from the grammar, as trees with that meaning |
| HkclGrammar.GrammarIsUnambiguous | rust/crates/hyperkitty-constraints/src/parser.rs:34-144 | a token list has at most one derivation |
| HkclGrammar.DocumentedClauseIsRejected | rust/crates/hyperkitty-constraints/src/lib.rs:9-18 | the clause as documented, without semicolon, is a syntax error |
| HkclGrammar.MissingClauseRejects | rust/crates/hyperkitty-constraints/src/parser.rs:104-121 | a constraint without the clause compiles, with its name, parameter and requirements, to one that rejects |
| HkclGrammar.Compile | rust/crates/hyperkitty-constraints/src/lib.rs:64-69 | lexer and parser in sequence; `FrontEndIsExact`, `RefusedExactly` and `MisfitExactly` say when it succeeds and how it fails |
| HkclGrammar.FrontEndIsExact | rust/crates/hyperkitty-constraints/src/lib.rs:64-69 | `compile` returns a program if and only if the source writes it down, for any layout, comments and escapes |
| HkclGrammar.PrintRoundTrip | rust/crates/hyperkitty-constraints/src/lib.rs:64-69 | compiling a printed program gives it back |
| HkclGrammar.WritableExactlyWhenWellNamed | rust/crates/hyperkitty-constraints/src/lib.rs:64-69 | some source compiles to a program if and only if its names are identifiers and no keywords; params are arbitrary |
| HkclErrors.RefusedExactly | rust/crates/hyperkitty-constraints/src/lexer.rs:134-212 | a refused source begins with a legal text, behind which stands what is reported: a character that begins no token, with its line, or a string legal to the end of the source or to a last backslash |
| HkclErrors.OpenString | rust/crates/hyperkitty-constraints/src/lexer.rs:80-106 | a string without end is spelled legally up to the end or to a last backslash, and the error tells which |
| HkclErrors.MisfitExactly | rust/crates/hyperkitty-constraints/src/parser.rs:34-150 | a refused token list begins with what can be completed to a program by the token, name, parameter, action or requirement that the error says was expected, and goes on with another |
| HkclLexer.NewlinesCount | rust/crates/hyperkitty-constraints/src/lexer.rs:53-60 | lines are counted by their ends |
| NandConflicts.Canonical | rust/crates/hyperkitty-nand/src/conflicts.rs:38-44 | the pair in ascending order |
| NandConflicts.AscendingListIsUnique | rust/crates/hyperkitty-nand/src/conflicts.rs:80-82 | a set of pairs has one ascending list, so the order of conflicts is determined |
| NandConflicts.Sort | rust/crates/hyperkitty-nand/src/conflicts.rs:80 | sorted, with every pair as often as before |
| NandConflicts.Dedup | rust/crates/hyperkitty-nand/src/conflicts.rs:81 | after sorting, dropping equal neighbours leaves each pair once, strictly ascending |
| NandConflicts.ConflictRegistry.constructor | rust/crates/hyperkitty-nand/src/conflicts.rs:31-35 | no conflicts |
| NandConflicts.ConflictRegistry.RegisterConflict | rust/crates/hyperkitty-nand/src/conflicts.rs:49-55 | exactly the two experts conflict in addition, in both directions; nothing for one expert with itself |
| NandConflicts.ConflictRegistry.AreConflicting | rust/crates/hyperkitty-nand/src/conflicts.rs:58-64 | registered in either direction, never with itself |
| NandConflicts.ConflictRegistry.FindConflicts | rust/crates/hyperkitty-nand/src/conflicts.rs:69-83 | every registered pair among the experts once, ascending by the first and then by the second expert |
| NandConflicts.ConflictRegistry.FindLater | rust/crates/hyperkitty-nand/src/conflicts.rs:72-78 | the inner loop adds the conflicts of one expert with those behind it |
| NandFilter.SortById | rust/crates/hyperkitty-nand/src/filter.rs:67-68 | ascending by identifier, with every entry as often as before |
| NandFilter.SortIsStable | rust/crates/hyperkitty-nand/src/filter.rs:67-68 | the entries of each expert keep their order |
| NandFilter.SortKeepsFirst | rust/crates/hyperkitty-nand/src/filter.rs:84-94 | so the first entry found for an expert is the first one of the input |
| NandFilter.ResolveConflicts | rust/crates/hyperkitty-nand/src/filter.rs:77-107 | the loop over the conflicts computes the suppressed set |
| NandFilter.Filter | rust/crates/hyperkitty-nand/src/filter.rs:56-115 | the method computes the function the theorems are about |
| NandFilter.AdmittedAreConflictFree | rust/crates/hyperkitty-nand/src/filter.rs:56-115 | no two admitted experts conflict, on every input |
| NandFilter.OutputIsASelection | rust/crates/hyperkitty-nand/src/filter.rs:109-114 | the output is the input, in order and with its weights, without the inactive and the suppressed |
| NandFilter.FilteringIsIdempotent | rust/crates/hyperkitty-nand/src/filter.rs:56-115 | filtering twice is filtering once |
| NandFilter.SuppressionIsJustified | rust/crates/hyperkitty-nand/src/filter.rs:77-107 | from every active expert a path of conflicts, rising in weight and identifier, leads to an admitted one; it has a step exactly if the expert is suppressed |
| NandFilter.TopRankedSurvives | rust/crates/hyperkitty-nand/src/filter.rs:96-106 | the top-ranked active expert is always admitted |
| NandFilter.EmptyExactlyWhenNothingActive | rust/crates/hyperkitty-nand/src/filter.rs:56-115 | nothing is admitted exactly if nothing is active |
| NandLimits.OrderDoesNotMatter | rust/crates/hyperkitty-nand/src/filter.rs:61-115 | permuting input that is unambiguous under the registry leaves the suppressed set and the multiset of admitted entries unchanged |
| NandLimits.AmbiguityMakesOrderMatter | rust/crates/hyperkitty-nand/src/filter.rs:84-94 | for every input with two entries of an expert that fare differently against another, a registry and two orders with different results |
| NandLimits.OrderMattersExactlyWhenAmbiguous | rust/crates/hyperkitty-nand/src/filter.rs:61-115 | no registry and order changes who is suppressed, or what is admitted, if and only if the input is unambiguous |
| NandLimits.OrderMattersUnderRegistry | rust/crates/hyperkitty-nand/src/filter.rs:61-115 | for the conflicts of one registry or any part of them, no order changes who is suppressed if and only if the input is unambiguous under it |
| NandLimits.DistinctExpertsInAnyOrder | rust/crates/hyperkitty-nand/src/filter.rs:61-115 | if no expert is active twice, or with two weights, no registry and order changes who is suppressed or what is admitted |
| NandLimits.OpenPathLosesMaximality | rust/crates/hyperkitty-nand/src/filter.rs:77-107 | for every open path of conflicts, weights rising along it suppress exactly its lower end and its middle, though no admitted expert conflicts with the end |
| NandLimits.PathDecided | rust/crates/hyperkitty-nand/src/filter.rs:77-107 | on three active experts of an open path the weights decide which are suppressed: the pair of the lower end goes first, and a middle that has gone takes no further part |
| NandLimits.MaximalExactlyWhenTransitive | rust/crates/hyperkitty-nand/src/filter.rs:77-107 | the admitted set is maximal on every input if and only if the registered conflicts are transitive |
| NandLimits.OpenPathBreaksRule | rust/crates/hyperkitty-nand/src/filter.rs:45-53 | for every open path, an input on which an expert is admitted though a heavier one conflicts with it |
| NandLimits.RuleExactlyWhenTransitive | rust/crates/hyperkitty-nand/src/filter.rs:45-53 | the documented rule holds on every input if and only if the registered conflicts are transitive |
| NandLimits.OnlyActiveConflictsCount | rust/crates/hyperkitty-nand/src/filter.rs:72-107 | conflicts that involve nobody active influence neither the result nor whether it is maximal or follows the rule |
| NandLimits.ExactlyWhenTransitiveAmong | rust/crates/hyperkitty-nand/src/filter.rs:45-107 | among any set of experts: maximal, and by the documented rule, whichever of them are active, if and only if the conflicts among them are transitive |
| NandLimits.TransitiveAmongActive | rust/crates/hyperkitty-nand/src/filter.rs:45-107 | for one input it is enough that the conflicts among its active experts are transitive |
| BooleanAst.ConstructorsMean | rust/crates/hyperkitty-nand/src/boolean.rs:36-67 | each constructor computes the connective it is named after, on any operands |
| BooleanAst.TranslationKeepsMeaning | rust/crates/hyperkitty-nand/src/boolean.rs:36-94 | nested formulas translated through the constructors keep scope and meaning |
| BooleanAst.LowerToNand | rust/crates/hyperkitty-nand/src/boolean.rs:124-134 | lowering is the identity |
| BooleanAst.RowsAreAssignments | rust/crates/hyperkitty-nand/src/boolean.rs:104-107 | row numbers and assignments correspond one to one |
| BooleanAst.RowDigits | rust/crates/hyperkitty-nand/src/boolean.rs:104-107 | variable `i` of a row is its binary digit worth 2^(n-1-i) |
| BooleanAst.TruthTable | rust/crates/hyperkitty-nand/src/boolean.rs:100-113 | every assignment has its row with its value, and there are `2^n` rows |
| BooleanAst.FunctionallyEquivalent | rust/crates/hyperkitty-nand/src/boolean.rs:137-143 | true if and only if the expressions agree on all assignments |
| BooleanAst.NandIsComplete | rust/crates/hyperkitty-nand/src/primitive.rs:7-16 | every Boolean function of any number of variables is the value of a NAND expression |
| JordanMatrix.Entry | reasoning/jordan_transformer.c:127-130 | the inner loop sums the products of row and column |
| JordanMatrix.MatrixMult | reasoning/jordan_transformer.c:121-135 | the matrix product; null exactly if the shapes do not fit |
| JordanMatrix.CopyMatrix | reasoning/jordan_transformer.c:198-208 | a fresh copy |
| JordanMatrix.Distance | reasoning/jordan_transformer.c:313-320 | the squared Frobenius distance |
| JordanMatrix.SquareOnce | reasoning/jordan_transformer.c:310-328 | one round of the loop: the square, and whether it moved by less than the tolerance |
| JordanMatrix.ConvergeIdempotent | reasoning/jordan_transformer.c:293-333 | the first squaring that moves the matrix by less than the tolerance, -1 if there is none within the iterations or no matrix |
| JordanMatrix.SquaringDoublesTheBand | reasoning/jordan_transformer.c:308-323 | the power `2^k` of a strictly upper triangular matrix is zero wherever `j - i < 2^k` |
| JordanMatrix.SquaringDoublesTheGrade | reasoning/jordan_transformer.c:308-323 | if entries lead down a scale of levels, every squaring doubles how far they lead |
| JordanMatrix.GradedConverges | reasoning/jordan_transformer.c:293-333 | on such matrices, with positive tolerance and iterations enough, the result lies between 0 and `ceil(log2 levels)` |
| JordanMatrix.NilpotentConverges | reasoning/jordan_transformer.c:293-333 | on strictly upper triangular matrices, with positive tolerance and more than `ceil(log2 n)` iterations, the result lies between 0 and `ceil(log2 n)` |
| JordanMatrix.ChainsNeedTheWholeBound | reasoning/jordan_transformer.c:293-333 | for a chain of `n` nodes and tolerance at most 1 the result is exactly `ceil(log2 n)` |
| JordanMatrix.IdempotentConvergesAtOnce | reasoning/jordan_transformer.c:293-333 | a matrix that is its own square gives 0 |
| JordanMatrix.QrIterate | reasoning/jordan_transformer.c:147-174 | the eigenvalues are the diagonal, as soon as one iteration is made |
| JordanMatrix.Peak | reasoning/jordan_transformer.c:218-225 | the greatest magnitude |
| JordanMatrix.RunnerUp | reasoning/jordan_transformer.c:257-259 | the greatest magnitude strictly below the top, else 0 |
| JordanMatrix.MagnitudesOf | reasoning/jordan_transformer.c:249-250 | the absolute values |
| JordanMatrix.GershgorinRadius | reasoning/jordan_transformer.c:234-244 | the greatest sum of magnitudes of a row without its diagonal |
| JordanMatrix.JordanTransform | reasoning/jordan_transformer.c:187-274 | radius, stability, gap, blocks and Gershgorin bound as defined, or the null error |
| JordanMatrix.FeaturesMean | reasoning/jordan_transformer.c:187-274 | radius: the largest size on the diagonal; score 0.9 if all sizes are below 1, else 0.1; Gershgorin bound: the largest row sum of sizes less that on the diagonal; gap: from the radius to the next smaller size |
| JordanMatrix.OffDiagonalIs | reasoning/jordan_transformer.c:234-244 | a row without its diagonal sums to the whole row less the diagonal |
| JordanMatrix.GapOfOneEntry | reasoning/jordan_transformer.c:308-323 | matrices that differ in one entry are as far apart as the entries |
| JordanMatrix.ZeroDiagonalFeatures | reasoning/jordan_transformer.c:187-274 | the radius is 0 if and only if the diagonal is zero, and then gap is 0 and stability 0.9 |
| InvertedAst.NodeWeight | reasoning/inverted_ast.c:72-99 | 1 for exactly the eleven structural kinds, 0 for payload and unknown |
| InvertedAst.AstNode.constructor | reasoning/inverted_ast.c:126-146 | a valid node without children and with a child buffer of its own |
| InvertedAst.AddChild | reasoning/inverted_ast.c:163-178 | which error or success, the children and parent index afterwards, nothing else changed, and the family of nodes stays valid |
| InvertedAst.NewNode | reasoning/inverted_ast.c:126-146 | a new node is a tree of its own in the family, the other nodes stay valid |
| InvertedAst.AddSubtree | reasoning/inverted_ast.c:163-178 | when the root of another tree is added in a tree, the result unfolds, in one way only and with that tree attached, if and only if one of the two did not list the new parent; the child unfolds as before if and only if it did not; no node is shared if the two had none in common |
| InvertedAst.UnfoldsExactlyWithoutParent | reasoning/inverted_ast.c:163-178 | for any graph of nodes: the unfoldings of a node after it is added as a child are those it had before that do not list the new parent |
| InvertedAst.AttachedUnfoldsExactly | reasoning/inverted_ast.c:163-178 | siblings unfold after one more child was added if and only if they do not reach a cycle through the new parent |
| InvertedAst.PayloadSpansPayload | reasoning/inverted_ast.c:163-169 | below payload nodes there are payload nodes only |
| InvertedAst.ComputeWeight | reasoning/inverted_ast.c:205-217 | the number of structural nodes below a structural root, 0 for payload or null |
| InvertedAst.StructuralCounts | reasoning/inverted_ast.c:205-217 | what is counted is the structural nodes of the preorder, once for each place |
| InvertedAst.CountNodes | reasoning/inverted_ast.c:229-236 | the number of nodes of the tree |
| InvertedAst.FlattenTree | reasoning/inverted_ast.c:238-245 | the nodes in preorder from the index on; the buffer before it is untouched |
| InvertedAst.FindNode | reasoning/inverted_ast.c:276-281 | the first place of a node |
| InvertedAst.FillRow | reasoning/inverted_ast.c:273-282 | the row has the edge weights at the first places of the children, zeros elsewhere; other rows are untouched |
| InvertedAst.FillMatrix | reasoning/inverted_ast.c:267-283 | all rows are filled |
| InvertedAst.ToGraph | reasoning/inverted_ast.c:247-287 | the matrix has in row `i`, column `k` the edge weight if the node at `k` is a child of the node at `i` and stands there first, else 0 |
| InvertedAst.ChildrenComeLater | reasoning/inverted_ast.c:238-245 | without shared nodes every child stands after its parent in the preorder |
| InvertedAst.TreeMatrixIsStrictlyUpper | reasoning/inverted_ast.c:247-287 | the matrix of a tree without shared nodes is strictly upper triangular |
| InvertedAst.UnfoldingIsUnique | reasoning/inverted_ast.c:238-245 | a list of siblings unfolds in one way only |
| InvertedAst.ChildIsLower | reasoning/inverted_ast.c:229-245 | a child is on a lower level than its parent wherever both are listed, shared or not |
| InvertedAst.TreesConverge | reasoning/jordan_transformer.c:293-333 | on the matrix of anything that can be unfolded, with nodes shared or not, the loop stops after at most `ceil(log2 depth)` squarings, hence within `ceil(log2 n)` |
| InvertedAst.TreesAreStable | reasoning/jordan_transformer.c:187-274 | such matrices always have radius 0, gap 0 and stability 0.9 |
| InvertedAst.PayloadHasNoAuthority | reasoning/inverted_ast.c:184-199 | payload rows are zero, and no entry into payload exceeds a tenth |
| InvertedAst.EdgesExactly | reasoning/inverted_ast.c:184-199 | 1 from a structural node to a structural child and 0.1 to a payload child, at the first place of the child; 0 everywhere else |
| InvertedAst.StrictlyUpperExactly | reasoning/inverted_ast.c:268-283 | for any flattened nodes: strictly upper triangular if and only if every place of a structural node comes before every place of its children |
| InvertedAst.ParentsFirstExactly | reasoning/inverted_ast.c:238-245 | in a preorder that holds if and only if no structural node with children is listed twice and none is listed behind a child |
| InvertedAst.TreeMatrixExactly | reasoning/inverted_ast.c:247-287 | both together, for the matrix of an unfolding |
| InvertedAst.SharedNodesBreakTheOrder | reasoning/inverted_ast.c:273-282 | for a root with children a and b, and a also a child of b, there is a 1 below the diagonal |
| Bytes.BeRoundTrip | rust/crates/hyperkitty-worm/src/header.rs:85-88 | big-endian bytes read back as the number |
| Bytes.BeByte | rust/crates/hyperkitty-worm/src/header.rs:85-88 | the first of `k` big-endian bytes weighs most: byte `i` is worth 256^(k-1-i) |
| Bytes.LeByte | rust/crates/hyperkitty-sla/src/lib.rs:63-76 | the first little-endian byte weighs least: byte `i` is worth 256^i |
| WormRecord.ReadBe | rust/crates/hyperkitty-worm/src/header.rs:127-160 | the number whose big-endian bytes stand at the place |
| WormRecord.HeaderToBytes | rust/crates/hyperkitty-worm/src/header.rs:80-93 | 152 bytes, the fields in order |
| WormRecord.HeaderLayout | rust/crates/hyperkitty-worm/src/header.rs:80-93 | at which of the 152 bytes each field stands |
| WormRecord.RecordLayout | rust/crates/hyperkitty-worm/src/record.rs:34-40 | header, event type, data and metadata follow one another |
| WormRecord.WellFormedMeans | rust/crates/hyperkitty-worm/src/header.rs:96-181 | readable records carry the letters WORM, version 1 and the lengths of their parts |
| WormRecord.HeaderFromBytes | rust/crates/hyperkitty-worm/src/header.rs:96-181 | the supported header whose encoding stands at the front, or which check failed first |
| WormRecord.HeaderBytesInjective | rust/crates/hyperkitty-worm/src/header.rs:80-93 | different headers have different encodings |
| WormRecord.RecordToBytes | rust/crates/hyperkitty-worm/src/record.rs:34-40 | header, event type, data, metadata |
| WormRecord.RecordFromBytes | rust/crates/hyperkitty-worm/src/record.rs:43-83 | returns a record if and only if the bytes start with the encoding of a well-formed one, and then that one; each error has its reason |
| WormRecord.RecordsAreSelfDelimiting | rust/crates/hyperkitty-worm/src/record.rs:34-83 | length-consistent records form a prefix code |
| WormRecord.RecordRoundTrip | rust/crates/hyperkitty-worm/src/record.rs:34-83 | for every record and suffix: decoding gives the record back if and only if magic, version and lengths are right, and `record_size` bytes belong to it |
| WormRecord.StreamsSplitUniquely | rust/crates/hyperkitty-worm/src/record.rs:34-83 | a concatenation of records splits in one way only |
| WormChain.Chain.constructor | rust/crates/hyperkitty-worm/src/lib.rs:18-22 | an empty chain, which verifies |
| WormChain.Chain.Append | rust/crates/hyperkitty-worm/src/lib.rs:25-56 | one record is added with the given event type, data, metadata and time, no flags, the truncated lengths, the hash of the record before and of its own payload; the chain keeps verifying |
| WormChain.Chain.Verify | rust/crates/hyperkitty-worm/src/lib.rs:59-85 | true exactly if every link and content hash is right, else tampering |
| WormChain.VerifiedExactly | rust/crates/hyperkitty-worm/src/lib.rs:59-85 | a chain verifies if and only if each record carries the hash of its payload and of the bytes of the record before, the first one zeros |
| WormChain.PrefixesVerify | rust/crates/hyperkitty-worm/src/lib.rs:59-85 | every prefix of a verifying chain verifies |
| WormChain.AppendedIsWellFormed | rust/crates/hyperkitty-worm/src/lib.rs:32-36 | an appended record reads back exactly if its parts fit their length fields |
| WormChain.BytesDetermineContent | rust/crates/hyperkitty-worm/src/record.rs:34-40 | two records have the same bytes if and only if header and concatenated payload agree |
| WormChain.HistoryAsWritten | rust/crates/hyperkitty-worm/src/lib.rs:59-85 | two verifying chains with the same last hash have equal headers and payloads record by record, or two of their records collide, or (for different lengths) one hashes to zero |
| WormChain.HistoryIsUnique | rust/crates/hyperkitty-worm/src/lib.rs:59-85 | in the first case they are equal if and only if they divide the payloads alike, and always with consistent lengths |
| WormChain.CollisionFreeHistoryIsUnique | rust/crates/hyperkitty-worm/src/lib.rs:59-85 | if the hash tells their records apart, equally long ones are written alike, and equal if and only if divided alike |
| WormChain.DivisionIsNotHashed | rust/crates/hyperkitty-worm/src/lib.rs:59-85 | chains with the same headers and concatenated payloads, record by record, are alike to `verify`: both pass or neither, with the same last hash |
| WormChain.OtherDivisionExactlyWithPayload | rust/crates/hyperkitty-worm/src/lib.rs:68-75 | another division of a record exists if and only if it has a payload |
| WormChain.ChainHasATwin | rust/crates/hyperkitty-worm/src/lib.rs:59-85 | for any record of a verifying chain with a payload, the chain with that record divided otherwise is different, verifies and has the same last hash |
| WormChain.OnlyOneExactlyWithoutPayload | rust/crates/hyperkitty-worm/src/lib.rs:59-85 | a verifying chain is the only verifying one written as it is if and only if none of its records has a payload |
| Ledger.BalancedIsCanonical | rust/crates/hyperkitty-sla/src/lib.rs:16-32 | a ledger balances exactly if its credit is the wrapped negative of its debit |
| Ledger.CompositionLaws | rust/crates/hyperkitty-sla/src/lib.rs:36-46 | composition is defined for equal omegas, commutes, has an identity and keeps balance |
| Ledger.CompositionAssociates | rust/crates/hyperkitty-sla/src/lib.rs:36-46 | composition associates, wrap-around included |
| Ledger.SumsModulo | rust/crates/hyperkitty-sla/src/lib.rs:36-46 | composition adds the numbers modulo 2^64; a ledger balances if debit and credit add up to 0 |
| Ledger.EveryLedgerHasAnInverse | rust/crates/hyperkitty-sla/src/lib.rs:36-46 | every ledger can be composed to the identity |
| Ledger.EvolutionIsComposition | rust/crates/hyperkitty-sla/src/lib.rs:50-60 | evolving a balanced ledger is composing with the increment, exactly for balanced increments with omega 0 |
| Ledger.DecodeOfEncode | rust/crates/hyperkitty-sla/src/lib.rs:63-76 | decoding undoes encoding if and only if the ledger balances |
| Ledger.EncodeOfDecode | rust/crates/hyperkitty-sla/src/lib.rs:63-76 | every 24 bytes encode a balanced ledger |
| Ledger.LedgerLayout | rust/crates/hyperkitty-sla/src/lib.rs:63-76 | count, debit and omega stand in this order, low byte first |
| Ledger.FrameTellsApart | rust/crates/hyperkitty-sla/src/lib.rs:120-126 | two frames are equal if and only if the sums agree modulo 256 and the omegas modulo 16 |
| Ledger.FrameMeans | rust/crates/hyperkitty-sla/src/lib.rs:120-126 | the four bytes: low half of the sum under the high half of its negative, 0x0F, 0xFF, low half of omega over A |
| Ledger.LedgerSum.constructor | rust/crates/hyperkitty-sla/src/lib.rs:91-93 | the empty sum |
| Ledger.LedgerSum.Push | rust/crates/hyperkitty-sla/src/lib.rs:97-111 | composes the ledger onto the sum, or refuses it and changes nothing |
| Ledger.LedgerSum.EncodeWireFrame | rust/crates/hyperkitty-sla/src/lib.rs:120-126 | the frame of the sum and omega, its four bytes spelled out |
| Ledger.Accept | rust/crates/hyperkitty-wasm/src/lib.rs:134-137 | a ledger is taken exactly if all omegas so far agree with it, and the sum stays that of the ledgers taken |
| Ledger.SlaAccumulate | rust/crates/hyperkitty-wasm/src/lib.rs:130-139 | the frame of the unwrapped sum of all debits and the common omega, empty for bad input; spelled out on the input bytes |
| Ledger.FrameFromBytes | rust/crates/hyperkitty-wasm/src/lib.rs:130-139 | the result from the bytes alone: the low bytes of the debits add up to the first byte of the frame, the low half of omega stands in the last |
| Ledger.EmptyFrameExactlyForBadInput | rust/crates/hyperkitty-wasm/src/lib.rs:130-139 | empty if and only if the length is no multiple of 24 or two omegas differ |
| Ledger.FrameOfEncodedLedgers | rust/crates/hyperkitty-wasm/src/lib.rs:130-139 | permuting encoded ledgers leaves the frame unchanged |
| Ledger.AccumulationTellsApart | rust/crates/hyperkitty-wasm/src/lib.rs:130-139 | empty if and only if two omegas differ; otherwise two accumulations, of any lists, agree if and only if their sums agree modulo 256 and their omegas modulo 16 |
| Words.Low64IsModulo | rust/crates/hyperkitty-runtime/src/advancement.rs:24 | a wrapping counter shows the number of increments modulo 2^64 |
| Runtime.WorldState.constructor | rust/crates/hyperkitty-runtime/src/world.rs:10 | no facts |
| Runtime.WorldState.Clone | rust/crates/hyperkitty-runtime/src/advancement.rs:17-18 | a copy with the same facts |
| Runtime.WorldState.Set | rust/crates/hyperkitty-runtime/src/world.rs:12 | one key is set |
| Runtime.Apply | rust/crates/hyperkitty-runtime/src/action.rs:9-15 | the recursive loop leaves the facts the action makes of them |
| Runtime.ActionsMean | rust/crates/hyperkitty-runtime/src/action.rs:9-15 | setting a fact gives its key the value, removing it none; other keys keep theirs |
| Runtime.BatchesMean | rust/crates/hyperkitty-runtime/src/action.rs:9-15 | a batch does its actions one after the other |
| Runtime.ApplyIsFlat | rust/crates/hyperkitty-runtime/src/action.rs:9-15 | at any nesting of batches an action performs exactly its single writes in order |
| Runtime.LastWriteDecides | rust/crates/hyperkitty-runtime/src/action.rs:9-15 | the last write to a key decides it, a key without writes keeps its value |
| Runtime.Runtime.constructor | rust/crates/hyperkitty-runtime/src/advancement.rs:8-14 | no facts, no ticks, index 0 |
| Runtime.Runtime.AdvanceTick | rust/crates/hyperkitty-runtime/src/advancement.rs:16-26 | the tick is appended with the facts before and after, and the history stays chained |
| Runtime.Replay | rust/crates/hyperkitty-runtime/src/advancement.rs:16-26 | the facts after a history are the flattened writes applied from empty; tick `i` has index `i` modulo 2^64 |
| Runtime.CurrentFactIsLastWrite | rust/crates/hyperkitty-runtime/src/advancement.rs:16-26 | what is known about a key is what the last write to it in the whole history said |

## Left out

- Sockets, the accept and reader threads, and `hk_bus_init`: no algorithm beyond the system calls.
- `hk_bus_destroy`: it makes listed connections inactive under the bus lock, joins the threads and frees everything; runs end before it is called.
- Null arguments of the bus functions and failing memory allocation: each returns its error before anything happens.
- Clocks: a timed wait ends at any moment, with or without a timeout, so nothing is claimed about how long it lasts.
- Return codes of `hk_bus_publish` and `hk_bus_route`: they repeat the delivered count and the push result, which are in the model.
- BusProtocol: connections are values there and their buffers sequences; the arrays are in `BusConnection`, and no run of the array classes themselves is modelled.
- Fairness: that a released thread gets its lock at some time is up to the scheduler and not claimed.
- BusRoundTrip.RoundTrip: for messages that fit their buffers; `snprintf` would cut longer ones.
- Unicode classes of the HKCL lexer, error message texts, and the checks announced in the documentation of `compile` that the code does not make.
- Node labels of the syntax graph and freeing of memory.
- The rounding of floating point, NaN and infinities.
- Real hash functions and signatures; header signatures are bytes without meaning.
- `LedgerSum.count` and the lengths of lists do not wrap.
- Tick receipts, `Tick::verify` (always true) and `hk_jordan_detect_fixed_point` (always 1).
- QRA tensors, witnesses, glyphs, QLG and isomorphism code: finite domains.
- The kernel gates, `validity.rs`, `reconciliation.rs`, `cminus_bridge.rs`, the C copy of the NAND filter, the pipelines and the C worm storage: straight-line checks or stubs.
