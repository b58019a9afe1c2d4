# Models of the availability tools

This project models the parts of the repository that hold state between calls, and proves what that state
keeps.  Each model follows the source statement by statement: an object whose methods overwrite its fields is
a class, a loop is a loop, and each method is proved against a function on values, about which the theorems
are then stated.  Threads and processes that interleave are transition systems over their steps.

| files | what they model |
|---|---|
| `AgendaOrder`, `TimeTags`, `SalienceIndex`, `Agenda`, `AgendaEnvironment` | the CLIPS agenda: the activation list, its index of salience groups, the seven strategies, and the counters that all modules share |
| `LhsNode`, `VariableAnalysis`, `VariableScope`, `VariableTypes`, `VariableUses` | the CLIPS analysis of a rule's variables: bindings handed on by overwriting, what that means for scopes, and exactly when a rule is refused |
| `SlotMap`, `PoolChain`, `MemPool` | the slab allocator: bitmaps, pools of 512 slots, and the chain of pools |
| `Queue`, `QueueInterleaving` | the message queue: its two rings of entries, and one producer and one consumer at lock granularity |
| `JsonScanner`, `JsonGrammar`, `JsonRecogniser` | the JSON scanner, the grammar it feeds, and the recursive-descent recogniser |
| `Channel`, `ChannelProtocol` | requests and replies of many clients and one server over one System V message queue |
| `LineModel`, `LineEditor` | the line editor: the edit buffer, its history and the scrolled window |
| `InternTable` | the node and neighbour tables |
| `LinkBounce` | the limiter of link bounces |
| `Smbios` | the structures of an SMBIOS table and their strings |
| `Xuid` | the text forms of UUIDs and GUIDs |
| `Numbers`, `Wrappers` | helpers |

## Findings

Where the code does not do what its documentation or its callers expect, the model keeps the code as it is and
states exactly when it goes wrong.

- Test conditions of rules (`CLIPS/analysis.c:759-767`): a reference that is set only gives way to a binding of
  the same pattern or the same kind of pattern.  So a variable refers to the nearest binding in its scope exactly
  when that binding is of the variable's pattern or kind of pattern, or no earlier one is in scope
  (`VariableScope.RefersToNearestUnless`).  The nodes of a test CE have no pattern and no kind, and their
  variables refer to the earliest binding (`VariableScope.TestsReferToEarliest`): in
  `(a ?x) (b ?x) (test (f ?x))` to the first `?x` (`VariableScope.TestRefersToFirst`).
- Equal complexity (`CLIPS/crstrtgy.c:586-616`): the comment has a new activation go before those of equal
  complexity, but the loop goes past them because its time tag is later: it comes after all of them
  (`Agenda.ModuleAgenda.AddActivation`).
- Multifield slots without fields (`CLIPS/analysis.c:377-419`): such a slot stays the header of the fields that
  follow it, and a binding is handed to itself exactly when it is visited behind one
  (`VariableScope.ReachesItselfIff`).  The bindings of a pattern keep to their scopes exactly when none is
  (`VariableScope.ScopesAreKeptIff`).  In a pattern like `(p (first) (second ?x))` the only `?x` ends up
  referring to itself (`VariableScope.EmptySlotMisleads`).
- Taking from an empty queue (`Queue.h:95-100`): `dequeue` hands the head of the queue to the list of unused
  entries.  It does so exactly when the queue is empty (`Queue.Queue.Dequeue`).
- Zones of 4 GB and more (`Allocator.cc:226-237`): the allocator finds every block of a pool again exactly when
  the pool's 512 slots take less than 2^32 bytes (`PoolChain.FoundAgainIffFits32`).
- Freeing an address that is in no pool (`Allocator.cc:226-237`): this is reported as an invalid object exactly
  when the last zone asked for could not be mapped; otherwise it divides by the size of the tail pool, which is zero
  (`PoolChain.FreeOfAForeignAddress`).
- Allocating no bytes (`Allocator.cc:122-136`): this fails, and is the only allocation that does
  (`MemPool.MemPool.Allocate`).
- Numbers after numbers (`json_scanner.c:135-184`): the value of a number continues the value of the number
  before it.  It is right exactly when nothing was carried over or the number is a zero that neither `x` nor an
  octal digit follows (`JsonScanner.NumberIsItsDigits`).
- Signed numbers (`json_scanner.c:248-265`): a minus sign is taken for an identifier without letters, at which the
  scanner stays (`JsonScanner.OtherCharacters`).  No text that begins with one is accepted
  (`JsonGrammar.SignedNumbersAreRefused`).
- Backslashes in strings (`json_scanner.c:220-242`): there is no escape for a backslash.  A string can be
  written exactly when it has none (`JsonScanner.WritableIffNoBackslash`).
- Completions (`linenoise.c:271-272`): a completion is what the line then holds exactly when it is empty or
  shorter than the space for the line (`LineEditor.Editor.Complete`).
- Prompts as wide as the screen (`linenoise.c:193-197`): the cursor stays on the line exactly when the prompt is
  narrower than the screen.  On a screen of no columns, and only there, the loop never ends (`LineEditor.Window`).
- Moving through the history (`linenoise.c:393-410`): a move changes no line exactly when the line it leaves has
  no zero byte and the line it shows fits in the buffer, or there is no line to move to
  (`LineModel.MovesKeepThePages`).
- A full node table (`NetworkMonitor.cc:355-357`): loading the partner cache has no node to mark exactly when
  all slots hold other keys (`InternTable.Table.LoadCache`).
- Comparing GUIDs (`xuid.c:225-237`): the result is zero exactly for equal GUIDs (`Xuid.CompareGuid`).  It is
  negative exactly when the left GUID is the smaller one if and only if the left first field is at most 2^31 below
  the right one, or less than 2^31 above it (`Xuid.SignIsRightIff`): two GUIDs can each come before the other
  (`Xuid.CompareIsNoOrder`, `Xuid.TwoApart`).
- SMBIOS string numbers (`SMBIOS.cc:82-87`): the lookup is right unless the number is one more than the count,
  or is zero in a set of at least 255 strings.  It reads past the strings exactly when the number is one more
  than the count, or is zero and there are 255 (`Smbios.LookUpIsRightUnless`).
- SMBIOS tables without a baseboard (`SMBIOS.cc:379-382`): the system takes its place, and reading the table uses
  a null pointer exactly when there is no system either (`Smbios.Table.Read`).

## Model

| member | source | states |
|---|---|---|
| AgendaOrder.BeforeTotal | CLIPS/crstrtgy.c:87-164 | of two activations with different time tags exactly one comes before the other, under each strategy |
| AgendaOrder.BeforeTransitive | CLIPS/crstrtgy.c:87-164 | the order of each strategy is transitive, with the comparison of recency by binds for lex |
| AgendaOrder.RecencyIs | CLIPS/crstrtgy.c:889-914 | the comparison puts those tags first that have the later tag at the first difference, or go on where the others end |
| AgendaOrder.OrderedUnique | CLIPS/crstrtgy.c:87-164 | two agendas ordered by one strategy that hold the same activations are the same list |
| TimeTags.SortPartialMatch | CLIPS/crstrtgy.c:796-848 | the passes leave the time tags of a match sorted, the latest first, with 0 for what matched nothing, and stop |
| TimeTags.SortedIsUnique | CLIPS/crstrtgy.c:796-848 | two sorted lists of the same time tags are the same list |
| SalienceIndex.InsertIndexed | CLIPS/crstrtgy.c:167-790 | an activation put within its salience, with the ends of its group moved as the strategies move them, restores the whole index |
| SalienceIndex.RemoveIndexed | CLIPS/agenda.c:696-752 | taking an activation out of a longer group, with the group's end moved off it, restores the whole index |
| SalienceIndex.RemoveRun | CLIPS/agenda.c:706-725 | a group of one activation goes away with it, and the index is whole |
| SalienceIndex.ListIsConcatenation | CLIPS/agenda.c:207-265 | a list with a complete index is exactly the first..last stretches of the groups, one after the other |
| Agenda.ModuleAgenda.FindSalienceGroup | CLIPS/agenda.c:247-265 | the group of a salience is found if there is one, and nothing is found only if there is none |
| Agenda.ModuleAgenda.ReuseOrCreateSalienceGroup | CLIPS/agenda.c:207-242 | the group of a salience is found, or an empty one is linked where the falling saliences want it |
| Agenda.ModuleAgenda.Walk | CLIPS/crstrtgy.c:167-790 | the walk over a group stops where everything before stays ahead of the activation and everything after comes after it, for each of the seven strategies |
| Agenda.ModuleAgenda.PlaceActivation | CLIPS/crstrtgy.c:87-164 | an activation is put where it keeps the list ordered by the strategy, the links mutually inverse and the group index complete |
| Agenda.ModuleAgenda.StrategyRanks | CLIPS/crstrtgy.c:167-790 | what an activation has over a later one of its salience: the later tag under depth, the earlier under breadth, more recent tags and then complexity under lex, the later first tag before that under mea, more or less complexity, or the smaller random number |
| Agenda.ModuleAgenda.AddActivation | CLIPS/agenda.c:134-202 | a match gets a new activation with its own time tag and linked to it by its marker; it goes before all others of its salience under depth and after them under breadth; list, groups, counter and time tags stay consistent, and nothing else moves |
| Agenda.ModuleAgenda.RemoveActivationFromGroup | CLIPS/agenda.c:696-752 | the index is that of the list without the activation, before the list itself has changed |
| Agenda.ModuleAgenda.DetachActivation | CLIPS/agenda.c:517-575 | the activation leaves the list and the index and counts as one that is being fired; the rest keeps its order |
| Agenda.ModuleAgenda.BeginFiring | CLIPS/engine.c:293-306 | a fired activation is off the agenda and its match may be activated again |
| Agenda.ModuleAgenda.RemoveActivation | CLIPS/agenda.c:616-691 | removing an activation leaves the list without it, its match without a marker, and the counter one lower |
| Agenda.ModuleAgenda.ClearRuleFromAgenda | CLIPS/agenda.c:270-310 | exactly the activations of the rule's disjuncts are gone; the others keep their order |
| Agenda.ModuleAgenda.RemoveAllActivations | CLIPS/agenda.c:768-788 | list and groups are empty, and the second loop, over the groups, makes no turn |
| Agenda.ModuleAgenda.EnvReorderAgenda | CLIPS/agenda.c:817-886 | from any list with distinct time tags, and whatever the stale groups say, the rebuilt list is ordered, indexed and holds the same activations |
| Agenda.ModuleAgenda.EvaluateSalience | CLIPS/agenda.c:1246-1320 | a rule has its old salience unless it is dynamic and gave an integer from -10000 to 10000 |
| Agenda.ModuleAgenda.EnvRefreshAgenda | CLIPS/agenda.c:1024-1112 | every salience is that of the chain of evaluations of its rule up to there; although the index was stale in between, list and index are consistent again and hold the same activations |
| Agenda.LastEvaluationCounts | CLIPS/agenda.c:1024-1112 | a rule ends with the salience of the last evaluation that gave it one, and with its old one if none did |
| Agenda.ModuleAgenda.EnvRefresh | CLIPS/agenda.c:937-981 | each match that can activate the rule and has no activation gets a new one, for the disjunct whose match it is; nothing else is added, and with no such match nothing changes at all |
| Agenda.ModuleAgenda.EnvRefreshAgain | CLIPS/agenda.c:937-981 | after one refresh a second one leaves the agenda, its groups, every marker and every salience as they are |
| Agenda.ModuleAgenda.AgendaIsItsGroups | CLIPS/agenda.c:207-265 | a valid agenda is exactly its groups' first..last stretches, and it has groups exactly when it has activations |
| Agenda.AgendaIsDetermined | CLIPS/crstrtgy.c:87-164 | two valid agendas under one strategy that hold the same activations list them alike |
| AgendaEnvironment.Environment.AddActivation | CLIPS/agenda.c:134-202 | a new activation of the rule, with the next time tag and the salience that was evaluated, is put into one module's list; the other lists stay, and agendas and shared counters are consistent |
| AgendaEnvironment.Environment.BeginFiring | CLIPS/engine.c:293-306 | firing from one module keeps the environment consistent |
| AgendaEnvironment.Environment.RemoveActivation | CLIPS/agenda.c:616-691 | removing from one module changes that module's list alone and keeps the environment consistent |
| AgendaEnvironment.Environment.ClearRuleFromAgenda | CLIPS/agenda.c:270-310 | the activations of the rule's disjuncts are gone from one module's list, whose others keep their order; the other lists stay and the environment is consistent |
| AgendaEnvironment.Environment.RemoveAllActivations | CLIPS/agenda.c:768-788 | one module's list and groups are empty, the other lists stay, and the environment is consistent |
| AgendaEnvironment.Environment.EnvRefresh | CLIPS/agenda.c:937-981 | one module gets activations for the matches of the rule that have none and no others, and the environment is consistent |
| AgendaEnvironment.Environment.AgendaClearFunction | CLIPS/agenda.c:758-762 | the time tags start over, which keeps the environment consistent if and only if no activation is left |
| AgendaEnvironment.Environment.ReturnActivation | CLIPS/engine.c:405-416 | a fired activation is returned with both flags clear: only the counter changes, whatever its match has become |
| AgendaEnvironment.Environment.ReorderAll | CLIPS/agenda.c:817-886 | reordering all modules leaves each agenda a permutation of itself, ordered and indexed |
| AgendaEnvironment.Environment.SetStrategy | CLIPS/crstrtgy.c:947-959 | changing the strategy orders every module's agenda by the new one and keeps what each holds |
| AgendaEnvironment.Environment.TryStrategy | CLIPS/crstrtgy.c:947-959 | under another strategy the same activations are ordered by that strategy, and coming back restores every agenda exactly |
| AgendaEnvironment.Environment.RefreshAll | CLIPS/agenda.c:1024-1112 | module by module and along each list, every activation gets the salience of its rule after the evaluations up to there, beginning with what the rule had before the first module; each agenda is permuted, and the environment is consistent |
| AgendaEnvironment.Environment.NumberIsSum | CLIPS/agenda.c:171 | the number of activations is the sum over all agendas plus those being fired |
| AgendaEnvironment.Environment.TagsDifferEverywhere | CLIPS/agenda.c:165-170 | two different activations, on whatever agendas, have different time tags |
| LhsNode.PropagateVariableToNodes | CLIPS/analysis.c:681-818 | the propagation fails exactly when a node in reach, in no expression, has the name with another type, single-field or multifield; otherwise exactly the nodes in reach with the name are offered the binding, and each takes it by the rule of the code; every other reference stays |
| VariableAnalysis.CheckExpression | CLIPS/analysis.c:948-1048 | a variable of the expression that is unbound is returned, and none exactly when all variables in it are bound |
| VariableAnalysis.ExpressionVariablesAreAll | CLIPS/analysis.c:1022-1033 | every variable of an expression is looked at, however deep the calls are nested |
| VariableAnalysis.UnboundVariablesInPattern | CLIPS/analysis.c:826-941 | a field is refused exactly when a use in its or- and and-constraints is unbound, and a multifield slot when one in its fields is |
| VariableAnalysis.OrVariablesAreAll | CLIPS/analysis.c:863-931 | every variable in the constraints of a field is looked at, joined by | or & or within a predicate |
| VariableAnalysis.PropagateVariableDriver | CLIPS/analysis.c:504-598 | a binding reaches the rest of its slot, the slots after it, the tests, and the CEs below unless the CE is a not, an exists or the last of a nand; types are compared on all of these but the tests |
| VariableAnalysis.ProcessVariable | CLIPS/analysis.c:434-498 | a binding reaches its own constraints before they are checked, and everything else after; it is refused for an unbound use in its constraints or for a use of its name with another type |
| VariableAnalysis.GetVariables | CLIPS/analysis.c:356-428 | the walk with its multifield header does what visiting the fields in the order of `Visits` does, or stops at the first that fails |
| VariableAnalysis.Analysis.EnterNands | CLIPS/analysis.c:138-146 | the frames stay in step with the depth, and the new ones belong to the CE |
| VariableAnalysis.Analysis.LeaveNands | CLIPS/analysis.c:235-241 | every frame that is released is there, and those that stay belong to nands that no CE since has left |
| VariableAnalysis.Analysis.VariableAnalysis | CLIPS/analysis.c:115-255 | the analysis of a rule is that of its CEs one after another, the references are overwritten accordingly, and frames never underflow |
| VariableScope.LastAgreeingWins | CLIPS/analysis.c:759-767 | of the bindings that reach a node the last one that agrees with it wins |
| VariableScope.FirstStays | CLIPS/analysis.c:759-767 | when none after the first agrees, the first stays |
| VariableScope.ReachDown | CLIPS/analysis.c:804-810 | going down, a propagation gets exactly as far as the first CE that ends above its depth |
| VariableScope.ReachInPattern | CLIPS/analysis.c:504-553 | within a pattern a binding reaches exactly what comes after it and the constraints of its own field |
| VariableScope.ReachIsScope | CLIPS/analysis.c:555-598 | a binding is handed to exactly the nodes in its scope: pattern, not, exists, nand depths and all |
| VariableScope.InDocumentOrder | CLIPS/analysis.c:131-248 | bindings are handed on in the order of the document |
| VariableScope.EveryBindingIsListed | CLIPS/analysis.c:370-420 | no binding of a pattern is passed over |
| VariableScope.NearestBinding | CLIPS/analysis.c:681-818 | in a rule without errors a use refers to the nearest binding in its scope that agrees with it |
| VariableScope.RefersToNearestUnless | CLIPS/analysis.c:759-767 | a use refers to the nearest binding in its scope exactly unless the two do not agree and an earlier one is in scope |
| VariableScope.TestsReferToEarliest | CLIPS/analysis.c:759-767 | in a rule without errors a variable of a test refers to the earliest binding in its scope |
| VariableScope.TestRefersToFirst | CLIPS/analysis.c:759-767 | the rule (a ?x) (b ?x) (test (f ?x)) is accepted, both ?x are in scope of the test, and the test refers to the first |
| VariableUses.RefusedExactlyWhen | CLIPS/analysis.c:115-255 | a rule is refused exactly when a variable that is no field has no binding of its name in scope, the address of a pattern has one, or a name is used with another type in the scope of a binding |
| VariableUses.AcceptedBindsEveryUse | CLIPS/analysis.c:115-255 | an accepted rule leaves no variable unbound but its fields, in whatever constraint, test or nested argument it stands |
| VariableUses.FieldsAreVisitedInOrder | CLIPS/analysis.c:370-420 | the walk over a pattern without empty slots visits exactly its fields, in the order of the document |
| VariableTypes.ReachedIsStrict | CLIPS/analysis.c:703-737 | types are compared on every node in reach that is in no expression |
| VariableTypes.PlaceOf | CLIPS/analysis.c:370-420 | the walk over a pattern comes to every variable that is in no expression |
| VariableScope.ReachesItselfIff | CLIPS/analysis.c:377-419 | a binding is handed to itself exactly when it is visited behind a multifield slot without fields |
| VariableScope.ScopesAreKeptIff | CLIPS/analysis.c:377-419 | the bindings of a pattern reach exactly what comes after them if and only if none is visited behind a multifield slot without fields |
| VariableScope.EmptySlotMisleads | CLIPS/analysis.c:377-419 | the only binding of a pattern with an empty slot before it refers to itself |
| SlotMap.PopulationCount | Allocator.cc:108-114 | the shifts and masks count the set bits of one word |
| MemPool.MemPool.AvailableSlots | Allocator.cc:102-118 | the sum over all words plus the slots in use is 512 |
| MemPool.MemPool.TakeSlot | Allocator.cc:194-214 | the lowest free slot is taken, or none is free |
| MemPool.MemPool.Initialize | Allocator.cc:122-146 | the tail becomes an empty pool of the asked size with a new tail behind it, or mapping no bytes fails |
| MemPool.MemPool.Allocate | Allocator.cc:186-220 | the chain allocates as the sequence of pools does; it fails exactly for objects of no bytes |
| MemPool.MemPool.Free | Allocator.cc:224-252 | the chain frees as the sequence of pools does, in 32- and 64-bit arithmetic |
| PoolChain.AllocatedTakesOne | Allocator.cc:186-220 | an allocation takes one slot that was free, in a pool of the asked size, and no other slot changes |
| PoolChain.BlocksApart | Allocator.cc:205-212 | two different live blocks never overlap |
| PoolChain.AllocatedIsFresh | Allocator.cc:186-220 | the block handed out lies inside a pool of the asked size and overlaps no live block |
| PoolChain.FreeOfASlot | Allocator.cc:224-252 | freeing any address in a slot frees that block if it is live, reports a double free if it is not, and changes nothing else |
| PoolChain.FreeOfAForeignAddress | Allocator.cc:226-237 | freeing an address in no pool divides by zero, unless the last zone asked for could not be mapped: then it is reported as an invalid object |
| PoolChain.FoundAgainIffFits32 | Allocator.cc:226-237 | every block of a pool is found again exactly when the zone is below 2^32 bytes |
| PoolChain.PoolsArePeak | Allocator.cc:186-220 | over every run the pools of a size are as many as its peak number of live blocks asks for, 512 to a pool |
| PoolChain.SecondFreeIsReported | Allocator.cc:242-246 | however a run goes on after a block was freed, freeing it again is a double free as long as its address was not handed out again |
| Queue.Entry.Insert | Queue.h:49-56 | an entry joins the ring as its newest |
| Queue.Entry.Remove | Queue.h:58-65 | the oldest entry leaves the ring; a head that is alone takes itself |
| Queue.Queue.Allocate | Queue.h:75-80 | an unused entry is taken if there is one, and a new one is made only if there is none |
| Queue.Queue.Enqueue | Queue.h:87-93 | the two rings do what appending to a sequence does, reusing an entry when one is unused |
| Queue.Queue.Dequeue | Queue.h:95-100 | the oldest message comes out and its entry becomes unused; the queue survives exactly if it was not empty |
| Queue.Queue.Depth | Queue.h:110-120 | the walk around the ring counts the messages |
| Queue.RunOn | Queue.h:87-100 | a run of operations on the pointers gives out what the sequence gives out and ends in the same state |
| Queue.FirstInFirstOut | Queue.h:87-100 | over any run of the sequence machine, which `RunOn` ties to the pointers, messages come out in the order put in, none lost or doubled |
| Queue.EntriesArePeakDepth | Queue.h:75-80 | the entries ever made, counted where they are made, are as many as the queue was ever deep |
| QueueInterleaving.FirstInFirstOut | Queue.h:49-68 | in every interleaving of producer and consumer, messages come out in the order put in, and all others are accounted for in order |
| QueueInterleaving.EntriesAreConserved | Queue.h:49-80 | every entry is in exactly one of the queue, the unused ring and the two threads' hands |
| QueueInterleaving.NoWakeUpIsLost | Queue.h:87-108 | a consumer that waits while the queue holds something has a signal still to come or can go on, some move brings it closer to the end of its wait, and no move takes it back |
| QueueInterleaving.RemovesFindAnEntry | Queue.h:75-108 | whoever takes an entry off a ring finds one there |
| JsonScanner.Scanner.RecognizeDigits | json_scanner.c:135-177 | each digit loop gives the carried value times the base to the number of digits, plus their positional value |
| JsonScanner.Scanner.GetNextToken | json_scanner.c:91-266 | the jumps recognise the token, text, value and rest that the definition by cases gives, or end the program when it does |
| JsonScanner.Progress | json_scanner.c:91-266 | a call ends the program, ends the input, gives an identifier, or leaves fewer characters |
| JsonScanner.RoundTrip | json_scanner.c:202-242 | scanning the escaped form of any string without backslashes gives the string back and consumes exactly that form |
| JsonScanner.WritableIffNoBackslash | json_scanner.c:220-242 | a string can be written exactly when it has no backslash |
| JsonScanner.NumberIsItsDigits | json_scanner.c:135-184 | when the scanner gives a number, its value is that of its digits in their base if and only if nothing was carried over or the number is a lone zero |
| JsonScanner.DecimalRoundTrip | json_scanner.c:135-146 | a number written in decimal digits is scanned as that number, when nothing was carried over |
| JsonScanner.OctalRoundTrip | json_scanner.c:170-184 | so is one in octal digits after a zero |
| JsonScanner.HexRoundTrip | json_scanner.c:148-168 | so is one in hexadecimal digits after 0x, small or capital |
| JsonScanner.SignsAndWords | json_scanner.c:75-115 | each sign, word and escape is scanned as what it stands for |
| JsonScanner.OctalAborts | json_scanner.c:178-195 | an eight or a nine in a number that begins with zero ends the program |
| JsonScanner.StringsAbort | json_scanner.c:202-242 | a string that is not closed, or with an escape that is none, ends the program |
| JsonScanner.OtherCharacters | json_scanner.c:248-265 | any other character ends the program above z, and otherwise holds the scanner where it is |
| JsonGrammar.AcceptsIffText | json.c:20-97 | a stream of tokens is accepted exactly when it is one value of the grammar and the end of the input; otherwise the program ends |
| JsonGrammar.EveryValueCanBeWritten | json.c:20-97 | every value of the grammar has a text that is accepted |
| JsonRecogniser.Recogniser.JSONValue | json.c:77-85 | the recursive descent over the one current token does what parsing the stream does, and one that recognises nothing consumes nothing |
| JsonRecogniser.Recogniser.Parse | json.c:92-97 | a text is accepted exactly when its tokens are a value and the end of the input; the recognition ends on every text |
| Channel.ChannelClient.Send | Channel.cc:206-221 | a request is queued for the server under the sender's process number |
| Channel.ChannelClient.Receive | Channel.cc:226-237 | the client takes the oldest message addressed to it |
| Channel.ServiceChannel.Receive | Channel.cc:175-187 | the server takes the oldest request |
| Channel.Service.RunOnce | Service.cc:433-440 | one turn of the loop takes the oldest request, ignores it if its client is dead, and otherwise queues what evaluating it gave |
| ChannelProtocol.TurnIsFourSteps | Service.cc:432-441 | an uninterrupted turn of the service loop does what the server's steps do |
| ChannelProtocol.ExactlyOnePhase | Channel.cc:155-187 | after every run each request is in exactly one of queued, being served, dropped, reply queued and delivered |
| ChannelProtocol.RepliesReachTheirClients | Channel.cc:206-237 | every reply was taken by the client that sent the request and is what the server answered to it; only requests of dead clients are dropped |
| ChannelProtocol.WaitingClientGetsItsReply | Channel.cc:226-237 | what a blocked client can take is the reply to the request it waits for |
| ChannelProtocol.AnswersAreSequential | Service.cc:428-442 | the answers are those of one interpreter that evaluates the requests alone, one after another, in the order sent |
| ChannelProtocol.NoClientIsStuck | Service.cc:428-442 | until a waiting client's reply is queued the server has a step to take, each of its steps brings the reply nearer, and nobody's step puts it off |
| LineModel.InsertionIsUndone | linenoise.c:332-341 | backspace undoes an insertion, and so do left and delete |
| LineModel.CursorMovesKeepTheText | linenoise.c:377-389 | cursor moves keep the text, and a step back undoes a step |
| LineModel.TypingAtTheEnds | linenoise.c:460-467 | a character typed after home comes first in the line, and one typed after end comes last |
| LineModel.HistoryKeysDo | linenoise.c:370-411 | ctrl-p and the up arrow show the next older line, ctrl-n and the down arrow the next newer one, if there is one |
| LineModel.TransposingIsUndone | linenoise.c:354-362 | swapping two characters keeps all characters, and undoes itself at the end of a line; elsewhere after a step back |
| LineModel.MovesKeepThePages | linenoise.c:391-411 | a move in the history changes no line exactly when the line has no zero byte and the shown one fits, or there is nowhere to move |
| LineModel.UpThenDown | linenoise.c:391-411 | up and down again gives the edited line back, with the cursor at its end |
| LineModel.PagesKeepTheirEdits | linenoise.c:305-472 | however one moves about in the history and edits, a line changes only by edits made on it |
| LineEditor.Window | linenoise.c:189-200 | the first loop ends exactly on a screen with columns; then the window is full on each side it was cut at, and the cursor is within the shown text exactly when the prompt is narrower than the screen |
| LineEditor.Editor.HistoryAdd | linenoise.c:537-556 | the line becomes the newest, and the oldest gives way when the history is full |
| LineEditor.Editor.Insert | linenoise.c:426-449 | a character goes in at the cursor if there is space, with the terminator after the line |
| LineEditor.Editor.Backspace | linenoise.c:332-341 | the character left of the cursor goes |
| LineEditor.Editor.CtrlD | linenoise.c:342-353 | the character right of the cursor goes unless it is the last of the line; on an empty line the session is over |
| LineEditor.Editor.Delete | linenoise.c:415-423 | the character right of the cursor goes |
| LineEditor.Editor.Transpose | linenoise.c:354-362 | the characters around the cursor are swapped, and the cursor moves on unless it is at the last one |
| LineEditor.Editor.ShowHistory | linenoise.c:391-411 | the line goes back into its place before the next older or newer one is loaded, cut to the buffer |
| LineEditor.Editor.Press | linenoise.c:324-471 | each key, by its code, does to the text and the cursor what the code does: ctrl-a puts the cursor at 0, ctrl-e at the end, ctrl-k and ctrl-u cut, and so on; enter, ctrl-c and ctrl-d on an empty line end the session |
| LineEditor.Editor.Prompt | linenoise.c:290-474 | a session plays the commands of its keys up to the one that ends it, and takes its own line out of the history unless ctrl-c or the end of the input ends it |
| LineEditor.Editor.Complete | linenoise.c:268-275 | the line is the completion exactly when that is empty or shorter than the space |
| LineEditor.ReadsWhatIsPlayed | linenoise.c:305-472 | reading keys amounts to playing their commands |
| InternTable.MatchesAgreeIffUnique | NetworkMonitor.cc:194-206 | the first and the last match of every key are the same slot exactly when no two slots hold one key |
| InternTable.InterningIsRight | NetworkMonitor.cc:188-236 | interning fails exactly when every slot holds another key, moves nothing, puts a new key into the last free slot, and the key is then found by either search |
| InternTable.RemovingIsRight | NetworkMonitor.cc:241-253 | the key is in no slot any more and the other slots are as they were |
| InternTable.KeysKeepTheirSlots | NetworkMonitor.cc:188-273 | through any run no two slots hold one key, and a key stays in its slot until it is removed |
| InternTable.Table.Intern | Interface.cc:805-872 | the loop finds the key or the last free slot, the second scan looks at nothing, and the warning and the error are due exactly as said |
| InternTable.Table.Remove | Interface.cc:878-892 | all slots with the key are freed |
| InternTable.Table.FindNode | NetworkMonitor.cc:258-273 | the last match is found, which is the first |
| InternTable.Table.FindNeighbor | Interface.cc:899-916 | the first match is found, which is the last |
| InternTable.Table.ClearPartners | NetworkMonitor.cc:311-318 | no node is a partner any more, and as many are reported as were |
| InternTable.Table.LoadCache | NetworkMonitor.cc:345-358 | the cached node becomes the only partner, unless the table is full of other keys |
| LinkBounce.Interface.BounceExpired | Interface.cc:429-443 | the guard answers by the last bounce or the last full round, and starts a new round when that is over |
| LinkBounce.Interface.BounceLink | Interface.cc:483-495 | a bounce is noted and counted unless the interface is quiesced |
| LinkBounce.Interface.Receive | Network.cc:204-245 | a link message bounces the link exactly if the guard allows it and nothing forbids it |
| LinkBounce.BouncesApart | Interface.cc:429-443 | in every run, bounces are at least the shorter of the two waits apart, whatever was skipped after the counter was reset |
| LinkBounce.LinksThatAreDownAreBounced | Network.cc:204-245 | after any run, one more message bounces the link at most once, and only a repairable link that is down, without fault or quiesce; it does once the longer wait has passed, and within a round of attempts exactly once the interval has |
| LinkBounce.WindowHoldsFew | Interface.cc:429-443 | a window of T seconds holds at most T/wait + 1 bounces |
| LinkBounce.LongWaitInEveryRow | Interface.cc:484-495 | among any attempts + 1 bounces in a row one waited the full reattempt time |
| Smbios.StringList.Parse | SMBIOSStringList.cc:47-63 | the recursion counts the strings on its way down and notes where each starts on its way back |
| Smbios.Table.Read | SMBIOS.cc:355-382 | the loop reads what the walk by definition reads; the last structure of kind 0 is the BIOS, of 1 the system, of 2 the baseboard, of 3 the chassis, those of kind 4 are the sockets, and the system takes the place of a missing baseboard |
| Smbios.WrittenStringsAreFound | SMBIOSStringList.cc:47-63 | a written set of non-empty strings without zero bytes is found string by string |
| Smbios.WalkInvertsWriting | SMBIOS.cc:355-377 | walking over written structures gives each of them back, in order, with its kind, body and strings, and stops exactly at the end of the bytes (section 6.1.3 of DMTF DSP0134) |
| Smbios.LookUpIsRightUnless | SMBIOS.cc:81-88 | a string number leads to its string, or to none, unless it is one more than the count or zero wraps to an index that is there |
| Xuid.ParseUuid | xuid.c:52-75 | the bytes are those of the digits, whatever stands at the dashes |
| Xuid.FormatUuid | xuid.c:132-171 | the text is the lower-case digits with dashes in their places |
| Xuid.ValueIsPlace | xuid.c:35-47 | the value of a digit is its place among the sixteen digits, small or capital |
| Xuid.BytesAreSpelled | xuid.c:132-171 | each byte is written as its sixteens and its ones, with dashes behind the fourth, sixth, eighth and tenth |
| Xuid.ParseOfFormat | xuid.c:52-171 | parsing a formatted UUID gives its bytes back (section 4 of RFC 9562) |
| Xuid.FormatOfParse | xuid.c:52-171 | formatting a parsed text gives it back in lower case exactly when it is canonical |
| Xuid.GuidOfBytes | xuid.c:79-120 | reading the fields from the bytes that a GUID's fields give is the identity |
| Xuid.BytesOfGuid | xuid.c:79-120 | and the other way round: the fields are the big-endian readings of the bytes |
| Xuid.ParseGuid | xuid.c:79-120 | the fields of a text of hexadecimal digits are the big-endian readings of its bytes |
| Xuid.FormatGuid | xuid.c:175-220 | the text of a GUID is that of its bytes |
| Xuid.CodecsAgree | xuid.c:52-220 | both codecs give one text for one UUID and read the same fields from it |
| Xuid.CompareGuid | xuid.c:224-237 | the comparison is that of the first fields that differ, with the first one wrapped, and zero exactly for equal GUIDs |
| Xuid.SignIsRightIff | xuid.c:225-237 | the result is negative exactly when the left GUID is the lexicographically smaller, if and only if the left first field is at most 2^31 below the right one, or less than 2^31 above it |
| Xuid.CompareIsNoOrder | xuid.c:225-237 | any two GUIDs whose first fields are 2^31 apart come before each other |
| Xuid.Uuid.Set | UUID.cc:68-75 | any 36 characters are taken over; they come back in lower case exactly when they are canonical |
| Xuid.Uuid.SetBytes | UUID.cc:81-86 | the text follows the bytes, whatever the buffers held before |

## Left out

What the models of this project take for granted or do not cover:

- CLIPS agenda: the sorted time tags of a match are given to the lex and mea strategies, which sort them anew each time; the complexity of a rule and the random numbers are given.
- CLIPS agenda: automatic focus, watching, truth maintenance, and the commands that wrap the modelled functions; `MoveActivationToTop` and `EnvSetActivationSalience`, which do not update the group index.
- Agenda.ModuleAgenda.Walk: the seven loops of the source are two here, one that walks forward and one that walks backward, with the comparison of the strategy in the middle.
- CLIPS variable analysis: constraint records, their errors and their propagation by `ProcessField`, expression generation, global variables, and the messages.
- VariableAnalysis.CheckExpression: global variables and constraints that cannot be matched are no errors.
- VariableAnalysis.UnboundVariablesInPattern: the constraints of literals are not checked.
- VariableScope.NearestBinding: for rules in which no binding stands behind a multifield slot without fields; `ScopesAreKeptIff` says that this is needed.
- VariableUses.RefusedExactlyWhen: for the same rules, in which the parser has seen to it that a field uses a name with one type (`CLIPS/pattern.c:1019-1094`) and that multifield slots are not nested (`CLIPS/pattern.c:778-790`), and expressions and constraints are built as `Rule` says.  The address of a pattern with a secondary expression is not compared, as in the source.
- VariableAnalysis.Analysis.LeaveNands: that no CE ends at a depth below 1 is left to the parser.
- MemPool: mapping a zone of some bytes succeeds and gives fresh memory; sizes whose zone does not fit in 64 bits; the global allocator, its lock and the usage report.
- Queue: several producers, which the allocation of entries does not allow, and weak memory; `QueueInterleaving` takes each critical section as one step.
- JSON: the sizes of the scanner's buffers and the overflow of the number beyond the machine's integers; the messages of the errors.
- Channel: the lengths of messages and their truncation, failing system calls, reused process numbers, and the client's receive with a time limit, after which a late reply can stay queued.
- LineEditor.Window: the first loop is followed for a given number of turns, as one that never ends cannot be written down; the lengths of prompt and line together fit in 64 bits.
- LineEditor.Editor.Prompt: for a session without a completion callback, which no program of the repository sets; a tab is then a character like others.  What a chosen completion does to the line is `Complete`.
- Line editor: terminal modes, the screen output itself, choosing among several completions by tabs, escape sequences that break off, changing the length of the history, saving and loading it, and failing allocations.
- InternTable: the locks, the ordinals of nodes, the names and times of peers, and the first allocation of the neighbour table; the partner mark that `Peer::node` sets.
- Link bounces: how the link is taken down and up, and the rest of the message handler.
- SMBIOS: finding the table, and the fields of the structures by kind.
- Smbios.Table.Read: an image that ends early is refused here; the source reads on in the memory behind it.
- UUIDs: generating them, and texts shorter than 36 characters.
- Xuid.ParseGuid: the fields of a text with characters that are no hexadecimal digits are not stated; they depend on what the table of digits holds for those.
- Everything that talks to the system: Tcl bindings, sockets, netlink, hypercalls, devices, processes, logging; the manager, bridge and interface code around the modelled parts; and the CLIPS language beyond its agenda and its variable analysis.
