# Guage runtime: proofs about its algorithms

Guage is a language runtime written in C. This project models the self-contained
algorithms at its core and proves what they promise. `dafny verify dfyconfig.toml` checks
all of it.

| file | part of the runtime |
|---|---|
| `Ring.dfy`, `RingAlone.dfy`, `MailboxCounter.dfy` | the bounded multi-producer multi-consumer ring behind channels and actor mailboxes, and the counter that a mailbox trusts |
| `Probe.dfy`, `HashSet.dfy` | the set type: open addressing in groups of 15 with an overflow byte, deletes without tombstones |
| `Cells.dfy`, `DeBruijn.dfy`, `EvalLaws.dfy` | conversion of lambda bodies to De Bruijn indices, the two evaluators it must agree with, and what each of them owes to programs |
| `BiasedRc.dfy`, `RcMemory.dfy` | biased reference counting, and the end of a cell with strong and weak references together |
| `ActorExit.dfy`, `ActorSystem.dfy`, `ExitReach.dfy`, `ExitSpread.dfy`, `Supervision.dfy` | one cascade of exit signals, links, monitors and supervisors: invariants, the methods, and exactly who dies, and whom supervisors start |
| `MonitorRace.dfy`, `KillRace.dfy`, `RestartRace.dfy` | monitor registration, kill sections with the live counter, and the restart limit under any number of threads |
| `HeapSpec.dfy`, `PriorityHeap.dfy`, `LazyDrain.dfy` | the 4-ary heap and its lazy sorted drain |
| `Deque.dfy` | the ring deque with wrapping 32-bit counters |
| `Levenshtein.dfy` | the cutoff edit distance and the name suggester |
| `Intern.dfy`, `InternRace.dfy` | the intern table with its per-thread cache, and threads racing through it |
| `Macro.dfy`, `MacroForms.dfy` | pattern macros: matching and template expansion, and the spelling of patterns |
| `EventCount.dfy`, `FutexWindow.dfy` | the packed eventcount, the parking beneath it and the window of the Linux futex |
| `BatchIter.dfy`, `BatchSources.dfy`, `Pipeline.dfy` | batch iterators with selection vectors |
| `Bits.dfy`, `Sets.dfy`, `Options.dfy` | arithmetic of masks and powers of two, finite sets, the option type |

Concurrent code is modelled as a state machine whose steps are the single atomic accesses
(the ring, reference counting, the eventcount, kill sections, the restart limit) or the
critical sections under a lock (monitors, interning); the theorems quantify over every run.
The exit cascade of `ActorExit`, `ActorSystem`, `ExitReach` and `ExitSpread` runs alone;
what threads do to one another is in the three race files. Code that updates objects in
place is a class whose methods are proved against a specification function or a ghost
sequence, set or book of what the object stands for.

## What the proofs found

These are places where the code does less than its comments or callers expect. Each has a
concrete run or input, and the exact condition under which the code does meet the promise;
for the group restarts the condition is sufficient and its failing cases are described.

- Reference counting (`BiasedRc.LeakRun`, `FreedUnlessOrphaned`). The owner reads the shared
  word, sees references, and only then sets the merged flag. If the last shared reference
  goes in between, nobody frees the cell. It is freed exactly when the last reference does
  not go in that window.
- Weak references (`RcMemory.ReturnedTwice`, `ReturnedUnfreed`, `ReturnedOnceExactly`). The
  final free reads the weak count before it releases the children. A weak release that
  reaches zero before that and looks after the strong counters are zero returns the memory
  too. A leaked cell's memory can be returned by its last weak release, with the children
  never released. `ReturnedOnceExactly` says when there is exactly one return.
- Monitors (`MonitorRace.WatcherNeverTold`, `ToldUnlessListFull`). With 32 monitors on the
  list a further registration returns true but is dropped. A watcher is told exactly unless
  32 registrations came before it while the target lived.
- Removing a child (`KillRace.RemovedChild`, `CounterRightExactly`, `NeverZeroAgain`).
  `sup-remove-child` and `dynsup-terminate-child` clear the flag of a live child without the
  lock, the counter and the notification. The counter of live actors is right exactly if no
  removal cleared a flag alone; after one it never reaches zero again.
- Restart limit (`RestartRace.LimitBroken`, `LimitBrokenExactly`). The count is tested and
  incremented without a lock. With n threads a supervisor can restart 4 + n times. It
  restarts more than 5 times exactly if a handler passes the test when 5 restarts are made
  or under way, which takes handlers that overlap (`LimitHoldsOneAtATime`).
- Group restarts (`ExitReach.DeathBeyondTheLinks`, `ErrorKillsExactlyTheReachable`). An
  error kills exactly the actors that links reach, as long as neither the dying actor nor
  anyone reached has a supervisor that would restart a group. Where one has, its live
  siblings in the group die too, linked or not (`SiblingDies`); for the dying actor's own
  supervisor `GroupThenReach` gives the exact set. Nobody else dies: in every case the dead
  are reached by links or are siblings of one so reached (`ExitSpread.DeathsConfined`).
- De Bruijn conversion (`DeBruijn.CaptureLosesMeaning`, `ConversionPreservesMeaning`). A
  conditional under a parameter named `if` becomes a call of that parameter. In the fragment
  meaning is preserved when no conditional stands in the scope of such a parameter; other
  parameter names do no harm. Under one, the converted conditional is always that call
  (`CapturedIfIsCall`).
- Macros (`Macro.LinearRebuild`, `QuotedLiteralNotRebuilt`). A quoted literal is matched
  without its quote but expanded with it, and the legacy dot splice drops the dot. A linear
  pattern rebuilds its arguments exactly when it has neither.
- Eventcount (`FutexWindow.FutexLosesWakeup`, `FutexExact`). The header says that no wakeup
  is lost because the epoch bump is noticed. The Linux futex call compares the low half of
  the word, the waiter count, which the bump does not change. A wakeup is lost exactly if a
  whole notify falls between the last look at the word and a system call that finds the
  waiter count as it was.
- Mailbox counter (`MailboxCounter.MissedMessage`, `EarlyAnswerExact`). A receive first loads
  the counter and answers nothing if it is not positive. While one sender stands between
  publishing and counting, another's finished message can be missed. The answer is right
  exactly if the counter and the sends before their update sum up to zero.

## Model

| member | source | states |
|---|---|---|
| Ring.StepPreserves | bootstrap/channel.c:107-178 | every atomic access of every thread, in any interleaving, keeps the ring invariant: each claimed position is in the hands of one claimant, the slot sequence words agree with the history, receipts are right |
| Ring.RunKeepsInv | bootstrap/channel.c:107-178 | the ring invariant holds in every state of every run of any number of senders and receivers |
| Ring.SequenceMeaning | bootstrap/channel.c:110-176 | what a slot sequence word says about position p: below p iff p-cap is unreleased, equal iff free for p, p+1 iff published and unreleased, above iff released |
| Ring.DeliveredExactlyOnce | bootstrap/channel.c:107-178 | each completed receive returned exactly the value sent at its position, and no position is received twice |
| Ring.ExactlyOnePlace | bootstrap/channel.c:107-178 | at every moment each claimed message is in exactly one place: with its sender, in its slot, with its receiver, or received; nothing is lost or duplicated |
| Ring.PositionsFollowTime | bootstrap/channel.c:116-131 | an operation that claims after another one finished gets the next, later position: the queue is first in first out by position |
| Ring.RunExtends | bootstrap/channel.c:107-178 | history is append-only along a run: no claim, publication or release is undone |
| Ring.SlotAccessExclusive | bootstrap/channel.c:119-172 | no two threads hold the same slot between claim and publication or release |
| Ring.UnreleasedWithinCapacity | bootstrap/channel.c:107-178 | claimed but unreleased positions never exceed the capacity |
| Ring.RefusedOnlyWhenFull | bootstrap/channel.c:112-135 | in every run a send that comes to an end without a claim was refused as full: a step of the same call read the sequence of a position whose predecessor one lap earlier was claimed and unreleased; a lost or spurious compare-and-swap never ends a send |
| Ring.RefusedOnlyWhenEmpty | bootstrap/channel.c:149-172 | in every run a receive that comes to an end without a claim found nothing: a step of the same call read the sequence of an unpublished position |
| Ring.CallBegins | bootstrap/channel.c:107-109 | a send is refused at once iff the channel is closed, a receive from a channel never, and one from a mailbox iff the counter is not positive; closing closes |
| Ring.FullAnswerJustified | bootstrap/channel.c:112-135 | a sequence below its position was read, by the same call, while position pos-cap was unreleased |
| Ring.EmptyAnswerJustified | bootstrap/channel.c:149-172 | a sequence not above its position was read, by the same call, while the position was unpublished |
| RingAlone.SendAlone | bootstrap/channel.c:107-142 | from every reachable state, whatever the other threads have left unfinished, a send that runs alone ends, even with an outdated position: it is accepted and its value in place iff the ring has room |
| RingAlone.RecvAlone | bootstrap/channel.c:145-178 | likewise a receive: it returns the message of the next position iff that has been published |
| Ring.QuiescentCount | bootstrap/actor.c:155-227 | with no operation running the mailbox counter is the number of buffered messages, each of them in its slot |
| MailboxCounter.CounterGap | bootstrap/actor.c:155-228 | in every reachable state the number of buffered messages is the counter, plus the sends between publication and counter update, minus the receives between claim and counter update |
| MailboxCounter.AllReleasedExactly | bootstrap/actor.c:155-228 | everything published has been released iff the counter plus the published but uncounted positions equals the released but undiscounted ones |
| MailboxCounter.EarlyAnswerExact | bootstrap/actor.c:201-203 | a receive that finds the counter not positive answers nothing at once; nothing is buffered iff counter plus pending sends equals pending receives, for the one receiver of a mailbox iff they sum up to zero |
| MailboxCounter.MissedMessage | bootstrap/actor.c:155-228 | a run of two senders and a receiver after which the receiver is told that nothing is there while a message whose send has returned lies in its slot |
| Ring.NextPow2IsCapacity | bootstrap/channel.c:13-22 | for every 32-bit argument the capacity is a power of two and at least 2, and from 1 to 2^31 the least such that is not below the request |
| Probe.RoundGroup | bootstrap/cell.c:1895-1918 | the running triangular offset of the loop names the group of its round |
| Probe.RoundsDiffer | bootstrap/cell.c:1895-1918 | two different rounds below the group count visit different groups |
| Probe.EveryGroupVisited | bootstrap/cell.c:1895-1947 | triangular offsets visit every group of a power-of-two table in as many rounds as there are groups |
| HashSet.NeverFullGroup | bootstrap/cell.c:1951-2009 | at most 13 insertions per group since the last rehash leave some group that never filled: it has a free slot and a zero overflow byte |
| HashSet.ProbeStops | bootstrap/cell.c:1888-1947 | no probe can bypass every group, so both unbounded loops end |
| HashSet.SizeWithinLoad | bootstrap/cell.c:1951-2028 | members and remaining load together stay within 13 per group |
| HashSet.RaiseOverflow | bootstrap/cell.c:1935-1946 | setting an overflow bit of a full group keeps the representation invariant |
| HashSet.FillSlot | bootstrap/cell.c:1922-1950 | filling the slot that the insert probe found keeps the invariant that every group bypassed before an element carries its overflow bit |
| HashSet.ClearSlot | bootstrap/cell.c:2014-2031 | emptying a slot without a tombstone keeps every other element findable |
| HashSet.RoundUp | bootstrap/cell.c:1861-1867 | the group count is the least power of two not below the request |
| HashSet.HashSet.constructor | bootstrap/cell.c:1861-1886 | a new set is valid and empty |
| HashSet.HashSet.ScanGroup | bootstrap/cell.c:1895-1910 | the first slot of the group whose element equals the key, or none |
| HashSet.HashSet.Find | bootstrap/cell.c:1888-1920 | returns a slot holding an equal element, or -1 exactly when no member equals the key |
| HashSet.HashSet.FindInsertSlot | bootstrap/cell.c:1922-1949 | ends with an empty slot all of whose predecessors on the probe path carry the overflow bit; members are untouched |
| HashSet.HashSet.Resize | bootstrap/cell.c:1951-1985 | rehashing keeps the members and restores the load budget |
| HashSet.HashSet.EnsureRoom | bootstrap/cell.c:1997-2009 | the table grows when the load budget is used up, with the same members |
| HashSet.HashSet.AddNew | bootstrap/cell.c:1997-2010 | stores an element without an equal; the members gain exactly it |
| HashSet.HashSet.Add | bootstrap/cell.c:1987-2012 | adds exactly the new element and returns whether it was new, equality being the given equivalence |
| HashSet.HashSet.Remove | bootstrap/cell.c:2014-2031 | removes exactly the elements equal to the key and returns whether there was one; the size drops by one |
| HashSet.HashSet.Contains | bootstrap/cell.c:2033-2037 | true iff some member equals the key |
| HashSet.AddAll | bootstrap/cell.c:2066-2087 | adding a whole set adds exactly its elements |
| HashSet.Union | bootstrap/cell.c:2063-2089 | membership in the result is membership in either set |
| HashSet.AddWhere | bootstrap/cell.c:2095-2125 | adds exactly the elements whose membership in the other set is the wanted one |
| HashSet.Intersection | bootstrap/cell.c:2091-2108 | membership in the result is membership in both sets |
| HashSet.Difference | bootstrap/cell.c:2110-2127 | membership in the result is membership in the first set and not in the second |
| HashSet.NotLarger | bootstrap/cell.c:2131 | a set whose elements all have equals in another is not larger: the size shortcut is sound |
| HashSet.Subset | bootstrap/cell.c:2129-2144 | true iff every element of the first set belongs to the second |
| DeBruijn.DebruijnLookup | bootstrap/debruijn.c:33-52 | the scan over frames returns the index of the innermost binding in the flattened name list, or -1 |
| DeBruijn.ExtendEnv | bootstrap/eval.c:1480-1532 | the extended vector is the arguments followed by the closure vector |
| DeBruijn.LookupAgrees | bootstrap/debruijn.c:33-52 | the index of a bound name is in range and the vector holds the flat image of the value that the named environment gives it; a free name has no index |
| DeBruijn.IndexIsVariable | bootstrap/eval.c:1813-1830 | an index produced for a variable evaluates to the variable, never to the number literal |
| DeBruijn.IndicesInRange | bootstrap/debruijn.c:54-223 | every number that conversion of a fragment expression leaves outside quotations is an index below the length of the vector it will run in, whatever the parameters are named |
| DeBruijn.NumbersAreIndices | bootstrap/debruijn.c:54-223 | the same number by number: each number outside quotations in converted code is an index of a variable in scope where it stands |
| DeBruijn.ConversionPreservesMeaning | bootstrap/debruijn.c:78-223 | for every fuel, expression of the fragment and environment, the converted expression in the flattened vector evaluates to the flat image of the named result, closures included: against the reading in which forms always win if no conditional stands under a parameter named `if`, and against the reading in which that parameter captures it for all expressions |
| DeBruijn.ListPreserved | bootstrap/debruijn.c:54-76 | the same for argument lists |
| DeBruijn.ApplyPreserved | bootstrap/eval.c:3515-3585 | applying corresponding closures or primitives to corresponding arguments gives corresponding results |
| DeBruijn.TopLevelPreservesMeaning | bootstrap/eval.c:2390-2518 | running a top-level expression whose lambdas convert their own bodies gives the flat image of the named result |
| DeBruijn.CapturedIfIsCall | bootstrap/debruijn.c:78-92 | every conditional under a parameter named `if` becomes a call of that parameter with the three parts as arguments |
| DeBruijn.CaptureLosesMeaning | bootstrap/debruijn.c:78-92 | with `if` bound to a primitive that answers nil, `(if true 1 2)` is 1 by name and nil after conversion |
| EvalLaws.FlatInOrder | bootstrap/eval.c:1708-1730 | in the flat evaluator an argument list evaluates exactly to the values of its elements, in the order they are written |
| EvalLaws.NamedInOrder | bootstrap/eval.c:1708-1730 | the same in the named evaluator |
| EvalLaws.FlatProjection | bootstrap/eval.c:1480-1535 | at the top level of the flat evaluator `((lambda (x0 .. xn) xi) a0 .. an)` is the value of ai, for any number of parameters |
| EvalLaws.NamedProjection | bootstrap/eval.c:1480-1535 | the same in the named evaluator |
| EvalLaws.Remembers | bootstrap/eval.c:2470-2498 | `(((lambda (x) (lambda (y) x)) a) b)` is the value of a in both evaluators: a closure keeps the values around it |
| EvalLaws.PrimitiveCall | bootstrap/eval.c:1708-1730 | a primitive gets the values of its arguments in the order they are written, in both evaluators |
| EvalLaws.Conditional | bootstrap/eval.c:2500-2518 | a conditional takes its second part for the value true and its third for any other value, in both evaluators |
| EvalLaws.NumbersStay | bootstrap/debruijn.c:94-100 | a number converts to its quotation, which evaluates to the number itself |
| EvalLaws.WrongArity | bootstrap/eval.c:3521-3531 | a call with the wrong number of arguments is an error that gives the expected and the actual number, in both evaluators |
| EvalLaws.NotAFunction | bootstrap/eval.c:3588-3595 | calling data is an error that names it, in both evaluators |
| BiasedRc.StepKeepsInv | bootstrap/cell.c:368-506 | every access of the owner or of another thread keeps the counters equal to the live references of their domains |
| BiasedRc.RunKeepsInv | bootstrap/cell.c:368-506 | the counting invariant holds in every state of every interleaving |
| BiasedRc.ReferencesMove | bootstrap/cell.c:368-506 | which access is possible when, and by how much each changes the live references of the two domains |
| BiasedRc.FreedAtMostOnceAndDead | bootstrap/cell.c:368-506 | in every interleaving a cell is freed at most once, only when no reference is live, and no access is possible afterwards |
| BiasedRc.FreedUnlessOrphaned | bootstrap/cell.c:415-472 | with no reference left and the owner idle the cell has been freed iff its last reference did not go while the owner stood between giving up its counter and setting the merged flag |
| BiasedRc.LeakRun | bootstrap/cell.c:454-469 | a run in which the last reference goes in that window: the merged flag is set on a zero count and the cell is never freed |
| BiasedRc.FreedWhenAtomic | bootstrap/cell.c:386-506 | if no other access falls inside an operation of the owner, the cell is freed when its last reference goes |
| RcMemory.NextKeepsInv | bootstrap/cell.c:434-506 | strong and weak accesses interleaved keep the account of the returns of the memory |
| RcMemory.WholeRunKeepsInv | bootstrap/cell.c:434-506 | the account is kept in every interleaving |
| RcMemory.WeakMoves | bootstrap/cell.c:874-887 | weak references come while the cell or a weak reference lives and go one by one; a weak release that reaches zero gets to look, and the freer to finish |
| RcMemory.ReturnsCounted | bootstrap/cell.c:481-506 | once everything is over the memory has been returned by each weak release that was about to look when the strong counters came to zero, by the one that took the weak count to zero after that, and by the freer if it read zero; there is a freer iff the last reference did not go in the window |
| RcMemory.ReturnedOnceExactly | bootstrap/cell.c:481-506 | the exact condition for a single return, for freed cells and for leaked ones |
| RcMemory.ReturnedTwice | bootstrap/cell.c:878-887 | a run in which a weak release reaches zero before the freer reads the weak count: two returns |
| RcMemory.ReturnedUnfreed | bootstrap/cell.c:878-887 | a run in which the last weak release returns the memory of a leaked cell whose children nobody released |
| RcMemory.Lifted | bootstrap/cell.c:434-506 | every run of the strong references is a run of the whole cell |
| BiasedRc.CountedCell.Retain | bootstrap/cell.c:386-400 | a retain adds one reference in the domain of the calling thread; an immortal cell is unchanged |
| BiasedRc.CountedCell.RetainSlow | bootstrap/cell.c:368-370 | adds one to the shared count and leaves the merged flag alone |
| BiasedRc.CountedCell.Release | bootstrap/cell.c:443-490 | a release takes one reference from the domain of the calling thread; the cell is freed iff that was the last one |
| BiasedRc.CountedCell.ReleaseSlow | bootstrap/cell.c:374-384 | takes one from the shared count and says whether it was the last reference of a merged cell |
| BiasedRc.CountedCell.DoFree | bootstrap/cell.c:480-490 | a cell whose last reference has just gone becomes a valid dead one: its children are released once, its memory is returned iff no weak reference is left, and otherwise left to the last weak release |
| BiasedRc.CountedCell.ReleaseShared | bootstrap/cell.c:495-506 | the same for a release in the shared domain by any thread |
| BiasedRc.CountedCell.TransferToShared | bootstrap/cell.c:415-438 | moves one reference between the domains and keeps their sum; giving up the last one disowns the cell and sets the merged flag |
| BiasedRc.CountedCell.WeakRetain | bootstrap/cell.c:874-876 | adds one weak reference |
| BiasedRc.CountedCell.WeakRelease | bootstrap/cell.c:878-887 | the last weak reference of a freed cell gives its memory back, exactly once |
| ActorExit.ExitSignal | bootstrap/actor.c:350-379 | in a cascade running alone an exit signal keeps the live counter right, kills each actor at most once and stays within the restart limits |
| ActorExit.NotifyExit | bootstrap/actor.c:436-522 | the notification terminates and keeps the same guarantees |
| ActorExit.TellSupervisor | bootstrap/actor.c:452-469 | the supervisor part terminates: the remaining restarts, then the live actors, shrink |
| ActorExit.HandleExit | bootstrap/actor.c:612-688 | in a cascade running alone no supervisor restarts more than 5 times; `RestartRace` says what several threads do |
| ActorExit.Restart | bootstrap/actor.c:641-687 | each strategy keeps the restart accounting and the live counter |
| ActorExit.Shutdown | bootstrap/actor.c:645-661 | the kill loops of group restarts keep them too |
| ActorExit.Respawn | bootstrap/actor.c:662-665 | the spawn loops keep them too |
| ActorExit.Finish | bootstrap/actor.c:388-434 | the finished actor is dead and dies once |
| ActorExit.KillMeans | bootstrap/actor.c:366-375 | a kill section takes exactly the actor from the live set; the counter is again the number of live actors and the actor is new among the deaths |
| ActorExit.RemoveChildMeans | bootstrap/actor.c:597-610 | one child leaves the list, the other ids and their restart types keep their order and stay aligned |
| ActorExit.SpawnMeans | bootstrap/actor.c:560-594 | with room in the registry a live actor that did not exist before, linked and monitored by nobody, takes over the slot, and nothing else changes; without room nothing changes |
| ExitReach.MonitorsTold | bootstrap/actor.c:486-501 | one :DOWN per registration of a live monitor, and no other message |
| ExitReach.NormalExitKillsNobody | bootstrap/actor.c:436-522 | an exit without an error kills nobody, whatever the supervisors; linked trapping actors and live monitors are told |
| ExitReach.NormalSignal | bootstrap/actor.c:350-379 | an exit signal without an error is one message to a trapping actor and otherwise kills its live target, and nobody with it |
| ExitReach.NormalFinish | bootstrap/actor.c:388-434 | an actor that ends normally dies alone; finishing a dead one changes nothing |
| ExitReach.GentleExit | bootstrap/actor.c:612-644 | a supervisor that restarts one child only, is out of restarts or never restarts shuts nobody down |
| ExitReach.ExitSignalExact | bootstrap/actor.c:350-379 | an error signal kills exactly the vulnerable actors of an absorbing set that it reaches and sends one :EXIT per link to a trapping one, when no supervisor of a member restarts a group |
| ExitReach.NotifyExact | bootstrap/actor.c:436-522 | the same for the notification of a dead actor whose supervisor restarts no group |
| ExitReach.LinksExact | bootstrap/actor.c:503-521 | the same for the loop over a link list |
| ExitReach.ReachSetAbsorbs | bootstrap/actor.c:350-379 | the live non-trapping actors reachable through such actors are closed under errors along links |
| ExitReach.PathStaysInside | bootstrap/actor.c:350-379 | every error path stays inside any closed set that holds its start |
| ExitReach.ErrorKillsExactlyTheReachable | bootstrap/actor.c:350-522 | when neither the dying actor nor anyone it reaches has a supervisor that would restart a group, its error kills exactly the live non-trapping actors reachable along live non-trapping actors; survivors are told once per link, monitors once per registration, and every new actor is a restarted child |
| ExitReach.ShutdownExact | bootstrap/actor.c:645-661 | the kill loop of a static supervisor takes exactly the live children of its range and nobody else |
| ExitReach.GroupRestartExact | bootstrap/actor.c:645-687 | when a child of a supervisor that restarts a group dies of an error, exactly its live siblings in the group go with it, and every new actor is a restarted child |
| ExitReach.GroupThenReach | bootstrap/actor.c:436-687 | the exit of such a child takes exactly the live siblings of its group and then exactly those whom links reach without passing them |
| ExitReach.SiblingDies | bootstrap/actor.c:645-661 | a live sibling in the group does not survive, reached by links or not |
| ExitReach.DeathBeyondTheLinks | bootstrap/actor.c:645-661 | a concrete system in which an actor that nobody is linked to dies of the exit of an unsupervised one |
| ExitSpread.ExitSignalConfined | bootstrap/actor.c:350-379 | an error signal to a member of a fence (a set closed under links, together with the siblings that group restarts of its members take) kills only inside the fence, whatever the supervisors |
| ExitSpread.NotifyConfined | bootstrap/actor.c:436-522 | the same for the notification of a dead member |
| ExitSpread.LinksConfined | bootstrap/actor.c:503-521 | the same for the loop over a link list |
| ExitSpread.FenceKept | bootstrap/actor.c:350-688 | a fence stays one while a cascade changes child slots, links and restart counts |
| ExitSpread.ShutdownMild | bootstrap/actor.c:645-661 | the kill loop of a static supervisor changes child slots only to new ids and makes no link |
| ExitSpread.DeathsConfined | bootstrap/actor.c:350-688 | whatever the supervisors, whoever the exit of an actor with an error kills is reached by links through live non-trapping actors, or is a sibling that a group restart takes with the actor or with one so reached |
| Supervision.ErrorRestarts | bootstrap/actor.c:452-457 | when a supervised actor dies of an error with restarts left and is not temporary, the count goes up by one and exactly the slots of the strategy (its own, all, or all from its own on) hold different live actors that did not exist before, as far as the registry of 256 has room; the other slots are as before |
| Supervision.OneRestart | bootstrap/actor.c:641-643 | one-for-one refills the slot of the dead child and no other |
| Supervision.GroupRestart | bootstrap/actor.c:644-687 | one-for-all refills every slot, rest-for-one every slot from that of the dead child on |
| Supervision.RespawnRefills | bootstrap/actor.c:662-665 | the spawn loop refills each slot it passes with an actor of its own |
| Supervision.NoRestartLeft | bootstrap/actor.c:614 | after five restarts nothing happens |
| Supervision.TemporaryIsDropped | bootstrap/actor.c:628-634 | a temporary child of a dynamic supervisor is off the list after an error, the others unchanged, and nobody is started |
| Supervision.NormalEnd | bootstrap/actor.c:455-469 | after a normal end a child is off the list iff its supervisor is dynamic and it is not permanent; otherwise nothing changes |
| KillRace.NextKeepsInv | bootstrap/actor.c:350-431 | every load, store, lock and counter update of any number of threads keeps the account of the actors |
| KillRace.RunKeepsInv | bootstrap/actor.c:350-431 | the account is kept in every interleaving |
| KillRace.SectionsExclude | bootstrap/actor.c:14-17 | two threads in kill sections work on actors of different lock stripes |
| KillRace.KilledAtMostOnce | bootstrap/actor.c:366-398 | in every interleaving an actor is killed at most once, its exit is announced at most once and only after its death, and it stays dead |
| KillRace.SeenAliveIsKilled | bootstrap/actor.c:366-379 | in every interleaving a thread that finds the flag set under its lock has, once out of the section, killed the actor and announced its exit |
| KillRace.KillAlone | bootstrap/actor.c:366-379 | a kill that runs alone leaves a live actor dead, discounted and announced and the lock free, and a dead one as it was |
| KillRace.CounterExact | bootstrap/actor.c:340-345 | in every interleaving the live counter, with the creations still to be counted, is the number of live actors, of deaths still to be discounted and of actors removed without a kill section |
| KillRace.SettledCounter | bootstrap/actor.c:340-431 | with nothing under way every killed actor has been announced once and the counter exceeds the live actors by those removed without a kill section, who are announced to nobody |
| KillRace.OrphanExactly | bootstrap/primitives.c:3769-3775 | those are exactly the actors whose flag remove-child cleared while no kill section had seen them alive |
| KillRace.CounterRightExactly | bootstrap/primitives.c:3769-3775 | the counter of a finished run is the number of live actors iff no remove-child did that |
| KillRace.NeverZeroAgain | bootstrap/primitives.c:3769-3775 | after one of them the counter never reaches zero, whoever dies |
| KillRace.RemovedChild | bootstrap/primitives.c:3769-3775 | a run after which nobody lives, the counter says 1 and nobody has been told |
| KillRace.ZeroWakes | bootstrap/actor.c:340-345 | whenever the counter stands at zero the decrement that brought it there woke the schedulers |
| RestartRace.CommittedRestart | bootstrap/actor.c:612-639 | every handler that passes the restart test restarts |
| RestartRace.LimitBrokenExactly | bootstrap/actor.c:612-639 | a finished run of any number of threads has more than 5 restarts iff a handler passed the test when the restarts made and those under way already were 5 |
| RestartRace.LimitHoldsOneAtATime | bootstrap/actor.c:612-639 | if no handler passes the test while another is under way the count is exact and there are at most 5 restarts |
| RestartRace.LimitBroken | bootstrap/actor.c:612-639 | for every number n of threads a run with 4 + n restarts whose count ends at 5 |
| ActorSystem.System.Finish | bootstrap/actor.c:388-434 | the method does what the specification function says, and returns false for a dead actor |
| ActorSystem.System.MarkDead | bootstrap/actor.c:355-372 | the kill section as specified: exactly this actor leaves the live set, the counter is the number of live actors, the death is new |
| ActorSystem.System.ExitSignal | bootstrap/actor.c:350-379 | the new state is the specification function of the old one |
| ActorSystem.System.NotifyExit | bootstrap/actor.c:436-522 | likewise, in the order supervisor, monitors, links |
| ActorSystem.System.NotifyMonitors | bootstrap/actor.c:486-501 | the monitor loop is the recursive specification |
| ActorSystem.System.NotifyLinks | bootstrap/actor.c:503-521 | the link loop is the recursive specification |
| ActorSystem.System.TellLink | bootstrap/actor.c:505-520 | one link, as specified |
| ActorSystem.System.FindSupervisor | bootstrap/actor.c:703-718 | the first supervisor that lists the actor, or -1 |
| ActorSystem.System.TellSupervisor | bootstrap/actor.c:452-469 | the supervisor part, as specified |
| ActorSystem.System.DropChild | bootstrap/actor.c:597-610 | exactly one child leaves the list; the other ids and restart types keep their order, other supervisors are untouched |
| ActorSystem.System.SpawnChild | bootstrap/actor.c:560-594 | a fresh live actor without links takes the slot and nobody else changes, or nothing happens when the registry is full |
| ActorSystem.System.HandleExit | bootstrap/actor.c:612-688 | counts the restart and applies the strategy as specified |
| ActorSystem.System.RestartChildren | bootstrap/actor.c:641-687 | the strategies, as specified |
| ActorSystem.System.ShutdownFrom | bootstrap/actor.c:645-682 | the kill loop, as specified |
| ActorSystem.System.RespawnFrom | bootstrap/actor.c:662-686 | the spawn loop, as specified |
| MonitorRace.NextKeepsInv | bootstrap/actor.c:319-409 | every critical section or send keeps each registration accounted for exactly once |
| MonitorRace.RunKeepsInv | bootstrap/actor.c:319-501 | the account is kept in every interleaving |
| MonitorRace.ToldExactlyOnce | bootstrap/actor.c:319-501 | no registration is told twice; once the death has been dealt with each has been told exactly once, unless it was dropped |
| MonitorRace.ListLength | bootstrap/actor.c:319-336 | while the target lives its list holds the registrations made so far, 32 at most |
| MonitorRace.ToldUnlessListFull | bootstrap/actor.c:319-501 | a watcher has got its one :DOWN once the death has been dealt with, unless 32 registrations came before it while the target lived, when it has got none |
| MonitorRace.WatcherNeverTold | bootstrap/actor.c:319-501 | a run of 33 registrations with a living target after which all but the last have been told |
| MonitorRace.OutcomeIsFinal | bootstrap/actor.c:319-336 | an outcome never changes |
| HeapSpec.SiftUpRestores | bootstrap/cell.c:2619-2632 | sifting up restores the 4-ary heap order and keeps the entries |
| HeapSpec.SiftDownRestores | bootstrap/cell.c:2634-2653 | sifting down restores the heap order and keeps the entries |
| HeapSpec.PushKeepsHeap | bootstrap/cell.c:2669-2680 | a push keeps the heap order and adds one entry |
| HeapSpec.PopKeepsHeap | bootstrap/cell.c:2682-2699 | a pop keeps the heap order and removes the root and nothing else |
| HeapSpec.RootIsMinimum | bootstrap/cell.c:2701-2711 | the root of a heap has a least key |
| HeapSpec.DrainedIsSorted | bootstrap/cell.c:2718-2761 | popping everything gives all entries in nondecreasing key order |
| HeapSpec.EmitKeepsFrontier | bootstrap/cell.c:4884-4912 | emitting an index and admitting its children leaves exactly the new frontier in the auxiliary heap |
| HeapSpec.EmitKeepsOrder | bootstrap/cell.c:4884-4912 | emitting a least frontier index keeps the emitted keys nondecreasing and the indices distinct |
| HeapSpec.EmptyFrontierMeansAll | bootstrap/cell.c:4884-4912 | with an empty frontier every index has been emitted |
| PriorityHeap.PriorityQueue.Grow | bootstrap/cell.c:2605-2617 | doubling the arrays keeps the entries |
| PriorityHeap.PriorityQueue.SiftUpFrom | bootstrap/cell.c:2619-2632 | moving a hole up the arrays computes the sift-up function |
| PriorityHeap.PriorityQueue.SmallestChild | bootstrap/cell.c:2595-2603 | the first child with a least key |
| PriorityHeap.PriorityQueue.SiftDownFrom | bootstrap/cell.c:2634-2653 | moving a hole down the arrays computes the sift-down function |
| PriorityHeap.PriorityQueue.Add | bootstrap/cell.c:2669-2680 | the heap holds one more entry and stays a heap |
| PriorityHeap.PriorityQueue.Take | bootstrap/cell.c:2682-2699 | returns the least entry and leaves the rest, or says that the heap is empty |
| PriorityHeap.PriorityQueue.ToList | bootstrap/cell.c:2718-2761 | the entries in key order, the heap unchanged |
| PriorityHeap.Merge | bootstrap/cell.c:2763-2776 | a fresh heap with the entries of both |
| LazyDrain.Seed | bootstrap/cell.c:5147-5160 | a new drain starts with the root on the frontier |
| LazyDrain.HeapIterator.Fill | bootstrap/cell.c:4884-4912 | each batch continues the emission; an empty batch means that every index has been emitted; the source heap is untouched |
| LazyDrain.HeapIterator.EmitOne | bootstrap/cell.c:4889-4905 | one round emits one frontier index and keeps frontier and order |
| LazyDrain.HeapIterator.PopLeast | bootstrap/cell.c:4856-4882 | pops a least entry of the auxiliary heap and nothing else |
| LazyDrain.HeapIterator.AdmitChildren | bootstrap/cell.c:4893-4902 | pushes exactly the children that exist |
| LazyDrain.DrainComplete | bootstrap/cell.c:4836-4913 | a finished drain has given all entries in nondecreasing key order, each index once |
| Deque.SlotWraps | bootstrap/cell.c:2157 | counting past 2^32 does not change the slot: the capacity divides the word size |
| Deque.SizeMoves | bootstrap/cell.c:2157-2297 | tail - head in 32 bits follows every push and pop, also when a counter wraps |
| Deque.FrontPushed | bootstrap/cell.c:2210-2221 | writing before the head represents the sequence with the element in front |
| Deque.BackPushed | bootstrap/cell.c:2223-2234 | writing at the tail represents the sequence with the element behind |
| Deque.FrontPopped | bootstrap/cell.c:2236-2247 | the head slot holds the first element; clearing it represents the rest |
| Deque.BackPopped | bootstrap/cell.c:2249-2260 | the slot before the tail holds the last element; clearing it represents the rest |
| Deque.Unwrapped | bootstrap/cell.c:2179-2208 | the one or two block copies of growing represent the same sequence from slot 0 |
| Deque.RoundUp | bootstrap/cell.c:2163-2167 | the initial capacity is a power of two between 8 and 2^31, not below the request |
| Deque.Deque.constructor | bootstrap/cell.c:2163-2176 | a new deque is empty |
| Deque.Deque.Size | bootstrap/cell.c:2278-2281 | the number of elements |
| Deque.Deque.Grow | bootstrap/cell.c:2179-2208 | doubles the capacity and keeps the order, from a full or wrapped ring |
| Deque.Deque.PushFront | bootstrap/cell.c:2210-2221 | the sequence with the element in front, for every counter value |
| Deque.Deque.PushBack | bootstrap/cell.c:2223-2234 | the sequence with the element behind |
| Deque.Deque.PopFront | bootstrap/cell.c:2236-2247 | the first element and the rest, or none of an empty deque |
| Deque.Deque.PopBack | bootstrap/cell.c:2249-2260 | the last element and the rest, or none |
| Deque.Deque.PeekFront | bootstrap/cell.c:2262-2268 | the first element, nothing removed |
| Deque.Deque.PeekBack | bootstrap/cell.c:2270-2276 | the last element, nothing removed |
| Deque.Deque.ToList | bootstrap/cell.c:2283-2297 | the elements front to back |
| Levenshtein.DistanceIsFewestEdits | bootstrap/diagnostic.c:374-417 | the recursive distance is the least length of a chain of single-character insertions, deletions and replacements |
| Levenshtein.NoShorterPath | bootstrap/diagnostic.c:374-417 | no chain of edits is shorter than the distance |
| Levenshtein.ShortestPath | bootstrap/diagnostic.c:374-417 | a chain of exactly that length exists |
| Levenshtein.Symmetric | bootstrap/diagnostic.c:383-387 | swapping the arguments does not change the distance |
| Levenshtein.AtLeastLengthDifference | bootstrap/diagnostic.c:378-381 | the distance is at least the difference of the lengths: the quick rejection is sound |
| Levenshtein.EntryStep | bootstrap/diagnostic.c:397-405 | the table recurrence of deletion, insertion and substitution |
| Levenshtein.RowsStayAbove | bootstrap/diagnostic.c:406-410 | once a whole row exceeds the limit so does the final distance: the early exit is sound |
| Levenshtein.FillRow | bootstrap/diagnostic.c:395-405 | one row of the table from the one before, and its least entry |
| Levenshtein.Rows | bootstrap/diagnostic.c:389-416 | two swapped rows compute the distance, or stop early only above the limit |
| Levenshtein.LevenshteinDistance | bootstrap/diagnostic.c:374-417 | the exact distance whenever it is within the limit, something larger than the limit otherwise, for every limit |
| Levenshtein.CandidatesAreKeys | bootstrap/diagnostic.c:425-436 | the candidates are exactly the symbols that stand first in an entry of the environment list |
| Levenshtein.SuggestName | bootstrap/diagnostic.c:421-444 | the first of the nearest candidate names within the limit, or none if there is none |
| Intern.EmptyAhead | bootstrap/intern.c:94-111 | with fewer entries than slots every probe sequence meets an empty slot |
| Intern.NotFound | bootstrap/intern.c:94-111 | a probe that reaches an empty slot has not missed the string |
| Intern.PlacedAtGap | bootstrap/intern.c:155-172 | filling the first empty slot of its probe sequence places an entry and keeps all others findable |
| Intern.Search | bootstrap/intern.c:94-111 | ends, and finds the entry exactly when the string has been interned |
| Intern.FindGap | bootstrap/intern.c:155-159 | ends at the first empty slot of the probe sequence |
| Intern.Rehash | bootstrap/intern.c:68-91 | a table of twice the size holds exactly the same entries |
| Intern.Table.constructor | bootstrap/intern.c:58-65 | a new table has interned nothing |
| Intern.Table.Probe | bootstrap/intern.c:94-111 | the canonical copy, id and hash of an interned string, none of any other |
| Intern.Table.Grow | bootstrap/intern.c:68-91 | growing changes neither ids nor canonical copies |
| Intern.Table.Append | bootstrap/intern.c:155-176 | a new string gets the next id and a fresh canonical copy |
| Intern.Table.InsertLocked | bootstrap/intern.c:139-178 | the write section interns the string at most once: whatever was inserted meanwhile is found again |
| Intern.Table.HashById | bootstrap/intern.c:190-193 | the hash of the string with that id |
| Intern.CacheHit | bootstrap/intern.c:114-120 | a cached answer whose canonical copy compares equal is the right answer |
| Intern.CacheSurvives | bootstrap/intern.c:114-120 | cached answers stay right while other threads grow the table |
| Intern.ThreadCache.Intern | bootstrap/intern.c:113-188 | every path returns the id and canonical copy that belong to the string; only that string is added |
| InternRace.NextKeepsInv | bootstrap/intern.c:113-188 | every cache check, probe and insert of every thread keeps names distinct and all answers right |
| InternRace.RunKeepsInv | bootstrap/intern.c:113-188 | the same in every interleaving |
| InternRace.NamesOnlyGrow | bootstrap/intern.c:113-188 | names, canonical copies and answers are only ever appended |
| InternRace.AnswersAgree | bootstrap/intern.c:113-188 | any two answers of any threads have the same id and the same canonical pointer exactly when the strings are equal |
| InternRace.IdsAreDense | bootstrap/intern.c:161-176 | the ids handed out are 0, 1, 2, ... without a gap |
| InternRace.CallsAreAnswered | bootstrap/intern.c:113-188 | a call comes back with exactly one answer, for its own string, and no step touches the call of another thread |
| InternRace.CallsGoOn | bootstrap/intern.c:113-188 | when each step of a call is possible: strings up to 255 bytes, up to 4096 of them |
| InternRace.RepeatedCall | bootstrap/intern.c:113-120 | a thread that calls again with the same pointer and text is answered from its cache at once, with the same result |
| MacroForms.ReadWrite | bootstrap/macro.c:326-361 | every pattern or template is spelled by exactly one form: variable `$n`, atom, rest `($n ...)` or pair |
| MacroForms.MatchesWhatItDescribes | bootstrap/macro.c:387-521 | for every form, spelled with the literal `$`, `...` and `quote`, matching succeeds with bindings that an assignment extends iff the form with these values describes the arguments; exactly its names are bound |
| MacroForms.ExpandsToFill | bootstrap/macro.c:523-604 | for every form, expansion fills in what the bindings find: values for variables, lists for rests, the list itself for `(. $n)` |
| MacroForms.AtomsMatch | bootstrap/macro.c:399-425 | a `$` symbol takes anything, another atom only itself |
| MacroForms.RestMatches | bootstrap/macro.c:454-461 | `(head $rest ...)` takes every list whose first element the head takes and gives the rest of it to `$rest` |
| MacroForms.DottedMatches | bootstrap/macro.c:433-452 | `(head . $rest)` takes every pair whose first element the head takes |
| MacroForms.RestExpands | bootstrap/macro.c:545-596 | `($rest ...)` and `(. $rest)` expand to the list, `(head $rest ...)` to the head followed by it |
| MacroForms.SumExpands | bootstrap/tests/test_rest_patterns.test:14-17 | the variadic sum finds a clause for every argument list: 0 for none, the argument for one, `(+ a (sum . l))` for more |
| Macro.MatchIsInstance | bootstrap/macro.c:387-521 | matching succeeds with bindings that an assignment extends exactly when the assignment makes the arguments an instance of the pattern |
| Macro.MatchExact | bootstrap/macro.c:387-521 | the arguments are an instance exactly when matching succeeds and a repeated variable met one value |
| Macro.LinearMatchExact | bootstrap/macro.c:387-521 | a pattern without repeated variables matches exactly its instances |
| Macro.MatchBindsVars | bootstrap/macro.c:387-521 | a match binds exactly the variables of the pattern |
| Macro.LinearRebuild | bootstrap/macro.c:523-604 | expanding a linear pattern with the bindings of its own match rebuilds the arguments exactly when no quoted literal was stripped and no dot splice applies |
| Macro.RebuildExact | bootstrap/macro.c:523-604 | with repeated variables it rebuilds them exactly when also the variable met one value |
| Macro.QuoteNotStripped | bootstrap/macro.c:478-491 | a quoted form never expands to the bare literal that the matcher compared |
| Macro.QuotedLiteralNotRebuilt | bootstrap/macro.c:478-491 | a pattern with a quoted literal whose expansion differs from the arguments |
| Macro.SpliceLoses | bootstrap/macro.c:561-577 | a dot splice expands to a proper part of what it matched |
| Macro.LookupBinding | bootstrap/macro.c:364-377 | the first binding of the name |
| Macro.MergeBindings | bootstrap/macro.c:506-518 | all bindings of both lists, later ones in front |
| Macro.ApplyPattern | bootstrap/macro.c:683-703 | the first clause whose pattern matches is expanded; the error exactly when none matches |
| EventCount.HalvesMoveApart | bootstrap/eventcount.h:46-68 | adding or subtracting a waiter and bumping the epoch change one half of the 64-bit word only |
| EventCount.PackedWord.PrepareWait | bootstrap/eventcount.h:46-49 | registers one waiter and returns the epoch |
| EventCount.PackedWord.CancelWait | bootstrap/eventcount.h:52-54 | unregisters one waiter |
| EventCount.PackedWord.Notify | bootstrap/eventcount.h:75-107 | bumps the epoch and asks for a wake iff a waiter is registered |
| EventCount.NextKeepsInv | bootstrap/eventcount.h:46-107 | every step of every waiter and notifier keeps the word, the snapshots and the notices consistent |
| EventCount.LowHalfCountsWaiters | bootstrap/eventcount.h:46-73 | in every reachable state the low half of the word is the number of registered waiters |
| EventCount.WaitAlone | bootstrap/eventcount.h:46-73 | a thread that registers, finds nothing and is not disturbed falls asleep, under either parking |
| EventCount.CancelAlone | bootstrap/eventcount.h:46-54 | a thread that finds work is gone again as if it had never come |
| EventCount.BumpIsNoticed | bootstrap/eventcount.h:60-73 | a thread that looks at the word after a bump does not sleep and takes its registration back |
| EventCount.NotifyAlone | bootstrap/eventcount.h:86-107 | an undisturbed notify-all bumps the epoch once and leaves nobody asleep |
| EventCount.NoLostWakeup | bootstrap/eventcount.h:46-107 | if parking blocks only while the epoch is unchanged, no thread that looked before a publish is blocked once a notify-all for it, or a notify-one that found no sleeper, is complete |
| EventCount.NotifyOneDelivers | bootstrap/eventcount.h:75-82 | a notify-one wakes a sleeper, or no thread that looked before its publish is asleep then or later |
| FutexWindow.WaiterLooked | bootstrap/park.c:75-103 | where in the run a registered waiter found nothing, and where it read the word |
| FutexWindow.NotifierBegan | bootstrap/eventcount.h:75-88 | where in the run a notify under way published its work and bumped the epoch |
| FutexWindow.FutexExact | bootstrap/park.c:100-118 | with the Linux futex a run loses a wakeup, of a notify-all or a notify-one, iff at some system call the waiter count equals the one loaded before it and a whole notify lies in between: published after the thread found nothing, bumped after its last look, woken before the call |
| FutexWindow.SleptThroughEpoch | bootstrap/park.c:100-118 | such a call is made in a later epoch than the last look: comparing the epoch would have returned at once |
| FutexWindow.QuietWindowIsSafe | bootstrap/park.c:100-118 | without a bump between the last look and the call no wakeup is lost |
| FutexWindow.FutexLosesWakeup | bootstrap/park.c:100-118 | for notify-all and for notify-one a run in which a thread goes to sleep on the unchanged waiter count after the notify for work it has not seen |
| BatchIter.Batch.Apply | bootstrap/cell.c:4959-4975 | the map loop replaces each offered element by its image, once each, in place |
| BatchIter.Batch.Compact | bootstrap/cell.c:4983-4997 | overwriting the selection vector while reading it selects exactly the elements that pass, in order |
| BatchIter.FilterSelects | bootstrap/cell.c:4988-4995 | what a filter keeps is the one selection, in order, in which an element occurs as often as before if the predicate answers neither nil nor false, and never otherwise |
| BatchIter.UpToNilIsPrefix | bootstrap/cell.c:5255-5260 | collecting takes the elements before the first nil |
| BatchIter.Batch.Narrow | bootstrap/cell.c:4983-5002 | the batch then offers exactly that selection of what it offered |
| BatchIter.Batch.Cut | bootstrap/cell.c:5017-5026 | a cut batch offers the first n elements |
| BatchIter.Batch.At | bootstrap/cell.c:5204-5210 | the element behind a position of the selection |
| BatchSources.FillList | bootstrap/cell.c:4623-4642 | a batch is the next elements of the list in order |
| BatchSources.FillVector | bootstrap/cell.c:4644-4659 | a batch is the next elements of the vector |
| BatchSources.FillDeque | bootstrap/cell.c:4661-4684 | one or two block copies give the next elements of the ring, also across the wrap of the counters |
| BatchSources.FillGroup | bootstrap/cell.c:4747-4754 | the occupied slots of a group from a slot on, as far as the batch has room |
| BatchSources.FillSet | bootstrap/cell.c:4738-4764 | a batch is the next occupied slots in table order, resumed inside a group |
| BatchSources.MembersListed | bootstrap/cell.c:4738-4764 | the slots that filling runs through hold the members of a valid set, each once |
| BatchSources.ElemsFrom | bootstrap/cell.c:4738-4764 | from any slot on they hold the members placed from that slot on |
| Pipeline.GivesOnce | bootstrap/cell.c:4623-4764 | what a container source gives is determined |
| Pipeline.Iterator.Fill | bootstrap/cell.c:4959-5046 | any iterator moves the next elements of its element-at-a-time meaning into the batch, none only if none are left |
| Pipeline.Iterator.FillLeaf | bootstrap/cell.c:4623-4764 | the same for a container |
| Pipeline.Iterator.FillMap | bootstrap/cell.c:4959-4975 | the same for map |
| Pipeline.Iterator.FillFilter | bootstrap/cell.c:4977-5009 | the same for filter; the refill loop ends |
| Pipeline.Iterator.FillTake | bootstrap/cell.c:5011-5030 | the same for take |
| Pipeline.Iterator.FillChain | bootstrap/cell.c:5032-5046 | the same for chain |
| Pipeline.Handle.Next | bootstrap/cell.c:5198-5232 | the next element in order, nil at the end |
| Pipeline.Handle.Done | bootstrap/cell.c:5234-5244 | true exactly once a pull has found nothing, and then nothing is left |
| Pipeline.Handle.Collect | bootstrap/cell.c:5246-5274 | the list of the remaining elements up to the first nil |
| Pipeline.Reverse | bootstrap/cell.c:5262-5271 | the final loop reverses the accumulated list |
| Pipeline.Build | bootstrap/cell.c:5287-5363 | the constructors give an iterator with the meaning of the nest |
| Pipeline.DenoteMeans | bootstrap/cell.c:4959-5046 | the meaning of a nest, transformer by transformer: images for map, the selection for filter, the first n for take, one after the other for chain; exactly one sequence has it |
| Pipeline.CollectNest | bootstrap/cell.c:4959-5274 | for any nesting of map, filter, take and chain over list, vector, deque and set sources of any length, collecting through batches gives the sequence that the nest means, up to its first nil |

## Left out

- Weak memory ordering: steps are sequentially consistent, so the acquire and release annotations are not justified here.
- Wrap-around of the 64-bit ring positions, the 32-bit eventcount epoch, the 16-bit weak count and the 32-bit probe offset: positions are unbounded, and the others are assumed not to overflow where a precondition or a step guard says so.
- SIMD group matching and SipHash: a group match is a scan in slot order and a hash is an arbitrary function, consistent with the given equality.
- Keys that mix integers and doubles, and NaN: the set takes an equivalence as its equality, and numbers in cells are reals.
- Hash set: the old buffers during a rehash are read as sequences, so aliasing of old and new buffers is not captured; `cell_hashset_elements` is not modelled.
- Actor records: they are values in a map field that the methods reassign, so sharing of one record is not represented.
- Cascades on several threads: `ActorExit`, `ActorSystem`, `ExitReach` and `ExitSpread` run one cascade without interference. `KillRace` covers the kill sections, the counter and the announcements in every interleaving, `RestartRace` the restart limit and `MonitorRace` the monitors; who is reached by two cascades at once is not stated.
- `ActorExit.HandleExit`: bounds the restarts of one cascade running alone, because under several threads the bound is false; `RestartRace` has the exact condition.
- `ExitReach.ErrorKillsExactlyTheReachable`: excludes supervisors that restart a group among those reached, because the statement is false with them; after group restarts deeper in a cascade only the bound of `ExitSpread.DeathsConfined` is stated, since a sibling that goes down with its group passes no error on.
- Ids and the size check of `actor_create`: taken without a lock in the code, one step with a fresh id in `KillRace`.
- Actor exit: name registry and ETS clean-up, timers, full mailboxes that drop a message, and lock order are not part of this model.
- De Bruijn fragment: variables, number and boolean literals, `if`, single-body lambda with plain parameters (not `:` or `generic-param`, which start annotations), application, globals and primitives; parameter annotations, quotations inside lambda bodies, the other special forms and calls headed by their names are outside it, and macro calls count as expanded before conversion.
- De Bruijn evaluators take fuel: every statement holds for each amount, and running out is a result of its own.
- `DeBruijn.ConversionPreservesMeaning`: in the reading where forms always win it excludes conditionals under a parameter named `if`, because the statement is false for them.
- De Bruijn environments: the legacy linked-list form of an environment is not modelled.
- Reference counting: profile counters, the cell pool and what releasing the children does are not modelled; an immortal cell is a cell that retains and releases leave alone.
- `BiasedRc.FreedAtMostOnceAndDead`: assumes what the callers owe, namely that a release gives up a live reference of its own domain and that the owner retains only while its own counter is positive.
- Interned strings are at most 255 bytes and 4096 in number: a longer string is compared by a prefix of its canonical copy, and one more string fails an assertion.
- `Intern.ThreadCache.Intern`: is one call without interference; the interleaving of calls is `InternRace`, whose locked sections have the effects proved of `Intern.Table`.
- Macros: gensym, the registry, non-pattern macros and full-expression expansion are not modelled; `cell_car` of a non-pair, on which the runtime aborts, answers nil here.
- Eventcount: the spinning stages before the system call are covered by the re-check step, since each of them only re-reads the epoch; the bounded wait on macOS ends as a spurious wakeup.
- Batch iterators: sources are fresh and do not change while iterated; sources over heaps are `LazyDrain`, and zip, drop, hashmap, trie, sorted-map, buffer and graph sources are not modelled. The mapped function and the predicate have no side effects.
- Levenshtein: string lengths are unbounded, while the code keeps them in an `int`.
- Deque: capacities above 2^31 are excluded, since doubling would overflow 32 bits.
- Sorted maps, Swiss-table maps, tries, the JIT, fibers and effects, serialization, tracing and tooling are not part of this model.
