# Graft supernode server: verified models

The project models the stateful core of the Graft supernode server and its libraries, and proves what
that core keeps over every run:

- `MpmcQueue`, `Strand`: the bounded multi-producer multi-consumer queue and the strand on top of it, as
  transition systems whose steps are single atomic accesses of any number of threads in any order.
- `Keys`, `RadixNodes`, `RadixEdits`, `RadixOrder`, `RadixTree`: the path-compressed radix tree as linked
  heap nodes changed in place, refining a finite map. The edits are described on snapshots of the node
  fields (`Store`), and each class method is shown to perform the described edit.
- `RateWindow`, `IpFilter`: the request windows and the timed bans that live in the same radix tree as
  the CIDR rules (section 3.1 of RFC 4632; longest match, section 5.1 of RFC 4632).
- `Dispatch`, `ExpiringList`, `Upstream`, `ThreadPool`: the table-driven task state machine, the list of
  early callbacks, the upstream connection pools, and the sizing of the thread pool. Handlers are
  arbitrary: what they return in one dispatch is a parameter, as are the clock readings.
- `TaskEngine`, `TaskRuns`, `Rendezvous`, `TaskManager`: the task manager's state and its invariant, its
  events as a relation on states, what holds over every run of them, and the object whose methods are
  shown to perform those events.
- `ResultQueue`, `Shutdown`: the manager together with the concurrent result queue, and with the
  upstream side's `busy`.
- `Sampling`, `AuthSample`: the selection of supernodes for an authorization sample and the rebalancing
  across tiers.
- `DependencyGraph`: removal of graftlets with unmet dependencies and the search for cycles.
- `Bits`, `Options`: power-of-two arithmetic and the option type.

All modules are checked together with `dafny verify dfyconfig.toml`.

What the code does, where one might expect otherwise:

- Expiry of postponed tasks is not prompt: the heap has the latest deadline on top
  (include/lib/graft/task.h:285), so nothing expires while any deadline in the heap lies ahead, and
  everything expires once none does (`ExpireAll`).
- A ban does not overwrite a /32 rule for the same address, and lifting the ban deletes that rule
  (`RulesAfterRun`, `HostRuleExample`).
- The state table has no row for some statuses; `ExecutedIff` and `ReturnedIff` give the exact condition
  under which a dispatch reaches EXIT. Where the model reports `Incomplete`, the original
  throws (src/lib/graft/task.cpp:60-67).
- A handler with only a post-action that has forwarded once never gets past forwarding (`ForwardRepeats`,
  `ForwardsForever`).
- A block height of exactly 10 gives block number 0, which `BuildAuthSample` takes for a missing list.
- `next_pow2` returns 0 for 0 and above 2^63 (`NextPow2`); an unknown processor count (0) still gives two
  threads (`InitThreadPool`).

## Model

| member | source | states |
|---|---|---|
| MpmcQueue.Create | include/lib/graft/thread_pool/mpmc_bounded_queue.hpp:135-149 | the constructor throws exactly for sizes that are not powers of two of at least 2; otherwise the ticket/sequence invariant holds initially |
| MpmcQueue.Index | include/lib/graft/thread_pool/mpmc_bounded_queue.hpp:178 | masking a position always yields a valid cell index |
| MpmcQueue.SameCell | include/lib/graft/thread_pool/mpmc_bounded_queue.hpp:178 | two positions that share a cell are equal or at least one lap apart, and one lap on is the same cell |
| MpmcQueue.StepInv | include/lib/graft/thread_pool/mpmc_bounded_queue.hpp:172-240 | every atomic access of every thread, with spurious compare-exchange failures, keeps the invariant |
| MpmcQueue.Run | include/lib/graft/thread_pool/mpmc_bounded_queue.hpp:172-240 | every interleaving keeps the invariant, loses no claimed ticket and no returned pop |
| MpmcQueue.QueueSafety | include/lib/graft/thread_pool/mpmc_bounded_queue.hpp:172-240 | in every interleaving no two threads own a cell, each returned pop has the value pushed under the same ticket, no ticket is returned twice, at most `size` tickets are outstanding |
| MpmcQueue.ReleasedIffReturned | include/lib/graft/thread_pool/mpmc_bounded_queue.hpp:234-239 | a cell has moved on a lap if and only if the pop with its ticket has returned |
| MpmcQueue.PushSeesFull | include/lib/graft/thread_pool/mpmc_bounded_queue.hpp:179-192 | push is sent to `return false` if and only if its position is still current and the ticket one lap earlier has not been returned |
| MpmcQueue.PopSeesEmpty | include/lib/graft/thread_pool/mpmc_bounded_queue.hpp:214-227 | pop is sent to `return false` if and only if its position is still current and its ticket is not published |
| MpmcQueue.PopAlone | include/lib/graft/thread_pool/mpmc_bounded_queue.hpp:207-240 | an undisturbed pop returns true with the value pushed under the ticket at the dequeue position if that ticket is claimed and published, and otherwise returns false and changes nothing |
| MpmcQueue.PushAlone | include/lib/graft/thread_pool/mpmc_bounded_queue.hpp:172-204 | an undisturbed push returns true and publishes its value under the next ticket unless the ticket one lap earlier is not returned; then it returns false |
| MpmcQueue.FailsOnlyWhen | include/lib/graft/thread_pool/mpmc_bounded_queue.hpp:179-192 | in every run, a pop that returns false found its ticket unpublished at an earlier sequence load of its own, and a push that returns false found the ticket one lap earlier not returned |
| MpmcQueue.OutstandingBound | include/lib/graft/thread_pool/mpmc_bounded_queue.hpp:172-240 | at most `size` tickets are claimed by push and not returned by pop, all within the last lap |
| MpmcQueue.Quiescent | include/lib/graft/thread_pool/mpmc_bounded_queue.hpp:172-240 | with no operation in progress, exactly the tickets below the dequeue position were returned and the others sit published in ticket order |
| MpmcQueue.PushNeverFails | include/lib/graft/thread_pool/mpmc_bounded_queue.hpp:189-192 | with one consumer and pushes begun only within the size, no push returns false in any interleaving |
| Bits.Pow2Test | include/lib/graft/thread_pool/mpmc_bounded_queue.hpp:139 | `(n & (n - 1)) == 0` accepts exactly the powers of two |
| Strand.StepInv | include/lib/graft/thread_pool/strand.hpp:76-110 | every step of any worker keeps the deferred-count/queue invariant |
| Strand.Serialised | include/lib/graft/thread_pool/strand.hpp:76-110 | in every interleaving one worker at most runs handlers, every pop succeeds, handlers run in push order, and at quiescence each posted handler has run once |
| Strand.OneStepNearer | include/lib/graft/thread_pool/strand.hpp:76-110 | every step of the pool and its workers brings quiescence exactly one step nearer |
| Strand.NeverStuck | include/lib/graft/thread_pool/strand.hpp:83-110 | until quiescence some step is possible |
| Strand.Drains | include/lib/graft/thread_pool/strand.hpp:76-110 | from every reachable state, without further posts, any possible steps lead in a known number of steps to quiescence with every posted handler run, in order |
| Sampling.MaskExact | src/rta/fullsupernodelist.cpp:243-279 | whatever the random values, exactly min(count, n) entries are taken |
| Sampling.MaskDecides | src/rta/fullsupernodelist.cpp:262-275 | entry i is taken if and only if its draw modulo the entries left falls below the number still wanted |
| Sampling.SelectedAll | src/rta/fullsupernodelist.cpp:250-276 | every entry taken is listed among the selected positions |
| Sampling.PickSubsequence | src/rta/fullsupernodelist.cpp:250-276 | the sample is the subsequence of the tier at the selected, strictly increasing positions |
| Sampling.OnlyResiduesMatter | src/rta/fullsupernodelist.cpp:262-269 | reducing each draw modulo the remaining length, which is all the code uses, gives one of the residue sequences and the same selection |
| Sampling.Uniform | src/rta/fullsupernodelist.cpp:243-279 | of the n! residue sequences every k-subset is produced by exactly k!(n-k)! |
| AuthSample.BalancedUnique | src/rta/fullsupernodelist.cpp:379-402 | the declarative description of the rebalanced counts leaves exactly one solution |
| AuthSample.FillDeficit | src/rta/fullsupernodelist.cpp:385-401 | one tier's deficit is filled from the highest tiers with a surplus, or dropped when there is none |
| AuthSample.Rebalance | src/rta/fullsupernodelist.cpp:379-402 | the counts satisfy that description: within the tier sizes, total min(8, all), own two kept, lower tiers lend only when higher ones are exhausted |
| AuthSample.EligibleOf | src/rta/fullsupernodelist.cpp:295-316 | exactly the known entries announced within the hour remain, none more often than before |
| AuthSample.EligibleMeans | src/rta/fullsupernodelist.cpp:301-312 | for 32-bit times: updated in the last hour and not in the future |
| AuthSample.EligibleEntries | src/rta/fullsupernodelist.cpp:295-316 | filtering keeps the tiers at their indices, and in each exactly the entries at the eligible positions, in order |
| AuthSample.DrawnEntries | src/rta/fullsupernodelist.cpp:362-376 | entry j drawn from tier i is the entry at the j-th selected position |
| AuthSample.DrawsUsed | src/rta/fullsupernodelist.cpp:262-266 | the generator stands, for tier i, after as many values as the tiers before it have entries |
| AuthSample.SampleEntries | src/rta/fullsupernodelist.cpp:404-409 | the sample entry by entry: tier after tier, the first drawn entries, as many as the balanced counts say |
| AuthSample.SampleFacts | src/rta/fullsupernodelist.cpp:404-425 | the sample has exactly min(8, eligible in the first four tiers) entries and uses no list position twice |
| AuthSample.NoRepeats | src/rta/fullsupernodelist.cpp:323-430 | if no id is listed twice in the first four tiers, none is sampled twice |
| AuthSample.FullSupernodeList.SelectSupernodes | src/rta/fullsupernodelist.cpp:243-279 | fails exactly if some entry is unknown; otherwise returns the selection determined by the draws, one draw per entry |
| AuthSample.FullSupernodeList.ListForAuthSample | src/rta/fullsupernodelist.cpp:281-321 | the filtered list and its block number, or 0 if the block has no list |
| AuthSample.FullSupernodeList.SampleTiers | src/rta/fullsupernodelist.cpp:362-376 | samples the first four tiers one after the other from one generator |
| AuthSample.FullSupernodeList.BuildAuthSample | src/rta/fullsupernodelist.cpp:323-430 | with a list found, succeeds if and only if at least 8 entries are eligible; the final resize never cuts anything off |
| DependencyGraph.DependencyGraph.Check | src/lib/graft/GraftletLoader.cpp:242-274 | one graftlet passes if and only if its list is well-formed and all its dependencies are present and new enough |
| DependencyGraph.DependencyGraph.RemoveFailedDependants | src/lib/graft/GraftletLoader.cpp:231-288 | terminates with the greatest consistent set, whatever the removal order; the returned list is its complement, without repeats |
| DependencyGraph.DependencyGraph.Explore | src/lib/graft/GraftletLoader.cpp:334-375 | one depth-first search either reports a real cycle or blackens everything reachable in dependency order |
| DependencyGraph.DependencyGraph.FindCycles | src/lib/graft/GraftletLoader.cpp:301-378 | terminates; reports nothing if and only if some rank falls along every edge, and otherwise a real cycle, self-loops included |
| DependencyGraph.DependencyGraph.CheckDependencies | src/lib/graft/GraftletLoader.cpp:380-386 | what is left is the greatest consistent set, and passing means a complete load order exists, and conversely |
| DependencyGraph.OrderGivesRank | src/lib/graft/GraftletLoader.cpp:301-378 | a complete load order gives a rank that falls along every dependency |
| DependencyGraph.RankExcludesCycle | src/lib/graft/GraftletLoader.cpp:301-378 | such a rank excludes every cycle |
| RadixNodes.LocatedIff | include/radix_tree/radix_tree.hpp:512-541 | what `find_node` stops at is a leaf if and only if the key is stored, and then its leaf |
| RadixTree.RadixTree.constructor | include/radix_tree/radix_tree.hpp:120-124 | an empty tree stands for the empty map |
| RadixTree.RadixTree.FindNode | include/radix_tree/radix_tree.hpp:512-541 | the search stops at the leaf of the key, or at the inner node where the key ends, leaves the tree or diverges inside an edge |
| RadixTree.RadixTree.Find | include/radix_tree/radix_tree.hpp:497-509 | finds exactly the stored keys, with the stored value |
| RadixTree.RadixTree.LongestMatch | include/radix_tree/radix_tree.hpp:163-193 | returns exactly the longest stored key that is a prefix of the query, or null if there is none |
| RadixTree.RadixTree.Climb | include/radix_tree/radix_tree.hpp:183-192 | the walk over parent links finds the longest stored prefix above a node |
| RadixTree.RadixTree.Append | include/radix_tree/radix_tree.hpp:354-397 | adds the key below a node whose path is a prefix of it; depths, parent links, distinct first symbols and branching are kept |
| RadixTree.RadixTree.Fork | include/radix_tree/radix_tree.hpp:408-428 | a node is put into the edge where the key leaves it, with the rest of the edge as its only child |
| RadixTree.RadixTree.Prepend | include/radix_tree/radix_tree.hpp:400-463 | splits an edge at the point of divergence and adds the key; the whole representation invariant is kept |
| RadixTree.RadixTree.SplitEdge | include/radix_tree/radix_tree.hpp:415-428 | inserting a node inside an edge changes exactly the parent's entry and the lower node's key, depth and parent |
| RadixTree.RadixTree.Common | include/radix_tree/radix_tree.hpp:408-411 | the length of the common prefix of the edge and the rest of the key |
| RadixTree.RadixTree.Insert | include/radix_tree/radix_tree.hpp:466-494 | the flag is true if and only if the key is new; the map gains it then and is otherwise unchanged (no overwriting); the size agrees |
| RadixTree.RadixTree.Repair | include/radix_tree/radix_tree.hpp:309-347 | after a removal the possible merge with the only child restores the invariant without changing the map |
| RadixTree.RadixTree.Fuse | include/radix_tree/radix_tree.hpp:337-346 | the merge joins the two edge keys and hangs the child under the grandparent |
| RadixTree.RadixTree.Erase | include/radix_tree/radix_tree.hpp:287-350 | the flag is true if and only if the key was stored; the map loses exactly it; the invariant survives removal and merging |
| RadixTree.RadixTree.Begin | include/radix_tree/radix_tree.hpp:203-225 | null if and only if empty, otherwise the least key |
| RadixTree.RadixTree.Descend | include/radix_tree/radix_tree_it.hpp:80-90 | the first leaf at or below a node |
| RadixTree.RadixTree.Increment | include/radix_tree/radix_tree_it.hpp:62-77 | the first leaf beyond the subtree of a node, through parent links |
| RadixTree.RadixTree.Next | include/radix_tree/radix_tree_it.hpp:117-122 | the in-order successor of a leaf, or null if there is none |
| RadixTree.RadixTree.Walk | include/radix_tree/radix_tree_it.hpp:61-90 | iteration visits every key exactly once in strictly increasing order |
| RadixTree.RadixTree.RemoveIf | include/radix_tree/radix_tree.hpp:104-117 | deletes exactly the keys that satisfy the predicate although the tree is restructured during the walk |
| RadixTree.RadixTree.GreedyMatch | include/radix_tree/radix_tree.hpp:266-278 | collects exactly the leaves below a node, in order |
| RadixTree.RadixTree.PrefixMatch | include/radix_tree/radix_tree.hpp:137-160 | returns exactly the stored keys that extend the query, in increasing order |
| RadixTree.RadixTree.InsertThenErase | include/radix_tree/radix_tree.hpp:287-494 | inserting a fresh key and erasing it restores the shape of the tree |
| RadixOrder.InnerNodeHasPath | include/radix_tree/radix_tree.hpp:287-494 | every inner node lies at a path where stored keys part |
| RadixOrder.PathHasInnerNode | include/radix_tree/radix_tree.hpp:287-494 | every path where stored keys part has an inner node |
| RadixOrder.CanonicalEdges | include/radix_tree/radix_tree.hpp:287-494 | the edges of a node are determined by the key set alone |
| RadixOrder.CanonicalShape | include/radix_tree/radix_tree.hpp:287-494 | two trees with the same key set have the same shape, whatever their histories |
| RateWindow.IpMap.Inc | src/lib/graft/blacklist.cpp:32-73 | counts one request, reports whether it triggered, and evicts at most the neighbour |
| RateWindow.IpMap.RemoveItAndNeighbour | src/lib/graft/blacklist.cpp:88-103 | removes a triggered entry, then the next entry of the ordered map (cyclically) if it is two windows old |
| RateWindow.HistoryTracked | src/lib/graft/blacklist.cpp:32-103 | over every history the stored window of an untriggered address is within its rate, through slides, resets and evictions |
| RateWindow.RateBound | src/lib/graft/blacklist.cpp:32-103 | an address first seen at t0 and never triggered has had at most max(W*R, R*(t - t0)) requests accepted by t; its stored count is in 1..W*R |
| RateWindow.AllStarted | src/lib/graft/blacklist.cpp:32-73 | every stored count is the number of requests since the window was started afresh, less the rate for every second it slid |
| RateWindow.TriggersOnlyWhen | src/lib/graft/blacklist.cpp:32-73 | no false alarm: in every history a request triggers only if its address has made, since some earlier request of its own, more than W*R requests and more than R per second, up to a second |
| RateWindow.StaleForgotten | src/lib/graft/blacklist.cpp:88-103 | the next address in order, cyclically, is forgotten exactly if its window is two windows old, and nobody else is |
| RateWindow.BurstTriggers | src/lib/graft/blacklist.cpp:32-73 | within the first window a request triggers if and only if W*R requests came before it |
| IpFilter.HostKeyInjective | src/lib/graft/blacklist.cpp:266-278 | different addresses have different 32-bit keys |
| IpFilter.PrefixIsNetwork | src/lib/graft/blacklist.cpp:120-130 | keys share their first len symbols if and only if the addresses agree in their len high bits |
| IpFilter.LongestRuleDecides | src/lib/graft/blacklist.cpp:266-278 | an address is decided by the longest rule whose network contains it |
| IpFilter.DefaultDecides | src/lib/graft/blacklist.cpp:273-276 | with no rule for a network that contains the address, the default decides |
| IpFilter.Match | src/lib/graft/blacklist.cpp:266-278 | the longest prefix of the key in the table |
| IpFilter.UnbanKeeps | src/lib/graft/blacklist.cpp:158-168 | lifting drops exactly the bans whose deadline has come and keeps the table equal to rules plus denies |
| IpFilter.BanKeeps | src/lib/graft/blacklist.cpp:170-178 | banning a fresh address without a /32 rule keeps that equation and the deadline order |
| IpFilter.BannedIsDenied | src/lib/graft/blacklist.cpp:170-178 | a queued address is denied whatever the rules say |
| IpFilter.RunKeepsClean | src/lib/graft/blacklist.cpp:208-227 | every run keeps table = rules plus one /32 deny per banned address, each queued once in nondecreasing deadline order |
| IpFilter.RunSole | src/lib/graft/blacklist.cpp:208-227 | in every run an address without a /32 rule has a /32 entry exactly while it is queued, once, and that entry denies |
| IpFilter.RefusedUntilDeadline | src/lib/graft/blacklist.cpp:208-227 | in every run a banned address without a /32 rule of its own is refused until its deadline, whatever rules there are for others |
| IpFilter.CleanAllowed | src/lib/graft/blacklist.cpp:208-218 | bans decide about the banned addresses only; all others are decided by the rules |
| IpFilter.AcceptedIff | src/lib/graft/blacklist.cpp:208-227 | in every run a request is accepted if and only if the rules allow it, no ban of its address is pending, and it does not trigger one |
| IpFilter.RulesOnly | src/lib/graft/blacklist.cpp:208-218 | with rate 0, over every run, the filter is unchanged and accepts exactly what the rules allow |
| IpFilter.TriggerBans | src/lib/graft/blacklist.cpp:220-225 | a triggered request is refused and its address queued with its deadline |
| IpFilter.RulesRestored | src/lib/graft/blacklist.cpp:158-178 | after every run without requests from addresses with a /32 rule, once all bans are over the table equals the rules |
| IpFilter.RulesAfterRun | src/lib/graft/blacklist.cpp:158-178 | over every run and for all rules: once all bans are lifted the table is the rules without the /32 rules of banned addresses; it is the rules if and only if no triggering request came from an address with a /32 rule |
| IpFilter.InBannedKeys | src/lib/graft/blacklist.cpp:220-225 | the banned keys are exactly those of the requests that passed the rules and triggered |
| IpFilter.BanWorksIff | src/lib/graft/blacklist.cpp:158-178 | one ban denies its address if and only if there is no /32 allow rule for it, and leaves no trace if and only if there is no /32 rule at all |
| IpFilter.HostRuleExample | src/lib/graft/blacklist.cpp:208-227 | three requests from a host that is allowed by name: the second triggers a ban, the third is accepted all the same, and after the ban the rule is gone |
| IpFilter.BlackList.Find | src/lib/graft/blacklist.cpp:266-278 | the lookup on the linked tree agrees with the longest prefix in the table |
| IpFilter.BlackList.AddEntry | src/lib/graft/blacklist.cpp:242-248 | adds a rule for a prefix unless that prefix has one |
| IpFilter.BlackList.RemoveEntry | src/lib/graft/blacklist.cpp:258-264 | removes the /32 entry of an address and nothing else |
| IpFilter.BlackList.LiftBans | src/lib/graft/blacklist.cpp:158-168 | the loop over the ban queue computes the specified lifting on the linked tree |
| IpFilter.BlackList.PlaceBan | src/lib/graft/blacklist.cpp:170-178 | placing a ban on the linked tree computes the specified one |
| IpFilter.BlackList.ProcessIp | src/lib/graft/blacklist.cpp:208-227 | handling a request on the linked tree and the windows computes the specified transition and verdict |
| Upstream.ConnItem.GetConnection | src/lib/graft/task.cpp:268-293 | reuses an idle connection or opens one under a fresh id; connCnt = idle + active and the limit are kept |
| Upstream.ConnItem.ReleaseActive | src/lib/graft/task.cpp:295-312 | the connection becomes idle or is dropped; the count follows |
| Upstream.ConnItem.OnCloseIdle | src/lib/graft/task.cpp:314-321 | an idle connection disappears; the pool invariant is kept |
| Upstream.UpstreamManager.CreateSender | src/lib/graft/task.cpp:364-385 | starts one sender; senders in flight hold distinct active connections |
| Upstream.UpstreamManager.Send | src/lib/graft/task.cpp:224-248 | fails exactly for an unknown substitution; otherwise the task is submitted to that entry only |
| Upstream.UpstreamManager.OnDone | src/lib/graft/task.cpp:337-345 | whatever the callback sends meanwhile, all pool invariants hold again and the oldest waiting task is dispatched next |
| Upstream.UpstreamManager.NotBusyNothingQueued | src/lib/graft/task.cpp:219-222 | not busy implies no active connection and nothing queued in any entry |
| Upstream.UpstreamManager.BusyIffPending | src/lib/graft/task.cpp:219-222 | busy if and only if some task sent here is unfinished, in flight or waiting, with or without keep-alive; not busy means no sender in flight and submitted = dispatched on every entry |
| Upstream.OldestServed | src/lib/graft/task.cpp:342-344 | submitted = dispatched + queue makes dispatching first in, first out and exactly once |
| Dispatch.FirstRow | src/lib/graft/task.cpp:148-177 | the first matching row of the table is the transition of the closed form |
| Dispatch.NoRow | src/lib/graft/task.cpp:148-177 | if no row matches, the closed form has no transition |
| Dispatch.StateMachine.FindRow | src/lib/graft/task.cpp:20-68 | the search over the table yields exactly that transition, or none |
| Dispatch.StateMachine.Dispatch | include/lib/graft/state_machine.h:38-45 | the loop terminates and computes the closed-form outcome, also where the table has no row |
| Dispatch.ExecutedIff | src/lib/graft/task.cpp:148-177 | a dispatch of a new or resumed task reaches EXIT if and only if the handler statuses are legal |
| Dispatch.ReturnedIff | src/lib/graft/task.cpp:167-176 | a dispatch of a finished job reaches EXIT if and only if the job said Again or the post phase ends with a status that has a row |
| Dispatch.DispatchDisposes | src/lib/graft/task.cpp:148-177 | every completed dispatch disposes of its task in exactly one way, with its last action |
| Dispatch.ExecutedMeans | src/lib/graft/task.cpp:150-176 | what a dispatch from EXECUTE does by the handler statuses: rejected on overflow, ended by a failing pre-action, handed to the worker unless the pre-action forwarded, otherwise settled by the post phase; Ok, Forward, Postpone, Drop and the errors each with their own action, and only these |
| Dispatch.ReturnedMeans | src/lib/graft/task.cpp:167-176 | a finished job that says Again is answered and posted once more; otherwise the post phase settles it, with the action its final status calls for |
| Dispatch.PostTrace | src/lib/graft/task.cpp:169-176 | a post-action that says Again n times runs n + 1 times, with a response after each of the n |
| Dispatch.SafeIsLegal | src/lib/graft/task.cpp:150-176 | statuses other than None, Again and Busy from the pre-action and at the end of the post phase are always legal |
| Dispatch.ForwardRepeats | src/lib/graft/task.cpp:686-697 | a forwarded task is forwarded again by every later dispatch, whatever its handlers return, if and only if it has neither pre- nor worker-action |
| ExpiringList.ExpiringList.Chop | include/lib/graft/expiring_list.h:18-24 | drops only entries whose deadline has come, keeps only entries not past it |
| ExpiringList.ExpiringList.Add | include/lib/graft/expiring_list.h:26-32 | chops, then appends the entry with its deadline |
| ExpiringList.ExpiringList.Extract | include/lib/graft/expiring_list.h:37-46 | chops, then takes out the oldest entry for the uuid if there is one |
| ExpiringList.TakenFrom | include/lib/graft/expiring_list.h:37-46 | an extracted value comes from an entry alive in the list, entries of other uuids survive, and nothing is found only if none was alive |
| ThreadPool.NextPow2 | src/lib/graft/task.cpp:414-422 | the least power of two not below the argument if a word has one, otherwise 0 |
| ThreadPool.InitThreadPool | src/lib/graft/task.cpp:845-872 | the thread count is the least power of two of at least 2 that covers the setting, or the processors if there is none; the result queue is the least one that holds the pool's capacity, so its construction succeeds |
| ResultQueue.WithinSize | src/lib/graft/task.cpp:569-633 | derived from the manager's invariant: a job is pushed only while fewer pushes are begun and not popped than the result queue has cells |
| ResultQueue.AccessKeeps | include/lib/graft/thread_pool.h:40-49 | every atomic access of a pool thread or the IO thread to the result queue keeps the coupling: the manager's results are the tickets claimed and not handled, in order |
| ResultQueue.ManageKeeps | src/lib/graft/task.cpp:551-562 | every event of the IO thread keeps that coupling |
| ResultQueue.JobResultNeverLost | include/lib/graft/thread_pool.h:40-49 | in every interleaving of pool threads, IO thread and events no result-queue push fails, so the result a job ignores is always true; jobs sent minus done stay within capacity; and a popped result is the job the manager handles next |
| TaskEngine.OnePlace | src/lib/graft/task.cpp:515-633 | between events a task lives if and only if it is in pool, result queue, upstream, timer list, resume queue or postponed map, and then in one of them, once |
| TaskEngine.DisposedKeeps | src/lib/graft/task.cpp:90-124 | wherever a disposing action sends the task, conservation, counters, labels and deadlines hold again |
| TaskEngine.Room | src/lib/graft/task.cpp:569-580 | 0 <= jobs sent - jobs done <= capacity wherever the invariant holds |
| TaskEngine.QueuedOnce | src/lib/graft/task.cpp:714-821 | a task is in the resume queue once |
| TaskEngine.StopIsSafe | src/lib/graft/task.cpp:544-549 | the three counter conditions hold if and only if no client task is live and pool, result queue and upstream are empty |
| TaskRuns.DispatchFits | src/lib/graft/task.cpp:551-633 | every legal dispatch runs to EXIT, and posts, or posts again, a job only while the pool has room |
| TaskRuns.EventKeeps | src/lib/graft/task.cpp:508-944 | every event keeps the invariant: new client, new periodic task, timer, upstream answer or failure, job done, result, resumption, expiry |
| TaskRuns.RunKeeps | src/lib/graft/task.cpp:508-944 | so every state of every run of events satisfies it |
| TaskRuns.EventCounts | src/lib/graft/task.cpp:551-562 | only a new client is counted as one, only a result taken is counted as done, and jobs leave the pool only as a worker finishes |
| TaskRuns.OutcomeSuits | src/lib/graft/task.cpp:150-176 | a legal dispatch ends, and unless it hands the task to a worker or rejects it, its last action is the one its final status calls for |
| TaskRuns.EventEnds | src/lib/graft/task.cpp:515-542 | all tasks live on except the one an event answers for good: a client is released and counted as done, a periodic task is on the timer list again unless it ended with Stop |
| TaskRuns.BackUpstream | src/lib/graft/task.cpp:686-697 | an answered task with neither pre- nor worker-action is back upstream |
| Rendezvous.TaskFirst | src/lib/graft/task.cpp:714-821 | over every run that stays within its deadline a postponed task keeps its place and deadline while no callback names it, and the first task that ends with Ok and names it puts it into the resume queue, once, with that callback's input |
| Rendezvous.CallbackFirst | src/lib/graft/task.cpp:714-821 | over every run before its deadline the oldest early callback for a task stays listed until the task postpones itself, and then the task enters the resume queue, once, with that callback's input |
| Rendezvous.NamedEarly | src/lib/graft/task.cpp:797-808 | a callback for a task that is not postponed becomes its oldest early callback, with the list lifetime ahead, if none was waiting |
| Rendezvous.CallbackCarries | src/lib/graft/task.cpp:797-818 | the input a callback carries is what the new client or the upstream side brought, or what its task had |
| Rendezvous.PostponeParks | src/lib/graft/task.cpp:714-741 | a task that postpones itself with no live callback waiting is parked until the timeout after the clock reading |
| Rendezvous.PeriodicGoesOn | src/lib/graft/task.cpp:508-542 | over every run a periodic task lives until it ends with Stop, and after every answer it is on the timer list again |
| Rendezvous.ClientUntilAnswered | src/lib/graft/task.cpp:515-537 | over every run a client task lives until it is answered for good, and is then released and counted as done, once |
| Rendezvous.NoExpiry | src/lib/graft/task.cpp:754-774 | nothing expires while a postponed task's own deadline has not passed, whatever stale heap entries there are |
| Rendezvous.ForwardsForever | src/lib/graft/task.cpp:686-697 | over every run, a forwarded task with neither pre- nor worker-action is upstream until that side fails it, however often it is answered |
| Shutdown.EventUpstream | src/lib/graft/task.cpp:790-795 | tasks come to the upstream side and leave it one at a time, by forwarding, answer and failure only |
| Shutdown.PendingMatches | src/lib/graft/task.cpp:219-248 | counting as `Send` and `OnDone` do keeps the upstream side's pending count equal to the manager's tasks upstream, over every run |
| Shutdown.CanStopIff | src/lib/graft/task.cpp:544-549 | `canStop` with the sender counters of `busy` holds if and only if no client task is live, nothing is in pool or result queue, and nothing is in flight or waiting upstream |
| TaskManager.TaskManager.constructor | src/lib/graft/task.cpp:396-407 | the new manager satisfies the invariant with no task and all counters zero |
| TaskManager.TaskManager.RespondAndDie | src/lib/graft/task.cpp:515-537 | a client task is counted as done and released; a periodic task is scheduled again unless it stopped |
| TaskManager.TaskManager.PostponeTask | src/lib/graft/task.cpp:714-741 | resumed at once with the oldest live early callback's input, or parked with a deadline when none was alive |
| TaskManager.TaskManager.Deliver | src/lib/graft/task.cpp:797-820 | the callback goes to the named postponed task, or to the list with the list lifetime |
| TaskManager.TaskManager.ProcessOk | src/lib/graft/task.cpp:797-821 | delivers, then answers and releases the task |
| TaskManager.TaskManager.Settle | src/lib/graft/task.cpp:90-124 | each disposing action sends the task to its one place |
| TaskManager.TaskManager.Run | src/lib/graft/task.cpp:551-633 | the task ends with the status and in the place that the state machine decides, from EXECUTE or with a job's result |
| TaskManager.TaskManager.OnNewClient | src/lib/graft/task.cpp:834-838 | performs the event of a new client, which is counted, and keeps the invariant |
| TaskManager.TaskManager.AddPeriodicTask | src/lib/graft/task.cpp:823-832 | performs the event of a new periodic task waiting for its timer |
| TaskManager.TaskManager.OnTimer | src/lib/graft/task.cpp:508-513 | performs the timer event: a periodic task is executed with status None |
| TaskManager.TaskManager.UpstreamDone | src/lib/graft/task.cpp:936-943 | performs the event of an upstream answer, after which a task that can only forward is upstream again; the return for a released task (line 939) is dead, since only `finalize` releases a task (lines 966-1005) and a task upstream lives |
| TaskManager.TaskManager.UpstreamFailed | src/lib/graft/task.cpp:926-934 | performs the event of an upstream failure, which ends the task with status Error |
| TaskManager.TaskManager.WorkerFinishes | include/lib/graft/thread_pool.h:40-49 | performs the event of a finished job, which moves to the result queue with its status |
| TaskManager.TaskManager.TryProcessReadyJob | src/lib/graft/task.cpp:551-562 | performs the event of taking the first result, if there is one, and changes nothing otherwise; the re-post on Again stays within the capacity |
| TaskManager.TaskManager.ResumeAll | src/lib/graft/task.cpp:745-752 | terminates; performs a run of resumptions in queue order, with the tasks that become ready on the way, until none is ready |
| TaskManager.TaskManager.ExpireAll | src/lib/graft/task.cpp:754-774 | performs a run of expiries: none if a deadline in the heap lies ahead, otherwise every postponed task ends with Error; no task expires before its own latest deadline |
| TaskManager.TaskManager.ExecutePostponedTasks | src/lib/graft/task.cpp:743-775 | performs a run of resumptions, then of expiries at a later clock reading; postponed tasks within their deadline that no callback named, and early callbacks whose task did not postpone, are still there |
| TaskManager.TaskManager.CanStop | src/lib/graft/task.cpp:544-549 | true if and only if no client task is live and pool, result queue and upstream are empty |
| TaskManager.Later | include/lib/graft/expiring_list.h:18-32 | the invariant, with the order of the early callbacks, holds on as the clock advances between events |

## Left out

- Mongoose event handling, HTTP and CoAP parsing, libr3 routing, dynamic loading, configuration and rule-file parsing, JSON reflection, wallet and daemon RPC clients, the RTA sale/pay/authorize handlers: input and output, or thin wrappers over code outside the repository.
- `TSList`, `TSHashtable`, `Context`, thread creation, work stealing and worker expulsion: the pool is a bag of posted jobs.
- Queue and strand: weak memory effects and counter wrap-around; atomics are sequentially consistent and counters unbounded. The strand's queue operations are atomic and have room, and handlers do not throw.
- Radix tree: memory release, `clear`, copying, the overwriting reference of `operator[]` and the public `greedy_match(key)` overload. A child map is iterated in any order where only the choice of the matching child matters.
- IpFilter.BlackList.AddEntry: keys are symbol sequences with a truncating substring; `RtEntry` prefixes shorter than 32 bits are padded with zeros past their end (src/lib/graft/blacklist.cpp:400-413), which the model does not capture. Network byte order is not modelled either.
- IP filter: the warning about superseded rules; each reading of the clock is a parameter, and the clock is monotone.
- Auth sample: a change of the supernode list between filtering and selection (the original takes the lock twice); the generator is an arbitrary stream; block numbers below the history size in `setBlockchainBasedList`.
- DependencyGraph.DependencyGraph.RemoveFailedDependants: the original goes on using `name`, a reference into the map node, after erasing that node (src/lib/graft/GraftletLoader.cpp:240, 275-281); the model takes the intended value.
- Upstream: `UpstreamTask` with its blocking promise, timeouts, and the network itself. The branch of `getConnection` for entries without keep-alive is unreachable (src/lib/graft/task.cpp:373-381) and not modelled. The connection handed back on completion is not already idle.
- Task engine: a task is named by its uuid, nil uuids are not distinguished, and a client connection, the response codes, a client task that ends with Stop, and exceptions from handlers are not modelled. The input assigned between the actions of one dispatch is not modelled; the callback input is.
- Task engine: the resume loop takes the front task before executing it instead of after; nothing looks at the queue's front in between.
- ResultQueue.JobResultNeverLost: for the manager a worker is done when its push wins a ticket; the status that the handler returned is set at that moment, which nothing but the later dispatch reads.
- Dispatch.StateMachine.Dispatch: a post-action returns Again finitely often; a handler that returns it for ever never leaves the loop.
- ThreadPool.InitThreadPool: thread counts up to 2^30, because the original narrows the result to a 32-bit `int`.
