# A model of Paracel and proofs about it

Paracel is a parameter-server framework: MPI workers load files in parallel, redistribute what they loaded over a
process grid, keep parameters on a sharded key-value store behind a consistent-hash ring, and may let fast workers run
ahead of slow ones within a staleness limit. On top sit graph searches and small iterative programs. This project
models that logic in Dafny and proves what it is for: for every file list, worker count, interleaving, graph, list of
updates, draw and choice of coordinates.

One file is one module. `Arith` holds shared facts about numbers and set sizes.

| module | models |
|---|---|
| `Loader` | cutting the concatenated files into byte blocks, resynchronising blocks to lines, loading blocks rank by rank |
| `ScheduleLoad` | the leader/worker protocol that hands blocks out on request, as a step system |
| `Clock` | the bounded-staleness clock: server handler, commits, gated reads, and the step system they form |
| `Kv`, `Store` | the table under the servers, and reads, writes and updates scattered over sharded servers |
| `HashRing` | consistent hashing and its binary search |
| `TreeReduce` | the tree reduction |
| `TreeRun` | all ranks of a tree reduction together, as a step system |
| `Words`, `Codec` | splitting at separator words, and the formats in which lists of triples and of strings travel |
| `Redistribute` | ring broadcast, all-to-all, placing triples by hash, the process grid |
| `Placement` | what hashing and exchanging do to the triples of all ranks |
| `IndexMapping` | dense local row and column indices agreed on by groups of ranks |
| `Graph` | undirected graphs, depth-first and breadth-first search, connected components |
| `MaxVertex` | maximum propagation in supersteps with votes to halt |
| `Lda` | the counters of the Gibbs sampler |
| `Lasso` | the two coordinate-descent programs |
| `WordCount` | three word-count programs and the bounded-heap top k |

How the pieces are modelled. Objects whose methods change fields are classes with those fields, and loops are loops.
A collective is the program of one rank, run against what arrives from the other ranks, and a lemma shows that the sends
and receives of all ranks fit together; what a list becomes on its way is what the wire format makes of it. The protocols
that are about interleaving (`ScheduleLoad`, `Clock`, `TreeRun`) are step systems: one action per message or per handled
request, any enabled action next, and the theorems are about every reachable state and every run. A loop over a hash table picks its next entry arbitrarily, so what is proved holds for
every iteration order; the same device gives updates that reach a server in any order. Random draws, hashes, update
functions, combine functions and answers pulled from a server are parameters.

## What the code does that its comments and tests do not say

* **Blank lines lose data.** A block's scan of a file that ends before the block does stops at the first empty line
  (include/load/partition.hpp:166). `Loader.EveryLineOnce` gives the exact condition under which nothing is lost: every
  blank line lies in a file that reaches the end of the block the blank line starts in; `ScheduleLoad.ScheduledLoadIsComplete`
  gives the same condition for the dynamic loader. `Loader.BlankLineLosesLines`
  is a two-file input on which a line is lost. A single file never loses anything.
* **A commit counts twice.** include/ps.hpp:338 calls the value sent with a commit "not important", but the handler
  falls through (include/server.hpp:149-151) and adds it to the same clock key again. As written, the handler bounds the lead of one
  worker over another exactly when there is only one worker (`Clock.BoundedExactlyForOneWorker`).
* **The bound is not the limit.** Even with each commit counted once, the lead over the slowest worker is not bounded by
  the limit s, as include/ps.hpp:410 suggests, but by W\*s + 1 for W workers, and that bound is reached
  (`Clock.BoundedLead`, `Clock.LeadIsReached`). With s = 0 no two workers differ by more than one clock.
* **The wire formats have no escaping.** `Codec.RoundTripsExactly` and `Codec.StringsRoundTripExactly` say which lists come
  back. So the exchange of triples keeps everything, each on its rank, exactly when every list that crosses ranks is
  sendable (`Placement.RedistributesExactly`): an id that merely ends in `_ps` comes apart and can end on a rank it does
  not hash to (`Placement.CutIdGoesAstray`). And the ranks of a group can rely on agreeing exactly for ids that neither
  contain `_PARACEL_` nor end in `_PARACEL` (`IndexMapping.AgreementExactly`, `IndexMapping.RanksDisagree`).
* **A repeated key in a multi-read** is answered only at its last position; `Store.PointwiseExactly` says when the answer
  still is the pointwise read, `Store.RepeatedKeyReadsDefault` when it is not.

## Model

| member | source | states |
|---|---|---|
| Loader.LineStep | include/load/partition.hpp:155-160 | reading a line goes from one line start to the next with no line start skipped in between |
| Loader.Resync | include/load/partition.hpp:148-153 | seeking one byte back and finishing that line lands on the first line start at or after the offset, so no line is split or read twice |
| Loader.Partition.SetDispls | include/load/partition.hpp:64-70 | displs holds, for every file, the number of bytes in the files before it |
| Loader.Partition.FilesPartition | include/load/partition.hpp:57-86 | succeeds exactly when there are at least as many bytes as blocks; then the blocks are non-empty, consecutive, equal but for the last, and tile all files |
| Loader.Partition.LocateFiles | include/load/partition.hpp:125-136 | finds the files that contain the first and the last byte of a block, also among empty files; the source's assertion fst <= fen holds |
| Loader.ScanBlockEnd | include/load/partition.hpp:148-160 | the counted offset loop reads exactly the lines that start before the block's end |
| Loader.ScanToBlank | include/load/partition.hpp:161-171 | any other file is read up to its first empty line |
| Loader.Partition.FilesLoadLines | include/load/partition.hpp:121-175 | seeking, resynchronising and walking from file to file yields what the position-by-position specification of a block's scan says |
| Loader.BlockLoadsItsLines | include/load/partition.hpp:121-175 | a block loads exactly the lines that start in it if its blank lines are harmless, and strictly fewer otherwise |
| Loader.OwnedSplit | include/load/partition.hpp:74-85 | adjacent blocks own adjacent runs of lines, also when lines or blocks straddle files |
| Loader.WholeOwnsAll | include/load/partition.hpp:57-86 | the whole byte range owns every line of every file |
| Loader.LinesSpellFile | include/load/partition.hpp:163-170 | the lines of a file with their newlines spell the file, completing at most its last newline |
| Loader.StructureLoad | src/scheduler.cpp:97-113 | a rank loads its own run of blocks, in block order |
| Loader.RanksLoadBlocks | src/scheduler.cpp:104-111 | the ranks' runs in rank order are all blocks in order |
| Loader.EveryLineOnce | include/load/partition.hpp:57-175 | the ranks together load every line of every file once and in order if and only if every blank line lies in a file that reaches the end of its block; otherwise lines are lost |
| Loader.NoBlankLinesNothingLost | include/load/partition.hpp:57-175 | files without blank lines are loaded whole for every rank count and every way of cutting, with or without final newlines, empty files included |
| Loader.SingleFileNothingLost | include/load/partition.hpp:148-160 | what the ranks load of a single file spells that file, blank lines and all |
| Loader.BlankLineLosesLines | include/load/partition.hpp:166 | two files in one block from which a line is lost |
| ScheduleLoad.StepInv | src/scheduler.cpp:62-92 | every message operation keeps the protocol invariant: each task handed out once, each reply a handed-out task or the end signal, one finishing worker per surplus request |
| ScheduleLoad.StepDecreases | src/scheduler.cpp:62-92 | every message operation uses up a finite supply, so all runs end |
| ScheduleLoad.StuckIsFinished | src/scheduler.cpp:62-92 | no deadlock: when nothing can happen all workers have left, the leader has served exactly the requests sent and no message is left |
| ScheduleLoad.EveryTaskOnce | src/scheduler.cpp:36-95 | for every rank count, block size and order of arrival: runs are finite, end with everybody out, and every task is loaded by exactly one rank, once |
| ScheduleLoad.RanksTogether | src/scheduler.cpp:69-73 | whoever the tasks go to, the ranks' lines together are those of the blocks handed out |
| ScheduleLoad.ScheduledLoadIsComplete | src/scheduler.cpp:36-95 | when the protocol has ended, the lines all ranks hold are as a multiset the lines of all files if and only if the blank lines are harmless; otherwise they are strictly fewer |
| Clock.SspServer.IncrInt | include/server.hpp:136-154 | the handler's effect on the table for present and missing keys and a missing worker_sz, with the second increment it falls through to |
| Clock.HandlerCases | include/server.hpp:136-153 | case by case: any other key is incremented if present; a client clock counts one and the delta, or, when the count reaches worker_sz or that is missing, ticks the server clock and restarts from the delta |
| Clock.Start | include/ps.hpp:116-121 | server thread and rank 0 together set up the table that every run of the step system starts from |
| Clock.SspServer.PullInt | include/server.hpp:155-164 | one reply with the value for a present key; for a missing key two replies, "nokey" and then 0 |
| Clock.Worker.IterCommit | include/ps.hpp:331-343 | a commit advances the worker, increments the bucket of its old clock, and in its last round takes the worker out of worker_sz |
| Clock.BucketOfRound | include/ps.hpp:332-337 | round q*limit + r counts in bucket r, and with limit 0 every round in bucket 0 |
| Clock.Worker.ReadGate | include/ps.hpp:400-419 | at clock 0 and at the last clock the server is asked at once; strictly inside the limit the cache answers; otherwise the server is asked after the first pulled clock that is not too far behind, which becomes the cached one, and until then the read waits |
| Clock.ReadsAreGated | include/ps.hpp:400-419 | in every reachable state of either handler: no cached clock is ahead of the server's, a read passing with 0 < clock < total is at most the limit ahead of the server clock, and the server clock never falls |
| Clock.CountConserves | include/server.hpp:138-148 | counted once, a commit adds one to W times the server clock plus the buckets, as long as no worker has left |
| Clock.CommitsConserved | include/server.hpp:136-148 | counted once, W times the server clock plus all buckets is the number of commits made, in every reachable state before a worker leaves |
| Clock.LeadStep | include/ps.hpp:400-419 | a worker that got through its gate cannot leave the slowest worker more than W*limit + 1 behind by its next commit |
| Clock.BoundedLead | include/ps.hpp:331-343 | counted once: in every reachable state no two workers are more than W*limit + 1 clocks apart, finished ones included; at most one clock with limit 0 |
| Clock.LeadIsReached | include/ps.hpp:408-414 | counted once: with two or more workers and enough rounds some run reaches a lead of exactly W*limit + 1 |
| Clock.SlowestIsNear | include/ps.hpp:408-414 | counted once: in every reachable state some worker is within the limit of the server clock |
| Clock.SomebodyCanMove | include/ps.hpp:400-419 | counted once: no deadlock, in every reachable state some worker can commit, leave, or read after one pull, unless all are done |
| Clock.ProgressIsBounded | include/ps.hpp:331-343 | in any run of either handler the reads, commits and leaves are bounded in number, however often workers pull |
| Clock.CanAlwaysFinish | include/ps.hpp:400-419 | counted once: no starvation, from every reachable state some continuation takes every worker through all its rounds |
| Clock.TicksAsWritten | include/server.hpp:138-151 | as written, k commits to a fresh bucket under W workers tick 0 times if k <= floor(W/2), else 1 + floor((k - floor(W/2) - 1) / ceil(W/2)) times |
| Clock.TicksAsMeant | include/server.hpp:138-148 | counted once, k commits tick floor(k / W) times |
| Clock.UnboundedLeadAsWritten | include/server.hpp:136-153 | as written, with two or more workers and any limit, some run puts one worker n clocks ahead of another, for every n |
| Clock.BoundedExactlyForOneWorker | include/server.hpp:136-153 | as written, the lead is bounded if and only if there is one worker |
| Kv.Kvs.GetMulti | include/kv.hpp:78-90 | fails exactly when some key is missing, and otherwise answers in the caller's order |
| Kv.Kvs.Incr | include/kv.hpp:105-111 | adds to a present key, and changes nothing and says so for a missing one |
| Kv.Kvs.Del | include/kv.hpp:152-158 | removes the key and says whether it was there |
| Store.KvUpdate | include/server.hpp:88-100 | stores a first value, combines later ones, and returns what is now stored |
| Store.KvsUpdate | include/server.hpp:102-111 | a list of updates is applied left to right, repeated keys included; the i-th answer is the key's value after the i-th update |
| Store.ViewOf | include/ps.hpp:506-517 | the one map that the servers form agrees, on present and absent keys, with the server a key routes to |
| Store.EntryOfRouted | include/ps.hpp:783-787 | scattering updates by server keeps, for each key, all its updates in order |
| Store.ShardedUpdates | include/ps.hpp:774-805 | updating each server with its share is updating the one map left to right |
| Store.PointwiseExactly | include/ps.hpp:452-504 | a multi-read is the pointwise read if and only if every repeated key holds the default value; always, when keys are distinct |
| Store.RepeatedKeyReadsDefault | include/ps.hpp:459-462 | an input on which it is not: a key asked for twice is answered with the default first |
| Store.ParamServers.Read | include/ps.hpp:422 | a read at the routed server is a read of the one map |
| Store.ParamServers.Write | include/ps.hpp:618-627 | a write at the routed server is a write to the one map, and keys stay where they route |
| Store.ParamServers.ReadAll | include/ps.hpp:506-517 | the servers' tables are disjoint and their union is the one map |
| Store.ParamServers.ReadMulti | include/ps.hpp:452-504 | fails exactly when a key is missing from the one map; otherwise each key's value stands at its last position, in the caller's order |
| Store.ParamServers.WriteMulti | include/ps.hpp:637-657 | cutting a dictionary by server and pushing the parts overrides the one map with the whole dictionary |
| Store.ParamServers.BupdateMulti | include/ps.hpp:774-805 | the scattered updates act on the one map as left-to-right updates, repeated keys included |
| HashRing.RingBsearch | include/utils.hpp:216-232 | terminates without wrapping an index below zero and returns where the key lands: the least point not below it, or the least of all |
| HashRing.RouteIsUnique | include/ring.hpp:84-92 | a key has one server |
| HashRing.LandsOnExists | include/ring.hpp:84-92 | on a ring with a point every key lands somewhere |
| HashRing.AddServerMoves | include/ring.hpp:47-63 | adding a server moves keys only to that server |
| HashRing.RemoveServerMoves | include/ring.hpp:65-82 | removing a server moves only the keys it served |
| HashRing.RemoveUndoesAdd | include/ring.hpp:47-82 | removing a server just added restores the table |
| HashRing.RingIsUnique | include/ring.hpp:62 | the sorted ring is determined by its set of points, so equal tables route alike |
| HashRing.OrderIrrelevant | include/ring.hpp:35-45 | the table does not depend on the order in which servers are added |
| HashRing.TableEntries | include/ring.hpp:53-60 | the table of a server list has exactly the hashes of each server with the replica numbers below the replica count, each with its server |
| HashRing.Ring.constructor | include/ring.hpp:41-45 | the ring lists the points of the table of its servers in ascending order |
| HashRing.Ring.AddServer | include/ring.hpp:47-63 | adds exactly the server's points and keeps ring and table in step |
| HashRing.Ring.RemoveServer | include/ring.hpp:65-82 | removes exactly the server's points from ring and table |
| HashRing.Ring.GetServer | include/ring.hpp:84-92 | answers the server whose point the key lands on |
| TreeReduce.HeldIsFold | include/utils/comm.hpp:675-694 | after k rounds rank r holds the fold, in rank order, of the data of ranks r to r + 2^k - 1, for every rank count |
| TreeReduce.ReducesInRankOrder | include/utils/comm.hpp:672-699 | rank 0 ends with the fold of all data in rank order, for any associative combine, commutative or not |
| TreeReduce.Matched | include/utils/comm.hpp:679-688 | i waits for j exactly when j sends to i, in the same round; so n - 1 messages, all received |
| TreeReduce.SourcesAscend | include/utils/comm.hpp:683-688 | a rank receives from nearer ranks first and from none twice |
| TreeReduce.RoundsUnique | include/utils/comm.hpp:675-694 | the number of rounds is ceil(log2 n) |
| TreeReduce.TreeReduce | include/utils/comm.hpp:671-710 | the loop on rk, num and depth sends at most one message, to the right rank with the right value, receives from exactly the ranks expected, and yields the total at rank 0 and at the requested rank only |
| TreeRun.StepInv | include/utils/comm.hpp:675-694 | every turn of any rank keeps: each rank holds the fold of its round, each message waits until the round in which its receiver takes it |
| TreeRun.WaitsForHigher | include/utils/comm.hpp:684-688 | a rank that cannot go on waits for a higher rank still in its loop, so nobody waits forever |
| TreeRun.StuckIsFinished | include/utils/comm.hpp:671-710 | no deadlock: when nothing can happen every rank has returned and no message is left |
| TreeRun.EveryRankReturns | include/utils/comm.hpp:671-710 | all ranks together, at any relative speed: runs are finite, n - 1 messages go up the tree and one more to a target other than rank 0, all are received, and rank 0 and the target get the fold of all data in rank order |
| Redistribute.RingMatched | include/utils/comm.hpp:544-549 | in each step of the ring the rank one receives from sends to oneself |
| Redistribute.RingOrder | include/utils/comm.hpp:544-549 | starting from itself a rank receives from the next rank up in each step and sends to the next one down |
| Redistribute.Bcastring | include/utils/comm.hpp:539-551 | the function is handed, once per rank and starting with the own, what each rank's data becomes on its way here; fails exactly when some of it does not arrive |
| Redistribute.Alltoall | include/utils/comm.hpp:580-595 | for every rank count, what arrives of sender f's list ends in slot (2r - f) mod n, and all slots together are what arrives; fails exactly when a list does not arrive |
| Redistribute.HInGrid | include/load/scheduler.hpp:86-92 | a triple's rank lies in the grid; its grid row depends on the row id only and its grid column on the column id only |
| Redistribute.LinesOrganize | include/load/scheduler.hpp:156-201 | slot k holds exactly the triples that hash to rank k, in their order |
| Redistribute.PlacedInOrder | include/load/scheduler.hpp:161-200 | every triple is put at the end of the list of the rank it hashes to and of no other, behind those before it |
| Redistribute.Exchange | include/load/scheduler.hpp:214-224 | a rank ends with exactly what arrives of the lists all ranks had for it, its own untouched, slot after slot |
| Placement.ExchangeExactly | include/load/scheduler.hpp:214-224 | over all ranks the exchange loses, changes and invents nothing (up to the printing of values) if and only if every list that crosses ranks has clean ids and no packed triple with the outer separator; then each rank has exactly its share |
| Placement.RedistributesExactly | include/load/scheduler.hpp:156-224 | hashing and exchanging leave everything intact and every triple on the rank it hashes to if and only if every crossing list is so |
| Placement.InPlace | include/load/scheduler.hpp:156-224 | when values survive printing and crossing lists are sendable, a rank holds each triple that hashes to it as often as it occurred anywhere, and no other |
| Placement.ExchangeConserves | include/load/scheduler.hpp:214-224 | when values survive printing, the triples over all ranks are the same multiset as before if and only if every crossing list is sendable |
| Placement.CutIdGoesAstray | include/load/scheduler.hpp:214-224 | two ranks and one triple with row id u_ps: it arrives as (u, ps_v), on a rank that it does not hash to |
| Redistribute.NpFact2d | include/utils/decomp.hpp:33-56 | the grid has np places and its short side is the largest divisor of np up to its root; if that is 1, a single column or row |
| Redistribute.DimInit | src/scheduler.cpp:25-34 | for every pattern the grid has as many places as ranks: fsmap has the largest divisor up to the root as its rows (all ranks in one column if that is 1), smap a single row, every other pattern a single column |
| IndexMapping.LessMeans | include/paracel_types.hpp:207-208 | the order of the id set is the lexicographic order of strings: one id precedes another if and only if it is a proper beginning of it or has the smaller character at the first difference |
| IndexMapping.TableAscends | include/load/scheduler.hpp:259-270 | of any two ids the one with the smaller index is a proper beginning of the other, or has the smaller character at the first place where they differ |
| IndexMapping.SortedUnique | include/load/scheduler.hpp:243-256 | ordered sets with the same ids list them alike |
| IndexMapping.CollectIds | include/load/scheduler.hpp:243-256 | a rank collects the sorted set of the ids that arrive from its group and its own; fails exactly when a list does not arrive |
| IndexMapping.HandedWhole | include/utils/comm.hpp:540-551 | a rank is handed the id lists of its group unchanged if and only if in every other rank's list all ids but the last are clean and the last does not contain the separator |
| IndexMapping.AgreementExactly | include/load/scheduler.hpp:243-256 | every rank of every group over a set of ids collects exactly the group's ids, in whatever order and number, if and only if each of these ids is clean for the string-list format |
| IndexMapping.RanksDisagree | include/load/scheduler.hpp:226-282 | two ranks of a row group, one holding an unclean row id twice: they do not end with the same row ids |
| IndexMapping.UnreliableId | include/paracel_types.hpp:46 | a_PARACEL is such an id |
| IndexMapping.NumberIds | include/load/scheduler.hpp:257-270 | the numbering is the dense table, in ascending order, of exactly the ids the rank sees, and the inverse map finds every id the rank holds |
| IndexMapping.TableIsUnique | include/load/scheduler.hpp:259-270 | ranks that see the same ids number them alike |
| IndexMapping.SeesItsGroup | include/load/scheduler.hpp:226-282 | a rank whose group sends it lists that come back whole does not fail and sees exactly its group's ids |
| IndexMapping.IndexMapping | include/load/scheduler.hpp:226-282 | fails exactly when an id list does not arrive; otherwise both tables are dense tables of the ids seen, and whatever the wire did to others' ids the rank's remapped triples translate back to the originals in order |
| IndexMapping.GroupsAreDisjoint | include/load/scheduler.hpp:81-92 | with triples placed by hash, an id's hash tells its group, so no id belongs to two row groups or two column groups |
| IndexMapping.TablesDisjoint | include/load/scheduler.hpp:226-282 | tables of different row (column) groups share no id when triples are in place |
| IndexMapping.SameTableOrDisjoint | include/load/scheduler.hpp:226-282 | with triples in place and id lists that come back whole, two ranks in the same grid row (column) have the same row (column) table, two others share no row (column) id |
| IndexMapping.WholePath | include/load/scheduler.hpp:156-282 | hashing, exchanging and mapping together, on ids clean for both formats: no rank fails, and any two ranks have equal or disjoint tables as their grid places say |
| Words.SplitJoin | include/utils/ext_utility.hpp:62-68 | splitting text + separator + more text is splitting the two parts, when the text does not end in a separator character |
| Words.FirstPiece | include/utils/ext_utility.hpp:62-68 | reading up to the first separator gives a word back whole if it is clean, and a shorter text otherwise |
| Words.CleanMeans | include/utils/comm.hpp:461-463 | a word is read back whole exactly when it contains no separator and does not end in all of it but the last character |
| Words.JoinSplit | include/utils/ext_utility.hpp:62-68 | the pieces of a text joined by the separator are the text |
| Words.SplitByWordDrops | include/utils/ext_utility.hpp:62-68 | str_split_by_word loses at most one trailing separator |
| Codec.PackRoundTrip | include/utils/comm.hpp:306-312 | one packed triple reads back, up to the printing of its value, if and only if both ids are clean |
| Codec.PackedReads | include/utils/comm.hpp:461-463 | an unclean triple that can be read at all comes back with a shorter row id, or with its row id and a shorter column id |
| Codec.FirstThreeParts | include/utils/comm.hpp:460-464 | a piece is read by its first three parts, row id, column id and value, whatever follows |
| Codec.Send | include/utils/comm.hpp:299-330 | the appending loop sends nothing for an empty list, one triple with a trailing separator, or the triples with a separator between any two |
| Codec.Receive | include/utils/comm.hpp:450-467 | the resizing and overwriting loop yields the decoded list, and fails exactly when there are more pieces than places or a piece cannot be read |
| Codec.EncodedPieces | include/utils/comm.hpp:315-325 | for lists of every length, dropping one trailing empty piece leaves the pieces of the packed triples, one after another |
| Codec.SendRecv | include/utils/comm.hpp:503-508 | sending and receiving a list of triples transfers it as the two formats say |
| Codec.ArrivesPointwise | include/utils/comm.hpp:450-467 | a list that arrives was not cut, and each of its triples is what its own packed text reads as |
| Codec.RoundTripsExactly | include/utils/comm.hpp:298-467 | a list of any length comes back, up to the printing of its values, if and only if every id is clean and no packed triple contains the outer separator |
| Codec.ShortenedId | include/utils/comm.hpp:298-467 | the one-triple list with row id u_ps and column id v arrives as (u, ps_v) |
| Codec.SendStrings | include/utils/comm.hpp:364-385 | a list of strings is sent with a separator between any two |
| Codec.ReceiveStrings | include/utils/comm.hpp:486-501 | the resizing and overwriting loop yields the decoded list, and fails exactly when there are more pieces than places |
| Codec.StringsRoundTripExactly | include/utils/comm.hpp:364-501 | a list of strings comes back if and only if every string but the last is clean and the last does not contain the separator; empty strings survive |
| Graph.UndirectedGraph.AddEdge | include/graph.hpp:74-79 | afterwards both directions have the given weight and every other pair is an edge exactly when it was, with its weight; counts the edge and the vertices |
| Graph.UndirectedGraph.FromTuples | include/graph.hpp:57-72 | the graph is symmetric and has exactly the listed edges, all of weight 1 |
| Graph.ReachesSymmetric | include/graph.hpp:74-79 | in a graph built this way reachability is symmetric |
| Graph.Dfs.Visit | include/graph.hpp:629-638 | terminates, marks only what it reaches, and leaves no neighbour of a newly marked vertex unmarked; the handler is called once per new vertex |
| Graph.Dfs.constructor | include/graph.hpp:622-624 | marks exactly the vertices the source reaches and calls the handler once for each |
| Graph.NoShorterWalk | include/graph.hpp:665-680 | once every marked vertex is processed no walk is shorter than the recorded distance |
| Graph.ShortestPaths | include/graph.hpp:659-681 | a finished search tree marks exactly what the source reaches, with shortest distances |
| Graph.TreeWalk | include/graph.hpp:676-677 | following edge_to from a marked vertex gives a walk from the source of exactly dist_to steps |
| Graph.Bfs.Scan | include/graph.hpp:666-679 | processing one vertex keeps the tree, the ordered frontier of the queue and the one call per vertex |
| Graph.Bfs.constructor | include/graph.hpp:659-681 | marks exactly what the source reaches, dist_to is the length of a shortest walk and edge_to leads back along one; the handler is called once per vertex |
| Graph.ComponentAdded | include/graph.hpp:699-704 | labelling what one search marks with a new id keeps ids shared exactly within components |
| Graph.ConnectedComponents.constructor | include/graph.hpp:693-705 | two vertices get the same id if and only if a path joins them; the ids are 0 to count - 1, all used, so count is the number of components |
| Graph.ConnectedComponents.Id | include/graph.hpp:713-718 | -1 exactly for a vertex the graph does not have; otherwise the vertices with the answered id are exactly those a path joins to the vertex asked for |
| MaxVertex.PushedIsUnique | alg/max_vertex_value/max_vertex_value.hpp:75-89 | the server after a superstep's pushes does not depend on their order |
| MaxVertex.MaxVertexValue.Publish | alg/max_vertex_value/max_vertex_value.hpp:64-69 | publishing every value establishes the invariant |
| MaxVertex.MaxVertexValue.Push | alg/max_vertex_value/max_vertex_value.hpp:75-89 | raises the server exactly to what active vertices send |
| MaxVertex.SuperstepInv | alg/max_vertex_value/max_vertex_value.hpp:72-103 | a superstep keeps: local values mirror the server, every value started at a vertex that reaches it, an inactive vertex has nothing left to send; and no value falls |
| MaxVertex.RisesShrink | alg/max_vertex_value/max_vertex_value.hpp:92-108 | a superstep after which some vertex is active uses up one of finitely many possible rises |
| MaxVertex.ValuesGrowAlongWalks | alg/max_vertex_value/max_vertex_value.hpp:106-108 | at the halt values do not fall along walks |
| MaxVertex.HaltedIsMax | alg/max_vertex_value/max_vertex_value.hpp:106-108 | at the halt each tracked vertex holds the largest starting value of the tracked vertices that reach it |
| MaxVertex.MaxVertexValue.Superstep | alg/max_vertex_value/max_vertex_value.hpp:72-109 | all workers vote to halt exactly when no vertex was active, and then none becomes active |
| MaxVertex.MaxVertexValue.Solve | alg/max_vertex_value/max_vertex_value.hpp:61-112 | terminates on every finite graph and split of vertices over workers, with the reaching maximum at every tracked vertex |
| Lda.Reassign | tool/gLDA_serial.cpp:255-264 | giving a word another topic moves one unit in every recount |
| Lda.RanMultinomial | tool/gLDA_serial.cpp:270-280 | picks the topic where the draw lands when [0, 1) is divided in proportion to the weights; always in range |
| Lda.WeightsAre | tool/gLDA_serial.cpp:289-292 | for any word in the place of a token: its weight for topic k times the two totals is the product of the two counts over the other tokens, each count and total with its prior |
| Lda.TopicMarginal | tool/gLDA_serial.cpp:289-292 | over all words of the dictionary a topic weighs n_dk + alpha out of n_d + K alpha |
| Lda.WeightsSumToOne | tool/gLDA_serial.cpp:289-292 | over all topics and all words the weights sum to 1: they are a probability |
| Lda.LdaModel.ParaInit | tool/gLDA_serial.cpp:185-222 | every word gets its drawn topic, in range, and the four arrays equal a recount |
| Lda.LdaModel.Add | tool/gLDA_serial.cpp:255-260 | changes exactly one entry of each array, by num |
| Lda.LdaModel.WeightsRecounted | tool/gLDA_serial.cpp:289-292 | weights computed from the counters are the conditional weights recounted over all other words: without division, the weight of topic k times (n_d + K alpha)(n_k + V beta) is (n_dk + alpha)(n_kw + beta) |
| Lda.LdaModel.Resample | tool/gLDA_serial.cpp:287-296 | taking a word out, drawing and putting it back is one Gibbs step on the recount, and keeps the counters equal to a recount |
| Lda.LdaModel.SingleIter | tool/gLDA_serial.cpp:282-299 | a sweep with incremental counters takes, word by word, exactly the steps a sampler that recounts everything would, and the counters still equal a recount |
| Lda.EachWordOnce | tool/gLDA_serial.cpp:282-299 | in a sweep every word of every document is drawn once, with its own random number, when the words before it have their new topics and those after it still their old ones |
| Lda.AgreementConserves | tool/gLDA_serial.cpp:255-264 | whenever the counters agree with a recount they are non-negative and both sum arrays add up to the corpus size |
| Lasso.RoundKeeps | tool/lasso_serial.cpp:46-67 | a round keeps Z the product of the signed columns with W and keeps W non-negative |
| Lasso.RoundsKeep | tool/lasso_serial.cpp:45-68 | so does any list of coordinate choices |
| Lasso.TranslatedPredicts | tool/lasso_serial.cpp:70-75 | the translated weights on the original columns reproduce Z exactly |
| Lasso.RoundDescends | tool/lasso_serial.cpp:51-66 | on columns of squared norm at most the sample count no round increases the lasso objective |
| Lasso.RoundMinimises | tool/lasso_serial.cpp:51-66 | for any column: a round sets the chosen weight to the one non-negative value that minimises the quadratic model of the objective (an upper bound of it on columns of squared norm at most the sample count), and moves the predictions by just that |
| Lasso.RoundIsExact | tool/lasso_serial.cpp:51-66 | on a column whose squared norm is the sample count, a round is the exact coordinate minimiser: every other non-negative value of the weight gives a larger objective |
| Lasso.RoundsCompose | tool/lasso_serial.cpp:45-68 | the choices are worked off one after another, from the first to the last |
| Lasso.ImplicitLasso.Learning | tool/lasso_serial.cpp:45-68 | negating on the fly and skipping zero entries performs exactly the rounds of the doubled matrix, one per choice and in order |
| Lasso.ImplicitLasso.Translating | tool/lasso_serial.cpp:70-75 | one signed weight per column, reproducing Z |
| Lasso.RigidLasso.constructor | tool/lasso_serial_rigid.cpp:95-119 | the loader materialises the negated columns after the original ones |
| Lasso.RigidLasso.Learning | tool/lasso_serial_rigid.cpp:45-63 | performs the rounds of the materialised matrix |
| Lasso.SameRun | tool/lasso_serial_rigid.cpp:45-119 | on the same data and choices both programs compute the same W and Z, with W non-negative and Z reproduced by the translated weights |
| WordCount.NormalLearning | alg/word_count/wc.hpp:69-78 | in any order of arrival the server ends with the number of occurrences of each word |
| WordCount.CountWords | alg/word_count/wc.hpp:80-91 | the combining loop counts exactly the worker's words |
| WordCount.CombinedLearning | alg/word_count/wc.hpp:80-97 | one update per distinct word and worker, in any order, gives the same counts |
| WordCount.LocalUpdate2 | alg/word_count/update.cpp:36-48 | the merged table has the words of both and the sum of their counts |
| WordCount.Bucketed | alg/word_count/wc.hpp:111-117 | bucket k holds the counts of exactly the words that hash to it |
| WordCount.SendBuckets | alg/word_count/wc.hpp:119-124 | in any order of arrival, each bucket on the server ends with the counts of its words over all workers |
| WordCount.Collect | include/ps.hpp:570-579 | the bounded heap ends with min(k, n) entries, and nothing left out counts more than anything kept |
| WordCount.TopK | include/ps.hpp:562-586 | the answer is such a selection in descending order, each entry once |
| WordCount.OptimizedLearning | alg/word_count/wc.hpp:99-153 | from word lists to the top k, the bucketed program counts as the one-update-per-occurrence program does |
| WordCount.CountsUnique | alg/word_count/wc.hpp:69-153 | so the three programs leave the same table |

## Left out

- ZeroMQ, MPI, msgpack, dlopen, thread start-up and the launch scripts: not part of this model. Messages between two ranks arrive in order, and a server handles one request at a time.
- Clock.BoundedLead: in the step system each worker reads between its commits, which is the use the clock is made for; a worker that never reads is held back by nothing. 
- Clock.Worker.IterCommit: the step system splits a last commit into its two messages (`Commit`, `Leave`), since other workers may act in between; the clock keys are a datatype instead of strings.
- Clock.Worker.ReadGate: what a gated read returns from the server or the cache is not modelled, only whether and when it gets through.
- Store.ParamServers.ReadMulti: the staleness switch is off, as are the return flags of writes and updates; update functions are arbitrary functions of two values.
- WordCount.CombinedLearning: its update names no update function, so the server's default is used; it is modelled as addition.
- WordCount.SendBuckets: the server is modelled by the entries with the prefix `key_`, which is what the filter lets through; the splitting of lines into words is not modelled. A negative k acts as k = 0.
- Redistribute.LinesOrganize: the parsing of lines into fields and the rejection of unsupported formats are not modelled; it starts from triples.
- Redistribute.NpFact2d: the truncated floating-point square root is the integer square root.
- Codec.RoundTripsExactly: printed values are required to end in a digit, hold no underscore and be readable; the rounding done by printing stays a parameter, and std::to_string of infinities and NaN is excluded by that. The compact-triple and builtin-type message formats are not modelled.
- TreeReduce.TreeReduce: the messages of a reduction, here and in `TreeRun`, arrive as they were sent, which holds for numbers and number lists; a reduction of string or triple lists is subject to the conditions of `Codec`.
- HashRing.Ring.AddServer: two servers whose points collide are excluded, as in the properties promised for the ring; hashes are an arbitrary function.
- Loader.Partition.FilesPartition: files are their contents; file names, directory expansion and open errors are not modelled, nor the single-file variant kept for tests.
- Lda.LdaModel.SingleIter: arithmetic over the reals, positive alpha and beta, draws in [0, 1); theta, phi and the likelihood are not modelled.
- Lasso.RoundDescends: needs columns scaled as stated, which the programs do not check; `RoundIsExact` needs the squared norm to be the sample count; the other lasso results need nothing. The parsing of samples and the random choice of coordinates are parameters.
- Graph.ConnectedComponents.Id: `is_connected` in the same class calls a table as a function and is not modelled; nor are directed and bipartite graph classes, degrees, traversal and serialisation.
- IndexMapping.IndexMapping: the overload for compact triples, which narrows 64-bit ids, is not modelled.
- The Pregel vertex class, logistic regression, matrix factorisation, k-means, spectral clustering, SVD and PageRank: numerical convergence, or easy members only.
- Base-62 URLs, the tail buffer, file dumping and the Mesos scripts: they would only add easy members.
