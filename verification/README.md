# Verified models of the study collection

A Dafny 4.11 project that models the algorithms and protocols of a C/C++ study
collection and proves what they promise. `dafny verify dfyconfig.toml` checks
all of it.

## What is modelled

**Search tree.** The red-black tree over real node objects (`RedBlackTree`): insertion,
deletion with its fixup, rotations, search. A method is told, by ghost parameters, where in
the tree it works - a path to the root and the subtree below - and its contract says what
tree the objects form afterwards. `RedBlackShape` holds the theory of such trees and paths,
`RedBlackHeap` the link between pointer writes and trees.

**Graphs.** Prim and Kruskal with union-find (`MinSpanTree`, `Kruskal`, `UnionFind`, over the
theory in `SpanningTrees`), Dijkstra and Floyd (`ShortestPath`, `Floyd`, over `Walks`),
breadth- and depth-first traversal of a matrix (`Traverse`) and of adjacency lists
(`TableTraverse`), Kahn's topological sort. The programs fix the matrix and its size; the
models take both as parameters, so that 5, 6 and "5 edges" become n and n - 1.

**Concurrent protocols.** The event loop with its eventfd wakeups (`EventLoop`), the C++11
thread pool (`ThreadPool`), the dynamic thread pool of the UDP server (`UdpThreadPool`), the
two-queue MP4 writer (`VideoOutMp4`) and the token bucket with its channel reader
(`TokenBucket`) are state machines with a program counter per thread. A region under a mutex
is one step; every access outside a mutex to what threads share is a step of its own.
Theorems are about every state of every run. Kernel results - what poll reports, how many
bytes a call takes, when a sleeper wakes - are free choices of a step. Beside each machine
stands the code: a class with the source's fields whose methods are proved to perform its
steps, and whole pieces of code (the MP4 writer's thread, the pool's destructor, the manager's
round and the exit loop of the UDP pool, the turn of the event loop) run against any moves of
the others between any two of their own.

**Timers, buffers, registrations, sorts.** The timer heap with its id-to-position map
(`HeapTimer`), the byte buffer (`Buffer`), the connection's output side (`TcpConnection`), the
poller (`EpollPoller`), and merge, quick and heap sort in place on arrays.

## What the code does not promise

Some properties one would expect turned out false of the code. The models keep the code as it
is; a lemma or method gives an input or run that fails, and a theorem the exact condition:

- `TcpConnection`: `isWriting` compares with the whole event mask, and an established
  connection also reads. So `handleWrite` never writes in any run: what a first write does not
  take is never sent (`FullSocketStrands`, `FullSocketRun`; exactly `DeliveredIffWhole`), and
  the half-close does not wait for it (`HalfCloseAtOnce`).
- `VideoOutMp4`: the loop condition is first evaluated without a lock, queue before flag. If
  both queues are seen empty before the first push and both flags after they are set, the loop
  is skipped (`FirstTestCanSkip`); once entered, it writes everything (`CompleteAtExit`).
- `EventLoop`: functors that the loop thread queues before `loop()` bring no wakeup along, so
  the loop blocks in poll for its timeout although there is work (`QueuedBeforeLoop`;
  `NoLostWakeup` states the exact condition on the entry state). A quit request made before
  `loop()` is entered is lost (`QuitBeforeLoop`; exactly `QuitStands`).
- `ThreadPool`: with no workers at all, joining proves nothing about the tasks
  (`NoWorkersNoWork`; exactly `JoinedMeansRun`).
- `TokenBucket`: `open_next` leaves the read offset as it is, so each later song is read from
  where the total so far points (`SecondSongSilent`; exactly `DeliversIffLonger`).
- `GraphTable`: the neighbour loop over a list with a repeated entry never ends
  (`EnumerationEnds`).
- `EpollPoller`: `disableAll` on a channel that is not registered registers it, with an empty
  mask, so that calls in a row alternate (`DisableAllTimes`, `DisableAllAlternates`).
- `HeapTimer`: `tick` also calls timers that expire within the next millisecond, because the
  remaining time is truncated to milliseconds (`CalledEarly`; exactly `NeverEarlyIff`, reading
  by reading, and `StillClock` when the clock stands still during the calls).
- `MinSpanTree`: a link of 9999 or more is never chosen, so on a connected graph that needs one
  some parent is never set (`HeavyLink`; exactly `PrimParents`).

## Reading notes

- A run is a sequence of states in which each step follows by `Next`; `Execution` also fixes
  the first state.
- Histories (`queued`, `executed`, `written`, `log`, `delivered`, ...) are fields that no
  guard reads.
- `numBusy > numLive*0.8` of the UDP pool is written `5 * busy > 4 * live`, which is the same
  for every int, rounding included.
- Graph results use closed sets for connectedness and reachability; `ConnectedIffWalkable` and
  `ReachesIffPath` tie them to walks.
- Some methods of the tree, the graphs and the sorts cut one method of the source into parts
  (one branch, one round, one exchange), so that each part has a contract of its own.

## Model

| member | source | states |
|---|---|---|
| `RedBlackTree.RedBlackTree.constructor` | kinglyWay/kinglyWay-dataStructure/6_section_7/4_redBlackTree.cpp:176-180 | an empty valid tree whose root is the black sentinel |
| `RedBlackTree.RedBlackTree.Insert` | kinglyWay/kinglyWay-dataStructure/6_section_7/4_redBlackTree.cpp:183-206 | keeps every invariant (order, black root, no red-red, equal black heights, parent links, node set) and adds exactly one occurrence of the value to the in-order keys |
| `RedBlackTree.RedBlackTree.Remove` | kinglyWay/kinglyWay-dataStructure/6_section_7/4_redBlackTree.cpp:209-248 | keeps every invariant; takes exactly one occurrence out of the in-order keys when the value is present, and otherwise changes no field of any node |
| `RedBlackTree.RedBlackTree.Search` | kinglyWay/kinglyWay-dataStructure/6_section_7/4_redBlackTree.cpp:263-271 | answers membership in the keys both ways, after `steps` comparisons with 2^steps <= (n+1)^2 for n keys |
| `RedBlackTree.RedBlackTree.InsertFixup` | kinglyWay/kinglyWay-dataStructure/6_section_7/4_redBlackTree.cpp:59-99 | terminates and turns the tree with one red node hung under a red one, wherever it is, into a red-black tree with the same in-order contents |
| `RedBlackTree.RedBlackTree.DeleteFixup` | kinglyWay/kinglyWay-dataStructure/6_section_7/4_redBlackTree.cpp:102-159 | terminates and turns a tree that is one black node short on one path into a red-black tree with the same in-order contents |
| `RedBlackTree.RedBlackTree.LeftRotateAt` | kinglyWay/kinglyWay-dataStructure/6_section_7/4_redBlackTree.cpp:21-37 | in any place of any linked tree: the objects now form the rotated tree, all parent links included |
| `RedBlackTree.RedBlackTree.RightRotateAt` | kinglyWay/kinglyWay-dataStructure/6_section_7/4_redBlackTree.cpp:40-56 | the mirror image of the left rotation |
| `RedBlackTree.RedBlackTree.Transplant` | kinglyWay/kinglyWay-dataStructure/6_section_7/4_redBlackTree.cpp:251-260 | the whole effect on the object graph: one link of the parent (or the root) and one parent link |
| `RedBlackTree.RedBlackTree.Minimum` | kinglyWay/kinglyWay-dataStructure/6_section_7/4_redBlackTree.cpp:162-165 | finds the leftmost node of a subtree, whose key comes first in order, with the path that leads to it |
| `RedBlackTree.RedBlackTree.FindNode` | kinglyWay/kinglyWay-dataStructure/6_section_7/4_redBlackTree.cpp:210-216 | finds a node with the value exactly when there is one |
| `RedBlackShape.KeysAsBag` | kinglyWay/kinglyWay-dataStructure/6_section_7/4_redBlackTree.cpp:183-248 | an insertion adds one to the multiplicity of the value and nothing else; a removal takes one away |
| `RedBlackShape.PathLength` | kinglyWay/kinglyWay-dataStructure/6_section_7/4_redBlackTree.cpp:263-271 | following a path into a red-black tree of n keys takes at most 2*log2(n+1) comparisons |
| `RedBlackShape.PlugBalanced` | kinglyWay/kinglyWay-dataStructure/6_section_7/4_redBlackTree.cpp:102-159 | a tree is balanced exactly when the subtree in focus is and the path around it fits its black height |
| `RedBlackShape.LeftRotationKeys` | kinglyWay/kinglyWay-dataStructure/6_section_7/4_redBlackTree.cpp:21-37 | a rotation keeps keys and nodes in their in-order sequence |
| `RedBlackShape.SiblingPaysLeftDone` | kinglyWay/kinglyWay-dataStructure/6_section_7/4_redBlackTree.cpp:118-130 | case 4 of the deletion fixup pays the missing black node back for good |
| `RedBlackShape.SiblingTurnedLeftShort` | kinglyWay/kinglyWay-dataStructure/6_section_7/4_redBlackTree.cpp:118-124 | case 3 leaves the tree one black node short in the same place, with a red outer child |
| `RedBlackShape.SiblingUpLeftShort` | kinglyWay/kinglyWay-dataStructure/6_section_7/4_redBlackTree.cpp:106-112 | case 1 leaves the tree one black node short in the same place, with a black sibling |
| `RedBlackShape.SiblingReddenedShort` | kinglyWay/kinglyWay-dataStructure/6_section_7/4_redBlackTree.cpp:113-116 | case 2 moves the shortage one level up |
| `RedBlackHeap.LeftRotateView` | kinglyWay/kinglyWay-dataStructure/6_section_7/4_redBlackTree.cpp:21-37 | the pointer writes of a left rotation realise the rotated tree for every path and subtree |
| `RedBlackHeap.SpliceView` | kinglyWay/kinglyWay-dataStructure/6_section_7/4_redBlackTree.cpp:251-260 | a transplant realises the tree in which the child has taken the place of its parent |
| `RedBlackHeap.ReplaceView` | kinglyWay/kinglyWay-dataStructure/6_section_7/4_redBlackTree.cpp:229-243 | a detached node takes over place, both subtrees and colour of another |
| `RedBlackHeap.BelowView` | kinglyWay/kinglyWay-dataStructure/6_section_7/4_redBlackTree.cpp:229-243 | the successor that is the right child itself takes over place, left subtree and colour, and its own child hangs below it |
| `GraphMatrix.GraphMatrix.FirstNeighbor` | kinglyWay/kinglyWay-dataStructure/5_section_6/2_traverse.cpp:25-38 | the first nonzero entry of a row, -1 exactly when there is none or the node does not exist |
| `GraphMatrix.GraphMatrix.NextNeighbor` | kinglyWay/kinglyWay-dataStructure/5_section_6/2_traverse.cpp:40-50 | the next nonzero entry of a row after a given one, -1 exactly when there is none or a node does not exist |
| `SpanningTrees.ConnectedIffWalkable` | kinglyWay/kinglyWay-dataStructure/5_section_6/3_minSpanTree.cpp:152-187 | being in every closed set around a node is the same as being reached by a walk |
| `SpanningTrees.Exchange` | kinglyWay/kinglyWay-dataStructure/5_section_6/3_minSpanTree.cpp:79-102 | the cut property: any spanning forest around the chosen links can be changed to contain a lightest link leaving a closed set, without getting heavier |
| `SpanningTrees.PromisingGrows` | kinglyWay/kinglyWay-dataStructure/5_section_6/3_minSpanTree.cpp:79-102 | adding a lightest crossing link keeps the chosen set part of a minimum spanning forest |
| `SpanningTrees.PromisingForest` | kinglyWay/kinglyWay-dataStructure/5_section_6/3_minSpanTree.cpp:172-186 | a choice that is part of a minimum spanning forest and connects what the graph connects is one |
| `SpanningTrees.SameMinimum` | kinglyWay/kinglyWay-dataStructure/5_section_6/3_minSpanTree.cpp:105-113 | two minimum spanning trees weigh the same |
| `MinSpanTree.PrimParents` | kinglyWay/kinglyWay-dataStructure/5_section_6/3_minSpanTree.cpp:62-102 | on any undirected graph: a parent is set exactly for the nodes that links lighter than 9999 reach from node 0, and the links to parents are part of a minimum spanning forest; all parents are set if and only if those lighter links connect the graph, and then they are a minimum spanning tree |
| `MinSpanTree.Prim` | kinglyWay/kinglyWay-dataStructure/5_section_6/3_minSpanTree.cpp:62-114 | if links lighter than 9999 connect the graph, whatever the others weigh: the parent array is a minimum spanning tree rooted at node 0, and the total printed is its weight |
| `MinSpanTree.PrimRound` | kinglyWay/kinglyWay-dataStructure/5_section_6/3_minSpanTree.cpp:79-102 | on any undirected graph one round keeps: the tree nodes hang together promisingly and every other node knows its lightest link to them, below 9999 |
| `MinSpanTree.HeavyLink` | kinglyWay/kinglyWay-dataStructure/5_section_6/3_minSpanTree.cpp:69-87 | a connected graph whose links lighter than 9999 do not connect it |
| `UnionFind.UnionFind.constructor` | kinglyWay/kinglyWay-dataStructure/5_section_6/3_minSpanTree.cpp:131-134 | every node is its own class |
| `UnionFind.UnionFind.Find` | kinglyWay/kinglyWay-dataStructure/5_section_6/3_minSpanTree.cpp:136-140 | terminates, answers the representative, points the node straight at it and leaves every class as it was |
| `UnionFind.UnionFind.Unite` | kinglyWay/kinglyWay-dataStructure/5_section_6/3_minSpanTree.cpp:142-147 | merges the classes of its two arguments and no others |
| `UnionFind.Compressed` | kinglyWay/kinglyWay-dataStructure/5_section_6/3_minSpanTree.cpp:136-140 | pointing a node at its representative keeps the forest and all representatives |
| `UnionFind.Joined` | kinglyWay/kinglyWay-dataStructure/5_section_6/3_minSpanTree.cpp:142-147 | hanging one root under another keeps the forest, with the two classes merged |
| `Kruskal.CollectEdges` | kinglyWay/kinglyWay-dataStructure/5_section_6/3_minSpanTree.cpp:153-163 | every link of the graph is collected, with its weight, and nothing else |
| `Kruskal.ClassesMerge` | kinglyWay/kinglyWay-dataStructure/5_section_6/3_minSpanTree.cpp:172-179 | after an edge is chosen the union-find classes are again the connected components of the chosen edges |
| `Kruskal.RunningStep` | kinglyWay/kinglyWay-dataStructure/5_section_6/3_minSpanTree.cpp:172-179 | each round keeps: classes = components of the chosen edges, chosen edges part of a minimum spanning forest, total = their weight |
| `Kruskal.ChosenComponents` | kinglyWay/kinglyWay-dataStructure/5_section_6/3_minSpanTree.cpp:172-179 | on any graph the chosen edges connect in the end what the graph connects |
| `Kruskal.Kruskal` | kinglyWay/kinglyWay-dataStructure/5_section_6/3_minSpanTree.cpp:152-187 | on any graph: distinct edges that are a minimum spanning forest, total = their weight; a minimum spanning tree of n-1 edges when the graph is connected |
| `Kruskal.BothTotals` | kinglyWay/kinglyWay-dataStructure/5_section_6/3_minSpanTree.cpp:62-187 | the totals that the two programs print are equal, namely the minimum, on every graph that links lighter than 9999 connect |
| `ShortestPath.Dijkstra` | kinglyWay/kinglyWay-dataStructure/5_section_6/4_shortestPath.cpp:61-91 | each entry is the length of a shortest walk from node 0, or 999999 when no walk is shorter than that |
| `ShortestPath.Nearest` | kinglyWay/kinglyWay-dataStructure/5_section_6/4_shortestPath.cpp:72-83 | the unvisited node with the least estimate is final |
| `Floyd.Floyd` | kinglyWay/kinglyWay-dataStructure/5_section_6/4_shortestPath.cpp:102-127 | each entry, taken as 999999 when it is more, is the length of a shortest walk between its two nodes, or 999999 when no walk is shorter than that; with no single weight above 999999 the entry itself is |
| `Floyd.ImprovedDistance` | kinglyWay/kinglyWay-dataStructure/5_section_6/4_shortestPath.cpp:118-126 | the relaxation over k turns distances through nodes below k into distances through nodes up to k |
| `Floyd.PivotUnchanged` | kinglyWay/kinglyWay-dataStructure/5_section_6/4_shortestPath.cpp:118-126 | updating in place is harmless: row and column k do not change in round k |
| `Floyd.BothDistances` | kinglyWay/kinglyWay-dataStructure/5_section_6/4_shortestPath.cpp:61-127 | row 0 of Floyd, taken as 999999 where it is more, is the result of Dijkstra; with no single weight above 999999 row 0 itself is |
| `Walks.InfMeansUnreachable` | kinglyWay/kinglyWay-dataStructure/5_section_6/4_shortestPath.cpp:61-91 | with weights small against 999999, that value stands exactly for "unreachable" |
| `Walks.DistanceUnique` | kinglyWay/kinglyWay-dataStructure/5_section_6/4_shortestPath.cpp:61-127 | there is only one right answer |
| `Traverse.ReachesIffPath` | kinglyWay/kinglyWay-dataStructure/5_section_6/2_traverse.cpp:67-111 | the closed-set notion of reachability along unmarked nodes is the existence of a path |
| `Traverse.Traversal.BFS` | kinglyWay/kinglyWay-dataStructure/5_section_6/2_traverse.cpp:67-85 | terminates; prints and marks, each once, exactly the nodes reachable from the start along unmarked nodes, in the order of their distance from it; each node printed is the first unmarked successor, by number, of the earliest printed node that has one |
| `Traverse.Traversal.DFS` | kinglyWay/kinglyWay-dataStructure/5_section_6/2_traverse.cpp:101-111 | terminates; prints and marks, each once, exactly the nodes reachable from the start along unmarked nodes; as long as a printed node has another successor to come, what is printed next succeeds it or a node printed after it; each node printed is the first unmarked successor, by number, of the latest printed node that has one |
| `Traverse.LabelledWithin` | kinglyWay/kinglyWay-dataStructure/5_section_6/2_traverse.cpp:67-85 | when the queue has run empty no path to a node is shorter than the level at which it was printed |
| `Traverse.DepthFirstJoin` | kinglyWay/kinglyWay-dataStructure/5_section_6/2_traverse.cpp:101-111 | the order printed by the call for a successor continues the depth-first order of the caller |
| `Traverse.DepthOrderJoin` | kinglyWay/kinglyWay-dataStructure/5_section_6/2_traverse.cpp:101-111 | the same with the order of successors: the call for the first unmarked one prints what comes next |
| `Traverse.BreadthUnique` | kinglyWay/kinglyWay-dataStructure/5_section_6/2_traverse.cpp:67-85 | there is only one such breadth-first order |
| `Traverse.DepthUnique` | kinglyWay/kinglyWay-dataStructure/5_section_6/2_traverse.cpp:101-111 | there is only one such depth-first order |
| `Traverse.SameNodes` | kinglyWay/kinglyWay-dataStructure/5_section_6/2_traverse.cpp:67-111 | started from the same marks, both traversals mark and print the same nodes |
| `Traverse.Traversal.BFSTraverse` | kinglyWay/kinglyWay-dataStructure/5_section_6/2_traverse.cpp:53-65 | prints every node of the graph exactly once, walk by walk: each starts at the least node that no walk before has printed, and is what `BFS` prints from there |
| `Traverse.Traversal.DFSTraverse` | kinglyWay/kinglyWay-dataStructure/5_section_6/2_traverse.cpp:87-99 | prints every node of the graph exactly once, walk by walk: each starts at the least node that no walk before has printed, and is what `DFS` prints from there |
| `Traverse.WalksUnique` | kinglyWay/kinglyWay-dataStructure/5_section_6/2_traverse.cpp:53-99 | what either prints for a graph is determined by that |
| `GraphTable.GraphTable.FirstNeighbor` | kinglyWay/kinglyWay-dataStructure/5_section_6/2_traverse.cpp:131-136 | the first entry of the list, -1 when there is none or the node does not exist |
| `GraphTable.GraphTable.NextNeighbor` | kinglyWay/kinglyWay-dataStructure/5_section_6/2_traverse.cpp:138-152 | the entry behind the first occurrence of the given neighbour, -1 when there is none |
| `GraphTable.EnumerationEnds` | kinglyWay/kinglyWay-dataStructure/5_section_6/2_traverse.cpp:178-182 | the neighbour loop over a list ends exactly when the list has no repeated entry |
| `GraphTable.VisitsInOrder` | kinglyWay/kinglyWay-dataStructure/5_section_6/2_traverse.cpp:178-182 | over a list without repetition the loop meets every entry in order |
| `TableTraverse.TableTraversal.BFS` | kinglyWay/kinglyWay-dataStructure/5_section_6/2_traverse.cpp:170-188 | if no list it comes to repeats an entry: what `Traversal.BFS` does over the matrix of the same graph, with the successors in the order of the lists |
| `TableTraverse.TableTraversal.DFS` | kinglyWay/kinglyWay-dataStructure/5_section_6/2_traverse.cpp:204-214 | if no list it comes to repeats an entry: what `Traversal.DFS` does over the matrix of the same graph, with the successors in the order of the lists |
| `TableTraverse.DescendNoRepeats` | kinglyWay/kinglyWay-dataStructure/5_section_6/2_traverse.cpp:204-214 | a recursive call comes to no list that the caller does not come to |
| `TableTraverse.TableTraversal.BFSWithin` | kinglyWay/kinglyWay-dataStructure/5_section_6/2_traverse.cpp:170-188 | the same code cut off after a number of looks at neighbours: with n^2 of them it ends if and only if no list it comes to repeats an entry |
| `TableTraverse.TableTraversal.DFSWithin` | kinglyWay/kinglyWay-dataStructure/5_section_6/2_traverse.cpp:204-214 | the same code cut off after a number of looks at neighbours: if it ends, no list it comes to repeats an entry; with n of them for each node not marked it ends unless one does |
| `TableTraverse.TableTraversal.BFSTraverse` | kinglyWay/kinglyWay-dataStructure/5_section_6/2_traverse.cpp:156-168 | if no list repeats an entry: every node once, walk by walk, each from the least node left and as `BFS` prints it |
| `TableTraverse.TableTraversal.DFSTraverse` | kinglyWay/kinglyWay-dataStructure/5_section_6/2_traverse.cpp:190-202 | if no list repeats an entry: every node once, walk by walk, each from the least node left and as `DFS` prints it |
| `TableTraverse.ListedTotal` | kinglyWay/kinglyWay-dataStructure/5_section_6/2_traverse.cpp:156-202 | the order of the lists decides between any two successors, so that what is printed is determined |
| `TopologySort.Indegree` | kinglyWay/kinglyWay-dataStructure/5_section_6/5_topologySort.cpp:58-69 | the number of predecessors; -1 for a node that does not exist |
| `TopologySort.TopologicalSort` | kinglyWay/kinglyWay-dataStructure/5_section_6/5_topologySort.cpp:74-104 | a nonempty result has every node once and every edge forward; the result is empty exactly when there is a directed cycle or no node |
| `TopologySort.OrderExcludesCycle` | kinglyWay/kinglyWay-dataStructure/5_section_6/5_topologySort.cpp:100-103 | a graph with such an order has no directed cycle |
| `TopologySort.DeadlockIsCycle` | kinglyWay/kinglyWay-dataStructure/5_section_6/5_topologySort.cpp:100-102 | a nonempty set of nodes that all wait for one of them contains a directed cycle |
| `TopologySort.Released` | kinglyWay/kinglyWay-dataStructure/5_section_6/5_topologySort.cpp:93-97 | one round of the inner loop: each counter is again the number of unprinted predecessors and exactly the nodes at zero are queued, behind all their predecessors |
| `EventLoop.NoLostWakeup` | project/7_myMuduo/EventLoop.cc:66-171 | over all interleavings the loop never waits in poll with pending functors or a quit request, a zero counter and nobody about to wake it, if and only if it was entered with nothing pending or a wakeup under way |
| `EventLoop.InOrderWithinOneTurn` | project/7_myMuduo/EventLoop.cc:67-171 | in every run from the construction, or from any entry of loop(), executed + current batch + pending is what was queued, in order; what was queued before poll returned has been called when the loop is back at its test |
| `EventLoop.QueuedBeforeLoop` | project/7_myMuduo/EventLoop.cc:66-144 | a run from the construction: the loop thread queues a functor, enters loop() and waits in poll with it, nobody about to wake it |
| `EventLoop.QuitStands` | project/7_myMuduo/EventLoop.cc:66-111 | in every run, while the loop is running, a quit request stands if and only if it was made after loop() had been entered |
| `EventLoop.QuitHonoured` | project/7_myMuduo/EventLoop.cc:73-111 | a request that stands ends the loop at its next test |
| `EventLoop.QuitBeforeLoop` | project/7_myMuduo/EventLoop.cc:67-111 | a run in which a request made before loop() is entered is lost and the loop goes on to poll |
| `EventLoop.EnteringEnters` | project/7_myMuduo/EventLoop.cc:67-69 | in every run from the construction, loop() is entered in one of the states that the results start from |
| `EventLoop.OrderKept` | project/7_myMuduo/EventLoop.cc:57-171 | every step of every thread keeps executed + batch + pending = queued, and where a batch and a wakeup owed may be |
| `EventLoop.OthersKeep` | project/7_myMuduo/EventLoop.cc:105-144 | every step of another thread keeps: where no swap lies ahead of poll, pending functors mean a wakeup written or owed |
| `EventLoop.LoopKeeps` | project/7_myMuduo/EventLoop.cc:57-93 | so does every step of the loop thread |
| `EventLoop.WakeupsPaired` | project/7_myMuduo/EventLoop.cc:57-144 | in every run from the construction the eventfd counts the wakeups written since the last successful read; the successful reads are no more than the wakeups written before, nor are the polls that report the wakeup channel, but for those that repeat a failed read |
| `EventLoop.WakeupsOwed` | project/7_myMuduo/EventLoop.cc:105-144 | in every run from the construction each functor or quit request of another thread, and each functor queued while functors are called, brings one wakeup, written or still owed |
| `EventLoop.EventLoop.DoPendingFunctors` | project/7_myMuduo/EventLoop.cc:159-171 | whatever other threads do meanwhile: order and wakeups are kept, and all that had been queued has been called; undisturbed, it calls exactly what was pending, and functors queued by these calls stay pending, in order, with a wakeup written |
| `ThreadPool.JoinedMeansRun` | project/2_ThreadPool/include/threadPool.h:33-93 | when the destructor has joined all workers each enqueued task has run exactly once, if and only if there was a worker or no task |
| `ThreadPool.NoWorkersNoWork` | project/2_ThreadPool/include/threadPool.h:33-93 | a run of a pool without workers: it is joined with a task that has not run |
| `ThreadPool.NoLostNotification` | project/2_ThreadPool/include/threadPool.h:36-46 | with tasks queued some worker is awake or a notification is owed; while a worker sleeps there is one for each queued task |
| `ThreadPool.NotifiedOnce` | project/2_ThreadPool/include/threadPool.h:68-76 | in every run each task enqueued brings one notification, sent or still owed |
| `ThreadPool.ShutdownBound` | project/2_ThreadPool/include/threadPool.h:83-93 | after notify_all the pool makes at most `Work` more steps, whatever the callers do |
| `ThreadPool.ShutdownProceeds` | project/2_ThreadPool/include/threadPool.h:83-93 | until all workers are joined some thread of the pool can move |
| `ThreadPool.InvKept` | project/2_ThreadPool/include/threadPool.h:33-93 | every step of every thread keeps the invariant |
| `ThreadPool.StopAndNotifyAll` | project/2_ThreadPool/include/threadPool.h:83-89 | stops the pool and leaves no worker asleep, whatever callers and workers do before and between its two steps |
| `ThreadPool.Destroy` | project/2_ThreadPool/include/threadPool.h:83-93 | the destructor, whatever callers and workers do between its steps: it returns with every worker joined, and each enqueued task has run exactly once if and only if there was a worker or no task |
| `HeapTimer.HeapTimer.SwapNode` | project/5_tinyWebServer/cppcode/heaptimer.cpp:4-11 | the map stays the inverse of the positions, and the timers stay the same |
| `HeapTimer.HeapTimer.SiftUp` | project/5_tinyWebServer/cppcode/heaptimer.cpp:14-26 | restores the heap when one node may be smaller than its parent; timers and map agree as before |
| `HeapTimer.HeapTimer.SiftDown` | project/5_tinyWebServer/cppcode/heaptimer.cpp:30-49 | restores the heap when it moves; when it does not, nothing changed and only the edge to the parent is open |
| `HeapTimer.HeapTimer.Del` | project/5_tinyWebServer/cppcode/heaptimer.cpp:52-69 | valid again without exactly the timer at that position |
| `HeapTimer.HeapTimer.Adjust` | project/5_tinyWebServer/cppcode/heaptimer.cpp:72-81 | valid again with exactly that timer re-keyed |
| `HeapTimer.HeapTimer.Add` | project/5_tinyWebServer/cppcode/heaptimer.cpp:84-102 | valid again with exactly that timer added or replaced |
| `HeapTimer.HeapTimer.DoWork` | project/5_tinyWebServer/cppcode/heaptimer.cpp:105-113 | calls and deletes the timer if there is one, and nothing else |
| `HeapTimer.HeapTimer.Tick` | project/5_tinyWebServer/cppcode/heaptimer.cpp:116-129 | calls each removed timer once, in order of expiry, when it is due to the millisecond at its reading of the clock; keeps only timers at least a millisecond later than the reading that ends the calls, and with a monotone clock removes exactly the others; no timer is called before its own reading reaches its expiry, if and only if no reading in turn finds the next expiry less than a millisecond ahead |
| `HeapTimer.CalledEarly` | project/5_tinyWebServer/cppcode/heaptimer.cpp:116-125 | a timer set for one millisecond is called when the clock has moved on by a nanosecond |
| `HeapTimer.ExactlyDue` | project/5_tinyWebServer/cppcode/heaptimer.cpp:116-125 | with a monotone clock what is called is exactly what expires less than a millisecond after the last reading |
| `HeapTimer.NeverEarlyIff` | project/5_tinyWebServer/cppcode/heaptimer.cpp:116-125 | the same condition, from what has been called and what is left: some k-th reading finds the k-th smallest expiry less than a millisecond ahead, and no reading before it ends the calls |
| `HeapTimer.CalledInOrder` | project/5_tinyWebServer/cppcode/heaptimer.cpp:116-125 | the k-th timer called is one with the k-th smallest expiry of all |
| `HeapTimer.StillClock` | project/5_tinyWebServer/cppcode/heaptimer.cpp:120-122 | if the clock stands still during the calls the condition is that some timer expires within the millisecond to come |
| `HeapTimer.HeapTimer.Pop` | project/5_tinyWebServer/cppcode/heaptimer.cpp:132-135 | removes exactly the timer at the root |
| `HeapTimer.HeapTimer.GetNextTick` | project/5_tinyWebServer/cppcode/heaptimer.cpp:144-153 | -1 exactly when no timer is left; else, for the earliest one, the whole milliseconds `res` with `res * MS <= expires - now < (res + 1) * MS` (MS nanoseconds are a millisecond), and 0 once it is past its expiry |
| `HeapTimer.RootIsMin` | project/5_tinyWebServer/cppcode/heaptimer.cpp:116-125 | the root of a heap expires no later than any node |
| `HeapTimer.SwapUp` | project/5_tinyWebServer/cppcode/heaptimer.cpp:17-21 | an exchange with the parent moves the open edge one level up |
| `HeapTimer.SwapDown` | project/5_tinyWebServer/cppcode/heaptimer.cpp:35-43 | an exchange with the earlier child moves the open edges one level down |
| `HeapTimer.PatchHole` | project/5_tinyWebServer/cppcode/heaptimer.cpp:59-65 | the last node put in the place of a deleted one leaves the heap open only around it |
| `Buffer.Buffer.MakeSpace` | project/7_myMuduo/Buffer.h:103-115 | grows or compacts, never both, makes room, and keeps the readable bytes |
| `Buffer.Buffer.EnsureWriteableBytes` | project/7_myMuduo/Buffer.h:69-73 | room for the bytes asked for, the readable bytes unchanged |
| `Buffer.Buffer.Append` | project/7_myMuduo/Buffer.h:76-80 | the bytes go behind the readable ones |
| `Buffer.Buffer.Retrieve` | project/7_myMuduo/Buffer.h:43-50 | that many bytes leave at the front, all of them when more are asked for |
| `Buffer.Buffer.RetrieveAsString` | project/7_myMuduo/Buffer.h:62-66 | the result and what stays are what was readable |
| `Buffer.Buffer.ReadFd` | project/7_myMuduo/Buffer.cc:11-38 | what readv delivers, also across the area on the stack, goes behind the readable bytes; when it fails the buffer stays as it is and the error is handed out |
| `Buffer.Buffer.WriteFd` | project/7_myMuduo/Buffer.cc:40-46 | a prefix of the readable bytes goes out, or the error is handed out |
| `TcpConnection.StreamConserved` | project/7_myMuduo/TcpConnection.cc:81-208 | in every run, bytes written + bytes buffered = the messages accepted, in order |
| `TcpConnection.WriteCompleteMeansEmpty` | project/7_myMuduo/TcpConnection.cc:93-102 | a step queues the write-complete callback exactly when it has written the last byte there was and nothing is pending |
| `TcpConnection.HighWaterMeansCrossed` | project/7_myMuduo/TcpConnection.cc:117-127 | a step queues the high-water callback, once and with the new size, exactly when it brings what is buffered from below the mark up to it or beyond |
| `TcpConnection.NeverOnlyWriting` | project/7_myMuduo/TcpConnection.cc:150-167 | in every run the mask is never the write event alone |
| `TcpConnection.OnlyWritingDrains` | project/7_myMuduo/TcpConnection.cc:184-208 | were the mask the write event alone, handleWrite would send all that is buffered in order, however the socket takes it, and then, not before, disable writing, queue the callback once and half-close a closed connection |
| `TcpConnection.BufferedStaysBuffered` | project/7_myMuduo/TcpConnection.cc:93-131 | so bytes once buffered stay buffered, and nothing behind them is written |
| `TcpConnection.DeliveredIffWhole` | project/7_myMuduo/TcpConnection.cc:81-208 | all accepted bytes have reached the socket exactly when each message went out in one write |
| `TcpConnection.FullSocketStrands` | project/7_myMuduo/TcpConnection.cc:93-131 | a first message that meets a full socket is accepted and stays in the buffer, and nothing is ever written, whatever events follow |
| `TcpConnection.FullSocketRun` | project/7_myMuduo/TcpConnection.cc:93-131 | there is such a run |
| `TcpConnection.HalfCloseAtOnce` | project/7_myMuduo/TcpConnection.cc:144-148 | the half-close does not wait for buffered bytes |
| `TcpConnection.StateByEvents` | project/7_myMuduo/TcpConnection.cc:135-230 | in every run the state is what the events so far make it: connected exactly from the establishment up to the first shutdown, close or destruction, disconnected exactly after a close or the destruction of a connected one; removed exactly after a destruction, and half-closed exactly after shutdownInLoop |
| `TcpConnection.ShutdownOnce` | project/7_myMuduo/TcpConnection.cc:135-142 | a connection shut down, closed or destroyed after its establishment is never connected again, so a second shutdown half-closes nothing |
| `TcpConnection.TcpConnection.Send` | project/7_myMuduo/TcpConnection.cc:81-132 | the code over the buffer does what the step on byte strings says |
| `TcpConnection.TcpConnection.Writable` | project/7_myMuduo/TcpConnection.cc:184-208 | the code over the buffer does what the step on byte strings says |
| `EpollPoller.EpollPoller.UpdateChannel` | project/7_myMuduo/EpollPoller.cc:67-88 | full agreement again, with the new mask in the kernel or the descriptor removed from it |
| `EpollPoller.EpollPoller.RemoveChannel` | project/7_myMuduo/EpollPoller.cc:91-103 | full agreement again, without the channel in map and kernel |
| `EpollPoller.EpollPoller.Update` | project/7_myMuduo/EpollPoller.cc:115-132 | ADD is only ever issued on an unregistered descriptor, MOD and DEL on a registered one |
| `EpollPoller.InterestSet` | project/7_myMuduo/EpollPoller.cc:67-103 | the interest set is exactly the descriptors of the channels that are kAdded, with their masks; the map holds exactly the channels that are not kNew |
| `EpollPoller.Perform` | project/7_myMuduo/Channel.h:65-84 | after any sequence of enable, disable, disableAll and remove calls on any channels of a poller: each channel is what its own calls make of it, and the interest set is exactly the masks of those that are kAdded |
| `EpollPoller.DisableAllAlternates` | project/7_myMuduo/EpollPoller.cc:67-88 | n calls of disableAll in a row leave a channel registered if and only if it was registered and n is even, or it was not and n is odd; its mask is empty then |
| `EpollPoller.DisableAllTimes` | project/7_myMuduo/Channel.h:81-84 | the same of the calls themselves: the descriptor is in the kernel's interest set, with an empty mask, exactly then |
| `EpollPoller.Channel.EnableReading` | project/7_myMuduo/Channel.h:65-68 | agreement, with the read events in the mask |
| `EpollPoller.Channel.DisableReading` | project/7_myMuduo/Channel.h:69-72 | agreement, without the read events in the mask |
| `EpollPoller.Channel.EnableWriting` | project/7_myMuduo/Channel.h:73-76 | agreement, with the write event in the mask |
| `EpollPoller.Channel.DisableWriting` | project/7_myMuduo/Channel.h:77-80 | agreement, without the write event in the mask |
| `EpollPoller.Channel.DisableAll` | project/7_myMuduo/Channel.h:81-84 | agreement with the empty mask; a channel that was not registered becomes registered by it |
| `VideoOutMp4.WrittenIsPrefix` | project/1_ffmpeg/src/videoOutMP4File.cpp:57-109 | in every interleaving what is written is a prefix of the one merge of the two streams by timestamp, ties to video |
| `VideoOutMp4.CompleteAtExit` | project/1_ffmpeg/src/videoOutMP4File.cpp:55-100 | when the writer leaves the loop both encoders have pushed everything and set their flags; all packets have been written, if and only if it entered the loop or there were none |
| `VideoOutMp4.FirstTestCanSkip` | project/1_ffmpeg/src/videoOutMP4File.cpp:55-57 | a run in which the unlocked first test is passed between a push and a flag, and a packet is never written |
| `VideoOutMp4.InvKept` | project/1_ffmpeg/src/videoOutMP4File.cpp:57-109 | every step of the writer and the encoders keeps the invariant |
| `VideoOutMp4.WriteOut` | project/1_ffmpeg/src/videoOutMP4File.cpp:55-109 | the thread's code, whatever the encoders do between any two of its accesses: it ends, after both encoders, has written a prefix of the merge, and all of it if and only if it entered the loop or there was nothing |
| `Merging.MergeSorted` | project/1_ffmpeg/src/videoOutMP4File.cpp:78-94 | two streams in order of time merge into one in order of time |
| `Merging.MergeBag` | project/1_ffmpeg/src/videoOutMP4File.cpp:78-94 | no packet is lost or doubled |
| `UdpThreadPool.NumbersInBounds` | project/6_IPV4UDP/server/threadpool.c:86-213 | numMin <= numLive <= numMax and numBusy <= numLive in every interleaving, and slots in use = numLive + exiting threads |
| `UdpThreadPool.LeaversBounded` | project/6_IPV4UDP/server/threadpool.c:88-205 | in every interleaving the threads that have left, with those still ordered to, are at most 5 for each order of the manager; the threads ever created are these and the living ones |
| `UdpThreadPool.OrdersCarriedOut` | project/6_IPV4UDP/server/threadpool.c:88-99 | of sleepers that wake up with nothing to do as many leave as have been ordered to, down to numMin threads, and each that finds an order uses it up |
| `UdpThreadPool.FirstInFirstOut` | project/6_IPV4UDP/server/threadpool.c:107-114 | the ring delivers the oldest task next, its free places are clear, and each task delivered is with one worker or has run once |
| `UdpThreadPool.InvKept` | project/6_IPV4UDP/server/threadpool.c:86-213 | every step of workers, manager and producers keeps the invariant, each access to a slot being a step |
| `UdpThreadPool.ManagerFillsKeeps` | project/6_IPV4UDP/server/threadpool.c:189-191 | so does filling a slot in the manager's loop, between any moves of other threads |
| `UdpThreadPool.ScansKeeps` | project/6_IPV4UDP/server/threadpool.c:378-382 | so does each look of a thread on its way out, under no lock, at a slot; it never passes its own |
| `UdpThreadPool.ClearsKeeps` | project/6_IPV4UDP/server/threadpool.c:383-384 | so does its write to that slot, under no lock either |
| `UdpThreadPool.ThreadPool.constructor` | project/6_IPV4UDP/server/threadpool.c:223-276 | numMin threads registered, an empty ring |
| `UdpThreadPool.CreateThreads` | project/6_IPV4UDP/server/threadpool.c:187-193 | the manager's loop over the slots, whatever all other threads do meanwhile, is a run of the machine and creates at most 5 threads; undisturbed it stops short of that only at numMax threads or with no slot free, and changes nothing else |
| `UdpThreadPool.ManagerRound` | project/6_IPV4UDP/server/threadpool.c:166-212 | a whole round of the manager, whatever all other threads do between its steps: live, queued and busy are numbers the pool had; the loop over the slots is run if and only if (live < queued or 5 * busy > 4 * live) and live < numMax, and otherwise no thread is created; numExit becomes 5 if 2 * busy < live and live > numMin, and is not raised otherwise; undisturbed the numbers are those at the start, and the loop, once run, creates 5 threads or stops at numMax or for lack of a free slot |
| `UdpThreadPool.ThreadExit` | project/6_IPV4UDP/server/threadpool.c:374-391 | threadexit_unlock, whatever all other threads do meanwhile, is a run of the machine; it ends, and no slot holds the thread's id then |
| `UdpThreadPool.ServeAll` | project/6_IPV4UDP/server/threadpool.c:86-142 | a worker left alone runs all queued tasks in the order of adding, each once, goes to sleep only then, and leaves all counters as they were |
| `UdpThreadPool.IdleTakesOldest` | project/6_IPV4UDP/server/threadpool.c:88-114 | an idle worker that gets the lock takes the oldest task if there is one and, when it has been asleep, it is not to leave |
| `TokenBucket.WindowBound` | project/6_IPV4UDP/server/tokenbucket.c:43-56 | in any window the net tokens taken are at most burst + refills * cps, whoever fetches and returns what |
| `TokenBucket.WindowBoundReached` | project/6_IPV4UDP/server/tokenbucket.c:43-56 | the bound is reached |
| `TokenBucket.TokensBalance` | project/6_IPV4UDP/server/tokenbucket.c:43-205 | taken - returned + left + cut off at the burst is exactly what was there plus cps for each refill, and the tokens stay between 0 and burst |
| `TokenBucket.CutMeansFull` | project/6_IPV4UDP/server/tokenbucket.c:47-51 | tokens are cut off only by a refill or a return that leaves the bucket full |
| `TokenBucket.TokenBucket.RefillTimes` | project/6_IPV4UDP/server/tokenbucket.c:47-51 | k refills in a row leave the smaller of burst and token + cps * k |
| `TokenBucket.TokenBucket.FetchToken` | project/6_IPV4UDP/server/tokenbucket.c:151-166 | a positive fetch takes what it answers, never more than asked for or there, and less than asked for only by emptying the bucket |
| `TokenBucket.TokenBucket.ReturnToken` | project/6_IPV4UDP/server/tokenbucket.c:193-205 | a positive return leaves the smaller of burst and token + size |
| `TokenBucket.RateBound` | project/6_IPV4UDP/server/medialib.c:252-279 | in every interleaving the bytes delivered are cps for each refill, less the tokens in the bucket, held by the reader, cut off at the burst or lost by an interrupted read |
| `TokenBucket.LifetimeBound` | project/6_IPV4UDP/server/medialib.c:265-270 | the offset is never reset, so a channel delivers no more than its longest song in all its life |
| `TokenBucket.DeliversIffLonger` | project/6_IPV4UDP/server/medialib.c:259-272 | a read can deliver data exactly when the song is longer than everything delivered before |
| `TokenBucket.SecondSongSilent` | project/6_IPV4UDP/server/medialib.c:259-272 | a run with two songs of the same length: the second one can deliver nothing |
| `TokenBucket.ChannelContext.ReadChn` | project/6_IPV4UDP/server/medialib.c:252-279 | whatever is refilled meanwhile: the offset advances by what is delivered, which for a positive size is never more than the tokens fetched; the bucket has the smaller of burst and what was there, less what was delivered (or, interrupted, fetched), plus cps for each refill; for any other size no tokens are taken and what is delivered is not limited by them; the song open afterwards is the one opened last |
| `Merging.StableSortUnique` | kinglyWay/kinglyWay-dataStructure/7_section_6/8_mergeSort.cpp:4-62 | there is only one stable sorting of a sequence |
| `Merging.StableSortMerge` | kinglyWay/kinglyWay-dataStructure/7_section_6/8_mergeSort.cpp:4-39 | merging two stably sorted parts sorts the whole stably |
| `MergeSort.MergeParts` | kinglyWay/kinglyWay-dataStructure/7_section_6/8_mergeSort.cpp:4-39 | the two stretches become their merge, in place, and the rest of the array is untouched |
| `MergeSort.MergeSortRecursive` | kinglyWay/kinglyWay-dataStructure/7_section_6/8_mergeSort.cpp:41-48 | the stretch is stably sorted and the rest untouched |
| `MergeSort.MergeSortIterative` | kinglyWay/kinglyWay-dataStructure/7_section_6/8_mergeSort.cpp:51-62 | the array is stably sorted, for any length |
| `MergeSort.PassDoubles` | kinglyWay/kinglyWay-dataStructure/7_section_6/8_mergeSort.cpp:53-60 | one pass turns sorted blocks of a size into sorted blocks of twice the size, also at the ragged end |
| `MergeSort.BothSorts` | kinglyWay/kinglyWay-dataStructure/7_section_6/8_mergeSort.cpp:41-62 | both sorts leave the same array |
| `QuickSort.Partition` | kinglyWay/kinglyWay-dataStructure/7_section_6/5_quickSort.cpp:4-20 | the values of the stretch are rearranged around the pivot, none lost to the hole, the rest untouched |
| `QuickSort.MoveHole` | kinglyWay/kinglyWay-dataStructure/7_section_6/5_quickSort.cpp:7-16 | filling the hole from another place moves the hole there and keeps the values |
| `QuickSort.QuickSort` | kinglyWay/kinglyWay-dataStructure/7_section_6/5_quickSort.cpp:22-28 | the stretch is sorted and rearranged, the rest untouched |
| `HeapSort.Heapify` | kinglyWay/kinglyWay-dataStructure/7_section_6/7_heapSort.cpp:5-25 | restores the heap below a node, by rearranging the first n values only |
| `HeapSort.BuildHeap` | kinglyWay/kinglyWay-dataStructure/7_section_6/7_heapSort.cpp:27-31 | a heap, although the start index lies beyond the last parent |
| `HeapSort.Extract` | kinglyWay/kinglyWay-dataStructure/7_section_6/7_heapSort.cpp:34-41 | exchanging the root with the last entry extends the sorted tail |
| `HeapSort.HeapSortMax` | kinglyWay/kinglyWay-dataStructure/7_section_6/7_heapSort.cpp:27-42 | ascending, the same values |
| `HeapSort.HeapSortMin` | kinglyWay/kinglyWay-dataStructure/7_section_6/7_heapSort.cpp:66-78 | descending, the same values |
| `HeapSort.AllSorts` | kinglyWay/kinglyWay-dataStructure/7_section_6/7_heapSort.cpp:27-78 | quick sort and the max heap sort leave the same array, the min heap sort its reverse |

## Left out

- MinSpanTree.Prim: asks for an undirected graph that links lighter than 9999 connect; on any other some parent is never set, and the program reads what is in memory there (`PrimParents`).
- Kruskal.SortEdges: the library sort is modelled by an insertion sort; no result depends on the order of equal weights.
- ShortestPath.Dijkstra: nonnegative weights; a distance of 999999 or more is reported as 999999, as in the code.
- TableTraverse.TableTraversal.BFS: lists that the traversal comes to repeat no entry; for others the code does not end (`BFSWithin`, `DFSWithin`).
- TokenBucket.RateBound: the reader asks for a positive number of bytes, as its one caller does; `ReadChn` states what happens otherwise.
- VideoOutMp4.WriteOut: a wait ends once the encoder it waits for has pushed or set its flag; spurious wakeups are steps of the state machine only.
- UdpThreadPool.FirstInFirstOut: safety only; which sleeper a signal reaches is not modelled, nor progress beyond what one thread does undisturbed (`ServeAll`, `OrdersCarriedOut`).
- Failing thread creation, and threads whose creation call has not returned when they first run, in the UDP pool.
- `threadpool_destroy`, and shutdown of the UDP pool in general.
- Progress of the condition variables in the MP4 writer, whose flags are set outside the mutexes.
- Codecs, filters and resampling: a packet is an identity with a timestamp on a common scale, and the muxer's own reordering is not modelled.
- Sockets, epoll, eventfd, file reads, clocks and logging, except as free results of a step.
- The lifetime of the data that `send` passes to another thread, `weak_ptr` ties, and memory release everywhere.
- Machine integer overflow: counters, weights, indices and times are unbounded, except the eventfd counter; the parent of heap position 0 is taken as "none", as the conversions of the code make it.
- The input side of the connection beyond `Buffer.ReadFd`, high-water-mark policy beyond when the callback is queued, and `handleError`.
- Callbacks that re-enter the timer heap while it runs.
- The AVL tree, the plain search tree and the hash table: the first and the last do not keep their own invariants, the second is an easier version of the red-black tree.
- Linked stacks and queues, ring buffers of the data-structure course, the elementary sorts and binary search: easy beside what is here.
- The tiny web server's own buffer, HTTP parsing, MySQL access and responses, chat programs, design-pattern samples, language demonstrations.
