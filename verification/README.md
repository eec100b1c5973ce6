# A distributed 311 query engine, verified

A portal node takes a query, floods it through an overlay of nodes, and every node scans
its own partition of the 311 data and pushes the matching rows, chunk by chunk, back up
the path the query came down. The portal queues them in a bounded buffer from which the
client fetches until a fetch is answered "final". This project models that engine in
Dafny and proves what its design promises, or exactly when the code keeps the promise.

`dafny verify dfyconfig.toml` checks everything.

## The parts

| files | what they are about |
|---|---|
| `options`, `lists`, `rows` | an option type; posting lists, sorting and intersecting; rows, specs, the reference filter, chunk framing |
| `indices`, `scan`, `partition_store`, `scan_theorems` | the four indices, the query plan, the Python scan on its two paths, and when the paths agree |
| `query_engine`, `node_scans` | the C++ scan, when it returns the whole answer, and when either language's node does |
| `overlay`, `overlay_theorems`, `rejections`, `fan_out` | the fan-out of a query as a depth-first search: a machine, its invariant, what it reaches, which neighbours the portal marks done early, and the recursive handlers as runs of it |
| `chunk_buffer`, `request_state` | the portal's buffer and its adaptive chunk controller |
| `relay` | a chunk climbing to the portal, the producer's retry loop, the client's fetch |
| `delivery`, `delivery_theorems`, `schedules`, `early_final` | fan-out, scans, climbing chunks, fetches and the finality test, interleaved in every way; schedules built by hand; what "final" is worth |
| `partitioning`, `end_to_end` | splitting the data by `key % n`, and the whole system against one central query |
| `query_cache`, `recency_theorems`, `cache_key` | the LRU cache, its reference, the cache key |
| `portal`, `portal_theorems`, `portal_server` | the portal's requests and cache under every interleaving, what the cache holds after any history and what a request answered from it gets, and the handlers |
| `services`, `cached_answers` | a forwarded request served by the whole system beside any others, what it tells its client and leaves in the cache, and what a later hit gives |
| `walks`, `cancel` | onward walks through the overlay, and the abort that propagates along them |

The fan-out, the delivery, the portal and a served request are state machines: a step that
is not possible changes nothing, and theorems quantify over every sequence of steps. A
request may be canceled at any step after its submission; one that ended without having
been canceled has *concluded*, and "final" below means that unless a cancel is mentioned.
Handlers that change state are methods of classes, proved to take those steps.

## What turned out false, and exactly when it holds

- A scan by the C++ engine stops at the first grid candidate outside the exact box
  (`cpp/src/QueryEngine.cpp:144`, `:201`), where the Python scan skips it. `RunIsPrefix`
  holds always; `RunIsWholeAnswer` gives the exact condition on a store,
  `RunIsWholeEverywhereIff` the one on the spec alone; `BoxRunCanLoseAnyRow` shows that any
  row a box query should return can be lost.
- The grid leaves out rows at exactly (0, 0), the row loop does not: the Python paths agree
  exactly when no delivered row of a box query sits there (`IndexedRefinesLinear`), and on
  every partition exactly when no row at the origin can match (`IndexedRefinesLinearEverywhere`).
- The spec's borough is cast to one byte in the C++ engine and not in the Python scan. With and
  without a box `EnginesAgreeIff` says exactly on which specs the engine answers as the row
  loop does, whatever the store (256 is an instance without a box, `BoroughWraps`).
- "Nothing is dropped" (`docs/CHUNKING.md:49-51`): a chunk accepted in part is acknowledged
  all the same (`cpp/src/NodeServer.cpp:405-412`), so its tail is lost. Nothing is dropped in
  any run exactly when the rows of all nodes connected to the portal fit the buffer
  (`NothingDroppedIffFits`).
- The portal marks a neighbour that refuses the query as done (`cpp/src/NodeServer.cpp:216`)
  although that neighbour's rows may still be on their way by another path. The neighbours
  so marked are exactly those that an earlier neighbour in the portal's loop is connected to
  off the portal, and the portal itself (`RejectedExactly`). Final means complete, in every
  run, exactly when no run concludes at all, or all rows fit the buffer and no neighbour so
  marked has one (`FinalIsWholeIff`). On the overlay as shipped (`config/topology.conf`) some
  neighbour always is marked (`ShippedOverlayRejects`).
- Against one central query the delivered rows are its answer in every run exactly when no run
  concludes, or the query suits every node's engine and partition, max_rows cuts off no node,
  the answer fits the buffer and no neighbour marked early has a match; or nothing matches and
  nothing can be delivered (`AnswerIsExactIff`).
- Without a cancel a request ends in some run exactly when every configured node is connected
  to the portal (`EndsIffSpans`); a cancel ends it on any overlay (`CancelEnds`).
- An abort is never remembered, so it ends exactly when no ring of three or more nodes and no
  two self-edges are within the portal's reach (`AbortEndsIff`); on the overlay as shipped it
  nests without end (`ShippedAbortNeverEnds`).
- A fetch reads the canceled flag and then finality (`cpp/src/NodeServer.cpp:263-264`). A cancel
  in between ends the request, tells the client "final" and not "canceled", and stores what was
  fetched so far. With that race a client so told always holds the whole answer exactly when
  nothing matches and no row can be delivered (`TellsWholeRacedIff`), and only whole answers go
  to the cache exactly when none do, or nothing matches and no row can be delivered and stored
  (`StoresWholeRacedIff`; what an entry then is says `EntriesAreEarlierAnswers`, with an instance
  for every fetch size in `RaceStoresPartial`). Cancels at any other moment do no such harm: but
  for the race the client so told always holds the whole answer exactly when every run is exact
  (`TellsWholeIffExact`), and what is stored is whole exactly when no partial answer that an
  entry would hold is possible (`StoresWholeIff`, `StoresWholeIffExact`).
- A later hit on what a request left gives the whole answer exactly when what was left is whole
  and no longer than the buffer (`HitAnswersIff`); it always ends (`NextClientIsAnswered`).
- A push whose answer is lost is tried again and deposits its rows twice: a chunk is
  deposited exactly once if and only if one try gets through and no later one does
  (`OnceIffOnlyTry`).
- A suggested chunk size of zero wraps around on a slow client (`SlowNeverGrows`).

## Model

| member | source | states |
|---|---|---|
| EndToEnd.EndToEndExact | python/node_server.py:225-309 | On an overlay whose portal separates its neighbours, the rows delivered when a request concludes are in every run, as a multiset, those of the same query run on the whole data set, if and only if no run concludes, or the query suits every node, max_rows cuts off none and the answer fits the buffer; or nothing matches and the buffer has no room |
| EndToEnd.TreeIsExact | python/node_server.py:225-309 | The same on every tree overlay |
| EndToEnd.AnswerIsExactIff | cpp/src/NodeServer.cpp:135-275 | Python and C++ nodes in any mix, every query and overlay: every run that concludes has delivered exactly the matches in the whole data set if and only if no run concludes, or the query suits every node's engine and part, max_rows cuts off no node, the answer fits the buffer and no neighbour marked early has a match; or nothing matches and the buffer has no room |
| EndToEnd.ExactIffSeparatedAndFits | cpp/src/NodeServer.cpp:135-275 | With a match on every node of a connected overlay: if and only if the query suits every node, max_rows cuts off none, the answer fits and no two neighbours of the portal are connected off it |
| EndToEnd.AsManyIsExact | cpp/src/NodeServer.cpp:135-275 | Where no node sends rows that do not match, no run delivers more rows than the whole answer holds, canceled or not, and as many only if they are that answer |
| EndToEnd.ExactIffLeast | cpp/src/NodeServer.cpp:135-275 | There every run is exact if and only if even the one that delivers least has as many rows as the answer |
| DeliveryTheorems.EveryRunPrefix | cpp/src/NodeServer.cpp:387-414 | At every moment of every run with nothing refused, what the client has of a producer is a prefix of that producer's rows: none twice, none out of order |
| EndToEnd.FinalGathersAll | cpp/src/NodeServer.cpp:230-275 | When a request concludes the client has every producer's rows in that producer's order and nothing else, whatever the scans yield, when all rows fit and no neighbour marked early has any |
| EndToEnd.CapIsPerNode | python/partition_store.py:296-297 | max_rows caps each node: when a request concludes each has delivered its own first max_rows matches |
| EndToEnd.NodesScanPartitionsIff | cpp/src/NodeServer.cpp:479-533 | With Python and C++ nodes in any mix, every node hands over the capped plain filter of its partition if and only if the query suits every node's engine and part |
| NodeScans.NodeExactIff | python/node_server.py:452-499 | A node's chunks carry the plain filter's capped answer exactly when the query suits its engine and partition; they are framed with one done chunk, the last, in any case |
| NodeScans.NodeLengthIff | python/node_server.py:452-499 | With a borough in the byte range a node never sends more rows than its partition has matches, and as many exactly when the query suits it and max_rows cuts off none |
| NodeScans.CppExactIff | cpp/src/QueryEngine.cpp:65-204 | A C++ node, box or not: exactly when no survivor outside the box precedes a deliverable one and no delivered row sits at the origin; with a borough off the byte range, when it sends nothing |
| NodeScans.PythonExactIff | python/partition_store.py:220-365 | A Python node: by the row loop always, by the indexed plan exactly when no delivered row of a box query sits at the origin |
| EndToEnd.UntagGathers | cpp/src/NodeServer.cpp:387-414 | Delivered rows are partitioned by their producers, none counted twice or left out |
| Partitioning.Split | scripts/partition_data.py:108-142 | One pass gives each node exactly the rows of its residue class, in input order, keyless rows dropped |
| Partitioning.PartHolds | scripts/partition_data.py:124-139 | A keyed row is in the one partition of its key modulo the number of nodes, as often as in the input; a keyless one in none |
| Partitioning.PartConcat | scripts/partition_data.py:124-139 | A partition keeps the order of the input |
| Partitioning.PartsAnswerWhole | scripts/partition_data.py:124-139 | The partitions' answers together are the answer over the whole data set, for every query and every number of nodes |
| EarlyFinal.FinalIsWholeIff | cpp/src/NodeServer.cpp:194-218 | Whatever the scans yield and the overlay is, a request that concludes is complete in every run if and only if no run concludes, or the rows fit the buffer and no neighbour marked early has any |
| EarlyFinal.FinalIsWholeIffSeparatedAndFits | cpp/src/NodeServer.cpp:194-218 | With rows on every node of a connected overlay: if and only if the portal separates its neighbours and the rows fit its buffer |
| EarlyFinal.NothingDroppedIffFits | cpp/src/NodeServer.cpp:405-412 | On every overlay: no run drops a row for want of space if and only if the rows of all nodes connected to the portal fit the buffer |
| EarlyFinal.EndsIffSpans | cpp/src/ChunkBuffer.cpp:71-75 | Some run concludes, that is ends uncanceled, if and only if every configured node is connected to the portal |
| EarlyFinal.CancelEnds | cpp/src/ChunkBuffer.cpp:71-75 | On every overlay a cancel ends the request |
| EarlyFinal.FinalIsReachable | cpp/src/ChunkBuffer.cpp:71-75 | On every connected overlay some schedule concludes the request, even with a client that fetches last, for every fetch size |
| EarlyFinal.FinalRejects | cpp/src/NodeServer.cpp:208-217 | Every run that ends, canceled or not, has marked early exactly the neighbours the overlay says |
| EarlyFinal.LeastDelivered | cpp/src/NodeServer.cpp:387-414 | Every request that concludes delivers at least the rows of the producers not marked early, or a bufferful |
| EarlyFinal.LeastIsDelivered | cpp/src/NodeServer.cpp:387-414 | Some request delivers no more, for every fetch size |
| EarlyFinal.MostIsDelivered | cpp/src/NodeServer.cpp:387-414 | Some request on a connected overlay delivers all rows that fit |
| EarlyFinal.NoMoreThanConnected | cpp/src/NodeServer.cpp:387-414 | No run, canceled or not, delivers more rows than the nodes connected to the portal have |
| Schedules.FinalWithout | cpp/src/NodeServer.cpp:213-216 | Any set of rejected neighbours can be left out: a schedule ends the request before they push anything |
| EarlyFinal.RunWithout | cpp/src/NodeServer.cpp:213-216 | Any set of neighbours marked early can be left out of a run that ends, without one of their rows |
| DeliveryTheorems.EveryRunFits | cpp/src/ChunkBuffer.cpp:14-20 | The queue never exceeds the buffer's capacity |
| Delivery.EveryRunInv | cpp/src/NodeServer.cpp:135-275 | What every interleaving of fan-out, pushes, marks, fetches, finality tests and cancels keeps: while uncanceled exactly the finished and the rejected are marked done, and delivered rows followed by queued ones are what each producer deposited, in order; once canceled the queue stays empty |
| Delivery.CheckCloses | cpp/src/NodeServer.cpp:264-273 | When the finality test passes, every producer not rejected has sent everything, and all it sent was delivered |
| Delivery.ApplyClosed | cpp/src/NodeServer.cpp:233-239 | Once a concluded request is gone nothing more is delivered |
| Delivery.ApplyCanceled | cpp/src/NodeServer.cpp:400-404 | Once it is canceled nothing more is delivered or accepted, whether or not a fetch has seen it |
| DeliveryTheorems.FinalDelivers | cpp/src/ChunkBuffer.cpp:71-75 | When a request concludes every producer not rejected has finished and, with nothing refused, its rows are delivered in its order; in no run is anything else delivered |
| DeliveryTheorems.FinalIsStable | cpp/src/NodeServer.cpp:267-273 | Whatever steps follow an end, after a cancel too, nothing more is delivered or accepted |
| DeliveryTheorems.WholeExactlyWhenNothingRefused | cpp/src/ChunkBuffer.cpp:14-20 | With no producer rejected a client whose request concludes has every row exactly when no row was refused, which is so whenever all fit |
| DeliveryTheorems.EveryRunCounted | cpp/src/ChunkBuffer.cpp:9-45 | While a request is open and uncanceled the rows offered are delivered, queued or refused; afterwards what was delivered and refused is no more than there was, and all of it when it concluded with nobody rejected |
| Overlay.FanStepInv | cpp/src/NodeServer.cpp:312-385 | Every step of the fan-out keeps: paths are simple and nested, routes form a tree, neighbours dealt with have routes, scans are scheduled once, rejected producers are those hanging elsewhere, no edge off the portal joins two branches |
| Overlay.SubmittedInv | cpp/src/NodeServer.cpp:183-192 | The portal's own route starts the fan-out in that invariant |
| Overlay.AcceptBranches | cpp/src/NodeServer.cpp:339-349 | A newly accepted node touches only nodes of its own branch |
| Overlay.RefusedElsewhere | cpp/src/NodeServer.cpp:329-337 | A neighbour that refuses the portal hangs under another node |
| OverlayTheorems.EveryStateInv | cpp/src/NodeServer.cpp:312-385 | Every intermediate state of the fan-out of every finite symmetric overlay keeps the invariant |
| OverlayTheorems.FanOutEnds | cpp/src/NodeServer.cpp:325-337 | The nested forwards always end, whatever rings the overlay has |
| OverlayTheorems.ReachesExactlyConnected | cpp/src/NodeServer.cpp:351-380 | At the end a node has a route, and exactly one scan, if and only if the overlay connects it to the portal |
| OverlayTheorems.SkipsExactlyLoops | cpp/src/NodeServer.cpp:353-358 | In every state an inner node leaves out exactly the neighbours that would refuse it as a loop, its sender among them, and the portal none, so only a call of the portal to itself is refused as one |
| OverlayTheorems.VisitedIsPath | cpp/src/NodeServer.cpp:340-345 | In every state a node's visited list is a simple overlay path from the portal ending at the node |
| OverlayTheorems.ClimbFollowsPath | cpp/src/NodeServer.cpp:341-349 | In every state k hops upstream lead to the k-th node from the end of the visited list |
| OverlayTheorems.ClimbReachesPortal | cpp/src/NodeServer.cpp:416-442 | The walk back goes through nodes with routes and is at the portal after visited minus one hops and no earlier |
| OverlayTheorems.FanoutInvertsUpstream | cpp/src/NodeServer.cpp:365-368 | At the end the recorded fan-out and the upstream links are inverse to each other |
| OverlayTheorems.TreeEdgeCount | cpp/src/NodeServer.cpp:365-368 | The tree has one edge fewer than reached nodes |
| OverlayTheorems.RejectsUnlessSeparated | cpp/src/NodeServer.cpp:208-217 | No neighbour is rejected if and only if no two of the portal's neighbours are connected off it, whatever the iteration order |
| Rejections.RejectedExactly | cpp/src/NodeServer.cpp:195-218 | The rejected neighbours are exactly those that an earlier neighbour in the portal's loop is connected to off the portal, and the portal itself |
| Rejections.StepOrdered | cpp/src/NodeServer.cpp:195-218 | In every intermediate state a neighbour of the portal hangs in the branch of a neighbour that is not later in the loop |
| Rejections.PathOfAncestor | cpp/src/NodeServer.cpp:340-345 | The path of a node on the way is the way so far |
| Rejections.SeparatesIffNoneEarly | cpp/src/NodeServer.cpp:208-217 | An overlay separates its portal's neighbours exactly when none is marked early |
| OverlayTheorems.ShippedOverlayRejects | config/topology.conf:20-29 | On the overlay as shipped some neighbour is always rejected |
| FanOut.Fabric.SubmitQuery | cpp/src/NodeServer.cpp:183-223 | Run to its end it gives routes to exactly the connected nodes, one scan to each, and rejects exactly the neighbours an earlier one is connected to off the portal; every assignment on the way is a step of the fan-out machine |
| FanOut.Fabric.ForwardQuery | cpp/src/NodeServer.cpp:312-385 | Refuses a loop or a duplicate without changing anything; otherwise ends with the callee's loop complete and its scan scheduled, having only taken machine steps; terminates on every overlay |
| FanOut.Fabric.RunLoop | cpp/src/NodeServer.cpp:351-380 | The neighbour loop deals with every neighbour, then schedules one scan |
| FanOut.Fabric.ForwardTo | cpp/src/NodeServer.cpp:353-368 | One neighbour: skipped, refused (and marked done by the portal), or accepted and recorded |
| FanOut.CallerWaits | cpp/src/NodeServer.cpp:365-367 | A blocked caller stands where it was when its callee answers |
| FanOut.Ended | cpp/src/NodeServer.cpp:183-223 | What an ended fan-out has reached, scheduled and rejected, by overlay connectivity alone |
| Relay.Carrier.PushChunk | cpp/src/NodeServer.cpp:387-443 | From any node with a route a chunk reaches the portal with rows and producer unchanged, in as many hops as the node's path has edges; it is refused exactly when the request is gone or canceled |
| Relay.Carrier.Send | cpp/src/NodeServer.cpp:522-531 | The retry loop deposits a chunk as often as a try gets through before the first answer |
| Relay.Carrier.ExecuteLocal | cpp/src/NodeServer.cpp:479-533 | A scan's chunks are deposited in order, each as often as its tries get through, the portal's own exactly once; a request that is gone or canceled takes nothing |
| Relay.Carrier.FetchChunk | cpp/src/NodeServer.cpp:230-273 | Drains from the front; with the flag and finality read in one step, the rows of an uncanceled final fetch are the last queued, with no producer pending, and the request is forgotten exactly then |
| Relay.OnceIffOnlyTry | cpp/src/NodeServer.cpp:524-531 | A chunk is deposited exactly once if and only if one try gets through and no later one does |
| Relay.TriedIsRepeated | cpp/src/NodeServer.cpp:524-531 | Whatever the network loses, the tries amount to depositing the chunk some number of times |
| Relay.FiveTries | cpp/src/NodeServer.cpp:524-531 | A chunk whose first four tries are lost and whose fifth is answered is deposited once; one that loses five never is |
| Relay.SentOnce | cpp/src/NodeServer.cpp:496-532 | A network that lets one try of every chunk through deposits the scan as it is |
| Relay.DepositsAPrefix | cpp/src/ChunkBuffer.cpp:9-21 | A scan alone with the buffer adds the longest prefix of its rows that fits: all of them exactly when they fit |
| Relay.MarksWhenFinished | cpp/src/NodeServer.cpp:406-407 | The producer is marked done exactly when it deposits a last chunk |
| ChunkBuffers.ChunkBuffer.PushRows | cpp/src/ChunkBuffer.cpp:9-21 | Appends what fits and says how much; a canceled buffer swallows all and says so |
| ChunkBuffers.ChunkBuffer.PopUpTo | cpp/src/ChunkBuffer.cpp:23-45 | Takes up to max rows off the front, in order, and counts them |
| ChunkBuffers.ChunkBuffer.CancelBuffer | cpp/src/ChunkBuffer.cpp:58-64 | Empties the queue for good |
| ChunkBuffers.FinalByHistory | cpp/src/ChunkBuffer.cpp:71-75 | After any interleaving a request is final if and only if it was canceled, or every row ever accepted has been taken out and enough distinct producers have been marked done |
| ChunkBuffers.ChunkBuffer.PendingProducers | cpp/src/ChunkBuffer.cpp:82-86 | Zero exactly when enough producers are done, otherwise how many are missing |
| ChunkBuffers.BufferConserves | cpp/src/ChunkBuffer.cpp:9-75 | Under every interleaving: queue within capacity, popped rows then queue are the accepted rows in order, the served count is the number popped, pushed is accepted plus refused, and nothing is refused while all pushed rows fit |
| ChunkBuffers.CancelIsForGood | cpp/src/ChunkBuffer.cpp:58-75 | After a cancel nothing is delivered and the request stays final |
| ChunkController.RequestState.RecordFetch | cpp/src/RequestRegistry.cpp:8-25 | One fetch steers the chunk size by the smoothed gap, seven tenths of the mean and three of the gap, in 32-bit arithmetic; a mean from 20 to 500 ms leaves a size within bounds as it is |
| ChunkController.SizeSteps | cpp/src/RequestRegistry.cpp:13-24 | One fetch: between 20 and 500 ms the size stays, below it grows by exactly a quarter and one or to the largest, above it shrinks by exactly that or to the smallest, unless the arithmetic wraps |
| ChunkController.OrdinaryClientSettles | cpp/src/RequestRegistry.cpp:13-24 | A client with a steady gap strictly between keeps its size for good once the mean is nearer to the gap than either threshold is |
| ChunkController.OrdinaryClientIsSettled | cpp/src/RequestRegistry.cpp:13-24 | It is, at the latest, after the stated number of fetches |
| ChunkController.ControllerInBounds | cpp/src/RequestRegistry.cpp:15-24 | After any fetches the size is within bounds, whatever it started at and even if arithmetic wrapped, and the mean stays within the range of its start and the clamped gaps |
| ChunkController.MeanApproaches | cpp/src/RequestRegistry.cpp:13-15 | With a steady gap the mean never crosses it, and after n fetches exactly 0.7 to the n of the distance is left |
| ChunkController.MeanSettles | cpp/src/RequestRegistry.cpp:13-22 | How many fetches bring the mean closer to the gap than a threshold is, exactly |
| ChunkController.SettlesEventually | cpp/src/RequestRegistry.cpp:13-22 | Some number of fetches always does, for a gap off the threshold |
| ChunkController.FastClientReachesMax | cpp/src/RequestRegistry.cpp:18-19 | Once settled a steadily fast client's size grows by a quarter a fetch, so it is the largest after logarithmically many fetches, and stays |
| ChunkController.SlowClientReachesMin | cpp/src/RequestRegistry.cpp:20-22 | A steadily slow client's loses a quarter a fetch down to the smallest, likewise |
| ChunkController.SlowNeverGrows | cpp/src/RequestRegistry.cpp:20-22 | A slow client's size never rises, unless a zero size wraps around |
| ChunkController.ClampOnlyMatters | cpp/src/RequestRegistry.cpp:23-24 | The closing clamp, missing in the Python version, changes the size exactly when steering left it out of bounds |
| GridIndices.Indices.Build | cpp/src/Indices.cpp:17-68 | Every bucket is strictly ascending; borough and complaint buckets partition all rows by value, cell buckets exactly the rows off the origin by cell key; the date index holds every row once in date order |
| GridIndices.Indices.BuildCells | cpp/src/Indices.cpp:55-67 | The cell buckets, alone |
| GridIndices.Indices.DateRange | cpp/src/Indices.cpp:80-109 | Exactly the ascending ids of rows dated within the bounds, zero leaving a side open, for every pair of bounds |
| GridIndices.Indices.GeoBox | cpp/src/Indices.cpp:111-149 | Exactly the ascending ids, each once, of the rows off the origin whose cell the box touches |
| GridIndices.LowerBound | cpp/src/Indices.cpp:91-95 | The first position not below the bound |
| GridIndices.UpperBound | cpp/src/Indices.cpp:96-100 | The first position above the bound |
| GridIndices.CellKeyInjective | cpp/include/Indices.hpp:58-65 | Cells on the grid never share a key |
| GridIndices.PackIsSum | cpp/include/Indices.hpp:62-64 | Shift-and-or of the two halves is their sum and loses neither |
| GridIndices.CellMonotone | cpp/include/Indices.hpp:59-60 | Cells grow with coordinates |
| GridIndices.CellIsHundredth | cpp/include/Indices.hpp:54-60 | A cell is a hundredth of a degree wide and closed below |
| GridIndices.TouchedIffMeets | cpp/src/Indices.cpp:119-125 | The cells a box touches are exactly those of the points in it |
| GridIndices.BoxTouchesCell | cpp/src/Indices.cpp:119-125 | The grid loses no row of the box |
| GridIndices.BucketHolds | cpp/src/Indices.cpp:70-78 | A lookup returns exactly the positions holding the key, and nothing for a missing key |
| GridIndices.DatesPicked | cpp/src/Indices.cpp:102-107 | The entries between the two bounds name exactly the rows dated between them |
| Lists.Intersect | python/partition_store.py:339-355 | The two-cursor merge of ascending lists is their ascending intersection |
| Lists.IntersectAll | python/partition_store.py:332-355 | The smallest-first fold, leaving off early once empty, is exactly what lies in every list |
| Lists.AscendingUnique | cpp/src/QueryEngine.cpp:51-61 | An ascending list is fixed by its members |
| QueryPlan.Candidates | cpp/src/QueryEngine.cpp:92-131 | One list per predicate whose intersection is exactly the rows the indices can find; an empty one proves there are none |
| QueryPlan.BoroughRows | cpp/src/Indices.cpp:70-73 | Ascending ids of exactly the rows of that borough |
| QueryPlan.ComplaintRows | cpp/src/Indices.cpp:75-78 | Ascending ids of exactly the rows of that complaint type |
| QueryPlan.Survivors | cpp/src/QueryEngine.cpp:177-195 | Read off the columns, the intersection is the found rows in row order |
| QueryPlan.FoundInBox | python/partition_store.py:280-286 | Found rows re-validated against the exact box are the reference answer without rows at the origin |
| PartitionScan.PartitionStore.Scan | python/partition_store.py:220-365 | On either path, with any cancels, the chunks yielded are the framing of the rows that path emits, as far as it gets before a cancel (`CanceledScanStops`); only the indexed path needs the box on the grid |
| PartitionScan.PartitionStore.RowByRow | python/partition_store.py:300-330 | The row loop yields the framed reference answer over the rows before a cancel, polled every 1024 rows (`CanceledScanStops`) |
| PartitionScan.PartitionStore.EmitAll | python/partition_store.py:357-365 | The indexed path yields the framed survivors that lie in the box, as far as it gets before a cancel, polled every 1024 survivors |
| PartitionScan.EmitOne | python/partition_store.py:280-298 | One row extends what was emitted; the cap ends it, a full chunk is yielded at once |
| ScanTheorems.IndexedRefinesLinear | python/partition_store.py:220-365 | The two paths yield the same chunks, boundaries and cut-off included, exactly when no delivered row of a box query sits at the origin |
| ScanTheorems.IndexedRefinesLinearEverywhere | python/partition_store.py:220-365 | A spec is safe on every partition exactly when no row at the origin can match it |
| ScanTheorems.ScanFrameCarries | python/partition_store.py:326-329 | Chunks carry exactly the capped rows in order, done once and last, every earlier chunk full, the last one shorter unless the cap ended it, when it is not empty |
| ScanTheorems.SameFrame | python/partition_store.py:296-329 | Answers are framed alike exactly when they agree up to the cap |
| ScanTheorems.ScansAreReference | python/partition_store.py:300-365 | Uncanceled, the row loop emits the reference answer and the indexed path that answer without rows at the origin |
| ScanTheorems.CanceledIsPrefix | python/partition_store.py:308-309 | A canceled scan emits a prefix of the uncanceled one |
| ScanTheorems.CanceledScanStops | python/partition_store.py:307-309 | A scan that first finds the flag set at its poll of item 1024 j emits what the row loop keeps of the first 1024 j rows, the indexed path what lies in the box of the first 1024 j survivors |
| ScanTheorems.ClearScanGoesOn | python/partition_store.py:307-309 | One whose polls all find it clear emits the whole answer |
| ScanTheorems.CanceledAtOnce | python/partition_store.py:358-365 | One canceled before it begins yields a single empty chunk flagged done, on either path |
| ScanTheorems.NothingAskedWantsAll | python/partition_store.py:300-323 | A query with no predicate gets every row |
| Rows.ChunksFrame | cpp/src/QueryEngine.cpp:156-160 | Chunks carry the items in order, done once and last, earlier ones full and the last shorter |
| Rows.ReferenceKeeps | python/partition_store.py:307-323 | The row loop keeps exactly the rows passing every predicate |
| QueryEngine.Engine.Run | cpp/src/QueryEngine.cpp:65-204 | Hands the sink the framing of the capped rows before the first miss, as far as it gets before a cancel (`CanceledRunStops`), the last chunk flagged done |
| QueryEngine.Engine.EmitUntilMiss | cpp/src/QueryEngine.cpp:197-203 | The emit loop sends the rows before the first cancel, polled every 1024 survivors, miss or reached cap |
| QueryEngine.EmitRow | cpp/src/QueryEngine.cpp:138-162 | One row: a miss stops, a full chunk is handed over, the cap stops |
| QueryEngine.RunIsPrefix | cpp/src/QueryEngine.cpp:138-203 | Whatever the cancel flag does, what is sent is a prefix of the answer in row order |
| QueryEngine.CanceledRunStops | cpp/src/QueryEngine.cpp:197-203 | A run that first finds the flag set at its poll of item 1024 j sends the capped rows before the first miss among the first 1024 j survivors; one whose polls all find it clear, among all of them |
| QueryEngine.CanceledRunAtOnce | cpp/src/QueryEngine.cpp:170-203 | One canceled before it begins hands over a single empty chunk flagged done |
| QueryEngine.RunChunksCarry | cpp/src/QueryEngine.cpp:138-162 | Chunks carry exactly the rows sent, done once and last, the others full, 512 rows unless the caller says otherwise |
| QueryEngine.RunIsWholeAnswer | cpp/src/QueryEngine.cpp:138-203 | Uncanceled, it is the whole capped answer exactly when no survivor outside the box precedes one inside that the cap lets through |
| QueryEngine.BoxlessRunIsWhole | cpp/src/QueryEngine.cpp:164-204 | Without a box it is the whole capped reference answer |
| QueryEngine.BoxRunCanLoseAnyRow | cpp/src/QueryEngine.cpp:144 | Any row a box query should return is lost behind one row of the same cells just outside the box |
| QueryEngine.RunIsReferenceIff | cpp/src/QueryEngine.cpp:138-203 | The run is the capped plain filter exactly when it loses no row and no row it should send sits at the origin of a box query |
| QueryEngine.RunIsWholeEverywhereIff | cpp/src/QueryEngine.cpp:138-203 | A spec is answered whole on every store exactly when it has no box, no date can match, or the box is empty or the point (0, 0) |
| QueryEngine.EnginesAgreeIff | cpp/src/QueryEngine.cpp:44-46 | The engine answers as the Python row loop on every store exactly when no date can match; or, without a box, the borough fits the byte it is cast to; or, with one, the box is empty, or is the point (0, 0) and the borough does not fit |
| QueryEngine.BoroughWraps | cpp/src/QueryEngine.cpp:44-46 | An instance: for borough 256 the engine asks for rows with no borough and the Python scan for nothing |
| QueryCaches.QueryCache.Get | cpp/src/QueryCache.cpp:46-60 | Returns what the recency list holds for an equal spec and moves it to the front; anything else leaves the list alone |
| QueryCaches.QueryCache.Put | cpp/src/QueryCache.cpp:62-88 | Replaces the rows of an equal spec, or evicts only the least recently used and adds; ignores oversized results |
| QueryCaches.QueryCache.Find | cpp/src/QueryCache.cpp:50-57 | Finds an equal spec in the bucket of its hash if there is one anywhere, for any colliding hash |
| QueryCaches.QueryCache.EvictLast | cpp/src/QueryCache.cpp:77-84 | Drops the last node from list and multimap, keeping them in bijection |
| QueryCaches.QueryCache.PushFront | cpp/src/QueryCache.cpp:86-87 | Adds a node to both, keeping them in bijection |
| QueryCaches.QueryCache.MoveToFront | cpp/src/QueryCache.cpp:53 | Splices a node to the front and changes nothing else |
| QueryCaches.WithoutLastSound | cpp/src/QueryCache.cpp:77-84 | Eviction keeps one multimap entry per node under the node's own hash, no two equal specs, size within capacity |
| QueryCaches.PushedSound | cpp/src/QueryCache.cpp:86-87 | So does adding a node |
| QueryCaches.ToFrontSound | cpp/src/QueryCache.cpp:53 | So does moving one to the front |
| QueryCaches.HashSpecRespects | cpp/src/QueryCache.cpp:10-25 | Equal specs hash alike, whatever the field hashes and their mixing |
| RecencyTheorems.CacheIsMostRecent | cpp/src/QueryCache.cpp:46-88 | After every sequence of gets and puts the cache holds exactly the capacity most recently used keys, latest first |
| RecencyTheorems.HitIsLatestPut | cpp/src/QueryCache.cpp:46-88 | A get that hits returns the rows of the latest accepted put of its key |
| RecencyTheorems.HitsExactlyWhenRecent | cpp/src/QueryCache.cpp:46-88 | A get hits exactly when its key was used before and fewer than capacity other keys since |
| CacheKey.EqualSpecsRunAlike | cpp/src/QueryCache.cpp:27-41 | Equal specs make every engine and every scan emit the same rows on every store, under the same cancels |
| CacheKey.EqualSpecsAnswerAlike | cpp/src/QueryCache.cpp:27-41 | A result that answers one spec over the whole data set answers every equal one |
| CacheKey.SpecEqualIsEquivalence | cpp/src/QueryCache.cpp:27-41 | Equality of specs is an equivalence |
| CacheKey.BoxCountsWhenUsed | cpp/src/QueryCache.cpp:34-39 | The box takes part in the key exactly when it is used |
| PortalCache.EveryRunKeeps | cpp/src/NodeServer.cpp:143-275 | What every interleaving of submissions, pushes, cancels and the three looks of each fetch keeps: collecting means the accumulation is everything delivered and within an entry's size, entries and hits are backed by stored earlier answers |
| PortalCache.EntriesAreEarlierAnswers | cpp/src/NodeServer.cpp:248-271 | Every entry is the whole sequence delivered to an earlier forwarded request with an equal spec; it is all that request's buffer accepted exactly when no row was cleared by a cancel, which only one racing its last fetch can have done |
| PortalCache.StoredExactlyWhen | cpp/src/NodeServer.cpp:247-271 | A request is recorded as stored exactly when it was forwarded, not reported canceled, never overflowed an entry, and the cache has room for entries; that its rows then are in the cache is `StoredIsFound` |
| PortalCache.HitRepeatsEarlierAnswer | cpp/src/NodeServer.cpp:143-165 | A hit that ends uncanceled delivered an earlier equal request's rows as far as they fit the buffer, then whatever was pushed to it; when nothing was, all of them exactly when the entry is no longer than the buffer |
| PortalCache.RaceStoresPartial | cpp/src/NodeServer.cpp:263-271 | For every fetch size a cancel between the two reads can leave a partial result in the cache |
| PortalTheorems.CacheFollowsHistory | cpp/src/NodeServer.cpp:143-275 | After any interleaving the cache is exactly what one get for each new submission and one put for each request that ended and was stored, of the rows it was delivered, leave in it, in that order |
| PortalTheorems.StoredIsFound | cpp/src/NodeServer.cpp:267-271 | Right after a request ended and was stored its key is answered with the rows it was delivered; one that is not stored leaves the cache alone |
| PortalTheorems.SubmissionIsAnswered | cpp/src/NodeServer.cpp:143-165 | After any history a new request is answered from the cache if and only if its key was used before and fewer than the capacity other keys since, and then with what the latest stored request of an equal spec was delivered |
| PortalTheorems.SubmitRegisters | cpp/src/NodeServer.cpp:143-181 | In every state a submission registers what the cache has for its key, with nobody left to wait for, or an empty buffer that waits for all producers, and touches no other request |
| PortalTheorems.HitKept | cpp/src/NodeServer.cpp:143-165 | Whatever happens to other requests, one answered from the cache that is only fetched stands until it has ended, uncanceled, with exactly the cached rows that fit |
| PortalTheorems.FinishEndsDrained | cpp/src/NodeServer.cpp:264-273 | A reading of finality ends it exactly when its last row has been drained |
| PortalTheorems.OthersDoNotMatter | cpp/src/NodeServer.cpp:225-275 | What a request has become depends only on the steps that name it |
| PortalTheorems.HitEndsExactly | cpp/src/NodeServer.cpp:143-165 | With any steps of others in between it has ended after n fetches of m rows if and only if there was one and m times n reaches the cached rows that fit |
| CachedAnswers.StoresWholeIff | cpp/src/NodeServer.cpp:135-275 | Whatever else the portal serves and whenever the request is canceled, but for a cancel between its last fetch's two reads: its cached result is the query's whole answer in every run if and only if no partial one is possible that an entry would hold |
| CachedAnswers.StoresWholeIffExact | cpp/src/NodeServer.cpp:135-275 | When an entry holds all rows the nodes have to send: exactly when every run is exact |
| CachedAnswers.StoresWholeRacedIff | cpp/src/NodeServer.cpp:263-271 | With that race too: only whole answers are stored, in every run, if and only if nothing is ever stored, or nothing matches and no row can be delivered and stored |
| CachedAnswers.TellsWholeIffExact | cpp/src/NodeServer.cpp:263-264 | But for the race, a client told "final" and not "canceled" holds the whole answer in every run if and only if every run is exact |
| CachedAnswers.TellsWholeRacedIff | cpp/src/NodeServer.cpp:263-264 | With it, if and only if nothing matches and no row can be delivered |
| CachedAnswers.NothingRaced | cpp/src/NodeServer.cpp:263-271 | On every overlay, for every query and fetch size, some race tells the client "final" and not "canceled" with no row delivered, and stores that if there are entries |
| CachedAnswers.HitAnswersIff | cpp/src/NodeServer.cpp:143-165 | After any run of a served request and whatever the portal did since, a hit on what it left gives the whole answer to any equal spec if and only if that was the whole answer and no longer than the buffer |
| CachedAnswers.NextClientIsAnswered | cpp/src/NodeServer.cpp:143-165 | As long as the cache has what a served request left, a later request with an equal spec does end, with the fetch that drains those rows, and gives the whole answer if and only if they were that and no longer than the buffer |
| CachedAnswers.EndIsDelivery | cpp/src/NodeServer.cpp:248-271 | A request that ended, canceled or not, is recorded with the rows of a run of the delivery, and stored exactly when it was not told of a cancel and they are no more than an entry may have |
| Services.EveryServiceMirrors | cpp/src/NodeServer.cpp:167-275 | Under every interleaving with other requests and with cancels of its own the portal's view of a request is its delivery's: same queue, same marks, same canceled flag, same rows delivered |
| PortalServers.PortalServer.SubmitQuery | cpp/src/NodeServer.cpp:143-181 | Answers "cached" exactly when the cache has rows for an equal spec, and then registers a request whose buffer holds them as far as they fit and that waits for nobody; otherwise one that is to be forwarded: one machine step |
| PortalServers.PortalServer.PushChunk | cpp/src/NodeServer.cpp:391-414 | Refuses exactly for a gone or canceled request; otherwise, for any request, takes what fits and then marks a last chunk's producer |
| PortalServers.PortalServer.FetchChunk | cpp/src/NodeServer.cpp:230-275 | Drains at most the wanted or suggested size, capped; answers canceled exactly when the buffer is, and final exactly when it is canceled or the rows drained are the last and all producers are done; a final answer ends the request, recorded with these rows last and this very answer, and a stored result is then what the cache has for its key; an unknown request is answered canceled and final |
| PortalServers.PortalServer.Finish | cpp/src/NodeServer.cpp:264-273 | Reads finality, and if final erases the request, recorded as it is, and stores: the rows stored are then what the cache has for its key |
| PortalServers.PortalServer.CancelQuery | cpp/src/NodeServer.cpp:277-280 | Cancels the request's buffer if it is registered |
| CancelPropagation.CancelFabric.CancelQuery | cpp/src/NodeServer.cpp:277-295 | With no ring in reach it returns, every other connected node is called exactly once and the portal never, every connected node's route is canceled and the portal's buffer is canceled and empty |
| CancelPropagation.CancelFabric.Abort | cpp/src/NodeServer.cpp:445-462 | Calls and marks exactly the nodes beyond it, once each |
| CancelPropagation.CancelFabric.PassOn | cpp/src/NodeServer.cpp:453-459 | Passes on to every neighbour but the one it came from |
| CancelPropagation.AbortEndsIff | cpp/src/NodeServer.cpp:445-462 | Nested abort calls are bounded if and only if no ring of three or more nodes and at most one self-edge are connected to the portal |
| CancelPropagation.RingNestsDeeper | cpp/src/NodeServer.cpp:453-459 | A ring within reach lets them nest deeper than any bound |
| CancelPropagation.LoopsNestDeeper | cpp/src/NodeServer.cpp:453-459 | So do two self-edges |
| CancelPropagation.ShippedAbortNeverEnds | config/topology.conf:20-29 | On the overlay as shipped they do |
| CancelPropagation.UnderOne | cpp/src/NodeServer.cpp:453-459 | On a tree overlay a node is beyond at most one neighbour |
| Walks.OnwardNeverRepeats | cpp/src/NodeServer.cpp:453-454 | Without rings, calls that never turn straight back never return to a node |
| Walks.OneLoopIsShort | cpp/src/NodeServer.cpp:453-454 | Without wider rings and with at most one self-edge in reach they are at most twice as long as there are nodes |
| Walks.OneWay | cpp/src/NodeServer.cpp:453-454 | Without rings there is at most one onward walk between two nodes |
| Walks.AcyclicSeparates | cpp/src/NodeServer.cpp:208-217 | On a tree overlay the portal separates its neighbours, so nobody is rejected |

## Left out

- The transport: deadlines, failed forwards and failed cancels; only a producer's pushes may be lost or lose their answer (`relay`), and nowhere else do calls fail.
- `ttl` on forwards: carried and decremented (`cpp/src/NodeServer.cpp:363`) but never tested.
- Blocking: a fetch that waits is a fetch taken later; condition variables, the janitor thread and expiry are not part of this model.
- Loading and parsing: CSV, dates, borough names and configuration text; columns are given, of equal length, and the overlay is a symmetric neighbour relation.
- Floating point: coordinates are reals, so NaN and rounding are not part of this model; coordinates must lie on the grid, where a biased cell fits 32 bits.
- PartitionScan.PartitionStore.Scan: the indexed path requires a box on the 32-bit grid, because off it two cells can share a key; the row loop takes any box.
- The library hash functions and the mixing of two hashes: any functions at all.
- List iterators are ids that stay with their node; the multimap is a map from hash to a sequence of them.
- Looking up a request and then locking its buffer is one step of `delivery`, and so are a fetch's readings of the canceled flag and of finality; the three looks of a fetch are separate in `portal` and `services`, a push's deposit and mark everywhere.
- Relay.Carrier.FetchChunk: takes the two readings as one step, so no cancel falls between them there.
- PortalServers.PortalServer.FetchChunk: fetches of one request follow each other, as the source assumes of its callers (`cpp/src/NodeServer.cpp:247`).
- A caller cannot fetch or cancel before its submission has returned, since only then does it know the request's id.
- A canceled scan may stop early; `delivery` lets it send on, and all of it is refused.
- CachedAnswers.StoresWholeIff: leaves out queries with a borough outside the byte range for which some C++ node sends rows all the same; nothing matches them, and `StoresWholeIffExact` and the results on what a client is told and on hits do cover them.
- CancelPropagation.CancelFabric.CancelQuery: requires no ring and no self-edge in reach; with a single self-edge the calls end too (`AbortEndsIff`), but come to some nodes twice.
- The portal's handlers are given the suggested and the largest chunk size; how the suggested one changes is `request_state`.
- The set of started producers is recorded by the buffer but never read; the portal machine leaves it empty.
- `relay` takes a climbing push as the one blocking call it is; `delivery` takes it hop by hop, so that anything can happen between two hops.
- GetStats, Ping, logging, memory estimates, the client program and the benchmarks.
- Counters in a response (rows so far, pending producers, delay hints) beyond what the buffer's own members state.
