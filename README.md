# ScaleIoT landing page: the parking-lot and path-finding core in Dafny

The ScaleIoT landing page animates a procedurally generated parking lot behind its
sections. Cars are routes traced through the lot. This project models the logic
behind those animations and the small helpers around them:

- **Neon vector background** (`NeonVectorBackground.js`).
  - A lot generator: a rows × cols grid of spots, one horizontal aisle segment per cell, a vertical main aisle per column, and two gates.
  - A navigation graph. Nodes sit at aisle ends and crossings; edges are symmetric and cost their length along one axis.
  - A Manhattan-heuristic A* over that graph, and snapping of a point to its nearest node.
  - Routes with an L-shaped fallback, and a route manager that prunes expired routes and tops the list back up to a clamped target.
  - Modules `ParkingLot`, `NeonLot`, `NavGraph`, `NeonSearch`, `NeonRoutes` and `SvgPath`.
- **Grid animation** (`ParkingLotAnimation.js`).
  - A 20 × 15 grid of 40-pixel cells with roads and randomly kept spots.
  - A grid A* with four-neighbour moves, and the route-tracing animation: SVG curves, the traced prefix, and the 0.02 progress tick.
  - Modules `GridLot` and `GridAnimation`.
- **Hero animation** (`Hero.js`). The same spot grid (24 × 18 cells of 20 pixels) and a path builder that steps diagonally towards the goal. Module `HeroAnimation`.
- **Smart-parking background** (`background.js`). A fixed-size lot over clamped dimensions, L-shaped routes with their SVG path strings and randomised durations, and the spawner that drops old routes and appends new ones. Module `Background`.
- **Small helpers**, one module each:
  - `HowItWorks`: section scroll progress and step illumination.
  - `Credibility`: bio toggles, initials, photo/avatar choice.
  - `Theme`: initial theme, persistence, the CSS palette, the `useTheme` guard.
  - `EmailService`: compiled messages, subjects, send outcome, mailto fallback.
  - `PageScript` (`script.js`): `trim`, form validation, submit handling, `throttle`, the analytics form type, and overlay open/close with Escape and click-outside.
  - `ScrollProgress`: the page scroll fraction and the visibility latch.

The model follows the source's own form:

- Code that mutates step by step is written as methods with loops and invariants. This covers the lot loops, the graph builder, both A* searches, nearest-node search, the diagonal walk, form validation and SVG path accumulation.
- Objects whose state React or the DOM updates are classes: the graph builder, the route manager, the animations, the theme provider, the throttle, the page overlays and the scroll hook.
- Pure expressions are functions.

Several things are modelled as inputs:

- Random draws are reals in [0, 1) passed as parameters, and `Math.floor(Math.random() * n)` is `Pick(r, n)`.
- Clock readings are parameters.
- Number-to-text formatting in SVG strings is a parameter `num`.
- `encodeURIComponent` is a parameter `enc`.

JavaScript `Map`/`Set` insertion order is kept by using sequences. Coordinates are exact reals or integers.

## Model

| member | source | states |
|---|---|---|
| Common.Manhattan | src/components/NeonVectorBackground.js:186 | The Manhattan distance used to snap points is non-negative and zero exactly when the points coincide. |
| Common.ManhattanTriangle | src/components/NeonVectorBackground.js:201-205 | The A* heuristic obeys the triangle inequality, so it never overestimates a route through an intermediate node. |
| Common.Pick | src/components/NeonVectorBackground.js:272 | `Math.floor(r * n)` for a draw r in [0, 1) is always a valid index below n. |
| Common.TotalLength | src/components/NeonVectorBackground.js:260-266 | The summed segment length of an axis-aligned path is non-negative and at least the Manhattan distance between its ends. |
| SvgPath.RestTextSnoc | src/components/NeonVectorBackground.js:256 | Appending a command to the tail adds exactly one space-separated command text at the end. |
| SvgPath.RenderSnoc | src/components/NeonVectorBackground.js:253-258 | Rendering a path with one more command appends exactly that command's text after a space. |
| SvgPath.EndsPolyline | src/components/NeonVectorBackground.js:253-258 | The points a move-then-lines path visits are exactly the input points, in order. |
| SvgPath.PolylineShape | src/components/NeonVectorBackground.js:255-256 | A polyline starts with one `M` at the first point and has one `L` per later point. |
| ParkingLot.LayOut | src/components/NeonVectorBackground.js:52-108 | The nested loops push the top/bottom spot pairs and aisle segments row by row, then one vertical main per column. |
| ParkingLot.RowSpotsCount | src/components/NeonVectorBackground.js:53-79 | A row of n cells holds 2·n spots. |
| ParkingLot.LotSpotsCount | src/components/NeonVectorBackground.js:52-95 | A lot of rows × cols cells holds exactly 2·rows·cols spots. |
| ParkingLot.RowAislesShape | src/components/NeonVectorBackground.js:81-93 | A row contributes one aisle segment per cell, each horizontal (y1 = y2) and not a main. |
| ParkingLot.LotAislesShape | src/components/NeonVectorBackground.js:52-95 | The grid contributes rows·cols horizontal non-main segments. |
| ParkingLot.MainsShape | src/components/NeonVectorBackground.js:98-108 | There is one main per column, each vertical (x1 = x2) and marked main. |
| ParkingLot.LotSpotsInGrid | src/components/NeonVectorBackground.js:52-79 | Every spot's id names a row below rows and a column below cols. |
| ParkingLot.RowSpotsInRow | src/components/NeonVectorBackground.js:58-79 | The spots pushed for a row carry that row in their id. |
| ParkingLot.TopSpotMeetsAisle | src/components/NeonVectorBackground.js:66-84 | A top spot's aisle connection lies on its cell's aisle segment, at the segment's midpoint. |
| ParkingLot.MainCrossesSegment | src/components/NeonVectorBackground.js:82-99 | Each column's main aisle passes through the midpoint of every aisle segment in that column. |
| NeonLot.NeonGeo | src/components/NeonVectorBackground.js:40-43 | For a positive viewport, padding and spot/aisle sizes are positive and the padding leaves room vertically. |
| NeonLot.GridCount | src/components/NeonVectorBackground.js:45-46 | `Math.max(lo, Math.floor(span / step))` is at least lo, and equals the floor whenever that reaches lo. |
| NeonLot.GenerateLot | src/components/NeonVectorBackground.js:38-125 | The lot is exactly `NeonLotOf(width, height)`: the grid's spots and segments, then the vertical mains, with the main and side gates. Also stated: cols ≥ 15, rows ≥ 10, 2·rows·cols spots, rows·cols horizontal segments, then cols vertical mains, main and side gates, all spots inside the grid. |
| NavGraph.WithNodeIdempotent | src/components/NeonVectorBackground.js:135-140 | Adding a node twice is the same as adding it once; an existing node leaves the graph unchanged. |
| NavGraph.WithNodeWellFormed | src/components/NeonVectorBackground.js:135-140 | Adding a node keeps the node list duplicate-free and the adjacency map in step with it. |
| NavGraph.WithEdgeSymmetric | src/components/NeonVectorBackground.js:141-144 | `addEdge(a, b, c)` puts b in a's list and a in b's list with the same cost, and keeps every earlier edge. |
| NavGraph.WithEdgeWellFormed | src/components/NeonVectorBackground.js:141-177 | An axis-aligned edge between distinct nodes, costing their distance, keeps the graph symmetric with positive costs. |
| NavGraph.Builder.constructor | src/components/NeonVectorBackground.js:131-132 | The builder starts with no nodes and no adjacency lists. |
| NavGraph.Builder.AddNode | src/components/NeonVectorBackground.js:135-140 | Returns the coordinate key and adds the node only if it is new. |
| NavGraph.Builder.AddEdge | src/components/NeonVectorBackground.js:141-144 | Appends the edge to both endpoints' lists. |
| NavGraph.Builder.AddNodeList | src/components/NeonVectorBackground.js:159 | `xs.map(x => addNode(x, y))` returns the points themselves as keys, and the new graph is the old one with the points added one after another. |
| NavGraph.AddNodes | src/components/NeonVectorBackground.js:159 | Adding a run of points gives exactly the old nodes and adjacency keys plus the run's points, and leaves every existing adjacency list as it was. |
| NavGraph.AddEdges | src/components/NeonVectorBackground.js:160-164 | The edge loop adds no node and no adjacency key. |
| NavGraph.AddNodesWellFormed | src/components/NeonVectorBackground.js:159 | Adding the run's nodes keeps the graph well formed. |
| NavGraph.WithEdgeExtends | src/components/NeonVectorBackground.js:141-144 | One `addEdge` at the distance between its ends keeps every earlier node, list and edge and joins the two ends both ways. |
| NavGraph.AddEdgesWellFormed | src/components/NeonVectorBackground.js:160-164 | Joining each consecutive pair of a run of distinct, axis-aligned points at their distance keeps the graph symmetric with positive axis-aligned costs. |
| NavGraph.AddEdgesJoins | src/components/NeonVectorBackground.js:160-164 | The edge loop keeps every node, list and edge, and joins each consecutive pair both ways at the absolute difference of their coordinates. |
| NavGraph.ChainWellFormed | src/components/NeonVectorBackground.js:159-164 | Adding a whole straight run (nodes, then edges) keeps the graph well formed. |
| NavGraph.ChainJoins | src/components/NeonVectorBackground.js:159-164 | Adding a whole run keeps everything the graph had, makes every point a node and joins each consecutive pair both ways. |
| NavGraph.Builder.AddHorizontalChain | src/components/NeonVectorBackground.js:159-164 | The new graph is exactly the old one with a node at every (x, y), in order, then an edge between each consecutive pair costing the difference of their x values. |
| NavGraph.Builder.AddVerticalChain | src/components/NeonVectorBackground.js:173-178 | The new graph is exactly the old one with a node at every (x, y), in order, then an edge between each consecutive pair costing the difference of their y values. |
| NavGraph.Filter | src/components/NeonVectorBackground.js:146-147 | The kept aisles are exactly those passing the test. |
| NavGraph.SortDistinct | src/components/NeonVectorBackground.js:149-157 | `Array.from(new Set(..)).sort(..)` gives a strictly increasing list with the same values. |
| NavGraph.InRange | src/components/NeonVectorBackground.js:156 | Filtering a sorted list to [lo, hi] keeps it sorted and keeps exactly the values in range. |
| NavGraph.MinOf | src/components/NeonVectorBackground.js:154 | The minimum is one of the values and no value is below it. |
| NavGraph.MaxOf | src/components/NeonVectorBackground.js:155 | The maximum is one of the values and no value is above it. |
| NavGraph.VerticalXs | src/components/NeonVectorBackground.js:150 | The vertical x values are ascending without repeats, and every vertical aisle's x is among them. |
| NavGraph.AtX | src/components/NeonVectorBackground.js:168 | The verticals matching x are exactly the vertical aisles at x. |
| NavGraph.Cuts | src/components/NeonVectorBackground.js:153-157 | A horizontal aisle is cut at an ascending list of x values: exactly its two ends and every vertical x inside its span. |
| NavGraph.LowestLow | src/components/NeonVectorBackground.js:169 | The least low end of the verticals at x is at or below y exactly when one of them reaches down to y. |
| NavGraph.HighestHigh | src/components/NeonVectorBackground.js:170 | The greatest high end of the verticals at x is at or above y exactly when one of them reaches up to y. |
| NavGraph.VerticalCutsExact | src/components/NeonVectorBackground.js:167-171 | y is a cut of the vertical x exactly when y is a horizontal aisle's y, some vertical at x reaches down to it and some vertical at x reaches up to it; with no vertical at x there is no cut. |
| NavGraph.AddChainEmpty | src/components/NeonVectorBackground.js:172 | A vertical x without cuts adds nothing, as the early `return` does. |
| NavGraph.AddHorizontals | src/components/NeonVectorBackground.js:152-165 | The loop builds exactly the horizontal pass: one chain per horizontal aisle, in order, through its cuts. |
| NavGraph.AddVerticals | src/components/NeonVectorBackground.js:167-179 | The loop builds exactly the vertical pass: one chain per distinct vertical x, in order, through its cuts, and nothing for an x without cuts. |
| NavGraph.HorizontalPassWellFormed | src/components/NeonVectorBackground.js:152-165 | The horizontal pass keeps the graph well formed. |
| NavGraph.HorizontalPassChains | src/components/NeonVectorBackground.js:152-165 | The horizontal pass keeps everything the graph had, and leaves every horizontal aisle a chain of edges through its cuts. |
| NavGraph.VerticalPassWellFormed | src/components/NeonVectorBackground.js:167-179 | The vertical pass keeps the graph well formed. |
| NavGraph.VerticalPassChains | src/components/NeonVectorBackground.js:167-179 | The vertical pass keeps everything the graph had, and leaves every vertical x a chain of edges through its cuts. |
| NavGraph.NavGraphWellFormed | src/components/NeonVectorBackground.js:130-179 | The built graph is symmetric, with axis-aligned edges of positive cost equal to the distance between their ends. |
| NavGraph.NavGraphChains | src/components/NeonVectorBackground.js:152-179 | In the built graph every horizontal aisle and every distinct vertical x is joined end to end through its cuts, each edge costing the difference of the coordinates. |
| NavGraph.NavGraphRowNodes | src/components/NeonVectorBackground.js:152-159 | Every cut of every horizontal aisle is a node of the built graph. |
| NavGraph.CrossingCovered | src/components/NeonVectorBackground.js:152-159 | Both ends of a horizontal aisle are nodes, and so is the point where a vertical x crosses it inside its span. |
| NavGraph.NavGraphCrossings | src/components/NeonVectorBackground.js:152-159 | For every horizontal and vertical aisle pair, the horizontal's ends and their crossing inside its span are nodes. |
| NavGraph.NavGraphColumnNodes | src/components/NeonVectorBackground.js:167-173 | Every cut of every vertical x is a node of the built graph. |
| NavGraph.NavGraphVerticalNodes | src/components/NeonVectorBackground.js:167-173 | On every vertical aisle, each horizontal y inside its span is a node. |
| NavGraph.NavGraphNonEmpty | src/components/NeonVectorBackground.js:152-159 | A lot with a horizontal aisle gets a graph with at least one node. |
| NavGraph.BuildGraph | src/components/NeonVectorBackground.js:130-179 | The builder returns exactly the graph of the two passes. It is well formed, every horizontal aisle and vertical x is a chain of edges through its cuts, every crossing is a node, and it is non-empty when there is a horizontal aisle. |
| NavGraph.NearestNodeKey | src/components/NeonVectorBackground.js:182-190 | Null iff there are no nodes; otherwise a node of minimal Manhattan distance, the first such in node order (strict `<`). |
| NeonSearch.LowestF | src/components/NeonVectorBackground.js:213-221 | The chosen key is open and has the lowest fScore of all open keys; on ties it is the earliest such key in open order, because the comparison is a strict `<`. |
| NeonSearch.Remove | src/components/NeonVectorBackground.js:236 | Deleting from the open set removes exactly that key. |
| NeonSearch.Reverse | src/components/NeonVectorBackground.js:232 | The reversed path holds the same keys in the opposite order. |
| NeonSearch.UpdateKeepsInv | src/components/NeonVectorBackground.js:241-245 | Setting a neighbour's predecessor, gScore and fScore for a strictly better tentative score along an edge, and opening it, keeps the search invariant (start first with score 0, every predecessor an edge to a lower gScore, open keys scored). |
| NeonSearch.LinksAfterUpdate | src/components/NeonVectorBackground.js:241-243 | Pointing a neighbour at current with a score strictly between current's and its old one keeps every predecessor link an edge to a lower score, and the neighbour is not the start. |
| NeonSearch.Relax | src/components/NeonVectorBackground.js:237-247 | After relaxing every edge of current, each neighbour is scored at most gScore[current] + cost, no score gets worse, current's score is unchanged, and the search invariant holds. |
| NeonSearch.RelaxEdge | src/components/NeonVectorBackground.js:240-245 | For one edge: when the tentative score beats the neighbour's (or it has none), cameFrom, gScore and fScore become current, g + cost and g + cost + h, and the neighbour is opened if it was not; otherwise nothing changes. The invariant is kept either way. |
| NeonSearch.ExtendChain | src/components/NeonVectorBackground.js:227-231 | Stepping back to a predecessor with a lower score extends the back-chain and never revisits a key. |
| NeonSearch.Backtrack | src/components/NeonVectorBackground.js:226-231 | Following `cameFrom` from the goal terminates at the start along graph edges. |
| NeonSearch.Reconstruct | src/components/NeonVectorBackground.js:225-233 | The reconstructed path starts at start, ends at goal, stays in the graph and follows edges. |
| NeonSearch.ReversedChainIsPath | src/components/NeonVectorBackground.js:226-232 | The predecessor chain, once reversed (`path.reverse()`), is a path of graph nodes joined by edges. |
| NeonSearch.AStar | src/components/NeonVectorBackground.js:198-251 | Null when either key is missing or not in the graph; any path returned is a valid edge path from start to goal; start = goal gives [start]. |
| NeonRoutes.LineTexts | src/components/NeonVectorBackground.js:256 | One `L x y` text per remaining point, in order. |
| NeonRoutes.PathToD | src/components/NeonVectorBackground.js:253-258 | Definition of `pathToD`: '' for no points, otherwise `M x0 y0`, a space, then the space-joined `L x y` texts of the later points. Its shape is proved in `NeonRoutes.PathToDIsPolyline`. |
| NeonRoutes.JoinIsRestText | src/components/NeonVectorBackground.js:256-257 | Joining the `L` texts with spaces is the rendered tail of a line path. |
| NeonRoutes.PathToDIsPolyline | src/components/NeonVectorBackground.js:253-258 | `pathToD` is `M x0 y0` followed by one ` L x y` per later point ('' for no points), and a single point keeps the trailing space the template writes. |
| NeonRoutes.FallbackLength | src/components/NeonVectorBackground.js:296-300 | The L-shaped fallback [start, (goal.x, start.y), goal] is axis-aligned and its length is the Manhattan distance. |
| NeonRoutes.Target | src/components/NeonVectorBackground.js:322 | The target is floor(concurrentPaths) clamped to 1..20. |
| NeonRoutes.Prune | src/components/NeonVectorBackground.js:324-325 | Keeps exactly the routes with now − startTime < (duration + 1.2)·1000, never more. |
| NeonRoutes.PruneIdempotent | src/components/NeonVectorBackground.js:324-325 | Pruning twice at the same time changes nothing more. |
| NeonRoutes.PruneLater | src/components/NeonVectorBackground.js:324-325 | Pruning now then later equals pruning later. |
| NeonRoutes.PruneAppend | src/components/NeonVectorBackground.js:324-325 | Pruning distributes over concatenation, preserving order. |
| NeonRoutes.ValidPathAxisAligned | src/components/NeonVectorBackground.js:160-178 | Every A* path moves along one axis per edge. |
| NeonRoutes.RouteManager.constructor | src/components/NeonVectorBackground.js:130-193 | The graph is exactly the one buildGraph makes from the lot's aisles, and well formed; the target is clamped, and there are no routes and id 0. |
| NeonRoutes.RouteManager.ChooseStartKey | src/components/NeonVectorBackground.js:269-283 | An internal node when allowed and the coin is below 0.7; else the node nearest a drawn gate; else the first node; null iff the graph is empty. |
| NeonRoutes.RouteManager.SearchOrFallback | src/components/NeonVectorBackground.js:295-300 | The nodes run from start to goal, either along graph edges (the A* path, when it has two or more nodes) or as the L-shaped [start, (goal.x, start.y), goal], and each step stays on one axis. |
| NeonRoutes.RouteManager.CreateRoute | src/components/NeonVectorBackground.js:288-314 | Null iff no nodes or no spots. Otherwise it takes the next id; the route starts at the node chooseStartKey picks from the coin and start draws and ends at the node nearest the drawn spot, along an A* path or the L-shaped fallback, with d = pathToD, its length, duration 1 and delay 0.05 + jitter. |
| NeonRoutes.RouteManager.PruneTick | src/components/NeonVectorBackground.js:357-360 | The periodic cleanup replaces the list by its pruned list. |
| NeonRoutes.RouteManager.CreateBatch | src/components/NeonVectorBackground.js:334-345 | Creates `count` routes (none if no nodes or spots). `Staggered`: the k-th has the `RouteShape` of a `createRoute` from the k-th draws (start rule, nearest goal, searched path, its `d` string, length, duration 1), starts at now + k·100 ms, takes id nextId + k and has delay 0.05 + its jitter + k·0.12. |
| NeonRoutes.RouteManager.TopUp | src/components/NeonVectorBackground.js:327-348 | The survivors are kept as an order-preserving prefix. The list is unchanged when the deficit is ≤ 0; otherwise it is filled exactly to the target, and the new suffix is `Staggered`: each new route has the `RouteShape` of its draws, a staggered start and delay, and fresh consecutive ids. |
| GridLot.GenerateSpots | src/components/ParkingLotAnimation.js:56-75 | The nested loops produce exactly the spots of the reference row-by-row enumeration. |
| GridLot.OrderedAppend | src/components/ParkingLotAnimation.js:56-75 | Spots appended from a later row keep the row-major order. |
| GridLot.RowGridSpotsFacts | src/components/ParkingLotAnimation.js:57-73 | A row's spots are exactly the kept, non-road cells 1..n of that row, in column order. |
| GridLot.GridSpotsFacts | src/components/ParkingLotAnimation.js:56-75 | The lot's spots are exactly the kept, non-road cells of rows 1..n and columns 1..width−2, in row-major order. |
| GridLot.GeneratedSpotsPlaced | src/components/ParkingLotAnimation.js:56-75 | Every spot lies strictly inside the lot, off the roads, and was kept; every kept off-road cell has its spot (1 ≤ row ≤ 13 and 1 ≤ col ≤ 18 here, 1..16 and 1..22 in the hero). |
| GridLot.Tick | src/components/ParkingLotAnimation.js:183-190 | From a non-negative progress the tick stays in [0, 1), and it either adds 0.02 or resets to 0. |
| GridLot.TicksLinear | src/components/ParkingLotAnimation.js:183-190 | Before the reset the progress after n ticks is n·0.02. |
| GridLot.TraceTakesFiftyTicks | src/components/ParkingLotAnimation.js:183-190 | A trace takes exactly 50 ticks: progress stays positive for ticks 1..49 and the 50th resets it. |
| GridAnimation.Heuristic | src/components/ParkingLotAnimation.js:136-138 | The Manhattan cell distance is zero exactly for equal cells. |
| GridAnimation.GetNeighbors | src/components/ParkingLotAnimation.js:141-161 | At most 4 cells, and a cell is returned iff it is one step away, inside the 20 × 15 lot and off the roads. |
| GridAnimation.OrInf | src/components/ParkingLotAnimation.js:94-120 | `score || Infinity` is Infinity for a missing score and also for a stored 0. |
| GridAnimation.ReduceLowest | src/components/ParkingLotAnimation.js:93-97 | The reduce returns the seed or one of the open cells; no open cell has a strictly lower `\|\| Infinity` f score, and the seed is left only for a strictly lower score. |
| GridAnimation.ReduceLowestFirst | src/components/ParkingLotAnimation.js:93-97 | Ties keep the earlier cell: a cell scoring no worse than the result never stands before the result's first place in the open list. |
| GridAnimation.IndexOf | src/components/ParkingLotAnimation.js:112 | `indexOf` finds the position of the current cell in the open set. |
| GridAnimation.FindPath | src/components/ParkingLotAnimation.js:82-133 | As written: the single centre point when start = end, and null for every pair of distinct cells. |
| GridAnimation.OrNullish | src/components/ParkingLotAnimation.js:94-120 | The corrected lookup is Infinity only for a missing score and keeps a stored score, including 0. |
| GridAnimation.Centres | src/components/ParkingLotAnimation.js:103-106 | One cell-centre point per cell, in order. |
| GridAnimation.TracePath | src/components/ParkingLotAnimation.js:99-109 | Following `cameFrom` from the goal gives a walk from the start to the goal over passable cells one step apart, as centre points. |
| GridAnimation.FindPathFixed | src/components/ParkingLotAnimation.js:82-133 | With `??`: any route found walks from start to end over passable neighbouring cells, as centre points; start = end gives the single centre. |
| GridAnimation.RelaxKeepsInv | src/components/ParkingLotAnimation.js:115-128 | Relaxing a neighbour keeps every predecessor one passable step away with a lower score. |
| GridAnimation.HRoad | src/components/ParkingLotAnimation.js:32-42 | A horizontal road has one point per column of the lot. |
| GridAnimation.VRoad | src/components/ParkingLotAnimation.js:49-51 | A vertical road has one point per row of the lot. |
| GridAnimation.GenerateRoads | src/components/ParkingLotAnimation.js:30-53 | Nine roads: the entrance, horizontal roads at rows 2, 5, 8, 11, vertical roads at columns 2, 6, 10, 14. |
| GridAnimation.RoadsAndSkippedCells | src/components/ParkingLotAnimation.js:38-59 | The road rows are exactly the skipped rows; the skipped columns are the road columns plus column 18, which has no road. |
| GridAnimation.CurvePath | src/components/ParkingLotAnimation.js:223-236 | One command per point: a move, then one curve per later point. |
| GridAnimation.CurvePathEnds | src/components/ParkingLotAnimation.js:223-236 | Each command of the smooth path ends at its point, so the path visits the points in order. |
| GridAnimation.CurvePathSnoc | src/components/ParkingLotAnimation.js:226-236 | Each loop round appends exactly the curve from the previous point to the current one. |
| GridAnimation.PolylineToPath | src/components/ParkingLotAnimation.js:220-239 | '' for fewer than 2 points; otherwise `M x0 y0` and one `C` segment per later point, each ending at that point. |
| GridAnimation.LerpCoord | src/components/ParkingLotAnimation.js:252-255 | Interpolation stays between the two coordinates. |
| GridAnimation.Lerp | src/components/ParkingLotAnimation.js:252-256 | The interpolated point lies in the box spanned by the two points. |
| GridAnimation.SegIndex | src/components/ParkingLotAnimation.js:246 | `floor(p·total)` is a segment index below total. |
| GridAnimation.SegFrac | src/components/ParkingLotAnimation.js:247 | `(p·total) % 1` is a fraction in [0, 1). |
| GridAnimation.CurrentPathSegment | src/components/ParkingLotAnimation.js:242-263 | [] for fewer than 2 points; otherwise the prefix up to floor(p·(n−1)) plus at most one interpolated point on the next segment. |
| GridAnimation.SegmentGrows | src/components/ParkingLotAnimation.js:242-263 | More progress never shortens the traced segment. |
| GridAnimation.Animation.constructor | src/components/ParkingLotAnimation.js:26-79 | Mount generates the spots (exactly `GridSpots`, distinct cells) and the nine roads: the entrance along the top, rows 2, 5, 8, 11 and columns 2, 6, 10, 14. There is no route and the progress is 0. |
| GridAnimation.Animation.GenerateRouteAsWritten | src/components/ParkingLotAnimation.js:164-177 | With the search as written, the traced route and its progress never change, so an empty route stays empty. |
| GridAnimation.Animation.GenerateRoute | src/components/ParkingLotAnimation.js:164-177 | With the corrected search, nothing changes with fewer than 2 spots, with both picks on one cell, or when no route is found. Otherwise the route becomes the found path, the centres of a passable walk from the first pick to the second, and progress resets to 0. |
| GridAnimation.Animation.Animate | src/components/ParkingLotAnimation.js:180-201 | A tick advances progress only while a route is shown and the section is visible. |
| HeroAnimation.StepCloser | src/components/Hero.js:58-62 | One loop round brings the current cell one step closer in Chebyshev distance. |
| HeroAnimation.WalkDistance | src/components/Hero.js:52-63 | After k rounds the remaining distance is max(|Δrow|, |Δcol|) − k. |
| HeroAnimation.WalkArrives | src/components/Hero.js:52-63 | The loop stops after exactly max(|Δrow|, |Δcol|) rounds and not earlier. |
| HeroAnimation.WalkCentres | src/components/Hero.js:53-56 | n rounds push n centre points. |
| HeroAnimation.WalkCentresAt | src/components/Hero.js:52-68 | The i-th point is the centre of the cell after i steps. |
| HeroAnimation.FindPath | src/components/Hero.js:48-71 | The loop's path is the walk's centres, max(|Δrow|, |Δcol|) + 1 points. |
| HeroAnimation.WalkPathEnds | src/components/Hero.js:48-71 | The path starts at the start cell's centre, ends at the end cell's centre, and the distance to the end falls by one per point. |
| HeroAnimation.WalkPathNear | src/components/Hero.js:52-63 | Consecutive points are at most one cell (20 px) apart on each axis. |
| HeroAnimation.StepNear | src/components/Hero.js:58-62 | One step moves row and column each by at most one. |
| HeroAnimation.Hero.constructor | src/components/Hero.js:19-45 | Mount generates the kept off-road spots of the 24 × 18 grid, with no route and progress 0. |
| HeroAnimation.Hero.GenerateRoute | src/components/Hero.js:74-87 | With ≥ 2 spots and picks on distinct cells, the route becomes exactly the stepped walk's centres, Chebyshev distance + 1 points, from the first pick's centre to the second's, and progress resets to 0; otherwise nothing changes. |
| HeroAnimation.Hero.Animate | src/components/Hero.js:90-111 | A tick advances progress only while a route is shown. |
| Background.Clamp | background.js:34-35 | `Math.max(measured, least)` is at least least and is the measurement when that is large enough. |
| Background.Cols | background.js:59 | For a width of at least 800, there are at least 6 columns. |
| Background.Rows | background.js:60 | For a height of at least 600, there are at least 4 rows. |
| Background.BgGates | background.js:121-136 | The main gate is always first; the side gate exists iff cols > 3. |
| Background.GenerateLot | background.js:51-139 | The generator's loops produce the reference lot. |
| Background.BgLotShape | background.js:51-139 | At clamped size: cols ≥ 6, rows ≥ 4, 2·rows·cols spots, rows·cols + cols aisles, main and side gates. |
| Background.FindPath | background.js:142-152 | [start, (end.x, start.y), end] when the x differ, else [start, end]; starts at start, ends at end, axis-parallel. |
| Background.FindPathLength | background.js:142-152 | The route's length is the Manhattan distance between its ends. |
| Background.XYs | background.js:165 | One `x y` text per point, in order. |
| Background.PathString | background.js:165 | Definition of the route's path string: `M ` followed by the points' `x y` texts joined with ` L `. Its shape is proved in `Background.PathStringIsPolyline`. |
| Background.Duration | background.js:170 | Definition of the jittered duration `routeDuration·(1 + (r − 0.5)·routeVariance)` for a draw r. Its bounds are proved in `Background.DurationBounds`. |
| Background.JoinIsLines | background.js:165 | Joining with ` L ` is the first point followed by one ` L x y` per later point. |
| Background.PathStringIsPolyline | background.js:165 | The path string is `M x0 y0` then ` L x y` for each later point, in order. |
| Background.DurationBounds | background.js:170 | For d, v ≥ 0 the duration lies in [d·(1−v/2), d·(1+v/2)), and is exactly d when v = 0. |
| Background.KeepRecent | background.js:185 | Keeps exactly the routes younger than duration·1000 + 2000 ms. |
| Background.KeepRecentIdempotent | background.js:185 | Filtering twice at the same instant keeps the same list. |
| Background.KeepRecentAll | background.js:185 | A list of recent routes is kept whole. |
| Background.FreshRouteRecent | background.js:185-186 | A route spawned now survives a filter at the same instant. |
| Background.Background.constructor | background.js:4-16 | Props are stored, dimensions start at 1200 × 800, no reduced motion, no routes, id 0. |
| Background.Background.UpdateDimensions | background.js:30-38 | The stored size is the measured size clamped to at least 800 × 600. |
| Background.Background.MediaChange | background.js:19-26 | The reduced-motion flag follows the media query. |
| Background.Background.CreateRoute | background.js:155-173 | Null iff no gates or no spots. Otherwise it takes the next id and is `RouteFor` the draws: the L-path string from the drawn gate to the drawn spot's aisle connection, the randomised duration and the delay draw · 2. |
| Background.Background.SpawnRoute | background.js:179-188 | The new list is `SpawnOne`: the recent routes in order, then exactly one new route stamped now, which is `RouteFor` the draws with the next id. |
| Background.Background.Interval | background.js:196-200 | Spawns iff motion is allowed, not paused and the seen count is below routeCount, and then the list is `SpawnOne` of the old list with the `RouteFor` the draws; otherwise nothing changes. |
| Background.Background.InitialRoutes | background.js:191-193 | The list becomes `Spawns` of the old list: the routes spawned in order at start, start + 1000, … ms, the k-th being `RouteFor` the k-th draws with id nextId + k (`Built`). It consumes routeCount ids and, when routeCount > 0, ends with the last route stamped start + (routeCount − 1)·1000. |
| HowItWorks.Div | src/components/HowItWorks.js:25-28 | JavaScript division: the quotient, or ±Infinity / NaN on a zero divisor. |
| HowItWorks.SectionProgress | src/components/HowItWorks.js:19-30 | Definition of the section progress as written. Above the window's top it is `min(1, abs(top)/(height − windowHeight))`; while entering it is `max(0, (windowHeight − top)/windowHeight)`; otherwise 0. Its properties are proved in `HowItWorks.SectionProgressBelowAndEntering`, `SectionProgressTall`, `ProgressDropsAtTop` and `SectionProgressOutOfRange`. |
| HowItWorks.JsMin | src/components/HowItWorks.js:25 | `Math.min(1, x)` is NaN iff x is, and otherwise at most 1. |
| HowItWorks.JsMax | src/components/HowItWorks.js:28 | `Math.max(0, x)` is NaN iff x is, and otherwise at least 0. |
| HowItWorks.SectionProgressBelowAndEntering | src/components/HowItWorks.js:19-30 | For every section and window size: progress is exactly 0 while the section's top is at or below the window's bottom, and a number strictly between 0 and 1 while the top is inside the window. |
| HowItWorks.SectionProgressTall | src/components/HowItWorks.js:19-30 | For a section taller than the window: progress is a number in [0, 1] in every phase, and exactly 1 once scrolled past by the height difference. |
| HowItWorks.ProgressDropsAtTop | src/components/HowItWorks.js:21-30 | Progress is not monotone: it is 0.99 just before the section's top reaches the window's top and 0 at that point. |
| HowItWorks.SectionProgressOutOfRange | src/components/HowItWorks.js:19-30 | As written, a short section gives negative progress and top = 0 with height = window gives NaN. |
| HowItWorks.ClampedSectionProgress | src/components/HowItWorks.js:19-30 | The corrected progress always lies in [0, 1]. |
| HowItWorks.ClampedAgrees | src/components/HowItWorks.js:19-30 | The corrected progress equals the original wherever the original is well defined (tall section or section below the top). |
| HowItWorks.Illumination | src/components/HowItWorks.js:82-107 | Definition of one step's light: lit from 0.1·index; intensity 1 from 0.1·(index + 1), linear in between, 0 before. Its properties are proved in `HowItWorks.IlluminationRange` and the monotonicity lemmas. |
| HowItWorks.IlluminationRange | src/components/HowItWorks.js:82-107 | Lit iff progress ≥ 0.1·index; intensity 0 below the step, 1 from its end, linear between, always in [0, 1]. |
| HowItWorks.IlluminationMonotoneInProgress | src/components/HowItWorks.js:82-101 | More progress never dims a step. |
| HowItWorks.IlluminationMonotoneInIndex | src/components/HowItWorks.js:85-101 | A later step is never brighter than an earlier one. |
| HowItWorks.AllStepsLit | src/components/HowItWorks.js:42-86 | With the five steps, every step is lit at full intensity once progress ≥ 0.5. |
| HowItWorks.DarkBelowZero | src/components/HowItWorks.js:89-93 | Negative or NaN progress leaves every step dark. |
| Credibility.ToggleBio | src/components/CredibilityBuilders.js:30-35 | The toggled id flips its truthiness and every other entry is unchanged. |
| Credibility.ToggleTwice | src/components/CredibilityBuilders.js:30-35 | Toggling the same id twice restores its truthiness and leaves the rest as it was. |
| Credibility.ToggleCommutes | src/components/CredibilityBuilders.js:30-35 | Toggles of different ids commute. |
| Credibility.Split | src/components/CredibilityBuilders.js:38 | `split(' ')` always yields at least one piece. |
| Credibility.UpperChar | src/components/CredibilityBuilders.js:38 | Each lower-case ASCII letter becomes its own capital (code point − 32), and other characters are unchanged. |
| Credibility.Upper | src/components/CredibilityBuilders.js:38 | Upper-casing maps each character and keeps the length. |
| Credibility.Initials | src/components/CredibilityBuilders.js:37-39 | Definition of `getInitials`: the upper-cased first characters of the `split(' ')` pieces. `Credibility.InitialsAreWordStarts` proves they are the word starts. |
| Credibility.FirstCharsAreWordStarts | src/components/CredibilityBuilders.js:37-39 | The pieces' first characters are exactly the characters that start a space-separated word. |
| Credibility.InitialsAreWordStarts | src/components/CredibilityBuilders.js:37-39 | The initials are the upper-cased first character of each non-empty word, in order. |
| Credibility.WordStartsWord | src/components/CredibilityBuilders.js:37-39 | A space-free word contributes only its first character. |
| Credibility.TwoWordInitials | src/components/CredibilityBuilders.js:37-39 | Two space-free words separated by one space give their two upper-cased first letters ("Waqas Behzad" gives "WB"). |
| Credibility.ImageMap | src/components/CredibilityBuilders.js:42-47 | The map covers exactly the four repository image paths. |
| Credibility.ImageSrc | src/components/CredibilityBuilders.js:176 | The mapped URL when the path is mapped to a non-empty URL, otherwise the raw path. |
| Credibility.ProfileAvatar | src/components/CredibilityBuilders.js:85-100 | The photo iff showPhoto and a non-empty photoUrl, with its resolved source; otherwise the word-start initials. |
| Theme.InitialTheme | src/context/ThemeContext.js:14-22 | A saved "dark" gives dark, any other saved string light, and no saved value the system preference. |
| Theme.Stored | src/context/ThemeContext.js:26-29 | The stored string is "dark" or "light", and "dark" exactly in dark mode. |
| Theme.StoredRoundTrip | src/context/ThemeContext.js:16-26 | Storing the mode and reading it back gives the same mode, whatever the system preference. |
| Theme.Palette | src/context/ThemeContext.js:33-51 | Each mode gives one value per CSS variable. |
| Theme.PalettesDiffer | src/context/ThemeContext.js:33-51 | The two modes differ in every one of the eight variables. |
| Theme.UseTheme | src/context/ThemeContext.js:5-11 | Fails with the fixed message exactly when there is no provider value, else returns it. |
| Theme.ThemeProvider.constructor | src/context/ThemeContext.js:13-52 | Mount resolves the initial mode and applies it to storage, `data-theme` and the palette. Storage is the given map with only "theme" set, and every style property outside the eight keeps its given value. |
| Theme.ThemeProvider.ApplyTheme | src/context/ThemeContext.js:24-52 | Storage's "theme", `data-theme` and the eight variables follow the mode; no other storage key or style property changes. |
| Theme.ThemeProvider.SetProperties | src/context/ThemeContext.js:33-51 | The eight `setProperty` calls give each variable its palette value and leave every other style property as it was. |
| Theme.ThemeProvider.ToggleTheme | src/context/ThemeContext.js:54-56 | The mode is negated (so two toggles restore it) and re-applied: storage's "theme", `data-theme` and the eight variables follow it, and no other storage key or style property changes. |
| EmailService.OrElse | src/services/emailService.js:14-15 | An empty value is replaced by the default and a non-empty one is kept. |
| EmailService.BetaMessage | src/services/emailService.js:10-17 | Definition of the compiled beta message: name, email, phone (default "Not provided"), vehicle (default "Not specified") and the submission time. |
| EmailService.OrgMessage | src/services/emailService.js:40-49 | Definition of the compiled organisation message: name, company, email, phone, facility type, message and the submission time. |
| EmailService.Subject | src/services/emailService.js:71-73 | "beta test" iff the type is "beta", else "org contact". |
| EmailService.FallbackIsMessagePrefix | src/services/emailService.js:75-77 | The fallback body is the message the send functions compile (lines 10-17 and 40-49) without its timestamp block. |
| EmailService.BetaDefaults | src/services/emailService.js:10-17 | An empty phone or vehicle reads as "Not provided" / "Not specified"; filled ones are kept verbatim. |
| EmailService.Settle | src/services/emailService.js:24-34 | Success with "Email sent successfully" iff delivered, else the fixed failure message. |
| EmailService.SendBetaSignup | src/services/emailService.js:7-35 | Sends subject "beta test" (the fallback's beta label) with the beta message, and settles on delivery. |
| EmailService.SendOrganizationContact | src/services/emailService.js:37-67 | Sends the fallback's non-beta subject with the organisation message, and settles on delivery. |
| EmailService.TakeUntil | src/services/emailService.js:79 | Reads a query field: a prefix of the text containing no separator. |
| EmailService.TakeUntilPrefix | src/services/emailService.js:79 | The text before the first separator is exactly the separator-free head. |
| EmailService.SubjectField | src/services/emailService.js:79 | A subject without '&' is read back from between the link head and the first '&'. |
| EmailService.FallbackLink | src/services/emailService.js:79 | Definition of the mailto link: the mailbox head, the encoded subject, `&body=` and the encoded fallback body. Its shape is proved in `EmailService.FallbackLinkShape`. |
| EmailService.FallbackLinkShape | src/services/emailService.js:70-82 | The link is addressed to the fixed mailbox, and the encoded subject is recovered as the first query field. |
| PageScript.TrimStart | script.js:332 | Leading whitespace removal leaves a suffix that does not start with whitespace. |
| PageScript.TrimEnd | script.js:332 | Trailing whitespace removal leaves a prefix that does not end with whitespace. |
| PageScript.Trim | script.js:332 | Definition of `trim()`: strip the leading, then the trailing ECMAScript white space. `PageScript.TrimEmptyIff` proves it is empty iff the value is all white space. |
| PageScript.TrimStartEmpty | script.js:332 | Trimming the start leaves nothing iff the value is all whitespace. |
| PageScript.TrimEndKeepsHead | script.js:332 | A value starting with a non-space keeps a non-empty trimmed end. |
| PageScript.TrimEmptyIff | script.js:332 | `value.trim()` is empty iff the value is all whitespace. |
| PageScript.Border | script.js:332-337 | The error colour iff the value is all white space (what `trim` empties, by `PageScript.TrimEmptyIff`), otherwise the neutral colour. |
| PageScript.ValidateForm | script.js:327-341 | Valid iff no required value is all white space, i.e. none trims to the empty string; every field gets its border colour; values are untouched. |
| PageScript.Control.Check | script.js:331-338 | The callback gives the error border exactly when the value is all white space (trims to nothing), the normal border otherwise, and reports whether the field is filled. |
| PageScript.SubmitGuard | script.js:347-350 | Blocked with the fixed alert exactly when validation fails. |
| PageScript.OnSubmitValidate | script.js:344-353 | The validation listener blocks iff some field is all whitespace, and colours every field. |
| PageScript.SubmitAsWritten | script.js:90-123 | As written, the success overlay always shows, and the alert fires iff some field is all whitespace. |
| PageScript.BlankNameShowsBoth | script.js:90-123 | A name of one space gives both the alert and the success overlay. |
| PageScript.SubmitGuarded | script.js:90-123 | Corrected: success shows iff no alert, and the alert fires iff some field is all whitespace. |
| PageScript.GuardedAgreesWhenValid | script.js:90-123 | On valid input the corrected and as-written submissions agree: success and no alert. |
| PageScript.FormType | script.js:490 | "beta_signup" iff the form id is "betaForm", else "contact_inquiry". |
| PageScript.Throttle.constructor | script.js:367-368 | The throttle starts with the flag clear. |
| PageScript.Throttle.Call | script.js:369-377 | The function runs iff the flag was clear; then the flag is set; runs are spaced at least `limit` apart. |
| PageScript.Throttle.TimerFires | script.js:375 | The timer clears the flag without running the function. |
| PageScript.Page.constructor | script.js:42-65 | No overlay style has been written yet. |
| PageScript.Page.OpenBetaForm | script.js:42-45 | Shows the beta form and locks scrolling; other overlays are unchanged. |
| PageScript.Page.CloseBetaForm | script.js:47-50 | Hides the beta form and restores scrolling; other overlays are unchanged. |
| PageScript.Page.OpenContactForm | script.js:52-55 | Shows the contact form and locks scrolling; other overlays are unchanged. |
| PageScript.Page.CloseContactForm | script.js:57-60 | Hides the contact form and restores scrolling; other overlays are unchanged. |
| PageScript.Page.CloseSuccessMessage | script.js:62-65 | Hides the success message and restores scrolling; other overlays are unchanged. |
| PageScript.Page.OnKeyDown | script.js:81-87 | Escape hides all three overlays and sets overflow to auto; any other key changes nothing. |
| PageScript.Page.OnWindowClick | script.js:68-78 | A click on an overlay's backdrop closes that overlay only; a click elsewhere changes nothing. |
| ScrollProgress.Progress | src/hooks/useScrollProgress.js:9-11 | Definition of the scroll progress: `min(scrollTop/docHeight, 1)` when the document scrolls (docHeight > 0), else 0. Its properties are proved in `ScrollProgress.ProgressBounds` and `ProgressMonotone`. |
| ScrollProgress.ProgressBounds | src/hooks/useScrollProgress.js:9-11 | Progress is at most 1; non-negative for a non-negative offset; 0 when the page does not scroll; the exact fraction below the bottom; 1 from the bottom on. |
| ScrollProgress.ProgressMonotone | src/hooks/useScrollProgress.js:9-11 | Scrolling further never lowers the progress. |
| ScrollProgress.ScrollState.constructor | src/hooks/useScrollProgress.js:21-29 | After mount, both values reflect the initial scroll position. |
| ScrollProgress.ScrollState.HandleScroll | src/hooks/useScrollProgress.js:8-19 | Progress is recomputed; visibility is a latch that a scroll past 100 px sets and nothing clears. |

## Left out

- NeonSearch.AStar: the search loop has a `fuel` bound, and the method answers null when the bound runs out. The source loops until the open set is empty. Termination of the unbounded search over a finite graph is not proved. Path reconstruction needs no bound, because gScore strictly decreases along `cameFrom`.
- GridAnimation.FindPathFixed: the same `fuel` bound, for the same reason.
- Common.TotalLength: only defined on axis-aligned paths, where `Math.hypot` of a one-axis step is its absolute difference. A square root on general floats is not modelled. Every path the route manager measures is axis-aligned (`NeonRoutes.ValidPathAxisAligned`, `NeonRoutes.FallbackLength`).
- IEEE floating point. Coordinates and progress are exact reals, so:
  - the 0.02 progress tick takes exactly 50 ticks;
  - the `"x|y"` string keys are coordinate pairs.
- The counter animation in script.js:255-281 steps floats and is not modelled.
- Randomness and clocks: `Math.random` and `Date.now` are parameters. `setInterval`/`setTimeout` are explicit calls (`Tick`, `Interval`, `TimerFires`, `PruneTick`, `TopUp`).
- NeonRoutes.RouteManager.TopUp: takes one tuple of draws per potential new route, and so requires at least `target` of them.
- Background.Background.Interval: the count it compares with `routeCount` is a parameter. The source reads `activeRoutes` from a stale React closure; closure capture is not modelled.
- The `occupied` and `type` draws that NeonVectorBackground.js:64-65 and 76-77 make for every spot are not modelled: NeonLot spots leave them out. Only the rendering at lines 434-437 reads them, and no route, graph or search depends on them.
- React rendering, JSX, framer-motion/konva props, SVG filters, CSS, and the zoom and parallax effects are not modelled.
- Also not modelled: the scroll-based zoom in ParkingLotAnimation.js, Hero.js's scroll handler (its result is unused), the navbar, hover, touch and Tab-focus handlers, IntersectionObserver, and analytics `console.log`.
- background.js:396-399 parses the end indicator into NaN. This is rendering and is not modelled.
- `emailjs.send` is not modelled: whether the send resolves is the parameter `delivered`.
- `toLocaleString` is not modelled: its text is the parameter `submittedAt`.
- `window.open` is not modelled.
- `encodeURIComponent` (percent-encoding, section 2.1 of RFC 3986) is the parameter `enc`.
- EmailService.FallbackLinkShape: requires an encoder that never writes a bare '&', as percent-encoding guarantees.
- Credibility.UpperChar: maps only ASCII a-z; full Unicode case mapping is not modelled.
- NeonLot.GenerateLot: requires a positive viewport. A zero-sized window would make the spot width 0 and the column count a division by zero.
- Background.Cols, Background.Rows, Background.BgLot and Background.GenerateLot: require the clamped size (at least 800 × 600), which `UpdateDimensions` always stores.
- HowItWorks.SectionProgressTall: requires a section taller than a non-empty window (sectionHeight > windowHeight > 0). The [0, 1] bound and the "1 once scrolled past" clause need it, because a shorter section gives a negative or NaN value (`SectionProgressOutOfRange`). The phases before and while entering are proved for every size by `SectionProgressBelowAndEntering`.
- GridAnimation.CurrentPathSegment: requires progress in [0, 1), which the tick keeps (`GridLot.Tick`).
- PageScript.Throttle.TimerFires: requires the flag to be set, since the timer is pending only after a run.
- PageScript.SubmitAsWritten: requires non-empty values. The browser's `required` check stops empty fields before either submit listener runs.
- Form fields that are `undefined` (printed as "undefined" in template literals) are not modelled; every field is a string.
- The modal state and controlled forms in App.js, Navbar.js, Footer.js, BetaModal.js and ContactModal.js are not modelled.
- Static content components, teamData.js and emailConfig.js are not modelled, apart from the target address "contact@scaleiot.org".
- The spot generators of ParkingLotAnimation.js and Hero.js also skip column 18 (18 % 4 = 2), although no road is drawn there (`GridAnimation.RoadsAndSkippedCells`). This is recorded as behaviour, not as a defect.

## Findings

| source | as written | input that shows it | evidently intended | confidence | as-written member | corrected member |
|---|---|---|---|---|---|---|
| src/components/ParkingLotAnimation.js:94-95, 117, 120 | `gScore.get(k) \|\| Infinity` also turns the start's stored score 0 into Infinity, so no neighbour is ever relaxed and `findPath` returns null for any two distinct cells; the animation never shows a route | any two distinct spots, e.g. the spot cells (1, 1) and (1, 3) | `?? Infinity`, so that a found route walks adjacent passable cells from start to end, and `generateRoute` then traces it | not executed | GridAnimation.FindPath | GridAnimation.FindPathFixed |
| src/components/HowItWorks.js:19-30 | section progress becomes negative when the section is shorter than the window, and NaN when its top is at 0 and its height equals the window's | top −50, height 400, window 800 gives −0.125; top 0, height 800, window 800 gives NaN | progress in [0, 1] | not executed | HowItWorks.SectionProgressOutOfRange | HowItWorks.ClampedSectionProgress |
| script.js:90-123 | the simulated-send listener always shows the success overlay; the validation listener (lines 344-353) only alerts, so a whitespace-only field that passes the browser's `required` check gets both | name " " with any non-empty email | success shown only when validation passes | not executed | PageScript.BlankNameShowsBoth | PageScript.SubmitGuarded |
