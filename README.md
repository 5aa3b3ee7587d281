# AI package delivery, modelled in Dafny

This project models the planning core of the *ai-package-delivery* system.
Trucks wait at stores on a rectangular city grid and must reach customers.
Each street segment has a traffic level, where 0 means the road is blocked.
Tunnels join two grid points and cost their Manhattan length. The system:

- solves one truck-to-customer trip with a generic search engine (BF, DF,
  ID, UC, GR1, GR2, AS1, AS2);
- prints the plan as `actions;cost;nodesExpanded`;
- assigns trucks to customers with one of three planners.

The model follows the two generations of the Java code side by side: the
backend (`backend/...`) and the older `src/...` tree.

- **Search engine** (`search_model`, `frontier`, `uninformed`, `depth`,
  `informed`, `search_dispatch`). A problem is a value of function fields.
  It has the initial state, the goal test, the offered actions, a partial
  result, and the step cost. A ghost finite set of states `U`, closed under
  the offered actions, bounds every loop. Search nodes are a parent-linked
  datatype. Frontiers are sequences. Explored sets are sets, and the
  best-cost table is a map. Every algorithm is a method with a loop. Its
  contract states what it returns: a plan that replays to a goal at the
  reported cost, "no path" exactly when no goal is reachable, the bound on
  the expansion count, a plan of fewest actions for breadth-first search
  and, with finite step costs, for iterative-deepening search, and
  optimality for uniform-cost search and for A* under an admissible
  heuristic. Iterative deepening treats a depth-limited result of cost
  +infinity as a failure, so its fewest-actions and "no path" guarantees
  hold only when every step cost is finite.
- **Delivery problem** (`delivery`, `delivery_input`, `delivery_plan`,
  `tunnel`, `action`, `strategy`, `grid`). This covers the moves and
  tunnels, their costs, the text input parser, the result text and the
  per-store plan.
- **Heuristics** (`heuristics`, `legacy_heuristic`, `distance`). These are
  the Manhattan estimate and the two traffic-aware estimates. For the
  backend estimates, the project proves admissibility and that they never
  exceed the direct Manhattan distance. Because a tunnel costs the
  Manhattan distance between its ends, the backend traffic-aware estimate
  in fact always equals the Manhattan estimate
  (`Heuristics.TrafficIsManhattan`). For the older estimate, the project
  shows an input where it goes below the tunnel-free distance. It also
  shows a grid where the older estimate is above the cost of a plan that
  chains two tunnels, so the estimate is not admissible (see "Findings").
  A corrected estimate is proved admissible (`legacy_admissibility`).
- **Planners** (`backend_planner`, `once_planner`, `legacy_planner`,
  `planner_common`). These are the cached cost matrix, the greedy
  assignment, the "each truck once" assignment, the sequential assignment,
  and the statistics.
- **Older engine and problem** (`legacy_search`, `legacy_delivery`,
  `legacy_matrix`, `legacy_plan`). This is the breadth-first-only engine of
  `src/code/GenericSearch.java` and the problem it solves.

Java details are written out where they matter:

- `double` costs become `Cost = Fin(int) | Inf`.
- `(int)` casts saturate.
- `Integer.parseInt` is limited to 32 bits (ASCII digits only; see
  "Left out").
- `String.split` drops trailing empty fields.
- `hashCode` wraps around at 32 bits.
- Dafny's Euclidean `/` is used only on non-negative operands.

Coordinate arithmetic is the one place where the 32-bit `int` of Java is
not followed; "Left out" says which members this concerns.

## Model

| member | source | states |
|---|---|---|
| SearchModel.Reverse | backend/src/code/GenericSearch.java:443 | `Collections.reverse` keeps the length |
| SearchModel.ReverseAppend | backend/src/code/GenericSearch.java:443 | reversing a concatenation reverses and swaps the parts |
| SearchModel.ReverseInvolution | backend/src/code/GenericSearch.java:443 | reversing twice gives the list back |
| SearchModel.ExtractPath | backend/src/code/GenericSearch.java:434-445 | the collected-then-reversed actions are exactly the root-to-goal actions of the parent chain |
| SearchModel.RunAppend | backend/src/main/java/com/aipackagedelivery/code/Problem.java:13-15 | replaying `p + q` is replaying `p`, then `q` from where `p` ends |
| SearchModel.NodePlan | backend/src/code/GenericSearch.java:117-123 | the path of a node built by the engine replays to that node's state at its `pathCost`, and its length is the node's depth |
| SearchModel.NodeReachable | backend/src/code/GenericSearch.java:117-123 | every node the engine builds holds a reachable state |
| SearchModel.GoalNodeSolves | backend/src/code/GenericSearch.java:98-99 | a goal node's extracted path reaches a goal at the reported cost |
| SearchModel.ValidChild | backend/src/code/GenericSearch.java:111-123 | a child built from an offered action is again a well-formed node |
| SearchModel.ClosedSetHoldsReachable | backend/src/code/GenericSearch.java:111-127 | every replay from a state of a successor-closed set stays in it |
| SearchModel.RunStaysInUniverse | backend/src/code/GenericSearch.java:111-127 | replays never leave the closed universe of states |
| SearchModel.RunFinite | backend/src/code/GenericSearch.java:122 | with finite step costs, a replay's summed cost stays finite |
| Frontier.OfferedHaveResults | backend/src/main/java/com/aipackagedelivery/code/Problem.java:11-13 | every offered action of a state of the closed universe has a result in it |
| Frontier.PollAt | backend/src/code/GenericSearch.java:94 | taking any node out of a frontier keeps the other nodes, and the node taken is well formed |
| Frontier.StatesOfTail | backend/src/code/GenericSearch.java:94-95 | polling the head of a queue of distinct states removes exactly that state from `inFrontier` |
| Frontier.StatesOfSnoc | backend/src/code/GenericSearch.java:124-125 | adding a node with a new state adds exactly that state |
| Frontier.ChildrenFacts | backend/src/code/GenericSearch.java:355-369 | the children are well formed, one level deeper, avoid the skipped states, and cover every offered result not skipped |
| Frontier.PushChildrenReversed | backend/src/code/GenericSearch.java:164-180 | pushing in reverse action order leaves the stack topped by the children in reversed order |
| Frontier.PushChildren | backend/src/code/GenericSearch.java:355-369 | adding in action order appends the children in order |
| Frontier.FreshChildrenFacts | backend/src/code/GenericSearch.java:111-127 | the queued children have distinct states, none already explored or queued, and every other result is explored or queued |
| Frontier.ReversedChildren | backend/src/code/GenericSearch.java:165-179 | reversing the children keeps the same nodes and states |
| Frontier.CompleteInit | backend/src/code/GenericSearch.java:89-91 | at the start, the root state stands for everything reachable |
| Frontier.CompleteSkip | backend/src/code/GenericSearch.java:103-105 | skipping an already explored state loses no reachable state |
| Frontier.ExpandStep | backend/src/code/GenericSearch.java:107-108 | expanding a new state counts it once and brings the search closer to the end |
| Frontier.ExhaustedSearch | backend/src/code/GenericSearch.java:130 | an empty frontier after expanding every reachable state means no goal is reachable, and the count is the number of reachable states |
| Frontier.MinExists | backend/src/code/GenericSearch.java:285 | a non-empty priority queue has an index with a smallest key |
| Frontier.Exhausted | backend/src/code/GenericSearch.java:372 | a set closed under successors holding the root and no goal is the whole reachable set, and no goal is reachable |
| Frontier.ExpandedBound | backend/src/code/GenericSearch.java:107-108 | explored states are distinct reachable states, so at most as many as those |
| Frontier.GoalResult | backend/src/code/GenericSearch.java:98-99 | a goal node's result reaches a goal and is not "no path" |
| Frontier.LevelInit | backend/src/code/GenericSearch.java:88-90 | the frontier holding only the root is in level order |
| Frontier.FreshChildrenDepth | backend/src/code/GenericSearch.java:111-127 | every child queued by an expansion is one level below its parent |
| Frontier.LevelSorted | backend/src/code/GenericSearch.java:103-127 | polling the head and appending children one level below it keeps the depths sorted and within one level of the head |
| Frontier.LevelShorter | backend/src/code/GenericSearch.java:103-127 | after an expansion, every plan shorter than the new head's depth ends in an explored state |
| Frontier.LevelNext | backend/src/code/GenericSearch.java:103-127 | after an expansion, every plan as long as the new head's depth ends in an explored state or at a queued node of that depth |
| Frontier.LevelStep | backend/src/code/GenericSearch.java:103-127 | one first-in first-out expansion keeps the frontier in level order |
| Frontier.LevelGoal | backend/src/code/GenericSearch.java:80-99 | in level order with no explored goal, a polled node's path has no more actions than any plan to a goal |
| UninformedSearch.QueueFreshChildren | backend/src/code/GenericSearch.java:111-127 | only results neither explored nor in the frontier are queued, and `inFrontier` grows by exactly their states |
| UninformedSearch.SkipHead | backend/src/code/GenericSearch.java:103-105 | dropping a polled state that was already explored keeps the frontier invariants, completeness and level order |
| UninformedSearch.SkipLevel | backend/src/code/GenericSearch.java:103-105 | dropping an explored head keeps the frontier in level order |
| UninformedSearch.ExpandBreadthFirst | backend/src/code/GenericSearch.java:107-127 | one expansion explores the polled state, appends its fresh children in action order, and keeps the frontier invariants, completeness and level order while shrinking the unexplored universe |
| UninformedSearch.BreadthFirst | backend/src/code/GenericSearch.java:80-131 | the result replays to a goal at its cost; "no path" exactly when no goal is reachable; a returned plan has no more actions than any plan to a goal (complete and optimal for unit costs); at most one expansion per reachable state, all of them on failure |
| UninformedSearch.ExpandDepthFirst | backend/src/code/GenericSearch.java:160-180 | one expansion pushes the unexplored children in reverse order and explores the popped state |
| UninformedSearch.DepthFirst | backend/src/code/GenericSearch.java:139-184 | same guarantees as breadth-first search: sound, complete on a finite universe, bounded expansion count |
| UninformedSearch.FirstActionOnTop | backend/src/code/GenericSearch.java:163-179 | after the reversed push, the child of the first action is on top of the stack (left-to-right expansion) |
| DepthSearch.KeysOfRemoveLast | backend/src/code/GenericSearch.java:227 | popping the stack removes its top (state, depth) pair and leaves nodes within the limit |
| DepthSearch.ChildKeys | backend/src/code/GenericSearch.java:246-260 | every result of an offered action is pushed one level deeper |
| DepthSearch.LimitedChildren | backend/src/code/GenericSearch.java:233-260 | children of a node above the limit are within the limit |
| DepthSearch.DepthSkip | backend/src/code/GenericSearch.java:233-241 | a node cut off by the limit or with a seen `state@depth` key loses no plan within the limit |
| DepthSearch.DepthExpand | backend/src/code/GenericSearch.java:243-260 | expanding a new `state@depth` key keeps every plan within the limit accounted for and makes progress |
| DepthSearch.DepthExhausted | backend/src/code/GenericSearch.java:226-261 | every plan within the limit ends in a (state, depth) pair that the search examined |
| DepthSearch.NoGoalWithin | backend/src/code/GenericSearch.java:263 | an exhausted depth-limited search means no goal within the limit |
| DepthSearch.ExpandLimited | backend/src/code/GenericSearch.java:243-260 | pushes every child in reverse order and records the `state@depth` key once |
| DepthSearch.DepthLimited | backend/src/code/GenericSearch.java:215-264 | the result replays to a goal; "no path" exactly when no goal is reachable within the limit; the plan is no longer than the limit; at most one expansion per (state, depth) key |
| DepthSearch.IterativeDeepening | backend/src/code/GenericSearch.java:192-210 | the first limit that returns a finite cost gives a plan of at most 1001 actions; with finite step costs that plan is no longer than any goal plan, and "no path" holds exactly when no goal is within 1001 steps; the searches run are depth-limited searches with limits 0, 1, ..., every one but the last returning cost +infinity, the last giving the plan and cost, or limits 0 to 1001 all returning cost +infinity; the reported count is the sum of their expansion counts |
| InformedSearch.ExpandGreedy | backend/src/code/GenericSearch.java:352-369 | one greedy expansion queues the unexplored children in action order and explores the polled state |
| InformedSearch.GreedyKeys | backend/src/code/GenericSearch.java:332-334 | the priority of each node is the heuristic value of its state |
| InformedSearch.GreedyBestFirst | backend/src/code/GenericSearch.java:328-373 | polling any node of least `h`: sound, complete on a finite universe, at most one expansion per reachable state |
| InformedSearch.ImprovesTrans | backend/src/code/GenericSearch.java:305-306 | successive `bestCost` improvements compose |
| InformedSearch.LowerImproves | backend/src/code/GenericSearch.java:305-306 | lowering a best cost improves the termination measure |
| InformedSearch.UpdateImproves | backend/src/code/GenericSearch.java:305-306 | lowering or first recording a best cost improves the termination measure |
| InformedSearch.CostInit | backend/src/code/GenericSearch.java:280-282 | the root at cost 0 with `bestCost[initial] = 0` satisfies the best-cost invariant |
| InformedSearch.CostStale | backend/src/code/GenericSearch.java:292-295 | dropping a polled node dearer than its state's best cost keeps the invariant |
| InformedSearch.CostExpandStart | backend/src/code/GenericSearch.java:292-297 | a polled node not dearer than its best cost holds exactly that best cost |
| InformedSearch.QueueLowered | backend/src/code/GenericSearch.java:305-315 | queueing a child that lowers its state's best cost keeps the invariant |
| InformedSearch.RelaxStep | backend/src/code/GenericSearch.java:299-316 | relaxing one action keeps the invariant and strictly improves the measure |
| InformedSearch.Settle | backend/src/code/GenericSearch.java:299-316 | once every action is relaxed, the expanded state is accounted for |
| InformedSearch.Relax | backend/src/code/GenericSearch.java:299-316 | the new frontier and best costs are those of the child loop over the offered actions in order (`RelaxFrom`); the loop keeps the best-cost invariant, and either nothing changes or the measure improves |
| InformedSearch.RelaxFrontier | backend/src/code/GenericSearch.java:299-316 | the child loop keeps the frontier's nodes and appends only children of the expanded node, each by an offered action |
| InformedSearch.RelaxBest | backend/src/code/GenericSearch.java:305-306 | best costs only go down; the map gains exactly the states of the queued children and keeps every other entry |
| InformedSearch.RelaxCheaper | backend/src/code/GenericSearch.java:305 | a child is queued only when its state had no best cost or the new cost is strictly lower than it |
| InformedSearch.RelaxAtLeast | backend/src/code/GenericSearch.java:306-314 | each queued child costs at least its state's final best cost |
| InformedSearch.RelaxAttained | backend/src/code/GenericSearch.java:306-314 | each queued state's final best cost is the cost of one of its queued children |
| InformedSearch.RelaxCovers | backend/src/code/GenericSearch.java:299-306 | every offered child ends at or above its state's best cost, so a child not queued was no improvement |
| InformedSearch.RunShift | backend/src/code/GenericSearch.java:302 | a replay from cost `c` costs `c` plus the same replay from 0 |
| InformedSearch.RunNonNegative | backend/src/code/GenericSearch.java:302 | with non-negative steps, no replay from 0 is negative |
| InformedSearch.ZeroAdmissible | backend/src/code/GenericSearch.java:273-276 | the zero estimate of uniform-cost search is admissible |
| InformedSearch.Walk | backend/src/code/GenericSearch.java:284-317 | any plan from an accounted state passes through a frontier node no dearer than the plan's prefix |
| InformedSearch.NoGoalWhenEmpty | backend/src/code/GenericSearch.java:319 | an empty frontier under the invariant means no goal is reachable |
| InformedSearch.CostKeys | backend/src/code/GenericSearch.java:385-387 | the priority of each node is `g + h` |
| InformedSearch.GoalBelowPlan | backend/src/code/GenericSearch.java:396-399 | under an admissible `h`, a polled goal node with least `g + h` costs no more than one given goal plan |
| InformedSearch.GoalOptimal | backend/src/code/GenericSearch.java:396-399 | under an admissible `h`, a polled goal node with least `g + h` costs no more than any goal plan |
| InformedSearch.CostGuided | backend/src/code/GenericSearch.java:381-429 | the shared best-cost loop: sound, complete, and optimal under an admissible heuristic |
| InformedSearch.UniformCost | backend/src/code/GenericSearch.java:273-320 | sound, complete, and the returned cost is no larger than any goal plan's |
| InformedSearch.AStar | backend/src/code/GenericSearch.java:381-429 | sound, complete, and optimal when the heuristic is admissible |
| SearchDispatch.RouteFacts | backend/src/code/GenericSearch.java:55-74 | each code selects its own algorithm; GR1/AS1 read `h1`, GR2/AS2 read `h2`, the others no heuristic |
| SearchDispatch.Search | backend/src/code/GenericSearch.java:49-75 | the selected algorithm's guarantees: soundness, "no path" iff unreachable (for ID: with finite step costs, iff no goal within 1001 steps), expansion bound, fewest actions for BF and (with finite step costs) for ID, at most 1001 actions for ID, optimality of UC and of admissible A* |
| SearchDispatch.InfiniteMeansNoPath | backend/src/code/GenericSearch.java:130 | with finite step costs, cost +infinity is returned only for "no path" |
| Costs.Add | backend/src/code/GenericSearch.java:122 | +infinity absorbs; finite costs add |
| Costs.Min | backend/src/main/java/code/TrafficAwareHeuristic.java:65-72 | `Math.min` is one of its arguments and below both |
| Costs.LtIsNotLe | backend/src/code/GenericSearch.java:293 | `a > b` is exactly "not `a <= b`" |
| Costs.AddMonotone | backend/src/code/GenericSearch.java:302 | adding a step keeps the order of path costs |
| Costs.AddNonNegative | backend/src/code/GenericSearch.java:302 | adding a non-negative step never lowers a path cost |
| Grid.AbsValue | backend/src/code/ManhattanHeuristic.java:34 | `Math.abs` is non-negative and equals `x` or `-x` |
| Grid.ManhattanZero | backend/src/code/ManhattanHeuristic.java:30-36 | the distance is 0 exactly at the goal |
| Grid.ManhattanSymmetric | backend/src/main/java/code/TrafficAwareHeuristic.java:182-184 | the distance is symmetric |
| Grid.ManhattanTriangle | backend/src/main/java/code/TrafficAwareHeuristic.java:16-21 | the distance obeys the triangle inequality |
| GridDistance.RunCoversDistance | backend/src/main/java/code/DeliverySearch.java:127-141 | when every step costs at least the distance it covers, every replay costs at least its Manhattan displacement |
| GridDistance.ManhattanAdmissible | backend/src/code/ManhattanHeuristic.java:30-36 | Manhattan distance to the goal is admissible under that condition |
| GridDistance.AdmissibleBelow | backend/src/main/java/code/TrafficAwareHeuristic.java:16-21 | a non-negative estimate below an admissible one is admissible |
| Actions.NamesDistinct | backend/src/main/java/code/Action.java:7-23 | the display names are distinct, lower case, non-empty and free of `,` and `;` |
| Actions.RoundTrip | backend/src/main/java/code/Action.java:20-37 | `fromString(a.toString())` gives `a` back |
| Actions.FromStringExact | backend/src/main/java/code/Action.java:28-37 | `fromString` succeeds with `a` exactly when the lower-cased text is `a`'s name |
| Actions.FromStringIgnoresCase | backend/src/main/java/code/Action.java:29 | texts equal up to case parse alike |
| Actions.FromStringRejects | backend/src/main/java/code/Action.java:35 | any other text is rejected with an error |
| Strategies.ValueOf | src/main/java/code/Strategy.java:13-15 | `valueOf` returns a constant only for its exact name |
| Strategies.AllListed | src/main/java/code/Strategy.java:3-11 | the eight constants are listed once each |
| Strategies.ValueOfName | src/main/java/code/Strategy.java:13-15 | `valueOf(x.name())` gives `x` |
| Strategies.NameRoundTrip | src/main/java/code/Strategy.java:13-15 | `fromString` of a name, in upper or lower case, gives the constant back |
| Strategies.NameIsUpper | src/main/java/code/Strategy.java:3-11 | names are their own upper case |
| Strategies.FromStringExact | src/main/java/code/Strategy.java:13-15 | `fromString` succeeds with `x` exactly when the upper-cased text is `x`'s name |
| Strategies.FromStringIgnoresCase | src/main/java/code/Strategy.java:14 | texts equal up to case parse alike |
| Strategies.FromStringRejects | src/main/java/code/Strategy.java:14 | any other text is rejected |
| Strategies.DisplayNamesDistinct | src/main/java/code/Strategy.java:17-29 | distinct constants have distinct display names |
| Strategies.DotlessI | src/main/java/code/Strategy.java:14 | `toUpperCase` maps the dotless `ı` to `I`, so `"ıd"` selects ID |
| Tunnels.TunnelCost | backend/src/main/java/code/Tunnel.java:21-23 | the cost is 0 exactly when both entrances coincide |
| Tunnels.OtherEnd | backend/src/main/java/code/Tunnel.java:30-34 | an other end exists exactly at an entrance, and together they are the two entrances |
| Tunnels.HashCode | backend/src/main/java/code/Tunnel.java:58-61 | the sum of the end hashes wraps to a 32-bit `int` |
| Tunnels.EntranceIsEnd | backend/src/main/java/code/Tunnel.java:39-41 | `isEntrance` holds exactly for the two entrances |
| Tunnels.OtherEndInvolution | backend/src/main/java/code/Tunnel.java:30-34 | going through a tunnel and back returns to the same entrance |
| Tunnels.EqualsSameEnds | backend/src/main/java/code/Tunnel.java:48-55 | two tunnels are equal exactly when they have the same entrances |
| Tunnels.EqualsEquivalence | backend/src/main/java/code/Tunnel.java:48-55 | `equals` ignores orientation and is reflexive, symmetric and transitive |
| Tunnels.HashRespectsEquals | backend/src/main/java/code/Tunnel.java:58-61 | equal tunnels have equal hash codes, for any state hash |
| Tunnels.CostIsDistance | backend/src/main/java/code/Tunnel.java:21-34 | the cost does not depend on orientation and is the distance from an entrance to its other end |
| Tunnels.FirstOtherEnd | backend/src/main/java/code/DeliverySearch.java:114-120 | the first tunnel in list order that has the state as an entrance gives the other end, and there is one exactly at an entrance |
| Tunnels.FirstOtherEndCost | backend/src/main/java/code/DeliverySearch.java:113-120 | the tunnel step leads to a tunnel end at the distance of that tunnel's cost |
| Tunnels.TunnelEnds | backend/src/main/java/code/DeliverySearch.java:17 | every entrance of every tunnel is collected |
| Delivery.ActionsOffered | backend/src/main/java/code/DeliverySearch.java:64-100 | a move is offered exactly when its forward traffic entry exists and is positive; TUNNEL exactly at an entrance |
| Delivery.ActionsOrdered | backend/src/main/java/code/DeliverySearch.java:64-100 | the actions come in the order UP, DOWN, LEFT, RIGHT, TUNNEL, each at most once |
| Delivery.MoveDistance | backend/src/main/java/code/DeliverySearch.java:103-112 | a move goes to a neighbouring cell |
| Delivery.MovesInverse | backend/src/main/java/code/DeliverySearch.java:103-112 | UP and DOWN undo each other, and so do LEFT and RIGHT |
| Delivery.MoveCost | backend/src/main/java/code/DeliverySearch.java:127-141 | a move costs its positive traffic level, and +infinity when that entry is missing or not positive |
| Delivery.TunnelStep | backend/src/main/java/code/DeliverySearch.java:113-129 | TUNNEL goes to the other end of the first tunnel with that entrance and costs that tunnel's length; it has a result exactly at an entrance |
| Delivery.MoveChangesDistanceByOne | backend/src/main/java/code/DeliverySearch.java:103-112 | a move changes the distance to any goal by exactly one |
| Delivery.OfferedStep | backend/src/main/java/code/DeliverySearch.java:64-141 | every offered action has a result and a finite cost that covers the distance moved |
| Delivery.WellFormed | backend/src/main/java/code/DeliverySearch.java:12 | the delivery problem has a finite closed universe, non-negative and finite step costs, and steps that cover their distance |
| Delivery.HeuristicsAdmissible | backend/src/main/java/code/DeliverySearch.java:368-369 | both heuristics built by `fromStrings` are admissible for the delivery problem |
| Delivery.Names | backend/src/main/java/code/DeliverySearch.java:295-297 | one name per action |
| Delivery.NamesAvoid | backend/src/main/java/code/DeliverySearch.java:295-299 | no action name holds a space, comma or semicolon |
| Delivery.NoPathExactly | backend/src/main/java/code/DeliverySearch.java:291-299 | the text is `no path;0;0` exactly when the cost is +infinity |
| Delivery.PathTextNoSpace | backend/src/main/java/code/DeliverySearch.java:295-299 | the text of a found path holds no space |
| Delivery.PathFields | backend/src/main/java/code/DeliverySearch.java:295-299 | a found path's text splits at `;` into the actions, the cost cast to `int`, and the count |
| Delivery.PathCost | backend/src/main/java/code/DeliverySearch.java:299 | the cost field parses back to the cost cast to `int` |
| Delivery.ActionsTextRoundTrip | backend/src/main/java/code/DeliverySearch.java:295-297 | the actions field splits at `,` into names that parse back to the actions |
| Delivery.DeliverySearch.constructor | backend/src/main/java/code/DeliverySearch.java:28-40 | every field holds its argument; start and goal are unset |
| Delivery.DeliverySearch.SetPath | backend/src/main/java/code/DeliverySearch.java:42-51 | records start and goal and aims both heuristics at the goal with the instance's tunnels |
| Delivery.DeliverySearch.ActionsAt | backend/src/main/java/code/DeliverySearch.java:64-100 | the loop over the four moves and the tunnels builds the offered actions |
| Delivery.Path | backend/src/main/java/code/DeliverySearch.java:286-300 | aims the problem, runs the selected search with its guarantees, and returns the result text |
| Delivery.PromisedCost | backend/src/main/java/code/DeliverySearch.java:291-293 | for a search result, cost +infinity means "no path", which for every code but ID means no goal is reachable; found costs are non-negative |
| Delivery.SearchGrid | backend/src/main/java/code/DeliverySearch.java:281-284 | the search on the aimed problem is sound, complete except for ID, and optimal for UC, AS1 and AS2 |
| Delivery.ReadyToSearch | backend/src/main/java/code/DeliverySearch.java:42-51 | after `setPath` the problem meets every precondition of the engine, and both heuristics are admissible |
| Delivery.FromStrings | backend/src/main/java/code/DeliverySearch.java:304-370 | succeeds exactly when the input parses, and then holds the parsed grid, traffic, tunnels, stores, customers and trucks |
| DeliveryInput.PairCount | backend/src/main/java/code/DeliverySearch.java:316 | the customer loop visits `length / 2` complete pairs |
| DeliveryInput.QuadCount | backend/src/main/java/code/DeliverySearch.java:334 | the tunnel loop visits `length / 4` complete groups |
| DeliveryInput.ParseCustomers | backend/src/main/java/code/DeliverySearch.java:313-322 | the customer loop computes the customers of the field list, failing on any bad number, and ignores an odd trailing field |
| DeliveryInput.CoordinateFields | backend/src/main/java/code/DeliverySearch.java:315 | writing `k` states takes `2k` fields |
| DeliveryInput.CoordinatesParse | backend/src/main/java/code/DeliverySearch.java:318-319 | the two fields of a state parse back to its coordinates |
| DeliveryInput.CustomersRoundTrip | backend/src/main/java/code/DeliverySearch.java:313-322 | customers written as `x,y` fields parse back to the same customers |
| DeliveryInput.CustomersTextRoundTrip | backend/src/main/java/code/DeliverySearch.java:314-322 | the same through the comma-joined text and `split(",")` |
| DeliveryInput.StoresOf | backend/src/main/java/code/DeliverySearch.java:324-328 | `S` clamped to 0..3 stores, in the order (0,0), (m-1,n-1), (m-1,0) |
| DeliveryInput.ParseTunnels | backend/src/main/java/code/DeliverySearch.java:330-349 | the tunnel loop keeps the groups of four that parse and skips the others |
| DeliveryInput.ReadTunnel | backend/src/main/java/code/DeliverySearch.java:335-347 | one group gives a tunnel, or nothing when a number fails to parse |
| DeliveryInput.TunnelsAtMost | backend/src/main/java/code/DeliverySearch.java:334 | at most one tunnel per group |
| DeliveryInput.TunnelsFromGroups | backend/src/main/java/code/DeliverySearch.java:334-348 | every tunnel comes from a group that parses |
| DeliveryInput.TunnelsAllGroups | backend/src/main/java/code/DeliverySearch.java:334-348 | when every group parses, the tunnels are the groups in order |
| DeliveryInput.Put | backend/src/main/java/code/DeliverySearch.java:362-363 | `putIfAbsent` then `put` sets exactly one entry and keeps every other |
| DeliveryInput.ParseEdge | backend/src/main/java/code/DeliverySearch.java:354-359 | an entry of five or more fields is an edge, a shorter one is skipped, a bad number fails |
| DeliveryInput.ParseTraffic | backend/src/main/java/code/DeliverySearch.java:351-364 | the traffic loop computes the traffic map of the entries |
| DeliveryInput.TrafficFailureStays | backend/src/main/java/code/DeliverySearch.java:357-359 | once an entry fails to parse, the whole input fails |
| DeliveryInput.TrafficFailureIsBad | backend/src/main/java/code/DeliverySearch.java:357-359 | the only failure is a malformed number |
| DeliveryInput.TrafficLastWins | backend/src/main/java/code/DeliverySearch.java:361-363 | the last entry for a pair decides its level, zero levels included |
| DeliveryInput.TrafficFromEntries | backend/src/main/java/code/DeliverySearch.java:351-364 | a pair has a level only if some entry sets it |
| DeliveryInput.ShortEntrySkipped | backend/src/main/java/code/DeliverySearch.java:355 | an entry of fewer than five fields changes nothing |
| DeliveryInput.ConfigOf | backend/src/main/java/code/DeliverySearch.java:305-366 | the trucks are the stores, at most three |
| DeliveryInput.ParseConfig | backend/src/main/java/code/DeliverySearch.java:305-366 | the parsing part of `fromStrings` computes the configuration of the input |
| DeliveryPlan.Lines | backend/src/main/java/code/DeliverySearch.java:385-429 | at most one line per searched pair |
| DeliveryPlan.LinesStep | backend/src/main/java/code/DeliverySearch.java:397-414 | a pair adds its line exactly when its search found a path |
| DeliveryPlan.ReportStep | backend/src/main/java/code/DeliverySearch.java:410-414 | each line is appended with a line break |
| DeliveryPlan.Seal | backend/src/main/java/code/DeliverySearch.java:393-395 | a search result keeps its guarantees when recorded |
| DeliveryPlan.Unseal | backend/src/main/java/code/DeliverySearch.java:393-395 | a recorded search result has the guarantees of the search |
| DeliveryPlan.PositionsStep | backend/src/main/java/code/DeliverySearch.java:421-426 | after a found path, the truck is back at its store; after a failure it stays |
| DeliveryPlan.DeliveredStep | backend/src/main/java/code/DeliverySearch.java:389-395 | each pair is searched from its truck's current position to its customer |
| DeliveryPlan.PathTextNoNewline | backend/src/main/java/code/DeliverySearch.java:295-299 | no result text holds a line break |
| DeliveryPlan.PathTextEnd | backend/src/main/java/code/DeliverySearch.java:299 | a found path's text ends with a digit |
| DeliveryPlan.LineShape | backend/src/main/java/code/DeliverySearch.java:410-414 | a line starts with `(` and ends with no space |
| DeliveryPlan.LinesShape | backend/src/main/java/code/DeliverySearch.java:410-414 | every written line has that shape |
| DeliveryPlan.ReportJoin | backend/src/main/java/code/DeliverySearch.java:410-414 | the builder holds the lines joined by line breaks, plus one more |
| DeliveryPlan.TrimReport | backend/src/main/java/code/DeliverySearch.java:431 | `trim()` removes exactly the last line break |
| DeliveryPlan.PlanLines | backend/src/main/java/code/DeliverySearch.java:431 | splitting the plan at line breaks gives back the written lines |
| DeliveryPlan.GreedyInRange | backend/src/main/java/code/DeliveryPlanner.java:66-84 | the greedy pairs name trucks and customers that exist |
| DeliveryPlan.Plan | backend/src/main/java/code/DeliverySearch.java:374-432 | assigns with the cached greedy planner, searches each pair from the truck's position, and returns the found lines joined by line breaks |
| DeliveryPlan.Assigned | backend/src/main/java/code/DeliverySearch.java:375-376 | the planner's assignment is the greedy assignment of the cost columns it cached |
| DeliveryPlan.Deliver | backend/src/main/java/code/DeliverySearch.java:381-429 | the delivery loop writes one line per found path, in assignment order |
| DeliveryPlan.DeliverPair | backend/src/main/java/code/DeliverySearch.java:386-426 | one pair: search from the truck's position; on success append the line and return the truck to its store, otherwise change nothing |
| DeliveryPlan.SealedPath | backend/src/main/java/code/DeliverySearch.java:393-395 | the search result, with its guarantees recorded |
| DeliveryPlan.PlanFromStrings | backend/src/main/java/code/DeliverySearch.java:434-437 | succeeds exactly when the input parses and the strategy code is known; the text is then the newline join of one line per found path, over the greedy pairs of the cost matrix the searches answer, each pair searched from where its truck is |
| Heuristics.ManhattanHeuristic.constructor | backend/src/code/ManhattanHeuristic.java:17-19 | a new estimate has no goal and no tunnels |
| Heuristics.ManhattanHeuristic.SetGoal | backend/src/code/ManhattanHeuristic.java:24-27 | records the goal and the tunnels |
| Heuristics.ManhattanHeuristic.H | backend/src/code/ManhattanHeuristic.java:30-36 | 0 without a goal; otherwise the Manhattan distance to the goal, which is 0 exactly at the goal |
| Heuristics.MinAssoc | backend/src/main/java/code/TrafficAwareHeuristic.java:98 | `Math.min` is associative, so the loop's grouping does not matter |
| Heuristics.MinOf | backend/src/main/java/code/TrafficAwareHeuristic.java:83-101 | a running minimum from +infinity is infinite exactly over no terms, and non-negative otherwise |
| Heuristics.MinOfBelow | backend/src/main/java/code/TrafficAwareHeuristic.java:85-99 | the running minimum is at most every term |
| Heuristics.MinOfAttained | backend/src/main/java/code/TrafficAwareHeuristic.java:85-99 | the running minimum is one of the terms |
| Heuristics.RowMin | backend/src/main/java/code/TrafficAwareHeuristic.java:113-150 | the inner loop's minimum is infinite exactly when it has no pair |
| Heuristics.RowMinBelow | backend/src/main/java/code/TrafficAwareHeuristic.java:113-150 | the inner loop's minimum is at most each of its pairs' terms |
| Heuristics.RowMinAttained | backend/src/main/java/code/TrafficAwareHeuristic.java:113-150 | the inner loop's minimum is one of its pairs' terms |
| Heuristics.PairsMin | backend/src/main/java/code/TrafficAwareHeuristic.java:109-153 | the minimum over the pairs `i < j` is non-negative when finite |
| Heuristics.PairsMinBelow | backend/src/main/java/code/TrafficAwareHeuristic.java:112-151 | the minimum over the pairs is at most the term of every pair `i < j` |
| Heuristics.PairsMinFinite | backend/src/main/java/code/TrafficAwareHeuristic.java:112-151 | the minimum over the pairs is finite exactly when there are at least two tunnels |
| Heuristics.PairsMinAttained | backend/src/main/java/code/TrafficAwareHeuristic.java:112-151 | the minimum over the pairs is the term of one pair |
| Heuristics.MinOverTerms | backend/src/main/java/code/TrafficAwareHeuristic.java:83-101 | the loop computes the running minimum over all the tunnels |
| Heuristics.MinOverPairs | backend/src/main/java/code/TrafficAwareHeuristic.java:109-153 | the nested loops compute the minimum over all pairs `i < j` |
| Heuristics.FillPairs | backend/src/main/java/code/TrafficAwareHeuristic.java:159-177 | the nested loops store the value of every pair `i < j` and keep every other entry |
| Heuristics.Lowest | backend/src/main/java/code/TrafficAwareHeuristic.java:58-76 | the estimate is at most the direct cost and every consulted tunnel estimate, and equals one of them |
| Heuristics.TrafficH | backend/src/main/java/code/TrafficAwareHeuristic.java:54-77 | 0 without a goal; otherwise never above the direct walk to the goal |
| Heuristics.WalkIsDistance | backend/src/main/java/code/TrafficAwareHeuristic.java:33 | with `MIN_TRAFFIC` at 1 a walk costs its number of steps |
| Heuristics.SingleTermAtLeastDirect | backend/src/main/java/code/TrafficAwareHeuristic.java:86-98 | no one-tunnel estimate is below the direct distance |
| Heuristics.Via2AtLeastDirect | backend/src/main/java/code/TrafficAwareHeuristic.java:122-147 | a walk, a tunnel, a walk, a tunnel and a walk cost at least the direct distance |
| Heuristics.PairTermAtLeastDirect | backend/src/main/java/code/TrafficAwareHeuristic.java:117-149 | no two-tunnel estimate is below the direct distance |
| Heuristics.TrafficBelowBests | backend/src/main/java/code/TrafficAwareHeuristic.java:66-74 | with tunnels, the estimate is at most the best one-tunnel estimate, and at most the best two-tunnel one when it is consulted (two tunnels, distance over 10) |
| Heuristics.BestsFinite | backend/src/main/java/code/TrafficAwareHeuristic.java:82-154 | the one-tunnel best is finite exactly with a tunnel, the two-tunnel best exactly with two |
| Heuristics.TrafficAttained | backend/src/main/java/code/TrafficAwareHeuristic.java:54-77 | the estimate is the direct walk, one tunnel's estimate, or a consulted pair's estimate |
| Heuristics.TrafficIsManhattan | backend/src/main/java/code/TrafficAwareHeuristic.java:16-21 | since tunnels cost their own Manhattan length, the estimate always equals the Manhattan distance to the goal |
| Heuristics.TrafficBelowTunnelEstimates | backend/src/main/java/code/TrafficAwareHeuristic.java:66-74 | the estimate is at most every single-tunnel estimate, and every pair estimate when pairs are consulted |
| Heuristics.TrafficNoTunnels | backend/src/main/java/code/TrafficAwareHeuristic.java:61-63 | without tunnels the estimate is the direct cost; at the goal it is 0 |
| Heuristics.CrossDistanceIsLeast | backend/src/main/java/code/TrafficAwareHeuristic.java:168-173 | the cached value is the least distance between an entrance of one tunnel and one of the other |
| Heuristics.TrafficAwareHeuristic.constructor | backend/src/main/java/code/TrafficAwareHeuristic.java:38-40 | a new estimate has no goal, no tunnels and an empty cache |
| Heuristics.TrafficAwareHeuristic.SetGoal | backend/src/main/java/code/TrafficAwareHeuristic.java:42-51 | records goal and tunnels; the cache is cleared and then holds exactly the pairs `i < j` of two or more tunnels with their least entrance distance |
| Heuristics.TrafficAwareHeuristic.PrecomputeTunnelDistances | backend/src/main/java/code/TrafficAwareHeuristic.java:159-177 | stores the least entrance distance of every pair `i < j` and keeps every other entry |
| Heuristics.TrafficAwareHeuristic.H | backend/src/main/java/code/TrafficAwareHeuristic.java:54-77 | `h` computes the traffic-aware estimate of its goal and tunnels |
| Heuristics.TrafficAwareHeuristic.LowerByTunnels | backend/src/main/java/code/TrafficAwareHeuristic.java:66-76 | lowers the direct cost by the single-tunnel best, and by the double-tunnel best when consulted |
| Heuristics.TrafficAwareHeuristic.FindBestSingleTunnelPath | backend/src/main/java/code/TrafficAwareHeuristic.java:82-102 | the least one-tunnel estimate over both orientations of every tunnel, +infinity for none |
| Heuristics.TrafficAwareHeuristic.FindBestDoubleTunnelPath | backend/src/main/java/code/TrafficAwareHeuristic.java:108-154 | the least of the four orientation combinations over every pair `i < j`, +infinity for fewer than two tunnels |
| LegacyHeuristic.Clamp | src/code/TrafficAwareHeuristic.java:34-36 | `Math.max(1, level)`: at least 1 and at least the argument, and one of the two |
| LegacyHeuristic.Smaller | src/code/TrafficAwareHeuristic.java:73 | `Math.min`: below both, and one of them |
| LegacyHeuristic.LoweredBelowDirect | src/code/TrafficAwareHeuristic.java:55-77 | the loop's minimum never exceeds the direct estimate |
| LegacyHeuristic.LoweredBelowTunnel | src/code/TrafficAwareHeuristic.java:59-74 | the loop's minimum is at most both orientations' estimates of every tunnel seen |
| LegacyHeuristic.LoweredAttained | src/code/TrafficAwareHeuristic.java:55-77 | the loop's minimum is the direct estimate or one of the tunnel estimates |
| LegacyHeuristic.BelowEstimates | src/code/TrafficAwareHeuristic.java:47-78 | `h` is at most the scaled direct distance and every tunnel estimate |
| LegacyHeuristic.Attained | src/code/TrafficAwareHeuristic.java:47-78 | `h` is the scaled direct distance or one tunnel's estimate |
| LegacyHeuristic.ZeroAtGoal | src/code/TrafficAwareHeuristic.java:47-78 | `h` is 0 at the goal, whatever the tunnels |
| LegacyHeuristic.NoTunnels | src/code/TrafficAwareHeuristic.java:52-55 | without tunnels `h` is the Manhattan distance times the level |
| LegacyHeuristic.LevelOneIsManhattan | src/code/TrafficAwareHeuristic.java:18-23 | at level 1 no tunnel undercuts the direct estimate, so `h` is the Manhattan distance |
| LegacyHeuristic.TunnelUndercuts | src/code/TrafficAwareHeuristic.java:57-73 | above level 1 a tunnel can lower `h` below the scaled direct distance, because the tunnel's own cost is not scaled |
| LegacyHeuristic.LegacyTrafficHeuristic.constructor | src/code/TrafficAwareHeuristic.java:34-36 | the level is clamped to at least 1; no goal yet |
| LegacyHeuristic.LegacyTrafficHeuristic.SetGoal | src/code/TrafficAwareHeuristic.java:41-44 | records the goal and the tunnels |
| LegacyHeuristic.LegacyTrafficHeuristic.H | src/code/TrafficAwareHeuristic.java:47-78 | the tunnel loop computes the estimate of its goal, tunnels and level |
| LegacyAdmissibility.ChainPlan | src/code/DeliverySearch.java:57-117 | on the two-tunnel grid, TUNNEL, DOWN, TUNNEL from (0,0) reaches (21,0) at cost 22 |
| LegacyAdmissibility.ChainEstimate | src/code/TrafficAwareHeuristic.java:47-78 | on the two-tunnel grid at level 2 the estimate at (0,0) is 32 |
| LegacyAdmissibility.TwoTunnelEstimate | src/code/TrafficAwareHeuristic.java:52-77 | for two tunnels along the x axis seen from the origin at level 2, the estimate is the least of the direct and the four tunnel estimates, written out |
| LegacyAdmissibility.ChainRefutes | src/code/TrafficAwareHeuristic.java:11-23 | a plan below the estimate at a state of the universe: the estimate is not admissible there |
| LegacyAdmissibility.ChainedTunnelsOverestimate | src/code/TrafficAwareHeuristic.java:11-23 | every level of the grid is at least the minimum 2, yet a plan costs 22 where the estimate is 32, so the admissibility argument fails |
| LegacyAdmissibility.CorrectedAttained | src/code/TrafficAwareHeuristic.java:52-77 | the corrected estimate is at most the scaled direct distance, and is it or the estimate through some tunnel end |
| LegacyAdmissibility.CorrectedBelowEnd | src/code/TrafficAwareHeuristic.java:59-74 | the corrected estimate is at most the estimate through either end of every tunnel |
| LegacyAdmissibility.CorrectedAtEnd | src/code/TrafficAwareHeuristic.java:19-22 | at a tunnel end the corrected estimate is at most the Manhattan distance |
| LegacyAdmissibility.CorrectedMove | src/code/TrafficAwareHeuristic.java:12-16 | one step to a neighbouring cell lowers the corrected estimate by at most the level |
| LegacyAdmissibility.CorrectedAboveManhattan | src/code/TrafficAwareHeuristic.java:23 | at level at least 1 the corrected estimate is at least the Manhattan distance |
| LegacyAdmissibility.CorrectedBelowLegacy | src/code/TrafficAwareHeuristic.java:47-78 | at level at least 1 the corrected estimate never exceeds the estimate as written |
| LegacyAdmissibility.CorrectedBetween | src/code/TrafficAwareHeuristic.java:23 | at level at least 1 the corrected estimate lies between the Manhattan distance and the estimate as written |
| LegacyAdmissibility.StepsCover | src/code/DeliverySearch.java:102-117 | with every level at least 1, each step of the older problem costs at least the distance it covers |
| LegacyAdmissibility.TunnelLeg | src/code/TrafficAwareHeuristic.java:19-22 | a plan to the goal that starts with TUNNEL costs at least the corrected estimate at its entrance |
| LegacyAdmissibility.RunCoversCorrected | src/code/TrafficAwareHeuristic.java:11-23 | replaying any plan from a state to the goal costs at least the corrected estimate there |
| LegacyAdmissibility.CorrectedAdmissible | src/code/TrafficAwareHeuristic.java:11-23 | with every level at least the given `m >= 1`, the corrected estimate is admissible on the older delivery problem |
| LegacyAdmissibility.LevelOneAdmissible | src/code/TrafficAwareHeuristic.java:11-23 | as written, the estimate at level 1 is admissible on the older delivery problem when no level is below 1 |
| PlannerCommon.CastCost | backend/src/main/java/code/DeliverySearch.java:299 | `(int)` keeps +infinity apart, saturates to 32 bits, and keeps every cost already in range |
| PlannerCommon.CastMonotone | backend/src/main/java/code/DeliverySearch.java:299 | the cast keeps the order of costs |
| PlannerCommon.TextCost | backend/src/main/java/code/DeliverySearch.java:291-299 | the cost a path text carries is +infinity exactly for no path, else the cost cast to `int` |
| PlannerCommon.ParseDoubleDigits | backend/src/main/java/code/DeliveryPlanner.java:156 | a digit string parses to its value |
| PlannerCommon.ParseDoubleNegative | backend/src/main/java/code/DeliveryPlanner.java:156 | a minus sign and digits parse to the negated value |
| PlannerCommon.ParseDoubleOfInt | backend/src/main/java/code/DeliveryPlanner.java:156 | `Double.parseDouble(Integer.toString(v))` is `v` |
| PlannerCommon.FinitePathText | backend/src/main/java/code/DeliveryPlanner.java:141-148 | a found path's text is non-empty and does not start with `no path` |
| PlannerCommon.ParseCostOfPath | backend/src/main/java/code/DeliveryPlanner.java:140-161 | `parseCost` of a path text gives back the cost the text carries |
| PlannerCommon.ParseCostCases | backend/src/main/java/code/DeliveryPlanner.java:140-161 | empty text, `no path`, or fewer than two fields give +infinity; an integer second field gives its value |
| PlannerCommon.ParseCostRejects | backend/src/main/java/code/DeliveryPlanner.java:155-160 | a second field that is no number gives +infinity |
| PlannerCommon.DoubleRejects | backend/src/main/java/code/DeliveryPlanner.java:156-157 | a field with a character no decimal can hold fails to parse |
| PlannerCommon.TrimKeeps | backend/src/main/java/code/DeliveryPlanner.java:156 | trimming keeps every character that is not a space |
| PlannerCommon.Column | backend/src/main/java/code/DeliveryPlanner.java:127-128 | column `c` of the matrix, one entry per truck |
| PlannerCommon.BestTruck | backend/src/main/java/code/DeliveryPlanner.java:123-135 | the answer is -1 or a truck index |
| PlannerCommon.ScanFacts | backend/src/main/java/code/DeliveryPlanner.java:127-132 | the strict `<` scan holds the first smallest entry of the prefix, +infinity when all are infinite |
| PlannerCommon.BestTruckFacts | backend/src/main/java/code/DeliveryPlanner.java:123-135 | -1 exactly when every truck's cost is infinite; otherwise the first truck of least finite cost |
| PlannerCommon.FindBestTruck | backend/src/main/java/code/DeliveryPlanner.java:123-135 | the loop finds the best truck of the column |
| PlannerCommon.Deliveries | backend/src/main/java/code/DeliveryPlanner.java:173-179 | one count per truck |
| PlannerCommon.StatsOfFacts | backend/src/main/java/code/DeliveryPlanner.java:167-212 | the total is the number of pairs and the sum of the counts; the maximum is the largest count; the minimum is the smallest positive count; the total cost is infinite exactly when one cost is; non-negative costs give a non-negative total |
| PlannerCommon.StatsOfEmpty | backend/src/main/java/code/DeliveryPlanner.java:168-170 | no pairs give `(0, 0, 0, 0)` |
| PlannerCommon.CountsSum | backend/src/main/java/code/DeliveryPlanner.java:175-179 | the per-truck counts add up to the number of pairs |
| PlannerCommon.SumStep | backend/src/main/java/code/DeliveryPlanner.java:179 | one increment adds one to the sum |
| PlannerCommon.MaxCountFacts | backend/src/main/java/code/DeliveryPlanner.java:199-202 | the largest count is at least every count and is one of them |
| PlannerCommon.MinPositiveFacts | backend/src/main/java/code/DeliveryPlanner.java:200-203 | the smallest positive count is absent exactly when all counts are 0; otherwise positive, one of the counts, and at most every positive count |
| PlannerCommon.SumCostsFacts | backend/src/main/java/code/DeliveryPlanner.java:172-196 | the summed cost is infinite exactly when one cost is, and non-negative for non-negative costs |
| PlannerCommon.CountExtremes | backend/src/main/java/code/DeliveryPlanner.java:199-210 | the loop computes the largest count and the smallest positive one, 0 for none |
| BackendPlanner.ReadAnswer | backend/src/main/java/code/DeliveryPlanner.java:104-113 | the cost read from a search's text is recorded with the search's guarantees |
| BackendPlanner.LoadCost | backend/src/main/java/code/DeliveryPlanner.java:113 | a recorded cost is the cost of a search's text |
| BackendPlanner.AnswerCost | backend/src/main/java/code/DeliveryPlanner.java:104-113 | parsing a search's text gives its cost cast to `int` |
| BackendPlanner.CostAnswerFacts | backend/src/main/java/code/DeliveryPlanner.java:113 | a read cost is +infinity exactly when the customer is unreachable (except under ID), non-negative when finite, and at most any plan's cast cost under UC, AS1, AS2 |
| BackendPlanner.Unassigned | backend/src/main/java/code/DeliveryPlanner.java:73-81 | the warned customers are customers seen so far |
| BackendPlanner.GreedyCount | backend/src/main/java/code/DeliveryPlanner.java:73-81 | each customer gives exactly one pair or one warning |
| BackendPlanner.GreedyChoices | backend/src/main/java/code/DeliveryPlanner.java:73-81 | each pair names its customer's best truck; each warning names a customer with none |
| BackendPlanner.GreedyOrdered | backend/src/main/java/code/DeliveryPlanner.java:73-81 | pairs and warnings come in customer order |
| BackendPlanner.GreedyComplete | backend/src/main/java/code/DeliveryPlanner.java:73-81 | every customer with a best truck gets a pair with that truck |
| BackendPlanner.UnassignedComplete | backend/src/main/java/code/DeliveryPlanner.java:73-81 | every customer without one gets a warning |
| BackendPlanner.TruckServesTwo | backend/src/main/java/code/DeliveryPlanner.java:59-66 | trucks are not used up: two customers can both get truck 0 |
| BackendPlanner.KeysBeforeStep | backend/src/main/java/code/DeliveryPlanner.java:95-98 | one more customer adds exactly its key |
| BackendPlanner.ColumnOf | backend/src/main/java/code/DeliveryPlanner.java:98-113 | the costs of customer `c`, one per truck, parsed from the cache |
| BackendPlanner.ColumnsOf | backend/src/main/java/code/DeliveryPlanner.java:92-118 | one column per customer |
| BackendPlanner.MatrixColumns | backend/src/main/java/code/DeliveryPlanner.java:113 | the filled matrix's columns are the cache's columns |
| BackendPlanner.DeliveryPlanner.WarningsFor | backend/src/main/java/code/DeliveryPlanner.java:79 | one warning per unreachable customer, naming it and its position |
| BackendPlanner.DeliveryPlanner.WarningsStep | backend/src/main/java/code/DeliveryPlanner.java:76-80 | a customer adds a warning exactly when it has no best truck |
| BackendPlanner.DeliveryPlanner.constructor | backend/src/main/java/code/DeliveryPlanner.java:26-38 | fields hold the arguments; empty cache and warnings |
| BackendPlanner.DeliveryPlanner.AssignedIffReachable | backend/src/main/java/code/DeliveryPlanner.java:66-84 | a customer gets a truck exactly when some truck can reach it (except under ID); under UC, AS1, AS2 the chosen cost is at most any truck's plan |
| BackendPlanner.DeliveryPlanner.CachedPath | backend/src/main/java/code/DeliveryPlanner.java:98-111 | a hit returns the cached text without a search; a miss runs one search and caches its text |
| BackendPlanner.DeliveryPlanner.ColumnsAnswered | backend/src/main/java/code/DeliveryPlanner.java:92-118 | every entry of the cached cost matrix is the cost a search from its truck to its customer answers |
| BackendPlanner.DeliveryPlanner.ComputeCostMatrix | backend/src/main/java/code/DeliveryPlanner.java:92-118 | every entry is the cost parsed from the cached text of its pair; old entries are kept; exactly the pairs' keys are added |
| BackendPlanner.DeliveryPlanner.FillRow | backend/src/main/java/code/DeliveryPlanner.java:96-114 | row `t` is filled from the cache; other rows are unchanged |
| BackendPlanner.DeliveryPlanner.GreedyAssignment | backend/src/main/java/code/DeliveryPlanner.java:66-84 | the pairs are the greedy choice over the cached cost columns, and the warnings grow by one per unreachable customer |
| BackendPlanner.DeliveryPlanner.PickTrucks | backend/src/main/java/code/DeliveryPlanner.java:73-81 | the customer loop produces the greedy pairs and warnings |
| BackendPlanner.DeliveryPlanner.Assign | backend/src/main/java/code/DeliveryPlanner.java:50-57 | both branches run the greedy assignment |
| BackendPlanner.DeliveryPlanner.PeekPath | backend/src/main/java/code/DeliveryPlanner.java:182-194 | a cached text is read without caching anything new; a miss searches once and does not store |
| BackendPlanner.DeliveryPlanner.GetStats | backend/src/main/java/code/DeliveryPlanner.java:167-212 | the statistics of the pairs with the costs read for them, one search per cache miss |
| BackendPlanner.DeliveryPlanner.Tally | backend/src/main/java/code/DeliveryPlanner.java:175-197 | counts the pairs per truck and sums their costs |
| BackendPlanner.DeliveryPlanner.TallyOne | backend/src/main/java/code/DeliveryPlanner.java:176-196 | one pair: count it and add its cost |
| BackendPlanner.DeliveryPlanner.TalliedStep | backend/src/main/java/code/DeliveryPlanner.java:196 | adding a pair's cost extends the total |
| BackendPlanner.DeliveryPlanner.GetWarnings | backend/src/main/java/code/DeliveryPlanner.java:266-268 | the warnings collected so far |
| BackendPlanner.DeliveryPlanner.ClearCache | backend/src/main/java/code/DeliveryPlanner.java:273-275 | the cache is emptied |
| BackendPlanner.Count | backend/src/main/java/code/DeliveryPlanner.java:179 | `deliveriesPerTruck[truckIdx]++` counts one more pair |
| OncePlanner.UnusedMin | backend/src/code/DeliveryPlanner.java:25-38 | the running `(minCost, bestTruck)` of the inner loop; `bestTruck` is `-1` or a truck index seen so far |
| OncePlanner.UnusedMinFacts | backend/src/code/DeliveryPlanner.java:25-38 | `bestTruck == -1` exactly when no unused truck has a path; otherwise it is unused, its cost is the least among unused trucks with a path, and it is the first such truck (strict `<`) |
| OncePlanner.UnusedMinPrefix | backend/src/code/DeliveryPlanner.java:27 | the inner loop's result after `n` trucks depends only on those trucks |
| OncePlanner.CustomersIncreasing | backend/src/code/DeliveryPlanner.java:24-40 | pairs are listed in increasing customer order, at most one per customer, with customer and truck indices in range |
| OncePlanner.OnceStep | backend/src/code/DeliveryPlanner.java:39-42 | each customer either leaves the state as it was or appends one pair for itself with an unused truck that then becomes used |
| OncePlanner.UsedHolds | backend/src/code/DeliveryPlanner.java:40-41 | every pair's truck is in `usedTrucks` |
| OncePlanner.UsedOnlyPairs | backend/src/code/DeliveryPlanner.java:40-41 | every used truck belongs to some pair |
| OncePlanner.TrucksOnce | backend/src/code/DeliveryPlanner.java:28-41 | no truck is in two pairs, and there are as many used trucks as pairs |
| OncePlanner.UsedBelow | backend/src/code/DeliveryPlanner.java:27-41 | the used trucks are valid truck indices |
| OncePlanner.BelowFacts | backend/src/code/DeliveryPlanner.java:27 | the truck indices below `T` form a set of size `T` |
| OncePlanner.SubsetSize | backend/src/code/DeliveryPlanner.java:23 | a subset of the truck indices is no larger than the set of all of them |
| OncePlanner.CountBound | backend/src/code/DeliveryPlanner.java:21-45 | there are at most as many pairs as customers and at most as many as trucks |
| OncePlanner.Decision | backend/src/code/DeliveryPlanner.java:27-42 | if some unused truck reaches the customer, the pair added uses the cheapest such truck, the first one on ties; otherwise nothing changes |
| OncePlanner.OncePrefix | backend/src/code/DeliveryPlanner.java:24 | the state after `n` customers depends only on their searches |
| OncePlanner.NextProgress | backend/src/code/DeliveryPlanner.java:39-42 | one more customer appends `[bestTruck, c]` and marks the truck used, unless `bestTruck == -1` |
| OncePlanner.OnceGrows | backend/src/code/DeliveryPlanner.java:22-40 | later customers only append pairs, and only for themselves |
| OncePlanner.Served | backend/src/code/DeliveryPlanner.java:24-42 | customer `c` is in a pair exactly when some truck not used by the earlier customers has a path to it |
| OncePlanner.ServedWhenReached | backend/src/code/DeliveryPlanner.java:39-40 | a customer some unused truck reaches gets its pair at the next position |
| OncePlanner.ChosenTruck | backend/src/code/DeliveryPlanner.java:39-41 | such a customer appends exactly one pair for itself |
| OncePlanner.PairKept | backend/src/code/DeliveryPlanner.java:22-40 | a pair once added stays in its place |
| OncePlanner.Appended | backend/src/code/DeliveryPlanner.java:40 | an appended element keeps its index in any extension |
| OncePlanner.UnservedWhenUnreached | backend/src/code/DeliveryPlanner.java:39 | a customer no unused truck reaches is in no pair |
| OncePlanner.NoneChosen | backend/src/code/DeliveryPlanner.java:39 | such a customer leaves the state unchanged |
| OncePlanner.SkipKept | backend/src/code/DeliveryPlanner.java:39 | a customer skipped at its step is in no pair at the end |
| OncePlanner.RowStep | backend/src/code/DeliveryPlanner.java:27-29 | a row of searches gains an entry that is a real search unless the truck is used |
| OncePlanner.DeliveryPlanner.constructor | backend/src/code/DeliveryPlanner.java:12-18 | stores the stores, customers, trucks, delivery search and strategy |
| OncePlanner.DeliveryPlanner.Assign | backend/src/code/DeliveryPlanner.java:21-45 | the returned pairs are the greedy once-per-truck assignment of the searches it made |
| OncePlanner.DeliveryPlanner.AssignOne | backend/src/code/DeliveryPlanner.java:25-42 | one pass of the outer loop extends the greedy state by one customer |
| OncePlanner.DeliveryPlanner.ProbedStep | backend/src/code/DeliveryPlanner.java:27-29 | a row searched with the trucks used so far keeps the record of searches consistent |
| OncePlanner.DeliveryPlanner.ServedIffReachable | backend/src/code/DeliveryPlanner.java:21-45 | for a complete strategy, customer `c` is served exactly when a truck not used by earlier customers can reach it on the grid |
| OncePlanner.DeliveryPlanner.BestUnused | backend/src/code/DeliveryPlanner.java:25-38 | the inner loop returns the first cheapest unused truck with a path, or `-1` |
| OncePlanner.DeliveryPlanner.Probe | backend/src/code/DeliveryPlanner.java:29-32 | one search from the truck to the customer: found exactly when its cost is finite, and then the cost read back from the text |
| LegacyPlanner.ReadPath | src/code/DeliveryPlanner.java:187-208 | the cost `parseCost` reads from the text of a search result is `+infinity` for "no path" and the path's cost otherwise |
| LegacyPlanner.ReadFacts | src/code/DeliveryPlanner.java:187-208 | on a grid without zero-cost roads, the cost read is `+infinity` exactly when the customer cannot be reached from the truck |
| LegacyPlanner.RowPick | src/code/DeliveryPlanner.java:117-128 | the running best pair after one truck's row is the earlier pick or a pair of this truck |
| LegacyPlanner.GridPick | src/code/DeliveryPlanner.java:114-129 | the running best pair after `n` trucks names a truck below `n` or none (`-1`) |
| LegacyPlanner.RowPickFacts | src/code/DeliveryPlanner.java:117-128 | a row's pick never raises the cost; a new pick is an unserved customer of this row, strictly cheaper than the old pick and than every earlier unserved customer; no unserved entry is cheaper |
| LegacyPlanner.GridPickFacts | src/code/DeliveryPlanner.java:109-129 | the pick is `(-1, -1)` at `+infinity` exactly when every unserved pair costs `+infinity`; otherwise it is an unserved pair in range with that cost, and no unserved pair is cheaper |
| LegacyPlanner.GridPickLe | src/code/DeliveryPlanner.java:123 | no unserved pair costs less than the pick |
| LegacyPlanner.GridPickFirst | src/code/DeliveryPlanner.java:114-128 | strict `<`: every unserved pair earlier in truck-major order costs strictly more than the pick |
| LegacyPlanner.GridPickValid | src/code/DeliveryPlanner.java:131 | a pick that names a truck or customer names an unserved pair in range |
| LegacyPlanner.RowPickPrefix | src/code/DeliveryPlanner.java:117 | a row's pick after `n` customers depends only on those customers |
| LegacyPlanner.GridPickPrefix | src/code/DeliveryPlanner.java:114 | the pick after `n` trucks depends only on their rows |
| LegacyPlanner.AllServedMeans | src/code/DeliveryPlanner.java:108 | the loop test `assignedCustomers.size() < customers.size()` fails exactly when every customer is served |
| LegacyPlanner.AllServedMissing | src/code/DeliveryPlanner.java:108 | an unserved customer keeps the loop going |
| LegacyPlanner.RowPickSnoc | src/code/DeliveryPlanner.java:117-128 | one more customer continues the row's pick: a served one is skipped, otherwise it is considered |
| LegacyPlanner.GridPickSnoc | src/code/DeliveryPlanner.java:114-129 | one more truck continues the pick with its row |
| LegacyPlanner.ShapedStep | src/code/DeliveryPlanner.java:114-117 | each round observes one cost per truck and customer |
| LegacyPlanner.SequentialPrefix | src/code/DeliveryPlanner.java:108 | the state after `n` rounds depends only on those rounds' searches |
| LegacyPlanner.NamesSnoc | src/code/DeliveryPlanner.java:132 | appending a pair adds exactly its customer and its truck to those named |
| LegacyPlanner.SequentialNamed | src/code/DeliveryPlanner.java:131-133 | every pair is in range, and a customer is in `assignedCustomers` exactly when some pair names it |
| LegacyPlanner.DistinctSnoc | src/code/DeliveryPlanner.java:118-133 | a pair for an unnamed customer keeps customers distinct |
| LegacyPlanner.SequentialServed | src/code/DeliveryPlanner.java:118-133 | no customer is assigned twice, so there are as many served customers as pairs |
| LegacyPlanner.SequentialPositions | src/code/DeliveryPlanner.java:103-105 | every truck has a position: its store once it has delivered (`truckPositions.put(bestTruck, stores.get(bestTruck))`), its start otherwise |
| LegacyPlanner.SequentialChoice | src/code/DeliveryPlanner.java:131-139 | a round either appends one pair that is the cheapest unserved pair, the first in truck-major order on ties, or stops the loop exactly when every unserved pair costs `+infinity` |
| LegacyPlanner.GreedyServedIffReachable | src/code/DeliveryPlanner.java:58-77 | on a grid without zero-cost roads, customer `c` is in a pair exactly when some truck can reach it |
| LegacyPlanner.WriteRow | src/code/DeliveryPlanner.java:153-161 | fills one row of the cost matrix and leaves the other rows as they were |
| LegacyPlanner.DeliveryPlanner.constructor | src/code/DeliveryPlanner.java:22-32 | stores the stores, customers, trucks, delivery search and strategy |
| LegacyPlanner.DeliveryPlanner.PathCost | src/code/DeliveryPlanner.java:120-121 | one search and `parseCost` of its text: it succeeds only for the strategy the older engine supports, and yields a cost read from that search |
| LegacyPlanner.DeliveryPlanner.RowSeenStep | src/code/DeliveryPlanner.java:117-121 | a row gains a cost read for its next customer unless that customer is served |
| LegacyPlanner.DeliveryPlanner.RowSeenGrow | src/code/DeliveryPlanner.java:120 | later searches keep the costs read so far |
| LegacyPlanner.DeliveryPlanner.ComputeCostMatrix | src/code/DeliveryPlanner.java:149-165 | a `trucks × customers` matrix whose entry `[t][c]` is the cost read from the path of truck `t` to customer `c`, after one search per entry |
| LegacyPlanner.DeliveryPlanner.RowCosts | src/code/DeliveryPlanner.java:153-161 | one truck's row: a cost read per customer |
| LegacyPlanner.DeliveryPlanner.SeenColumnsRead | src/code/DeliveryPlanner.java:149-165 | the matrix's columns are costs read for each truck and customer |
| LegacyPlanner.DeliveryPlanner.GreedyAssignment | src/code/DeliveryPlanner.java:58-77 | the pairs are the greedy choice (first cheapest truck per customer, unreachable ones skipped) over the cost matrix it searched |
| LegacyPlanner.DeliveryPlanner.PickTrucks | src/code/DeliveryPlanner.java:65-74 | the per-customer loop over the matrix gives the greedy pairs |
| LegacyPlanner.DeliveryPlanner.Assign | src/code/DeliveryPlanner.java:44-51 | both branches give the greedy assignment |
| LegacyPlanner.DeliveryPlanner.RowsSeenStep | src/code/DeliveryPlanner.java:114-117 | the rows of a round are costs read from each truck's current position |
| LegacyPlanner.DeliveryPlanner.RowsSeenGrow | src/code/DeliveryPlanner.java:120 | later searches keep a round's readings |
| LegacyPlanner.DeliveryPlanner.RoundsSeenGrow | src/code/DeliveryPlanner.java:120 | later searches keep every round's readings |
| LegacyPlanner.DeliveryPlanner.RoundSeenPrefix | src/code/DeliveryPlanner.java:108 | a recorded round stays recorded when more rounds follow |
| LegacyPlanner.DeliveryPlanner.RoundsSeenStep | src/code/DeliveryPlanner.java:108-140 | a new round read from the current positions extends the record of rounds |
| LegacyPlanner.DeliveryPlanner.RoundsSeenKeep | src/code/DeliveryPlanner.java:108 | adding a round keeps the earlier ones recorded |
| LegacyPlanner.DeliveryPlanner.RoundSeenNew | src/code/DeliveryPlanner.java:114-121 | the new round is recorded against the current positions and served set |
| LegacyPlanner.DeliveryPlanner.RowsSeenLengths | src/code/DeliveryPlanner.java:117 | every row of a round has one cost per customer |
| LegacyPlanner.DeliveryPlanner.StuckIffUnreachable | src/code/DeliveryPlanner.java:137-139 | on a grid without zero-cost roads, the loop breaks exactly when no truck can reach any unserved customer from its current position |
| LegacyPlanner.DeliveryPlanner.RoundStep | src/code/DeliveryPlanner.java:109-139 | a round read from the current state advances the sequential state by its best pair |
| LegacyPlanner.DeliveryPlanner.PlayRound | src/code/DeliveryPlanner.java:109-139 | one pass of the `while` body: its pick is the best pair of the costs it read, and the state advances by it |
| LegacyPlanner.DeliveryPlanner.SequentialAssignment | src/code/DeliveryPlanner.java:97-143 | the pairs are those of the sequential rounds it played; it ends with every customer served or after a round that found no reachable pair |
| LegacyPlanner.DeliveryPlanner.BestPair | src/code/DeliveryPlanner.java:109-129 | the best unserved pair over all trucks' current positions |
| LegacyPlanner.DeliveryPlanner.RowPair | src/code/DeliveryPlanner.java:117-128 | the best unserved pair of one truck's row |
| LegacyPlanner.DeliveryPlanner.Visit | src/code/DeliveryPlanner.java:118-127 | one customer of the inner loop: skipped when served, otherwise searched and considered |
| LegacyPlanner.DeliveryPlanner.PairsSeenStep | src/code/DeliveryPlanner.java:228-234 | each pair's cost is read from a search of that pair |
| LegacyPlanner.DeliveryPlanner.SeenPairsRead | src/code/DeliveryPlanner.java:228-234 | the recorded pair costs are costs read back from the paths |
| LegacyPlanner.DeliveryPlanner.GetStats | src/code/DeliveryPlanner.java:214-250 | the statistics of the pairs over the costs read for them, with `(0, 0, 0, 0)` for no pairs |
| LegacyPlanner.DeliveryPlanner.Tally | src/code/DeliveryPlanner.java:219-235 | counts each truck's deliveries and sums the costs read for the pairs |
| LegacySearch.EnqueueUnseen | src/code/GenericSearch.java:63-78 | the frontier gains, in action order, a child for each action whose state has not been generated, and those states become explored |
| LegacySearch.HeadFacts | src/code/GenericSearch.java:54 | the polled head of a frontier of engine-built nodes is one too, in the universe, and so is the rest |
| LegacySearch.QueueKeeps | src/code/GenericSearch.java:66-76 | appending unseen children keeps the frontier's states distinct and `explored` equal to the expanded states plus the frontier's |
| LegacySearch.PollFacts | src/code/GenericSearch.java:54-78 | after one expansion every successor of the polled state is expanded or on the frontier |
| LegacySearch.ExpandHeadFacts | src/code/GenericSearch.java:54-78 | one expansion keeps the frontier invariants, adds the polled state to the expanded set, and shrinks the unexpanded part of the universe |
| LegacySearch.ExpandHead | src/code/GenericSearch.java:54-78 | polls the head and queues its unseen children, keeping every invariant of the loop, level order included |
| LegacySearch.BreadthFirst | src/code/GenericSearch.java:39-85 | the result is a valid plan to a goal with its cost, or "no path" with `+infinity` exactly when no goal is reachable; a returned plan has no more actions than any plan to a goal; no state is expanded twice, and a failed search expands every reachable state |
| LegacySearch.Search | src/code/GenericSearch.java:22-35 | only BF is implemented, with the guarantees of breadth-first search including fewest actions; every other strategy is a failure (`UnsupportedOperationException`) |
| LegacyDelivery.ActionsOffered | src/code/DeliverySearch.java:57-81 | a movement is offered exactly when the state's traffic entry lists the cell it leads to, and TUNNEL exactly when the state is an end of some tunnel |
| LegacyDelivery.ActionsOrdered | src/code/DeliverySearch.java:58-80 | actions come in the order UP, DOWN, LEFT, RIGHT, TUNNEL, each at most once |
| LegacyDelivery.MoveCost | src/code/DeliverySearch.java:102-117 | a movement costs its traffic level when the entry exists and is not zero, and `+infinity` otherwise |
| LegacyDelivery.TunnelStep | src/code/DeliverySearch.java:92-96 | TUNNEL leads to the other end of the first tunnel with an end at the state, at the Manhattan distance between the ends |
| LegacyDelivery.OfferedStep | src/code/DeliverySearch.java:57-117 | every offered action has a result inside the grid's universe, at finite cost when no level is zero |
| LegacyDelivery.WellFormed | src/code/DeliverySearch.java:47-117 | the problem starts in a finite universe closed under its actions, with finite step costs when no level is zero |
| LegacyDelivery.LegacyManhattan.constructor | src/code/DeliverySearch.java:357-358 | a new heuristic has no goal |
| LegacyDelivery.LegacyManhattan.SetGoal | src/code/DeliverySearch.java:360-362 | records the goal; the tunnels are ignored |
| LegacyDelivery.LegacyManhattan.H | src/code/DeliverySearch.java:364-368 | `0` before a goal is set, then the Manhattan distance, which is zero exactly at the goal |
| LegacyDelivery.LegacyManhattan.MoveChangesHByOne | src/code/DeliverySearch.java:364-368 | one movement changes the estimate by exactly one |
| LegacyDelivery.LegacyDeliverySearch.constructor | src/code/DeliverySearch.java:25-37 | stores the grid's size, traffic, tunnels, stores, customers, trucks and heuristic, with no start or goal |
| LegacyDelivery.LegacyDeliverySearch.SetPath | src/code/DeliverySearch.java:39-45 | records the start and goal and aims the Manhattan heuristic at the goal |
| LegacyDelivery.LegacyDeliverySearch.ActionsAt | src/code/DeliverySearch.java:57-81 | the actions of the state are those of the traffic map and tunnels |
| LegacyDelivery.LegacyDeliverySearch.ResultAt | src/code/DeliverySearch.java:83-100 | a movement's neighbour, or the other end of the first matching tunnel; none where the source throws |
| LegacyDelivery.PromisedCost | src/code/DeliverySearch.java:335-343 | on a grid without zero levels, the cost is `+infinity` and the text is "no path;0;0" exactly when the goal cannot be reached |
| LegacyDelivery.Path | src/code/DeliverySearch.java:335-343 | aims the search at the goal; succeeds only for BF, and its text is the breadth-first result's `actions;cost;nodes` |
| LegacyDelivery.CustomersOf | src/code/DeliverySearch.java:255-260 | parsed customers use two fields each |
| LegacyDelivery.ParseCustomers | src/code/DeliverySearch.java:255-260 | the customer loop gives the customers read two fields at a time, or fails where `parseInt` or the index would |
| LegacyDelivery.CustomersRoundTrip | src/code/DeliverySearch.java:255-260 | customers written as `x,y,...` parse back to themselves |
| LegacyDelivery.TunnelsOf | src/code/DeliverySearch.java:262-271 | parsed tunnels use four fields each |
| LegacyDelivery.ParseTunnels | src/code/DeliverySearch.java:262-271 | the tunnel loop gives the tunnels read four fields at a time, or fails |
| LegacyDelivery.ParseEntry | src/code/DeliverySearch.java:276-282 | one traffic entry: five integers, skipped when the level is zero |
| LegacyDelivery.MirroredNext | src/code/DeliverySearch.java:275-289 | a malformed entry fails the input, a zero entry changes nothing, and any other sets the level in both directions |
| LegacyDelivery.ParseMirrored | src/code/DeliverySearch.java:273-289 | the traffic loop's map is the fold of the entries |
| LegacyDelivery.MirrorEntry | src/code/DeliverySearch.java:283-288 | one entry folded in, or the failure of the whole input |
| LegacyDelivery.MirroredFailureStays | src/code/DeliverySearch.java:275-281 | once an entry is malformed the whole input is rejected |
| LegacyDelivery.MirroredFailureIsBad | src/code/DeliverySearch.java:276-281 | the failure is a malformed-input failure |
| LegacyDelivery.MirrorKeeps | src/code/DeliverySearch.java:285-288 | setting a non-zero level in both directions keeps the map symmetric and free of zero levels |
| LegacyDelivery.MirroredShape | src/code/DeliverySearch.java:273-289 | the traffic map is symmetric and has no zero level |
| LegacyDelivery.MirroredFromEntries | src/code/DeliverySearch.java:275-289 | every pair with a level was linked by some entry |
| LegacyDelivery.ZeroEntrySkipped | src/code/DeliverySearch.java:282 | an entry of level zero leaves the map unchanged |
| LegacyDelivery.ConfigOf | src/code/DeliverySearch.java:248-298 | the trucks are the stores, and there are at most three of them |
| LegacyDelivery.ParseConfig | src/code/DeliverySearch.java:249-295 | the parsing of `fromStrings`, field by field |
| LegacyDelivery.ConfigTraffic | src/code/DeliverySearch.java:273-289 | a parsed configuration's traffic is symmetric and has no zero level |
| LegacyDelivery.NoCustomersRejected | src/code/DeliverySearch.java:255-258 | an input with no customers field or an empty one is rejected, as `parseInt("")` throws |
| LegacyDelivery.FromStrings | src/code/DeliverySearch.java:248-299 | succeeds exactly when the input parses, and builds a search over the parsed grid with no start or goal |
| LegacyMatrix.AdjacentFacts | src/code/DeliverySearch.java:215-238 | the four neighbour cells are exactly the cells at Manhattan distance one, and adjacency is symmetric |
| LegacyMatrix.GridTrafficFacts | src/code/DeliverySearch.java:207-241 | the map built from a matrix is symmetric in its keys, and every level in it is positive |
| LegacyMatrix.LinkFacts | src/code/DeliverySearch.java:215-220 | linking a positive cell to a positive neighbour keeps the map sound, keeps its entries and adds both directions |
| LegacyMatrix.PutFacts | src/code/DeliverySearch.java:217 | one direction of a link keeps the map sound and keeps its entries |
| LegacyMatrix.OpenFacts | src/code/DeliverySearch.java:213 | `putIfAbsent(from, new HashMap<>())` for a positive cell keeps the map sound |
| LegacyMatrix.KeptTransitive | src/code/DeliverySearch.java:209-241 | keeping entries is transitive across the loop |
| LegacyMatrix.Neighbours | src/code/DeliverySearch.java:215-238 | the four cells the body visits are exactly the adjacent ones |
| LegacyMatrix.CellDone | src/code/DeliverySearch.java:211-239 | a cell linked to all its positive neighbours extends the row-major coverage by one cell |
| LegacyMatrix.RowDone | src/code/DeliverySearch.java:209-240 | a finished row lets the next row start |
| LegacyMatrix.LinkedKept | src/code/DeliverySearch.java:209-241 | a link survives later updates |
| LegacyMatrix.LinkTo | src/code/DeliverySearch.java:215-238 | one of the four `if`s: links the neighbour when it is in bounds and positive |
| LegacyMatrix.ConnectPositive | src/code/DeliverySearch.java:212-238 | a positive cell ends up linked to all its positive neighbours |
| LegacyMatrix.ConnectCell | src/code/DeliverySearch.java:211-239 | one cell of the double loop keeps the map sound and extends the coverage |
| LegacyMatrix.BuildEdges | src/code/DeliverySearch.java:207-241 | the map has an entry from `s` to `t` exactly when they are adjacent cells of the matrix with positive levels, and its level is `t`'s |
| LegacyMatrix.IntsOf | src/code/DeliverySearch.java:176-179 | a parsed row has the width asked for |
| LegacyMatrix.RowOf | src/code/DeliverySearch.java:176-179 | a parsed matrix line has `n` levels |
| LegacyMatrix.IntsOfSplit | src/code/DeliverySearch.java:176 | parsing the first `n` fields does not depend on the trailing empty fields that `split` drops |
| LegacyMatrix.RecordsOf | src/code/DeliverySearch.java:175-180 | `count` lines parse into `count` rows of the given width |
| LegacyMatrix.SectionOf | src/code/DeliverySearch.java:181-188 | a section is its count line and that many records, and reading continues after them |
| LegacyMatrix.PointsOf | src/code/DeliverySearch.java:192-193 | rows `x y` become the states `(x, y)` |
| LegacyMatrix.TunnelRowsOf | src/code/DeliverySearch.java:184-187 | rows `x1 y1 x2 y2` become tunnels between `(x1, y1)` and `(x2, y2)` |
| LegacyMatrix.InputOfLines | src/code/DeliverySearch.java:168-206 | a parsed input has `m` rows of `n` levels |
| LegacyMatrix.InputOfSized | src/code/DeliverySearch.java:174-206 | once the header is read, the matrix has the stated size |
| LegacyMatrix.InputWithRows | src/code/DeliverySearch.java:181-206 | after the matrix, the sections keep the matrix and its size |
| LegacyMatrix.ParseRow | src/code/DeliverySearch.java:176-179 | fills row `i` with the parsed levels, or fails, and leaves the other rows as they were |
| LegacyMatrix.FillRow | src/code/DeliverySearch.java:175-179 | row `i` of the matrix is line `1 + i` split at spaces |
| LegacyMatrix.ReadMatrix | src/code/DeliverySearch.java:174-180 | a fresh `m` by `n` array holding the parsed rows, or a failure when a row does not parse |
| LegacyMatrix.RecordsFailureStays | src/code/DeliverySearch.java:175-180 | once a row is malformed, so is every longer run of rows |
| LegacyMatrix.ReadSection | src/code/DeliverySearch.java:181-206 | one section: the count line, then one record per line |
| LegacyMatrix.SectionFailureStays | src/code/DeliverySearch.java:183-205 | a malformed record fails the section however many more follow |
| LegacyMatrix.ReadHeader | src/code/DeliverySearch.java:171-173 | `m` and `n` from the first line |
| LegacyMatrix.ReadSections | src/code/DeliverySearch.java:181-206 | the tunnel, store, customer and truck sections in order |
| LegacyMatrix.FromString | src/code/DeliverySearch.java:168-245 | succeeds exactly when the text parses, and builds the search over its matrix's edges, tunnels, stores, customers and trucks |
| LegacyMatrix.FromLines | src/code/DeliverySearch.java:170-245 | `fromString` after the split into lines |
| LegacyMatrix.FromSized | src/code/DeliverySearch.java:174-245 | `fromString` after the header |
| LegacyMatrix.FromMatrix | src/code/DeliverySearch.java:181-245 | `fromString` after the matrix is read |
| LegacyMatrix.Assemble | src/code/DeliverySearch.java:207-244 | builds the edges from the matrix and the search from the sections |
| LegacyMatrix.DistinctCat | src/code/DeliverySearch.java:147-154 | runs of distinct pairs with no pair in common join into distinct pairs |
| LegacyMatrix.CellPairsMembers | src/code/DeliverySearch.java:149-152 | a cell writes exactly its pairs with in-grid adjacent cells |
| LegacyMatrix.CellPairsDistinct | src/code/DeliverySearch.java:149-152 | a cell writes each of its pairs once |
| LegacyMatrix.PairsBeforeMembers | src/code/DeliverySearch.java:147-154 | the pairs written before a cell are exactly the in-grid adjacent pairs starting at earlier cells |
| LegacyMatrix.PairsBeforeStart | src/code/DeliverySearch.java:147-154 | those pairs start at earlier cells |
| LegacyMatrix.PairsBeforeDistinct | src/code/DeliverySearch.java:147-154 | no pair is written twice |
| LegacyMatrix.EntryTextFacts | src/code/DeliverySearch.java:149-152 | an entry is not empty, holds no `;`, and its fields hold no `,` |
| LegacyMatrix.EntryTexts | src/code/DeliverySearch.java:149-152 | one entry text per pair, in order |
| LegacyMatrix.JoinLast | src/code/DeliverySearch.java:155 | a join whose last part is not empty is not empty |
| LegacyMatrix.EntryTextsCat | src/code/DeliverySearch.java:147-154 | the entries of consecutive runs of pairs follow each other |
| LegacyMatrix.TerminatedCat | src/code/DeliverySearch.java:147-154 | the builder's text of consecutive runs is their concatenation |
| LegacyMatrix.TerminatedJoin | src/code/DeliverySearch.java:155 | removing the last `;` leaves the entries joined by `;` |
| LegacyMatrix.OptWritten | src/code/DeliverySearch.java:149-152 | one `if` writes its entry followed by `;` when its test holds, and nothing otherwise |
| LegacyMatrix.FourWritten | src/code/DeliverySearch.java:149-152 | four runs of pairs are written one after another |
| LegacyMatrix.CellWritten | src/code/DeliverySearch.java:149-152 | a cell's text is that of its four `if`s in order |
| LegacyMatrix.AppendCell | src/code/DeliverySearch.java:149-152 | appends one cell's entries to the builder |
| LegacyMatrix.TrafficString | src/code/DeliverySearch.java:145-156 | the text of the double loop for an `m` by `n` grid |
| LegacyMatrix.GenTraffic | src/code/DeliverySearch.java:143-157 | the text of the 5 by 5 grid |
| LegacyMatrix.EntryParses | src/code/DeliverySearch.java:149-152 | each generated entry reads back in `fromStrings` as its pair at level one |
| LegacyMatrix.TrafficTextFacts | src/code/DeliverySearch.java:143-157 | the text splits into one entry per in-grid directed adjacent pair, each written once and each reading back at level one |
| LegacyPlan.IntCast | src/code/DeliverySearch.java:319 | the `(int)` cast lands in the 32-bit range and keeps a finite cost that fits |
| LegacyPlan.ParseCount | src/code/DeliverySearch.java:317 | a node count written by `path` parses back exactly when it fits in 32 bits |
| LegacyPlan.FoundFields | src/code/DeliverySearch.java:314-316 | a found path's text splits into actions, cost and node count, and the cost field parses back as the cost |
| LegacyPlan.LineOfFields | src/code/DeliverySearch.java:313-319 | a three-field text gives the line `(Truck<t>,Customer<c>);<actions>;<cost>;<nodes>`, or fails where `parseInt` of the count throws |
| LegacyPlan.RebuiltLine | src/code/DeliverySearch.java:318-319 | the rebuilt line is the pair followed by the path text unchanged |
| LegacyPlan.LineOfPath | src/code/DeliverySearch.java:312-319 | a "no path" text writes nothing, any other text writes its line, and only an over-large node count fails |
| LegacyPlan.Lines | src/code/DeliverySearch.java:307-323 | at most one line per searched pair |
| LegacyPlan.LinesStep | src/code/DeliverySearch.java:307-319 | one more pair appends its line when its path was found, and nothing otherwise |
| LegacyPlan.LineShape | src/code/DeliverySearch.java:318-319 | every line has the `(Truck<t>,Customer<c>);<actions>;<cost>;<nodes>` shape |
| LegacyPlan.LinesShape | src/code/DeliverySearch.java:307-323 | every line of the plan has that shape |
| LegacyPlan.TrimLines | src/code/DeliverySearch.java:324 | `sb.toString().trim()` is the lines joined with line breaks |
| LegacyPlan.PlanLines | src/code/DeliverySearch.java:324 | splitting the plan at line breaks gives back its lines |
| LegacyPlan.Unseal | src/code/DeliverySearch.java:335-343 | a sealed search result is a breadth-first result for the pair |
| LegacyPlan.DeliveredStep | src/code/DeliverySearch.java:307-312 | each pair's result is a search from the truck's first position to the customer |
| LegacyPlan.Plan | src/code/DeliverySearch.java:302-325 | the pairs are the greedy assignment over the costs read, each pair is searched from the truck's first position, and the plan is the found paths' lines joined by line breaks; it succeeds only for BF or an empty problem |
| LegacyPlan.Deliver | src/code/DeliverySearch.java:307-323 | the loop searches every pair in order and appends each found path's line |
| LegacyPlan.DeliverPair | src/code/DeliverySearch.java:308-322 | one pair: searched, then its line appended when the path was found |
| LegacyPlan.Solve | src/code/DeliverySearch.java:328-332 | succeeds exactly when the strategy code and the input parse, the planner can run, and every node count fits; the text is then the plan of the parsed grid: greedy pairs over the costs read, one line per found path |
| JavaText.Wrap32 | backend/src/main/java/code/Tunnel.java:58-61 | `int` addition wraps around: the result is in 32-bit range, congruent to the exact sum, and equal to it when that fits |
| JavaText.SaturateInt | backend/src/main/java/code/DeliverySearch.java:299 | the `(int)` cast of a double lands in 32-bit range, keeps a value that fits and clamps one that does not to the nearer bound |
| JavaText.UpperOfLower | src/main/java/code/Strategy.java:14 | upper-casing forgets whether letters were lower-cased first |
| JavaText.UpperIdempotent | src/main/java/code/Strategy.java:14 | upper-casing is idempotent and keeps the length |
| JavaText.LowerIdempotent | backend/src/main/java/code/Action.java:29 | lower-casing is idempotent and keeps the length |
| JavaText.Fields | backend/src/main/java/code/DeliverySearch.java:305 | the fields between separators, empty ones included: at least one, none holding the separator |
| JavaText.JoinSnoc | backend/src/main/java/code/DeliverySearch.java:297 | joining one more part adds a separator and the part |
| JavaText.JoinAvoids | backend/src/main/java/code/DeliverySearch.java:297 | a character outside every part and other than the separator is not in the join |
| JavaText.JoinFields | backend/src/main/java/code/DeliverySearch.java:305 | joining the fields of a text gives the text back |
| JavaText.JoinConsField | backend/src/main/java/code/DeliverySearch.java:305 | a character in front of the first field is in front of the join |
| JavaText.DropTrailingEmpty | backend/src/main/java/code/DeliverySearch.java:305 | `split` drops exactly the trailing empty fields |
| JavaText.Split | backend/src/main/java/code/DeliverySearch.java:305 | `split` gives the whole text when it has no separator, and otherwise a prefix of its fields ending in a non-empty one |
| JavaText.OneField | backend/src/main/java/code/DeliverySearch.java:305 | a text without the separator is one field |
| JavaText.SplitJoin | backend/src/main/java/code/DeliverySearch.java:353 | splitting a join of separator-free parts whose last part is not empty gives the parts back |
| JavaText.JoinHasSeparator | backend/src/main/java/code/DeliverySearch.java:297 | a join of two or more parts holds the separator |
| JavaText.FieldsJoin | backend/src/main/java/code/DeliverySearch.java:305 | the fields of a join of separator-free parts are those parts |
| JavaText.FieldsPrefix | backend/src/main/java/code/DeliverySearch.java:305 | a separator-free prefix followed by the separator is the first field |
| JavaText.NatDigits | backend/src/main/java/code/DeliverySearch.java:299 | the decimal digits of a natural number, at least one |
| JavaText.IntToString | backend/src/main/java/code/DeliverySearch.java:299 | `Integer.toString` is never empty |
| JavaText.ParseInt | backend/src/main/java/code/DeliverySearch.java:307-310 | `Integer.parseInt` only yields 32-bit values |
| JavaText.ParseDigits | backend/src/main/java/code/DeliverySearch.java:307-310 | the signed digits' value, only when it fits in 32 bits |
| JavaText.DigitsRoundTrip | backend/src/main/java/code/DeliverySearch.java:299 | the digits of a natural number read back as that number |
| JavaText.IntRoundTrip | backend/src/main/java/code/DeliverySearch.java:307-310 | `Integer.parseInt(Integer.toString(v)) == v` for every 32-bit value |
| JavaText.ParseMinInt | backend/src/main/java/code/DeliverySearch.java:307-310 | the most negative `int` reads back as itself |
| JavaText.ParseIntRejects | backend/src/main/java/code/DeliverySearch.java:307-310 | a text holding a character other than a sign or a digit is rejected |
| JavaText.ParseIntAccepts | backend/src/main/java/code/DeliverySearch.java:307-310 | an unsigned digit string in range is accepted with its value |
| JavaText.ParseIntAcceptsNegative | backend/src/main/java/code/DeliverySearch.java:307-310 | a negated digit string in range is accepted with its negated value |
| JavaText.IntToStringHasNo | backend/src/main/java/code/DeliverySearch.java:299 | `Integer.toString` writes only a sign and digits |
| JavaText.TrimStart | backend/src/main/java/code/DeliverySearch.java:431 | removing leading characters up to U+0020 leaves a suffix that starts with none |
| JavaText.TrimEnd | backend/src/main/java/code/DeliverySearch.java:431 | removing trailing characters up to U+0020 leaves a prefix that ends with none |
| JavaText.Trim | backend/src/main/java/code/DeliverySearch.java:431 | `trim` leaves a text that neither starts nor ends with such a character |

## Left out

- DepthSearch.IterativeDeepening: the fewest-actions plan and "no path" exactly
  when no goal is within 1001 steps are promised only with finite step
  costs. Like `iterativeDeepeningSearch`, the model treats a depth-limited
  result of cost +infinity as a failure and keeps deepening. A goal reached
  only through an infinite step can therefore give a longer plan, or
  "no path" when the first such plan is found before every finite one.
  Every delivery grid has finite step costs, so its results are not affected.
- The frontend, the HTTP controllers, the DTO and bootstrap classes, both
  `Main.java` command-line programs and the test programs are not part of
  this model. They are user interface, networking, timing and printing.
- `GenGrid` (both trees), `visualizeGrid`, `visualizePathExecution`,
  `visualizeAssignments` and `AssignmentStats.toString` are left out. They
  are random generation and console output. `GenTraffic` of
  `src/code/DeliverySearch.java` is modelled.
- Console output is left out: the `System.err` warnings of the older
  planners and the error message of `parseCost`. The backend planner keeps
  its warnings as data, and they are modelled.
- `EuclideanHeuristic` in `src/code/DeliverySearch.java` is left out. It
  uses `Math.sqrt`, and the older engine only runs breadth-first search,
  which never consults a heuristic.
- The instance method `path(store, customer, strategy)` of
  `src/code/DeliverySearch.java` is left out. It sets the path and runs the
  same search as the static `path`, with fresh heuristics that
  breadth-first search ignores.
- `optimalAssignment` of `src/code/DeliveryPlanner.java` is left out. It is
  private, nothing calls it, and it returns `greedyAssignment()`.
- `Problem` is a datatype of function fields rather than an interface, and
  `Node` is a parent-linked datatype. A ghost finite set of states closed
  under the offered actions stands for the finiteness of the grid.
- Java's `PriorityQueue` does not break ties in a fixed order. The model
  polls any element whose key is minimal, and every contract holds for
  every such choice.
- `HashMap`/`HashSet` hashing and `State.hashCode` are not modelled. States
  are integer pairs with structural equality, and the collections are
  Dafny sets and maps.
- `double` costs are integers or `+infinity`. Every step cost in the source
  is an integer traffic level or a Manhattan distance, so no fractional
  value arises.
- `int` counters (`nodesExpanded`, node depth, delivery counts) are
  unbounded. Only where the source parses a count back with
  `Integer.parseInt` is the 32-bit range modelled.
- Java exceptions (`NumberFormatException`, an out-of-range array index,
  `IllegalStateException`, `UnsupportedOperationException`) become
  `Failure` results or `None`. The model does not say which exception is
  thrown.
- The backend `DeliverySearch` builds `new TrafficAwareHeuristic(1)`, but
  the backend class has only a constructor without arguments. The model
  uses that class, where the minimum traffic level is the constant 1.
- `backend/src/code/DeliveryPlanner.java` calls `DeliverySearch.path`, but
  no `DeliverySearch` class exists beside it. The model uses the one in
  `backend/src/main/java/code/DeliverySearch.java`.
- A search inside a planner is specified by what it promises, through ghost
  predicates over its result. The exact node count of a search that a
  planner repeats is not tied to the earlier one.
- Tunnels.TunnelCost: the sums and differences of coordinates are
  unbounded integers, not 32-bit `int`s. This also holds for
  `Grid.Manhattan`, `Delivery.Neighbour`, `DeliveryInput.StoresOf`
  (`m - 1`, `n - 1`), the Manhattan and tunnel sums of `Heuristics`,
  `LegacyHeuristic.LegacyH` and the moves and tunnel costs of
  `LegacyDelivery`. With coordinates near -2^31 or 2^31 - 1, Java wraps
  around: a tunnel from (0,0) to (-2147483648,-2147483648) costs 0, and
  one from (0,0) to (-2147483648,0) costs -2147483648, which breaks the
  non-negative step costs that the optimality of uniform-cost and A*
  search relies on. The model does not capture that wrap. Its `TunnelCost`
  is a `nat` that is 0 only for a tunnel whose ends coincide, and this
  holds only while every coordinate difference stays within 32 bits.
- JavaText.ParseInt: reads only the ASCII digits `0` to `9`.
  `Integer.parseInt` takes any Unicode decimal digit that
  `Character.digit` knows, such as Arabic-Indic or full-width digits. Such
  texts fail in the model and parse in Java. Every size, count, coordinate
  and traffic level of the input is read through this function.
- PlannerCommon.ParseDouble: after trimming, reads only an optional sign
  with decimal digits, or `Infinity`. `Double.parseDouble` also accepts
  fractions, exponents, `NaN` and type suffixes. Every cost text the engine
  writes has the modelled form.
- DeliveryPlan.Plan: requires no more trucks than stores. The source would
  throw in `stores.get` otherwise, and `fromStrings` always builds as many
  trucks as stores.
- JavaText.Upper: `toUpperCase()` and `toLowerCase()` without a locale
  (src/main/java/code/Strategy.java:14,
  backend/src/main/java/code/Action.java:29) use the default locale. The
  model assumes a non-Turkish default. Under a Turkish or Azeri default
  locale, `"id".toUpperCase()` is `"İD"` and `"RIGHT".toLowerCase()` is
  `"rıght"`, so such texts do not parse. `Strategies.NameRoundTrip`,
  `Strategies.FromStringIgnoresCase` and `Actions.FromStringIgnoresCase`
  hold only under that assumption. `JavaText.Lower` makes the same
  assumption.
- SearchDispatch.Search: requires a finite set of states that is closed
  under the actions and holds the start. The engine on an infinite problem
  is not modelled. `Delivery.WellFormed` and `LegacyDelivery.WellFormed`
  supply such a set for the grid.

## Findings

| source | as written | input that shows it | evidently intended | confidence | as-written member | corrected member |
|---|---|---|---|---|---|---|
| src/code/TrafficAwareHeuristic.java:11-73 | the walk from a tunnel's exit to the goal is scaled by `minTraffic` even though that walk may take another tunnel at its unscaled length, so the estimate can exceed the cost of a plan while every level is at least `minTraffic` | tunnels (0,0)–(10,0) and (11,0)–(21,0), levels 2 between (10,0) and (11,0) in both directions, `minTraffic` 2, goal (21,0): `h((0,0))` is 32, but TUNNEL, DOWN, TUNNEL costs 10 + 2 + 10 = 22 | an admissible estimate, as the class comment argues: scale only the walk to the first tunnel end and bound the rest by the Manhattan distance | high (not executed) | LegacyAdmissibility.ChainedTunnelsOverestimate | LegacyAdmissibility.CorrectedAdmissible |
