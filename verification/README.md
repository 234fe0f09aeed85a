# ConfigSynth constraint-model compiler, modelled in Dafny

ConfigSynth synthesises a security configuration for a small network of hosts and
routers. It reads:
- the topology;
- the reachability requirements and the flow ranks;
- the device, OS and service tables;
- three sliders: resiliency, usability and cost.

From these it compiles a constraint model for an SMT solver. The model's variables say:
- which security device sits on which link;
- which isolation measure each flow gets;
- which OS each host runs.

The assertions tie these choices to the isolation, diversity, resiliency, usability
and cost scores. The enumerator then asks the solver for models. After each model it
blocks the model's device placement and isolation measures.

This project models that compiler:

- `arith.dfy` (module `Arith`):
  - the `factorial` and `nCr` accumulator loops;
  - the integer division of C#, which truncates toward zero;
  - real-valued sums over a host range with excluded indices (the solver's `MkAdd` over a loop).
- `tables.dfy` (module `Tables`):
  - the tables the input reader fills in place: the symmetric link table, the reachability requirements and the flow ranks (defaults overridden by rank lines);
  - the rescaled isolation weight, the maximum total resiliency loop, and the resiliency target from the integer slider.
- `routes.dfy` (module `Routes`):
  - the recursive route search over the shared path buffer, as a class `PathFinder` with the buffer, the route counter and the emitted routes;
  - a functional specification `Search` with soundness, completeness and no-duplicates lemmas;
  - the `MAX_ROUTES` overflow.
- `constraints.dfy` (module `Constraints`):
  - the inputs (`Params`) and a value for every solver variable (`Assignment`);
  - one predicate per group of assertions the compiler emits;
  - `Satisfies` for their conjunction: an assignment satisfying it is a solver model.
- `flows.dfy`, `diversity.dfy`, `resiliency.dfy`, `cost.dfy`: what those assertions force on any solver model:
  - isolation is tied to reachability;
  - isolated flows carry their device on every route;
  - exactly one diversity case applies;
  - every resiliency level, host score and total equals a reference computation from the placement, the measures and the OS choice, within the proved bounds;
  - cost is fixed by the placement and the OS choice.
- `enumerate.dfy` (module `Enumeration`):
  - the blocking-clause builder and its two report counts;
  - the enumeration loop, with the solver as an oracle.

## Model

| member | source | states |
|---|---|---|
| Arith.Fact | ConsoleApplication1/ConsoleApplication1/Program.cs:139-149 | the reference n! (0! = 1), which is never 0 |
| Arith.Factorial | ConsoleApplication1/ConsoleApplication1/Program.cs:140-149 | the accumulator loop returns n! (1 for n below 2) |
| Arith.Choose | ConsoleApplication1/ConsoleApplication1/Program.cs:151-161 | the loop `res = res * (n-i+1) / i` returns the binomial coefficient C(n, r) (1 for negative r) |
| Arith.Absorption | ConsoleApplication1/ConsoleApplication1/Program.cs:151-161 | k·C(n,k) = n·C(n-1,k-1), the identity that makes each division of the loop exact |
| Arith.BinomialStep | ConsoleApplication1/ConsoleApplication1/Program.cs:151-161 | C(n,k-1)·(n-k+1) = k·C(n,k): one step of the loop |
| Arith.BinomialAbove | ConsoleApplication1/ConsoleApplication1/Program.cs:151-161 | choosing more items than there are gives 0 |
| Arith.OrderedPairs | ConsoleApplication1/ConsoleApplication1/Program.cs:1189 | nCr(n,2)·factorial(2) is n·(n-1), the number of ordered host pairs |
| Arith.TruncDiv | ConsoleApplication1/ConsoleApplication1/Program.cs:1183 | integer division truncating toward zero agrees with floor division on non-negative operands, is non-negative when the operands' signs agree and non-positive when they differ |
| Arith.TruncDivMagnitude | ConsoleApplication1/ConsoleApplication1/Program.cs:1183 | the magnitude m of the quotient is the largest with m·abs(b) ≤ abs(a), that is abs(a) < (m+1)·abs(b) |
| Tables.LinkIdSpec | ConsoleApplication1/ConsoleApplication1/Program.cs:1011-1035 | the id a link table entry holds is the last input link joining the two nodes, or 0 when none does |
| Tables.LinkIdSymmetric | ConsoleApplication1/ConsoleApplication1/Program.cs:1031-1032 | the link between u and v has the same id as the link between v and u |
| Tables.BuildLinks | ConsoleApplication1/ConsoleApplication1/Program.cs:1006-1036 | the table is filled in place with every entry the last link joining its two nodes (0 if none) and is symmetric; an end point outside the table makes the input unreadable |
| Tables.Targets | ConsoleApplication1/ConsoleApplication1/Program.cs:1058-1063 | the reachability targets of a line are all its words but the last |
| Tables.BuildReachReq | ConsoleApplication1/ConsoleApplication1/Program.cs:1039-1065 | entry (i,t) is 1 exactly when t is a target on host i's line and 0 otherwise; the reader succeeds exactly when every target is a host 1..nHost (a target 0 or beyond nHost has no reachability variable) |
| Tables.LastRank | ConsoleApplication1/ConsoleApplication1/Program.cs:1096-1125 | the rank line that decides a pair is the last one naming it |
| Tables.BuildFlowRank | ConsoleApplication1/ConsoleApplication1/Program.cs:1068-1125 | each rank is MAX_ISO_USABILITY for a required pair and 1 otherwise, unless a later rank line overrides it; a line naming a pair outside the table makes the input unreadable |
| Tables.IsolationWeight | ConsoleApplication1/ConsoleApplication1/Program.cs:1183 | the rescaled weight is the floor of 7·MAX_DIVERSITY / MAX_ISOLATION |
| Tables.MaxTotalResiliency | ConsoleApplication1/ConsoleApplication1/Program.cs:1185-1190 | the loop over the transitivity levels gives n·(n-1)·MAX_RESILIENCY·6 |
| Tables.TargetMonotone | ConsoleApplication1/ConsoleApplication1/Program.cs:1193 | the resiliency target grows with the slider, from 0 at the bottom to the maximum at the top |
| Routes.LinkIds | ConsoleApplication1/ConsoleApplication1/Program.cs:188-247 | a route of n nodes has n-1 link ids |
| Routes.Emitted | ConsoleApplication1/ConsoleApplication1/Program.cs:177-184 | one route record per route found, in order |
| Routes.SearchSound | ConsoleApplication1/ConsoleApplication1/Program.cs:172-264 | every route the search reports from an open prefix extends it, starts at the source, ends at the destination, has linked consecutive nodes and distinct router interior nodes, and never passes a node linked to the destination |
| Routes.SearchComplete | ConsoleApplication1/ConsoleApplication1/Program.cs:172-264 | every such route extending the prefix is reported |
| Routes.SearchNoDuplicates | ConsoleApplication1/ConsoleApplication1/Program.cs:172-264 | no route is reported twice |
| Routes.RoutesOfFlow | ConsoleApplication1/ConsoleApplication1/Program.cs:271-275 | the routes found for a flow are exactly its routes, each once |
| Routes.DirectLinkOnly | ConsoleApplication1/ConsoleApplication1/Program.cs:177-184 | a direct link between the two hosts makes [src, dest] the only route |
| Routes.UnvisitedCount | ConsoleApplication1/ConsoleApplication1/Program.cs:253-264 | unvisited routers plus interior nodes always make nRouter |
| Routes.PrefixBound | ConsoleApplication1/ConsoleApplication1/Program.cs:166-169 | a prefix never holds more than nRouter + 1 nodes, so the path buffer needs nRouter + 2 cells |
| Routes.Capped | ConsoleApplication1/ConsoleApplication1/Program.cs:56 | the route records kept are the first MAX_ROUTES found, all of them when there are no more |
| Routes.OverflowStep | ConsoleApplication1/ConsoleApplication1/Program.cs:177-184 | once the routes found overflow the table, the routes kept no longer change |
| Routes.PathFinder.OnPath | ConsoleApplication1/ConsoleApplication1/Program.cs:255-259 | the scan of the path buffer finds x exactly when x is in the current prefix |
| Routes.PathFinder.RouteLinkIds | ConsoleApplication1/ConsoleApplication1/Program.cs:188-247 | the link ids read off the path buffer are the route's link ids |
| Routes.PathFinder.EmitRoute | ConsoleApplication1/ConsoleApplication1/Program.cs:177-184 | appends the route prefix + [dest] (capped at MAX_ROUTES, overflow once more are found) and keeps the prefix |
| Routes.PathFinder.TryRouter | ConsoleApplication1/ConsoleApplication1/Program.cs:253-264 | trying the routers from i on emits exactly the routes through them, in order |
| Routes.PathFinder.FindPath | ConsoleApplication1/ConsoleApplication1/Program.cs:172-266 | the recursion over the shared buffer emits exactly Search of the prefix, capped, with overflow set exactly when there are more than MAX_ROUTES, and restores the prefix |
| Routes.PathFinder.GetPath | ConsoleApplication1/ConsoleApplication1/Program.cs:271-275 | emits exactly the routes of the flow src → dest |
| Routes.PathFinder.AllFlowRoutes | ConsoleApplication1/ConsoleApplication1/Program.cs:2248-2256 | runs the search for every ordered host pair; it succeeds exactly when no flow has more than MAX_ROUTES routes, and then the table holds every flow's routes |
| Constraints.FoundRoutesFormTable | ConsoleApplication1/ConsoleApplication1/Program.cs:2246-2256 | the route table the enumerator returns on success has an entry for every flow, at most MAX_ROUTES routes each, every route of at least two nodes with one link id between each |
| Constraints.IsolationLinkage | ConsoleApplication1/ConsoleApplication1/Program.cs:1914-1939 | a reachable flow takes no measure with zero usability (msr ≠ 1); an unreachable one takes measure 1 |
| Constraints.IsolationScore | ConsoleApplication1/ConsoleApplication1/Program.cs:1953-1975 | a flow's isolation and isolation usability are its measure's weight, and its measure's usability times its rank |
| Constraints.Guard | ConsoleApplication1/ConsoleApplication1/Program.cs:2037-2071 | the six diversity cases: family differs, same family with another OS, or same OS, each split by whether a service is shared |
| Constraints.RouteRules | ConsoleApplication1/ConsoleApplication1/Program.cs:188-247 | the route variable is in 0..nDev and names a device found on the route; device 2 must sit at both ends |
| Constraints.Satisfies | ConsoleApplication1/ConsoleApplication1/Program.cs:1912-2408 | the conjunction of all the assertion groups, the reading of a solver model |
| Flows.BlockedIffUnreachable | ConsoleApplication1/ConsoleApplication1/Program.cs:1914-1939 | a flow gets measure 1 exactly when it is not reachable |
| Flows.SelfFlowOpen | ConsoleApplication1/ConsoleApplication1/Program.cs:909-917 | a host's flow to itself is reachable, unisolated, with isolation 0 and full usability times its rank |
| Flows.RouteCarriesDevice | ConsoleApplication1/ConsoleApplication1/Program.cs:188-247 | a route whose variable names a device has that device on some link, and device 2 on the first or second and on the last or second-to-last link |
| Flows.IsolatedFlowProtected | ConsoleApplication1/ConsoleApplication1/Program.cs:2246-2299 | an isolated flow has its measure's device on every one of its routes |
| Flows.UnreachableFlowBlocked | ConsoleApplication1/ConsoleApplication1/Program.cs:1927-1939 | an unreachable flow has device 1 on every route |
| Flows.RoutelessFlowOpen | ConsoleApplication1/ConsoleApplication1/Program.cs:2258-2299 | a flow with no route takes no measure and so must be reachable |
| DiversityCases.DivCase | ConsoleApplication1/ConsoleApplication1/Program.cs:2029-2074 | the diversity case of a flow is one of the six, even exactly when a service is shared |
| DiversityCases.SameOSSameFamily | ConsoleApplication1/ConsoleApplication1/Program.cs:2008-2027 | two hosts with the same OS are in the same family |
| DiversityCases.GuardIffCase | ConsoleApplication1/ConsoleApplication1/Program.cs:2029-2074 | for a reachable flow, exactly one guard holds: the one of the flow's case |
| DiversityCases.GuardsOverlapWithoutFamilies | ConsoleApplication1/ConsoleApplication1/Program.cs:2008-2027 | without the OS family tie two guards could hold at once |
| DiversityCases.FlowDiversity | ConsoleApplication1/ConsoleApplication1/Program.cs:2029-2074 | a reachable flow's diversity is the table value of its case |
| DiversityCases.FlowDiversityBounds | ConsoleApplication1/ConsoleApplication1/Program.cs:2029-2074 | flow diversity lies within 0..MAX_DIVERSITY |
| Resiliency.Level0Determined | ConsoleApplication1/ConsoleApplication1/Program.cs:2092-2122 | level 0 of a flow is fixed by its measure and the hosts' OS and services |
| Resiliency.LevelStep | ConsoleApplication1/ConsoleApplication1/Program.cs:2124-2151 | that average equals the reference level once the terms agree |
| Resiliency.LevelDetermined | ConsoleApplication1/ConsoleApplication1/Program.cs:2092-2151 | every level's resiliency equals the reference recursion from the measures and OS choices |
| Resiliency.HostResDetermined | ConsoleApplication1/ConsoleApplication1/Program.cs:2153-2199 | a host's resiliency is the sum of the weighted levels of its incoming flows |
| Resiliency.ResiliencyDetermined | ConsoleApplication1/ConsoleApplication1/Program.cs:2215-2239 | the total resiliency of any solver model equals the reference total |
| Resiliency.HostIsoUsaDetermined | ConsoleApplication1/ConsoleApplication1/Program.cs:1977-2002 | a host's isolation usability is the sum over its incoming flows of measure usability times rank |
| Resiliency.HostUsaDetermined | ConsoleApplication1/ConsoleApplication1/Program.cs:2201-2213 | a host's usability combines both with their weights |
| Resiliency.UsabilityDetermined | ConsoleApplication1/ConsoleApplication1/Program.cs:2215-2239 | the total usability of any solver model equals the reference total |
| Resiliency.Res0Bounds | ConsoleApplication1/ConsoleApplication1/Program.cs:2092-2122 | level 0 lies within 0..MAX_RESILIENCY |
| Resiliency.Res0AllBounds | ConsoleApplication1/ConsoleApplication1/Program.cs:2092-2122 | with the score tables in range, every flow's level 0 lies within 0..MAX_RESILIENCY |
| Resiliency.ResBounds | ConsoleApplication1/ConsoleApplication1/Program.cs:2124-2151 | each transitive level, an average of pairs of lower-level scores halved, stays within the bound that holds for level 0 |
| Resiliency.HopBounds | ConsoleApplication1/ConsoleApplication1/Program.cs:2124-2151 | each summand of a transitive level (a level l-1 score plus a level 0 score) lies within twice the level-0 bound |
| Resiliency.UltBounds | ConsoleApplication1/ConsoleApplication1/Program.cs:2153-2173 | the ultimate resiliency of a flow, levels weighed 3 : 2 : 1, is at most 6 times the level-0 bound |
| Resiliency.UltIntoBounds | ConsoleApplication1/ConsoleApplication1/Program.cs:2175-2199 | every flow into a host has an ultimate resiliency within 6 times the level-0 bound |
| Resiliency.FlowsIntoWithin | ConsoleApplication1/ConsoleApplication1/Program.cs:2153-2199 | the flow bound holds for every flow into every host |
| Resiliency.FlowsWithinMax | ConsoleApplication1/ConsoleApplication1/Program.cs:2092-2173 | with the score tables in range, every flow's ultimate resiliency is at most 6·MAX_RESILIENCY |
| Resiliency.HostResBelow | ConsoleApplication1/ConsoleApplication1/Program.cs:2175-2199 | a host's resiliency, summed over its n-1 incoming flows, is at most n-1 times the flow bound |
| Resiliency.HostsBelow | ConsoleApplication1/ConsoleApplication1/Program.cs:2175-2199 | the host bound holds for every host |
| Resiliency.TotalFromFlows | ConsoleApplication1/ConsoleApplication1/Program.cs:2175-2239 | with every flow within a bound b, the total resiliency is at most b·(n-1)·n |
| Resiliency.TotalBelow | ConsoleApplication1/ConsoleApplication1/Program.cs:2215-2239 | the total resiliency, summed over the hosts, is at most n times the host bound |
| Resiliency.MaxTotalFactored | ConsoleApplication1/ConsoleApplication1/Program.cs:1186-1193 | MAX_TOTAL_RESILIENCY is n hosts times n-1 flows times 6·MAX_RESILIENCY |
| Resiliency.TotalResBounds | ConsoleApplication1/ConsoleApplication1/Program.cs:2215-2239 | the total resiliency never exceeds MAX_TOTAL_RESILIENCY |
| Resiliency.ResiliencyBounds | ConsoleApplication1/ConsoleApplication1/Program.cs:2405 | a solver model's resiliency lies between the target and the maximum |
| Resiliency.TargetAboveMaximum | ConsoleApplication1/ConsoleApplication1/Program.cs:2405 | a target above the maximum leaves no solver model |
| Resiliency.ThresholdsMonotone | ConsoleApplication1/ConsoleApplication1/Program.cs:2403-2407 | an assignment that meets the thresholds of a higher resiliency slider meets those of any lower one |
| Cost.BareIffUnequipped | ConsoleApplication1/ConsoleApplication1/Program.cs:2315-2345 | a link's slot 0 is set exactly when no device is placed on it |
| Cost.LinkCostDetermined | ConsoleApplication1/ConsoleApplication1/Program.cs:2347-2358 | a link's cost is the cost of the devices placed on it |
| Cost.OSCostDetermined | ConsoleApplication1/ConsoleApplication1/Program.cs:2360-2370 | the hosts' OS costs are those of the chosen OS |
| Cost.CostDetermined | ConsoleApplication1/ConsoleApplication1/Program.cs:2372-2399 | a solver model's cost is fixed by its placement and OS choice |
| Cost.BareLinkFree | ConsoleApplication1/ConsoleApplication1/Program.cs:2331-2358 | a link with slot 0 set costs nothing |
| Cost.OSCostLowerBound | ConsoleApplication1/ConsoleApplication1/Program.cs:2372-2399 | with no negative device cost, the OS costs alone bound the cost from below |
| Cost.CostAtLeastCheapest | ConsoleApplication1/ConsoleApplication1/Program.cs:2360-2399 | with no negative device cost, a solver model's cost is at least nHost times the cheapest OS cost |
| Cost.BareCheapestCost | ConsoleApplication1/ConsoleApplication1/Program.cs:2347-2399 | no device on any link and every host on a cheapest OS cost exactly nHost times the cheapest OS cost, the minimum |
| Cost.WithinBudget | ConsoleApplication1/ConsoleApplication1/Program.cs:2407 | a solver model's placement and OS choice stay within the budget |
| Enumeration.RowCountSize | ConsoleApplication1/ConsoleApplication1/Program.cs:2517-2558 | the counter of a report row is the number of cells it counts |
| Enumeration.GridCountSize | ConsoleApplication1/ConsoleApplication1/Program.cs:2517-2558 | the counter of a report is the number of cells it counts |
| Enumeration.Literals | ConsoleApplication1/ConsoleApplication1/Program.cs:2521-2558 | the nested loop emits one literal per cell with the model's value and counts the cells that qualify |
| Enumeration.BuildBlockingClause | ConsoleApplication1/ConsoleApplication1/Program.cs:2517-2558 | the clause holds the model's placement of every device on every link and the measure of every flow (diagonal included); deployed counts the placed devices, allowed the flows whose measure has non-zero usability |
| Enumeration.BlockingExact | ConsoleApplication1/ConsoleApplication1/Program.cs:2606 | a later model satisfies the clause exactly when it differs on a placement or a measure; OS and services play no part |
| Enumeration.RecordModel | ConsoleApplication1/ConsoleApplication1/Program.cs:2505-2509 | a model found by a check is the solver's answer to all clauses so far |
| Enumeration.RecordClause | ConsoleApplication1/ConsoleApplication1/Program.cs:2606 | the clause added blocks the last model |
| Enumeration.RecordedModels | ConsoleApplication1/ConsoleApplication1/Program.cs:2500-2609 | every model found satisfies the constraints and no two make the same decisions |
| Enumeration.Enumerate | ConsoleApplication1/ConsoleApplication1/Program.cs:2497-2612 | stops when the solver has no more models or maxSolutions are found; adds a blocking clause after every model but the last; the models are solver models with pairwise different decisions |
| Enumeration.FindSolutions | ConsoleApplication1/ConsoleApplication1/Program.cs:2497-2612 | with MAX_NUM_SOLUTION = 1: one check, no clause, and a model exactly when the solver finds one |

## Left out

- I/O: the input file reader's line loop, comment skipping and tokenising are not modelled. Every table builder takes the already tokenised lines. Console and file output is not modelled either.
- The solver is not modelled. Each assertion group becomes a predicate over an `Assignment`, and `Satisfies` is their conjunction. The enumerator's checks are an oracle function `seq<Clause> -> Verdict` that is assumed sound (`SoundSolver`). The solver's timeout and its unsat core are left out; a timeout is the `Unknown` verdict.
- Params.routes: the constraints take the route table as given. `Constraints.FoundRoutesFormTable` shows that the table `Routes.PathFinder.AllFlowRoutes` returns has the shape they need. But `Params` does not carry the link table, so the claim that `Params.routes` is the table found holds by reading only.
- The rank table is not rebuilt inside `Constraints`:
  - `Params.flowRank` is the table `Tables.BuildFlowRank` fills;
  - the two are connected by reading, not by a lemma.
- Floating point is not modelled:
  - `ISO_USABILITY_WEIGHT` and `avgIsoUsaFlow`, the `maxIsoUsa` loop, and `maxUsa` and `cUsa` are taken as given integers;
  - the sliders are integers;
  - the normalised ratios in the report are left out.
- Tables.IsolationWeight: requires MAX_ISOLATION ≠ 0. The source divides by it at line 1183, and a zero there ends the program with an exception. The model treats such input as invalid (`ValidParams`) and does not model the abort. In the same way, `ValidParams` leaves out inputs whose requirement or service lines name a host or service that has no variable, 0 included; the source stops on those with an exception too.
- Constraints.ValidParams: the clauses `nHost >= 3` and `nDev >= 2` turn away inputs the source does not check.
  - With fewer than 2 devices, the encryption-device rules of a route (Program.cs lines 224 and 235) index `DevInLink[.., 2]` beyond the array allocated at line 990. The exception is caught at line 2432 and ends the model building.
  - With 2 hosts, the transitive average at lines 2134-2144 sums an empty array and divides by `2 * (nHost - 2) = 0`. What the solver makes of that level is not modelled.
- Resiliency.ResiliencyBounds: the bounds on resiliency are proved only for score tables in range (`ScoresInRange`), with MAX_ISOLATION > 0. The source also accepts a negative MAX_ISOLATION, and then the rescaled weights and the bound mean nothing.
- 32-bit overflow of the integer tables and of `maxRes` is not modelled; the arithmetic is unbounded.
- Routes.PathFinder: the fixed path buffer of `MAX_PATH_LEN` cells is required to hold `nRouter + 2`, a bound that `Routes.PrefixBound` shows is enough. The source fails only when a partial route reaches `MAX_PATH_LEN` nodes (Program.cs lines 181 and 263). This sufficient bound also excludes larger networks on which the source succeeds, such as many routers hanging off a single router.
- Routes.PathFinder.AllFlowRoutes: the route variable table overflow on more than `MAX_ROUTES` routes is modelled as an `overflow` flag that ends the model building. The exception and its console message are not modelled.
- The random input generators (`SimulateInput*`), the stopwatch, and the statistics file are not modelled.
- The host-level isolation and diversity variables (`HIso`, `HDiv`) are declared by the source but never constrained, so they are not modelled.
- The OS-family table is read as given; every OS is assumed to have a family in range.
- Enumeration.BuildBlockingClause: the report's lists of deployed OS and services are not modelled. They do not enter the clause.
