/**
 * The meaning of the constraint model the compiler hands to the solver:
 * the inputs it is built from (Params), a candidate solution giving a value
 * to every solver variable (Assignment), and one predicate per group of
 * assertions. A solver model is an assignment that satisfies all of them.
 */
module Constraints {
  import opened Arith
  import Routes
  import Tables

  /** Number of the diversity cases, and of the values in the diversity table. */
  const DIV_LEVEL: nat := 6
  /** The diversity-usability weight, (int)(0.3 * MAX_SLIDER_VAL). */
  const DIV_USABILITY_WEIGHT: int := 3
  /** The device slot that takes the bracket rule on routes (the encryption device). */
  const IPSEC: int := 2

  /**
   * Everything the constraints are built from. Per-device tables list
   * devices 1..nDev in order, per-OS tables OS 1..nOS; the requirement and
   * service lines are the tokenised input lines, one per host; flowRank is
   * the rank table the reader filled (BuildFlowRank); routes holds the
   * routes found for every flow.
   */
  datatype Params = Params(
    nHost: nat, nDev: nat, nOS: nat, nServ: nat, nLink: nat,
    maxIsolation: int, maxDiversity: int, maxIsoUsability: int,
    isoWgt: seq<int>, isoUsa: seq<int>, devCost: seq<int>,
    osFamily: seq<int>, osUsa: seq<int>, osCost: seq<int>,
    divTable: seq<int>,
    isoUsabilityWeight: int,
    reqLines: seq<seq<int>>, servLines: seq<seq<int>>, flowRank: (int, int) -> int,
    routes: map<(int, int), seq<Routes.Route>>,
    resSlider: int, cUsa: int, cCost: int)

  /** A value for every solver variable the model declares. */
  datatype Assignment = Assignment(
    devInLink: (int, int) -> bool,
    flowIsoMsr: (int, int) -> int,
    reachable: (int, int) -> bool,
    hOS: int -> int,
    hOSFamily: int -> int,
    hServ: (int, int) -> bool,
    devInFlowRoute: (int, int, int) -> int,
    devInAllFlowRoutes: (int, int) -> int,
    flowIso: (int, int) -> real,
    flowIsoUsa: (int, int) -> real,
    flowDiv: (int, int) -> real,
    flowRes: (int, int, int) -> real,
    flowResUltimate: (int, int) -> real,
    hIsoUsa: int -> real,
    hDivUsa: int -> real,
    hRes: int -> real,
    hResUsa: int -> real,
    hOSCost: int -> real,
    linkDevCost: (int, int) -> real,
    resiliency: real,
    usability: real,
    cost: real)

  // ---------------------------------------------------------------------
  // Constants as the compiler derives them from the inputs
  // ---------------------------------------------------------------------

  /** The k-th element of s, or 0 outside s. */
  function At(s: seq<int>, k: int): int
  {
    if 0 <= k < |s| then s[k] else 0
  }

  /** Isolation score of device k; 0 for slot 0 (no device). */
  function IsoWgtAt(P: Params, k: int): int
  {
    if k == 0 then 0 else At(P.isoWgt, k - 1)
  }

  /** Usability of device k; the maximum for slot 0 (no device). */
  function IsoUsaAt(P: Params, k: int): int
  {
    if k == 0 then P.maxIsoUsability else At(P.isoUsa, k - 1)
  }

  /** Cost of device k; 0 for slot 0. */
  function DevCostAt(P: Params, k: int): int
  {
    if k == 0 then 0 else At(P.devCost, k - 1)
  }

  function OSFamilyAt(P: Params, o: int): int { At(P.osFamily, o - 1) }
  function OSUsaAt(P: Params, o: int): int { At(P.osUsa, o - 1) }
  function OSCostAt(P: Params, o: int): int { At(P.osCost, o - 1) }

  /** The rescaled isolation weight. */
  function IsoWeight(P: Params): int
  {
    if P.maxIsolation == 0 then 0 else Tables.IsolationWeight(P.maxIsolation, P.maxDiversity)
  }

  /** The level-0 score of a flow that is not reachable: full isolation and full diversity. */
  function MaxRes(P: Params): int
  {
    P.maxIsolation * IsoWeight(P) + P.maxDiversity * Tables.DIVERSITY_WEIGHT
  }

  /** The maximum total resiliency, as MaxTotalResiliency computes it. */
  function MaxTotal(P: Params): int
  {
    P.nHost * (P.nHost - 1) * MaxRes(P) * 6
  }

  /** The resiliency target set by the slider. */
  function CRes(P: Params): int
  {
    Tables.ResiliencyTarget(P.resSlider, MaxTotal(P))
  }

  predicate IsHost(P: Params, i: int) { 1 <= i <= P.nHost }
  predicate IsLink(P: Params, l: int) { 1 <= l <= P.nLink }
  predicate IsDevice(P: Params, d: int) { 1 <= d <= P.nDev }

  /** A route record as the enumerator emits it: at least two nodes, one link id between each. */
  predicate RouteShape(r: Routes.Route)
  {
    |r.nodes| >= 2 && |r.linkIds| == |r.nodes| - 1
  }

  /** The routes of every flow between distinct hosts are known, at most MAX_ROUTES of them. */
  ghost predicate RouteTable(P: Params)
  {
    forall i, j :: IsHost(P, i) && IsHost(P, j) && i != j ==>
      && (i, j) in P.routes
      && |P.routes[(i, j)]| <= Routes.MAX_ROUTES
      && (forall k :: 0 <= k < |P.routes[(i, j)]| ==> RouteShape(P.routes[(i, j)][k]))
  }

  /**
   * The route table is the one the enumerator returns when it succeeds on
   * the link table links (PathFinder.AllFlowRoutes): for every flow, the
   * records of all its routes, at most MAX_ROUTES of them.
   */
  ghost predicate FoundRoutes(P: Params, links: array2<int>, nRouter: nat)
    reads links
  {
    forall a, b :: IsHost(P, a) && IsHost(P, b) && a != b ==>
      && |Routes.FlowRoutes(links, P.nHost, nRouter, a, b)| <= Routes.MAX_ROUTES
      && (a, b) in P.routes
      && P.routes[(a, b)] == Routes.Emitted(links, Routes.FlowRoutes(links, P.nHost, nRouter, a, b))
  }

  /** The routes the enumerator finds form a route table of the shape the constraints need. */
  lemma FoundRoutesFormTable(P: Params, links: array2<int>, nRouter: nat)
    requires FoundRoutes(P, links, nRouter)
    ensures RouteTable(P)
  {
    forall a, b | IsHost(P, a) && IsHost(P, b) && a != b
      ensures forall k :: 0 <= k < |P.routes[(a, b)]| ==> RouteShape(P.routes[(a, b)][k])
    {
      var rs := Routes.FlowRoutes(links, P.nHost, nRouter, a, b);
      Routes.SearchSound(links, P.nHost, nRouter, [a], b);
      forall k | 0 <= k < |rs|
        ensures RouteShape(Routes.Emitted(links, rs)[k])
      {
        assert rs[k] in rs;
      }
    }
  }

  /**
   * Every listed target names a solver variable: reachability targets are
   * hosts 1..nHost and service targets are services 1..nServ (the reader
   * stops on any other, 0 included, since no variable exists for it).
   */
  ghost predicate TargetsInRange(P: Params)
  {
    && (forall i, t :: Tables.Required(P.reqLines, i, t) ==> IsHost(P, t))
    && (forall i, s :: Tables.Required(P.servLines, i, s) ==> 1 <= s <= P.nServ)
  }

  /**
   * Inputs the compiler can build a model from: tables of the announced
   * sizes, at least three hosts (with two, the transitive average has no
   * intermediate host to sum over), the encryption device slot present (the
   * rules of every route read the placement of device 2), a non-zero
   * maximum isolation (it divides the isolation weight), one requirement
   * and one service line per host, each naming existing variables, and the
   * routes of every flow.
   */
  ghost predicate ValidParams(P: Params)
  {
    && P.nHost >= 3
    && P.nDev >= IPSEC
    && P.maxIsolation != 0
    && |P.isoWgt| == P.nDev && |P.isoUsa| == P.nDev && |P.devCost| == P.nDev
    && |P.osFamily| == P.nOS && |P.osUsa| == P.nOS && |P.osCost| == P.nOS
    && |P.divTable| == DIV_LEVEL
    && |P.reqLines| == P.nHost && |P.servLines| == P.nHost
    && TargetsInRange(P)
    && RouteTable(P)
  }

  // ---------------------------------------------------------------------
  // The assertion groups
  // ---------------------------------------------------------------------

  /** Every host reaches itself without isolation and without a device. */
  ghost predicate Diagonal(P: Params, A: Assignment)
  {
    forall i :: IsHost(P, i) ==>
      A.reachable(i, i) && A.flowIsoMsr(i, i) == 0 && A.devInAllFlowRoutes(i, i) == 0
  }

  /** Listed reachability requirements are reachable; listed services run. */
  ghost predicate Requirements(P: Params, A: Assignment)
  {
    && (forall i, t :: Tables.Required(P.reqLines, i, t) ==> A.reachable(i, t))
    && (forall i, s :: Tables.Required(P.servLines, i, s) ==> A.hServ(i, s))
  }

  /** Reachable flows are not blocked (measure 1); unreachable ones are. */
  ghost predicate IsolationLinkage(P: Params, A: Assignment)
  {
    forall i, j :: IsHost(P, i) && IsHost(P, j) ==>
      && (A.reachable(i, j) ==> A.flowIsoMsr(i, j) != 1)
      && (!A.reachable(i, j) ==> A.flowIsoMsr(i, j) == 1)
  }

  /** The isolation measure of a flow is a device slot. */
  ghost predicate MeasureRange(P: Params, A: Assignment)
  {
    forall i, j :: IsHost(P, i) && IsHost(P, j) ==> 0 <= A.flowIsoMsr(i, j) <= P.nDev
  }

  /**
   * The measure of a flow fixes its isolation score and its rank-scaled
   * usability: one implication per slot k in 0..nDev, stated here for the
   * slot the measure takes.
   */
  ghost predicate IsolationScore(P: Params, A: Assignment)
  {
    forall i, j :: IsHost(P, i) && IsHost(P, j) && 0 <= A.flowIsoMsr(i, j) <= P.nDev ==>
      && A.flowIso(i, j) == IsoWgtAt(P, A.flowIsoMsr(i, j)) as real
      && A.flowIsoUsa(i, j) == IsoUsaAt(P, A.flowIsoMsr(i, j)) as real * P.flowRank(i, j) as real
  }

  /** A host's isolation usability sums that of the flows into it. */
  ghost predicate HostIsoUsability(P: Params, A: Assignment)
  {
    forall i :: IsHost(P, i) ==> A.hIsoUsa(i) == SumExcept(1, P.nHost, {i}, j => A.flowIsoUsa(j, i))
  }

  /** Every host runs an OS of the catalogue, and has that OS's family (one implication per OS). */
  ghost predicate OSChoice(P: Params, A: Assignment)
  {
    forall i :: IsHost(P, i) ==> 1 <= A.hOS(i) <= P.nOS && A.hOSFamily(i) == OSFamilyAt(P, A.hOS(i))
  }

  /** Whether hosts i and j run a common service. */
  ghost predicate SharedService(P: Params, A: Assignment, i: int, j: int)
  {
    exists s :: 1 <= s <= P.nServ && A.hServ(i, s) && A.hServ(j, s)
  }

  /**
   * The six guards of the diversity assertions, in the order of the
   * diversity table: family differs, same family but OS differs, same OS;
   * each without and with a shared service.
   */
  ghost predicate Guard(P: Params, A: Assignment, i: int, j: int, c: int)
  {
    var sameFamily := A.hOSFamily(i) == A.hOSFamily(j);
    var sameOS := A.hOS(i) == A.hOS(j);
    var shared := SharedService(P, A, i, j);
    && A.reachable(i, j)
    && if c == 1 then !sameFamily && !shared
       else if c == 2 then !sameFamily && shared
       else if c == 3 then sameFamily && !sameOS && !shared
       else if c == 4 then sameFamily && !sameOS && shared
       else if c == 5 then sameOS && !shared
       else if c == 6 then sameOS && shared
       else false
  }

  /** A reachable flow between distinct hosts takes the diversity of every guard that holds. */
  ghost predicate Diversity(P: Params, A: Assignment)
  {
    forall i, j, c :: IsHost(P, i) && IsHost(P, j) && i != j && Guard(P, A, i, j, c) ==>
      A.flowDiv(i, j) == At(P.divTable, c - 1) as real
  }

  /** A host's OS fixes its diversity usability (one implication per OS). */
  ghost predicate OSUsability(P: Params, A: Assignment)
  {
    forall i :: IsHost(P, i) && 1 <= A.hOS(i) <= P.nOS ==> A.hDivUsa(i) == OSUsaAt(P, A.hOS(i)) as real
  }

  /** Level-0 resiliency: the maximum for an unreachable flow, the weighted scores otherwise. */
  ghost predicate Level0(P: Params, A: Assignment)
  {
    forall i, j :: IsHost(P, i) && IsHost(P, j) && i != j ==>
      && (!A.reachable(i, j) ==> A.flowRes(i, j, 0) == MaxRes(P) as real)
      && (A.reachable(i, j) ==>
            A.flowRes(i, j, 0) == A.flowIso(i, j) * IsoWeight(P) as real + A.flowDiv(i, j) * Tables.DIVERSITY_WEIGHT as real)
  }

  /** The divisor of the transitive average, 2 * (nHost - 2). */
  function Spread(P: Params): real
  {
    (2 * (P.nHost - 2)) as real
  }

  /**
   * The transitive average of level l >= 1 for the flow i -> j: over the
   * intermediate hosts k, the level l-1 score into k plus the level-0 score
   * out of k, summed and divided by 2 * (nHost - 2).
   */
  function TransAvg(P: Params, A: Assignment, i: int, j: int, l: int): real
    requires P.nHost >= 3
  {
    SumExcept(1, P.nHost, {i, j}, k => A.flowRes(i, k, l - 1) + A.flowRes(k, j, 0)) / Spread(P)
  }

  /** Levels 1 and 2 of the resiliency are transitive averages. */
  ghost predicate Transitive(P: Params, A: Assignment)
    requires P.nHost >= 3
  {
    forall i, j, l :: IsHost(P, i) && IsHost(P, j) && i != j && 1 <= l <= Tables.TRANSITIVITY_LEVEL ==>
      A.flowRes(i, j, l) == TransAvg(P, A, i, j, l)
  }

  /** The ultimate resiliency of a flow weighs its three levels 3 : 2 : 1. */
  ghost predicate Ultimate(P: Params, A: Assignment)
  {
    forall i, j :: IsHost(P, i) && IsHost(P, j) && i != j ==>
      A.flowResUltimate(i, j) ==
        A.flowRes(i, j, 0) * 3.0 + A.flowRes(i, j, 1) * 2.0 + A.flowRes(i, j, 2) * 1.0
  }

  /** A host's resiliency sums the ultimate resiliency of the flows into it. */
  ghost predicate HostResiliency(P: Params, A: Assignment)
  {
    forall i :: IsHost(P, i) ==> A.hRes(i) == SumExcept(1, P.nHost, {i}, j => A.flowResUltimate(j, i))
  }

  /** A host's usability weighs its isolation and diversity usabilities. */
  ghost predicate HostUsability(P: Params, A: Assignment)
  {
    forall i :: IsHost(P, i) ==>
      A.hResUsa(i) == A.hIsoUsa(i) * P.isoUsabilityWeight as real
                      + A.hDivUsa(i) * (P.nHost - 1) as real * DIV_USABILITY_WEIGHT as real
  }

  /** The totals sum the host values. */
  ghost predicate Totals(P: Params, A: Assignment)
  {
    && A.resiliency == SumExcept(1, P.nHost, {}, i => A.hRes(i))
    && A.usability == SumExcept(1, P.nHost, {}, i => A.hResUsa(i))
  }

  /** Whether device d is placed on some link among ids[lo..hi). */
  ghost predicate DeviceOn(A: Assignment, ids: seq<int>, lo: int, hi: int, d: int)
  {
    exists m :: 0 <= lo <= m < hi <= |ids| && A.devInLink(ids[m], d)
  }

  /**
   * The rules emitted for route r, the k-th route of the flow: its device
   * variable is a slot; choosing device d other than 2 needs d on some link
   * of the route; choosing device 2 needs it next to both ends (on one of
   * the first two and one of the last two links of a route of four nodes or
   * more, on the first and the last link of a shorter one).
   */
  ghost predicate RouteRules(P: Params, A: Assignment, src: int, dest: int, k: int, r: Routes.Route)
    requires RouteShape(r)
  {
    var v := A.devInFlowRoute(src, dest, k);
    var ids := r.linkIds;
    var len := |r.nodes|;
    && 0 <= v <= P.nDev
    && (forall d :: IsDevice(P, d) && d != IPSEC && v == d ==> DeviceOn(A, ids, 0, len - 1, d))
    && (len >= 4 ==> (v == IPSEC ==>
          (A.devInLink(ids[0], IPSEC) || A.devInLink(ids[1], IPSEC)) &&
          (A.devInLink(ids[len - 2], IPSEC) || A.devInLink(ids[len - 3], IPSEC))))
    && (2 <= len < 4 ==> (v == IPSEC ==> A.devInLink(ids[0], IPSEC) && A.devInLink(ids[len - 2], IPSEC)))
  }

  /** The rules of every route of every flow. */
  ghost predicate AllRouteRules(P: Params, A: Assignment)
    requires RouteTable(P)
  {
    forall i, j, k :: IsHost(P, i) && IsHost(P, j) && i != j && 0 <= k < |P.routes[(i, j)]| ==>
      RouteRules(P, A, i, j, k + 1, P.routes[(i, j)][k])
  }

  /** A flow without routes has no device; otherwise its device is that of each of its routes. */
  ghost predicate FlowTie(P: Params, A: Assignment)
    requires RouteTable(P)
  {
    forall i, j :: IsHost(P, i) && IsHost(P, j) && i != j ==>
      && (|P.routes[(i, j)]| == 0 ==> A.devInAllFlowRoutes(i, j) == 0)
      && (forall k :: 1 <= k <= |P.routes[(i, j)]| ==> A.devInAllFlowRoutes(i, j) == A.devInFlowRoute(i, j, k))
  }

  /** An isolated flow has its isolation device on all of its routes; that device is a slot. */
  ghost predicate FlowDevice(P: Params, A: Assignment)
  {
    forall i, j :: IsHost(P, i) && IsHost(P, j) ==>
      && (A.flowIsoMsr(i, j) > 0 ==> A.devInAllFlowRoutes(i, j) == A.flowIsoMsr(i, j))
      && 0 <= A.devInAllFlowRoutes(i, j) <= P.nDev
  }

  /** Every link has a slot set, and slot 0 (no device) excludes every device. */
  ghost predicate LinkSlots(P: Params, A: Assignment)
  {
    forall l :: IsLink(P, l) ==>
      && (exists d :: 0 <= d <= P.nDev && A.devInLink(l, d))
      && (A.devInLink(l, 0) ==> forall d :: IsDevice(P, d) ==> !A.devInLink(l, d))
  }

  /** Device and OS costs. */
  ghost predicate Costs(P: Params, A: Assignment)
  {
    && (forall l, d :: IsLink(P, l) && IsDevice(P, d) ==>
          A.linkDevCost(l, d) == if A.devInLink(l, d) then DevCostAt(P, d) as real else 0.0)
    && (forall i :: IsHost(P, i) && 1 <= A.hOS(i) <= P.nOS ==> A.hOSCost(i) == OSCostAt(P, A.hOS(i)) as real)
  }

  /** The cost of the devices on link l. */
  function LinkCost(P: Params, A: Assignment, l: int): real
  {
    SumExcept(1, P.nDev, {}, d => A.linkDevCost(l, d))
  }

  /** The total cost: every device on every link, then every host's OS. */
  ghost predicate TotalCost(P: Params, A: Assignment)
  {
    A.cost == SumExcept(1, P.nLink, {}, l => LinkCost(P, A, l)) + SumExcept(1, P.nHost, {}, i => A.hOSCost(i))
  }

  /** The three requirements set by the sliders and the budget. */
  ghost predicate Thresholds(P: Params, A: Assignment)
  {
    A.resiliency >= CRes(P) as real && A.usability >= P.cUsa as real && A.cost <= P.cCost as real
  }

  /** The isolation part of the model: requirements, blocking, measures and their scores. */
  ghost predicate IsolationModel(P: Params, A: Assignment)
  {
    && Diagonal(P, A) && Requirements(P, A)
    && IsolationLinkage(P, A) && MeasureRange(P, A) && IsolationScore(P, A) && HostIsoUsability(P, A)
  }

  /** The diversity part of the model: OS choice, flow diversity and OS usability. */
  ghost predicate DiversityModel(P: Params, A: Assignment)
  {
    OSChoice(P, A) && Diversity(P, A) && OSUsability(P, A)
  }

  /** The resiliency and usability part of the model. */
  ghost predicate ResiliencyModel(P: Params, A: Assignment)
    requires P.nHost >= 3
  {
    && Level0(P, A) && Transitive(P, A) && Ultimate(P, A) && HostResiliency(P, A)
    && HostUsability(P, A) && Totals(P, A)
  }

  /** The placement part of the model: route rules, the flow tie and link slots. */
  ghost predicate PlacementModel(P: Params, A: Assignment)
    requires RouteTable(P)
  {
    AllRouteRules(P, A) && FlowTie(P, A) && FlowDevice(P, A) && LinkSlots(P, A)
  }

  /** The cost part of the model. */
  ghost predicate CostModel(P: Params, A: Assignment)
  {
    Costs(P, A) && TotalCost(P, A)
  }

  /** A solver model: an assignment satisfying every assertion of the model. */
  ghost predicate Satisfies(P: Params, A: Assignment)
    requires ValidParams(P)
  {
    && IsolationModel(P, A) && DiversityModel(P, A) && ResiliencyModel(P, A)
    && PlacementModel(P, A) && CostModel(P, A) && Thresholds(P, A)
  }
}
