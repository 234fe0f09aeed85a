/**
 * The resiliency and usability of a solver model are fixed by its
 * decisions alone (which flows are reachable, the isolation measure of
 * each flow, each host's OS and services), and the resiliency of any model
 * lies between 0 and the maximum total the slider target is scaled from.
 */
module Resiliency {
  import opened Arith
  import opened Constraints
  import Tables
  import DiversityCases
  import Flows

  // ---------------------------------------------------------------------
  // Reference definitions over the decisions
  // ---------------------------------------------------------------------

  /** The level-0 score of the flow i -> j, computed from the decisions. */
  ghost function Res0Of(P: Params, A: Assignment, i: int, j: int): real
  {
    if !A.reachable(i, j) then MaxRes(P) as real
    else IsoWgtAt(P, A.flowIsoMsr(i, j)) as real * IsoWeight(P) as real
         + At(P.divTable, DiversityCases.DivCase(P, A, i, j) - 1) as real * Tables.DIVERSITY_WEIGHT as real
  }

  /** The summand of the transitive average of level l >= 1 for i -> j through k. */
  ghost function Hop(P: Params, A: Assignment, i: int, j: int, k: int, l: nat): real
    requires P.nHost >= 3 && l >= 1
    decreases l, 0
  {
    ResOf(P, A, i, k, l - 1) + Res0Of(P, A, k, j)
  }

  /** The hops of the transitive average of level l >= 1 for i -> j, by intermediate host. */
  ghost function HopTerms(P: Params, A: Assignment, i: int, j: int, l: nat): int -> real
    requires P.nHost >= 3 && l >= 1
    decreases l, 1
  {
    k => Hop(P, A, i, j, k, l)
  }

  /** The score of level l of the flow i -> j: level 0, or the transitive average over the other hosts. */
  ghost function ResOf(P: Params, A: Assignment, i: int, j: int, l: nat): real
    requires P.nHost >= 3
    decreases l, 2
  {
    if l == 0 then Res0Of(P, A, i, j)
    else SumExcept(1, P.nHost, {i, j}, HopTerms(P, A, i, j, l)) / Spread(P)
  }

  /** The ultimate resiliency of the flow i -> j, its levels weighed 3 : 2 : 1. */
  ghost function UltOf(P: Params, A: Assignment, i: int, j: int): real
    requires P.nHost >= 3
  {
    ResOf(P, A, i, j, 0) * 3.0 + ResOf(P, A, i, j, 1) * 2.0 + ResOf(P, A, i, j, 2) * 1.0
  }

  /** The ultimate resiliency of each flow into host i, by source host. */
  ghost function UltInto(P: Params, A: Assignment, i: int): int -> real
    requires P.nHost >= 3
  {
    j => UltOf(P, A, j, i)
  }

  /** The resiliency of host i: the ultimate resiliency of the flows into it. */
  ghost function HostResOf(P: Params, A: Assignment, i: int): real
    requires P.nHost >= 3
  {
    SumExcept(1, P.nHost, {i}, UltInto(P, A, i))
  }

  /** The resiliency of each host. */
  ghost function HostResTerms(P: Params, A: Assignment): int -> real
    requires P.nHost >= 3
  {
    i => HostResOf(P, A, i)
  }

  /** The total resiliency. */
  ghost function TotalResOf(P: Params, A: Assignment): real
    requires P.nHost >= 3
  {
    SumExcept(1, P.nHost, {}, HostResTerms(P, A))
  }

  /** The isolation usability of each flow into host i, by source host. */
  ghost function IsoUsaInto(P: Params, A: Assignment, i: int): int -> real
  {
    j => IsoUsaAt(P, A.flowIsoMsr(j, i)) as real * P.flowRank(j, i) as real
  }

  /** The usability of host i, computed from the decisions. */
  ghost function HostUsaOf(P: Params, A: Assignment, i: int): real
  {
    SumExcept(1, P.nHost, {i}, IsoUsaInto(P, A, i)) * P.isoUsabilityWeight as real
    + OSUsaAt(P, A.hOS(i)) as real * (P.nHost - 1) as real * DIV_USABILITY_WEIGHT as real
  }

  /** The usability of each host. */
  ghost function HostUsaTerms(P: Params, A: Assignment): int -> real
  {
    i => HostUsaOf(P, A, i)
  }

  /** The total usability. */
  ghost function TotalUsaOf(P: Params, A: Assignment): real
  {
    SumExcept(1, P.nHost, {}, HostUsaTerms(P, A))
  }

  // ---------------------------------------------------------------------
  // A model's scores are the reference scores
  // ---------------------------------------------------------------------

  /** The assertion groups that fix the per-flow scores. */
  ghost predicate FlowScoreModel(P: Params, A: Assignment)
    requires P.nHost >= 3
  {
    MeasureRange(P, A) && IsolationScore(P, A) && DiversityModel(P, A) && Level0(P, A) && Transitive(P, A)
  }

  /** The level-0 assertions for the flow i -> j. */
  lemma Level0At(P: Params, A: Assignment, i: int, j: int)
    requires Level0(P, A)
    requires IsHost(P, i) && IsHost(P, j) && i != j
    ensures !A.reachable(i, j) ==> A.flowRes(i, j, 0) == MaxRes(P) as real
    ensures A.reachable(i, j) ==>
              A.flowRes(i, j, 0) == A.flowIso(i, j) * IsoWeight(P) as real + A.flowDiv(i, j) * Tables.DIVERSITY_WEIGHT as real
  {
  }

  /** Level-0 parts that agree with the decisions give the reference level-0 score. */
  lemma Res0OfParts(P: Params, A: Assignment, i: int, j: int, r: real, x: real, y: real)
    requires !A.reachable(i, j) ==> r == MaxRes(P) as real
    requires A.reachable(i, j) ==> r == x * IsoWeight(P) as real + y * Tables.DIVERSITY_WEIGHT as real
    requires x == IsoWgtAt(P, A.flowIsoMsr(i, j)) as real
    requires A.reachable(i, j) ==> y == At(P.divTable, DiversityCases.DivCase(P, A, i, j) - 1) as real
    ensures r == Res0Of(P, A, i, j)
  {
  }

  /** A model's level-0 score of a flow between distinct hosts is the reference one. */
  lemma Level0Determined(P: Params, A: Assignment, i: int, j: int)
    requires MeasureRange(P, A) && IsolationScore(P, A) && DiversityModel(P, A) && Level0(P, A)
    requires IsHost(P, i) && IsHost(P, j) && i != j
    ensures A.flowRes(i, j, 0) == Res0Of(P, A, i, j)
  {
    Level0At(P, A, i, j);
    Flows.ScoreOfMeasure(P, A, i, j);
    if A.reachable(i, j) {
      DiversityCases.FlowDiversity(P, A, i, j);
    }
    Res0OfParts(P, A, i, j, A.flowRes(i, j, 0), A.flowIso(i, j), A.flowDiv(i, j));
  }

  /** The transitive assertion of level l for the flow i -> j. */
  lemma TransitiveAt(P: Params, A: Assignment, i: int, j: int, l: int)
    requires P.nHost >= 3 && Transitive(P, A)
    requires IsHost(P, i) && IsHost(P, j) && i != j && 1 <= l <= Tables.TRANSITIVITY_LEVEL
    ensures A.flowRes(i, j, l) == TransAvg(P, A, i, j, l)
  {
  }

  /** A transitive average over hops that agree with the reference hops is the reference score. */
  lemma LevelStep(P: Params, A: Assignment, i: int, j: int, l: nat)
    requires P.nHost >= 3 && l >= 1
    requires forall k :: 1 <= k <= P.nHost && k !in {i, j} ==>
               A.flowRes(i, k, l - 1) + A.flowRes(k, j, 0) == Hop(P, A, i, j, k, l)
    ensures TransAvg(P, A, i, j, l) == ResOf(P, A, i, j, l)
  {
    SumExceptCongruent(1, P.nHost, {i, j},
      k => A.flowRes(i, k, l - 1) + A.flowRes(k, j, 0),
      HopTerms(P, A, i, j, l));
  }

  /** A model's score of every level up to l is the reference one. */
  lemma {:induction false} LevelDetermined(P: Params, A: Assignment, i: int, j: int, l: nat)
    requires P.nHost >= 3 && FlowScoreModel(P, A)
    requires IsHost(P, i) && IsHost(P, j) && i != j && l <= Tables.TRANSITIVITY_LEVEL
    ensures A.flowRes(i, j, l) == ResOf(P, A, i, j, l)
    decreases l
  {
    if l == 0 {
      Level0Determined(P, A, i, j);
    } else {
      forall k | 1 <= k <= P.nHost && k !in {i, j}
        ensures A.flowRes(i, k, l - 1) + A.flowRes(k, j, 0) == Hop(P, A, i, j, k, l)
      {
        LevelDetermined(P, A, i, k, l - 1);
        Level0Determined(P, A, k, j);
      }
      LevelStep(P, A, i, j, l);
      TransitiveAt(P, A, i, j, l);
    }
  }

  /** A model's host resiliency is the reference one. */
  lemma HostResDetermined(P: Params, A: Assignment, i: int)
    requires P.nHost >= 3 && FlowScoreModel(P, A)
    requires Ultimate(P, A) && HostResiliency(P, A)
    requires IsHost(P, i)
    ensures A.hRes(i) == HostResOf(P, A, i)
  {
    forall j | 1 <= j <= P.nHost && j !in {i}
      ensures A.flowResUltimate(j, i) == UltOf(P, A, j, i)
    {
      LevelDetermined(P, A, j, i, 0);
      LevelDetermined(P, A, j, i, 1);
      LevelDetermined(P, A, j, i, 2);
    }
    SumExceptCongruent(1, P.nHost, {i}, j => A.flowResUltimate(j, i), UltInto(P, A, i));
  }

  /** The total resiliency of a model is fixed by its decisions. */
  lemma ResiliencyDetermined(P: Params, A: Assignment)
    requires ValidParams(P) && Satisfies(P, A)
    ensures A.resiliency == TotalResOf(P, A)
  {
    forall i | 1 <= i <= P.nHost && i !in {}
      ensures A.hRes(i) == HostResOf(P, A, i)
    {
      HostResDetermined(P, A, i);
    }
    SumExceptCongruent(1, P.nHost, {}, i => A.hRes(i), HostResTerms(P, A));
  }

  /** A model's isolation usability of a host is the reference sum. */
  lemma HostIsoUsaDetermined(P: Params, A: Assignment, i: int)
    requires MeasureRange(P, A) && IsolationScore(P, A) && HostIsoUsability(P, A)
    requires IsHost(P, i)
    ensures A.hIsoUsa(i) == SumExcept(1, P.nHost, {i}, IsoUsaInto(P, A, i))
  {
    forall j | 1 <= j <= P.nHost && j !in {i}
      ensures A.flowIsoUsa(j, i) == IsoUsaAt(P, A.flowIsoMsr(j, i)) as real * P.flowRank(j, i) as real
    {
      Flows.ScoreOfMeasure(P, A, j, i);
    }
    SumExceptCongruent(1, P.nHost, {i}, j => A.flowIsoUsa(j, i), IsoUsaInto(P, A, i));
  }

  /** A model's host usability is the reference one. */
  lemma HostUsaDetermined(P: Params, A: Assignment, i: int)
    requires MeasureRange(P, A) && IsolationScore(P, A) && HostIsoUsability(P, A)
    requires DiversityModel(P, A) && HostUsability(P, A)
    requires IsHost(P, i)
    ensures A.hResUsa(i) == HostUsaOf(P, A, i)
  {
    HostIsoUsaDetermined(P, A, i);
    HostDivUsaDetermined(P, A, i);
    HostUsaFromParts(P, A, i);
  }

  /** The host-usability assertion weighs reference parts into the reference host usability. */
  lemma HostUsaFromParts(P: Params, A: Assignment, i: int)
    requires HostUsability(P, A) && IsHost(P, i)
    requires A.hIsoUsa(i) == SumExcept(1, P.nHost, {i}, IsoUsaInto(P, A, i))
    requires A.hDivUsa(i) == OSUsaAt(P, A.hOS(i)) as real
    ensures A.hResUsa(i) == HostUsaOf(P, A, i)
  {
    assert A.hResUsa(i) == A.hIsoUsa(i) * P.isoUsabilityWeight as real
                           + A.hDivUsa(i) * (P.nHost - 1) as real * DIV_USABILITY_WEIGHT as real;
  }

  /** A model's diversity usability of a host is that of its OS. */
  lemma HostDivUsaDetermined(P: Params, A: Assignment, i: int)
    requires DiversityModel(P, A)
    requires IsHost(P, i)
    ensures A.hDivUsa(i) == OSUsaAt(P, A.hOS(i)) as real
  {
    var o := A.hOS(i);
    assert 1 <= o <= P.nOS;
  }


  /** The total usability of a model is fixed by its decisions. */
  lemma UsabilityDetermined(P: Params, A: Assignment)
    requires ValidParams(P) && Satisfies(P, A)
    ensures A.usability == TotalUsaOf(P, A)
  {
    forall i | 1 <= i <= P.nHost && i !in {}
      ensures A.hResUsa(i) == HostUsaOf(P, A, i)
    {
      HostUsaDetermined(P, A, i);
    }
    SumExceptCongruent(1, P.nHost, {}, i => A.hResUsa(i), HostUsaTerms(P, A));
  }

  // ---------------------------------------------------------------------
  // Bounds
  // ---------------------------------------------------------------------

  /** Score tables within their announced maxima. */
  predicate ScoresInRange(P: Params)
  {
    && P.maxIsolation > 0 && P.maxDiversity >= 0
    && (forall k :: 0 <= k < |P.isoWgt| ==> 0 <= P.isoWgt[k] <= P.maxIsolation)
    && (forall c :: 0 <= c < |P.divTable| ==> 0 <= P.divTable[c] <= P.maxDiversity)
  }

  /** The rescaled isolation weight is not negative. */
  lemma IsoWeightNonNegative(P: Params)
    requires P.maxIsolation > 0 && P.maxDiversity >= 0
    ensures IsoWeight(P) >= 0
  {
    var w := IsoWeight(P);
    assert Tables.INITIAL_ISOLATION_WEIGHT * P.maxDiversity < (w + 1) * P.maxIsolation;
  }

  /** x <= m scaled by a non-negative weight. */
  lemma ScaleBelow(x: int, m: int, w: int)
    requires 0 <= x <= m && w >= 0
    ensures 0 <= x * w <= m * w
  {
    assert (m - x) * w >= 0;
  }

  /** Table entries within their announced maxima. */
  lemma TableEntriesInRange(P: Params, k: int, c: int)
    requires ScoresInRange(P)
    ensures 0 <= IsoWgtAt(P, k) <= P.maxIsolation
    ensures 0 <= At(P.divTable, c) <= P.maxDiversity
  {
  }

  /** Two scores within their maxima, weighed, stay within the weighed maxima. */
  lemma WeighedBelow(x: int, mx: int, w: int, y: int, my: int, v: int)
    requires 0 <= x <= mx && 0 <= y <= my && w >= 0 && v >= 0
    ensures 0.0 <= x as real * w as real + y as real * v as real <= (mx * w + my * v) as real
  {
    ScaleBelow(x, mx, w);
    ScaleBelow(y, my, v);
    RealProduct(x, w);
    RealProduct(y, v);
  }

  /** Every level-0 score lies in [0, MaxRes]. */
  lemma Res0Bounds(P: Params, A: Assignment, i: int, j: int)
    requires ScoresInRange(P)
    ensures 0.0 <= Res0Of(P, A, i, j) <= MaxRes(P) as real
  {
    IsoWeightNonNegative(P);
    var x := IsoWgtAt(P, A.flowIsoMsr(i, j));
    var c := DiversityCases.DivCase(P, A, i, j) - 1;
    TableEntriesInRange(P, A.flowIsoMsr(i, j), c);
    WeighedBelow(x, P.maxIsolation, IsoWeight(P), At(P.divTable, c), P.maxDiversity, Tables.DIVERSITY_WEIGHT);
    WeighedBelow(P.maxIsolation, P.maxIsolation, IsoWeight(P), P.maxDiversity, P.maxDiversity, Tables.DIVERSITY_WEIGHT);
  }

  /** Casting a product of integers to a real multiplies the casts. */
  lemma RealProduct(a: int, b: int)
    ensures (a * b) as real == a as real * b as real
  {
  }

  /** The maximum total, n * (n - 1) * m * 6, as a product of reals. */
  lemma MaxTotalAsReal(n: int, m: int)
    ensures 6.0 * m as real * (n - 1) as real * n as real == (n * (n - 1) * m * 6) as real
  {
    RealProduct(n * (n - 1), m * 6);
    RealProduct(n, n - 1);
    RealProduct(m, 6);
    assert n * (n - 1) * m * 6 == (n * (n - 1)) * (m * 6);
  }

  /** Every level-0 score of a flow between distinct hosts lies within [0, m]. */
  ghost predicate Res0Within(P: Params, A: Assignment, m: real)
  {
    forall i, j :: 1 <= i <= P.nHost && 1 <= j <= P.nHost && i != j ==> 0.0 <= Res0Of(P, A, i, j) <= m
  }

  /** With the score tables in range, every level-0 score lies within [0, MaxRes]. */
  lemma Res0AllBounds(P: Params, A: Assignment)
    requires ScoresInRange(P)
    ensures Res0Within(P, A, MaxRes(P) as real)
  {
    forall i, j | 1 <= i <= P.nHost && 1 <= j <= P.nHost && i != j
      ensures 0.0 <= Res0Of(P, A, i, j) <= MaxRes(P) as real
    {
      Res0Bounds(P, A, i, j);
    }
  }

  /** Every level of a flow's score stays within the bound of level 0: an average of pairs of such scores, halved. */
  lemma {:induction false} ResBounds(P: Params, A: Assignment, i: int, j: int, l: nat, m: real)
    requires P.nHost >= 3 && Res0Within(P, A, m)
    requires 1 <= i <= P.nHost && 1 <= j <= P.nHost && i != j
    ensures 0.0 <= ResOf(P, A, i, j, l) <= m
    decreases l, 1
  {
    if l > 0 {
      HopBounds(P, A, i, j, l, m);
      AverageOfOthers(P.nHost, i, j, HopTerms(P, A, i, j, l), m);
    }
  }

  /** Every hop of level l >= 1 scores within [0, 2m]. */
  lemma {:induction false} HopBounds(P: Params, A: Assignment, i: int, j: int, l: nat, m: real)
    requires P.nHost >= 3 && Res0Within(P, A, m) && l >= 1
    requires 1 <= i <= P.nHost && 1 <= j <= P.nHost && i != j
    ensures forall k :: 1 <= k <= P.nHost && k !in {i, j} ==> 0.0 <= HopTerms(P, A, i, j, l)(k) <= 2.0 * m
    decreases l, 0
  {
    forall k | 1 <= k <= P.nHost && k !in {i, j}
      ensures 0.0 <= HopTerms(P, A, i, j, l)(k) <= 2.0 * m
    {
      ResBounds(P, A, i, k, l - 1, m);
    }
  }

  /** The ultimate resiliency of a flow lies within [0, 6m]. */
  lemma UltBounds(P: Params, A: Assignment, i: int, j: int, m: real)
    requires P.nHost >= 3 && Res0Within(P, A, m)
    requires 1 <= i <= P.nHost && 1 <= j <= P.nHost && i != j
    ensures 0.0 <= UltOf(P, A, i, j) <= 6.0 * m
  {
    ResBounds(P, A, i, j, 0, m);
    ResBounds(P, A, i, j, 1, m);
    ResBounds(P, A, i, j, 2, m);
  }

  /** Every flow into host i has an ultimate resiliency within [0, 6m]. */
  lemma UltIntoBounds(P: Params, A: Assignment, i: int, m: real)
    requires P.nHost >= 3 && Res0Within(P, A, m)
    requires 1 <= i <= P.nHost
    ensures OthersWithin(P.nHost, i, UltInto(P, A, i), 6.0 * m)
  {
    forall j | 1 <= j <= P.nHost && j != i
      ensures 0.0 <= UltInto(P, A, i)(j) <= 6.0 * m
    {
      UltBounds(P, A, j, i, m);
    }
  }

  /** Every flow into every host has an ultimate resiliency within [0, b]. */
  ghost predicate FlowsWithin(P: Params, A: Assignment, b: real)
    requires P.nHost >= 3
  {
    forall i :: 1 <= i <= P.nHost ==> OthersWithin(P.nHost, i, UltInto(P, A, i), b)
  }

  /** Every host's resiliency lies within [0, b]. */
  ghost predicate HostsWithin(P: Params, A: Assignment, b: real)
    requires P.nHost >= 3
  {
    forall i :: 1 <= i <= P.nHost ==> 0.0 <= HostResOf(P, A, i) <= b
  }

  /** Every flow into every host has an ultimate resiliency within [0, 6m]. */
  lemma FlowsIntoWithin(P: Params, A: Assignment, m: real)
    requires P.nHost >= 3 && Res0Within(P, A, m)
    ensures FlowsWithin(P, A, 6.0 * m)
  {
    forall i | 1 <= i <= P.nHost
      ensures OthersWithin(P.nHost, i, UltInto(P, A, i), 6.0 * m)
    {
      UltIntoBounds(P, A, i, m);
    }
  }

  /** The largest ultimate resiliency of a flow: 6 MaxRes, its three levels weighed 3 : 2 : 1. */
  function FlowMax(P: Params): real
  {
    6.0 * MaxRes(P) as real
  }

  /** With the score tables in range, every flow into every host has an ultimate resiliency within [0, FlowMax]. */
  lemma FlowsWithinMax(P: Params, A: Assignment)
    requires P.nHost >= 3 && ScoresInRange(P)
    ensures FlowsWithin(P, A, FlowMax(P))
  {
    Res0AllBounds(P, A);
    FlowsIntoWithin(P, A, MaxRes(P) as real);
  }

  /** MaxTotal is FlowMax for each of the nHost * (nHost - 1) flows. */
  lemma MaxTotalFactored(P: Params)
    ensures MaxTotal(P) as real == FlowMax(P) * (P.nHost - 1) as real * P.nHost as real
  {
    MaxTotalAsReal(P.nHost, MaxRes(P));
  }

  /** A host's resiliency is bounded by the bound on each flow into it, times the nHost - 1 flows. */
  lemma HostResBelow(P: Params, A: Assignment, i: int, b: real)
    requires P.nHost >= 3 && 1 <= i <= P.nHost
    requires OthersWithin(P.nHost, i, UltInto(P, A, i), b)
    ensures 0.0 <= HostResOf(P, A, i) <= b * (P.nHost - 1) as real
  {
    SumOthersBelow(P.nHost, i, UltInto(P, A, i), b);
  }

  /** With every flow within [0, b], every host lies within [0, b * (nHost - 1)]. */
  lemma HostsBelow(P: Params, A: Assignment, b: real)
    requires P.nHost >= 3 && FlowsWithin(P, A, b)
    ensures HostsWithin(P, A, b * (P.nHost - 1) as real)
  {
    forall i | 1 <= i <= P.nHost
      ensures 0.0 <= HostResOf(P, A, i) <= b * (P.nHost - 1) as real
    {
      HostResBelow(P, A, i, b);
    }
  }

  /** With every host within [0, b], the total lies within [0, b * nHost]. */
  lemma TotalBelow(P: Params, A: Assignment, b: real)
    requires P.nHost >= 3 && HostsWithin(P, A, b)
    ensures 0.0 <= TotalResOf(P, A) <= b * P.nHost as real
  {
    CountAll(1, P.nHost);
    SumExceptBelow(1, P.nHost, {}, HostResTerms(P, A), b, P.nHost);
  }

  /** With every flow within [0, b], the total lies within [0, b * (nHost - 1) * nHost]. */
  lemma TotalFromFlows(P: Params, A: Assignment, b: real)
    requires P.nHost >= 3 && FlowsWithin(P, A, b)
    ensures 0.0 <= TotalResOf(P, A) <= b * (P.nHost - 1) as real * P.nHost as real
  {
    HostsBelow(P, A, b);
    TotalBelow(P, A, b * (P.nHost - 1) as real);
  }

  /** The total resiliency lies in [0, nHost * (nHost - 1) * MaxRes * 6]. */
  lemma TotalResBounds(P: Params, A: Assignment)
    requires P.nHost >= 3 && ScoresInRange(P)
    ensures 0.0 <= TotalResOf(P, A) <= MaxTotal(P) as real
  {
    FlowsWithinMax(P, A);
    TotalFromFlows(P, A, FlowMax(P));
    MaxTotalFactored(P);
  }

  /** The resiliency of any solver model lies between the slider's target and the maximum total. */
  lemma ResiliencyBounds(P: Params, A: Assignment)
    requires ValidParams(P) && ScoresInRange(P) && Satisfies(P, A)
    ensures CRes(P) as real <= A.resiliency <= MaxTotal(P) as real
  {
    ResiliencyDetermined(P, A);
    TotalResBounds(P, A);
  }

  /** A slider target above the maximum total leaves the model without solutions. */
  lemma TargetAboveMaximum(P: Params, A: Assignment)
    requires ValidParams(P) && ScoresInRange(P)
    requires CRes(P) > MaxTotal(P)
    ensures !Satisfies(P, A)
  {
    if Satisfies(P, A) {
      ResiliencyBounds(P, A);
    }
  }

  /**
   * Lowering the resiliency slider keeps every threshold an assignment met:
   * the usability and cost thresholds do not depend on it and the target
   * only falls.
   */
  lemma ThresholdsMonotone(P: Params, A: Assignment, s1: int, s2: int)
    requires P.nHost >= 3 && ScoresInRange(P) && 0 <= s1 <= s2
    requires Thresholds(P.(resSlider := s2), A)
    ensures Thresholds(P.(resSlider := s1), A)
  {
    TotalResBounds(P, A);
    assert MaxTotal(P.(resSlider := s1)) == MaxTotal(P) == MaxTotal(P.(resSlider := s2));
    Tables.TargetMonotone(s1, s2, MaxTotal(P));
  }
}
