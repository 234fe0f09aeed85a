/**
 * The input tables the compiler builds while reading its input, and the
 * integer maxima derived from them: the symmetric link table, the
 * reachability requirements, the flow ranks, the rescaled isolation weight,
 * the maximum total resiliency and the resiliency target of the slider.
 * The tokenised lines of the input file are parameters here; reading and
 * splitting them is not part of this model.
 */
module Tables {
  import opened Arith
  import Routes

  // ---------------------------------------------------------------------
  // Links
  // ---------------------------------------------------------------------

  /** Whether the link given by its two end points joins u and v. */
  predicate Joins(ends: (int, int), u: int, v: int)
  {
    ends == (u, v) || ends == (v, u)
  }

  /**
   * The id the link table holds for u, v after the links are entered in
   * order with ids 1, 2, ...: the last link joining u and v, or 0.
   */
  function LinkIdSpec(ends: seq<(int, int)>, u: int, v: int): (id: nat)
    ensures id <= |ends|
    ensures id > 0 ==> Joins(ends[id - 1], u, v)
    ensures forall k :: id <= k < |ends| ==> !Joins(ends[k], u, v)
  {
    if |ends| == 0 then 0
    else if Joins(ends[|ends| - 1], u, v) then |ends|
    else LinkIdSpec(ends[..|ends| - 1], u, v)
  }

  /** The link table does not depend on the direction a link is read in. */
  lemma {:induction false} LinkIdSymmetric(ends: seq<(int, int)>, u: int, v: int)
    ensures LinkIdSpec(ends, u, v) == LinkIdSpec(ends, v, u)
  {
    if |ends| > 0 {
      LinkIdSymmetric(ends[..|ends| - 1], u, v);
    }
  }

  /** End points the link table has room for: node ids 0..nHost+nRouter. */
  predicate InTable(n: nat, ends: (int, int))
  {
    0 <= ends.0 <= n && 0 <= ends.1 <= n
  }

  /**
   * Builds the link table from the end points of links 1..|ends|: both
   * directions of link i receive id i, a later link between the same nodes
   * overwrites an earlier one, and every other entry is 0. An end point
   * outside the table makes the input unreadable (ok is false).
   */
  method BuildLinks(nHost: nat, nRouter: nat, ends: seq<(int, int)>) returns (ok: bool, links: array2<int>)
    ensures Routes.TableShape(links, nHost, nRouter)
    ensures ok <==> forall k :: 0 <= k < |ends| ==> InTable(nHost + nRouter, ends[k])
    ensures ok ==> forall u, v :: 0 <= u <= nHost + nRouter && 0 <= v <= nHost + nRouter ==>
                     links[u, v] == LinkIdSpec(ends, u, v)
    ensures ok ==> forall u, v :: 0 <= u <= nHost + nRouter && 0 <= v <= nHost + nRouter ==>
                     links[u, v] == links[v, u]
  {
    var n := nHost + nRouter;
    links := new int[n + 1, n + 1]((_, _) => 0);
    var i := 0;
    while i < |ends|
      invariant 0 <= i <= |ends|
      invariant Routes.TableShape(links, nHost, nRouter)
      invariant forall k :: 0 <= k < i ==> InTable(n, ends[k])
      invariant forall u, v :: 0 <= u <= n && 0 <= v <= n ==> links[u, v] == LinkIdSpec(ends[..i], u, v)
    {
      var (a, b) := ends[i];
      if !InTable(n, ends[i]) {
        return false, links;
      }
      links[a, b] := i + 1;
      links[b, a] := i + 1;
      assert ends[..i + 1][..i] == ends[..i];
      i := i + 1;
    }
    assert ends[..i] == ends;
    forall u, v | 0 <= u <= n && 0 <= v <= n
      ensures links[u, v] == links[v, u]
    {
      LinkIdSymmetric(ends, u, v);
    }
    return true, links;
  }

  // ---------------------------------------------------------------------
  // Reachability requirements
  // ---------------------------------------------------------------------

  /** The targets on a host's requirement line: every token but the last, which ends the line. */
  function Targets(words: seq<int>): (ts: seq<int>)
    ensures ts <= words
    ensures |words| >= 1 ==> |ts| == |words| - 1
  {
    if |words| == 0 then [] else words[..|words| - 1]
  }

  /** Whether host i (1-based) lists t among its required targets. */
  predicate Required(lines: seq<seq<int>>, i: int, t: int)
  {
    1 <= i <= |lines| && t in Targets(lines[i - 1])
  }

  /**
   * Builds the reachability requirement table from one requirement line per
   * host: entry [i, t] is 1 when host i lists t, 0 otherwise. A target
   * outside the hosts 1..nHost stops the reader: there is no reachability
   * variable for it (host 0 included).
   */
  method BuildReachReq(nHost: nat, lines: seq<seq<int>>) returns (ok: bool, reachReq: array2<int>)
    requires |lines| == nHost
    ensures reachReq.Length0 == nHost + 1 && reachReq.Length1 == nHost + 1
    ensures ok <==> forall i, t :: Required(lines, i, t) ==> 1 <= t <= nHost
    ensures ok ==> forall i, t :: 0 <= i <= nHost && 0 <= t <= nHost ==>
                     reachReq[i, t] == if Required(lines, i, t) then 1 else 0
  {
    reachReq := new int[nHost + 1, nHost + 1]((_, _) => 0);
    var i := 1;
    while i <= nHost
      invariant 1 <= i <= nHost + 1
      invariant reachReq.Length0 == nHost + 1 && reachReq.Length1 == nHost + 1
      invariant forall a, t :: Required(lines, a, t) && a < i ==> 1 <= t <= nHost
      invariant forall a, t :: 0 <= a <= nHost && 0 <= t <= nHost ==>
                  reachReq[a, t] == if Required(lines, a, t) && a < i then 1 else 0
    {
      var words := lines[i - 1];
      var j := 0;
      while j < |words| - 1
        invariant 0 <= j <= (if |words| == 0 then 0 else |words| - 1)
        invariant forall t :: t in words[..j] ==> 1 <= t <= nHost
        invariant forall a, t :: 0 <= a <= nHost && 0 <= t <= nHost ==>
                    reachReq[a, t] == if (Required(lines, a, t) && a < i) || (a == i && t in words[..j]) then 1 else 0
      {
        if !(1 <= words[j] <= nHost) {
          assert Required(lines, i, words[j]);
          return false, reachReq;
        }
        reachReq[i, words[j]] := 1;
        assert words[..j + 1] == words[..j] + [words[j]];
        j := j + 1;
      }
      assert words[..j] == Targets(words);
      i := i + 1;
    }
    return true, reachReq;
  }

  // ---------------------------------------------------------------------
  // Flow ranks
  // ---------------------------------------------------------------------

  /** Whether the rank triple t is about the flow i -> j. */
  predicate Ranks(t: (int, int, int), i: int, j: int)
  {
    t.0 == i && t.1 == j
  }

  /** The position (1-based) of the last rank triple about the flow i -> j, or 0. */
  function LastRank(triples: seq<(int, int, int)>, i: int, j: int): (idx: nat)
    ensures idx <= |triples|
    ensures idx > 0 ==> Ranks(triples[idx - 1], i, j)
    ensures forall k :: idx <= k < |triples| ==> !Ranks(triples[k], i, j)
  {
    if |triples| == 0 then 0
    else if Ranks(triples[|triples| - 1], i, j) then |triples|
    else LastRank(triples[..|triples| - 1], i, j)
  }

  /**
   * The rank of the flow i -> j after the rank triples are applied in order
   * over the default: the last triple for (i, j) wins.
   */
  function RankSpec(triples: seq<(int, int, int)>, i: int, j: int, default: int): int
  {
    var idx := LastRank(triples, i, j);
    if idx == 0 then default else triples[idx - 1].2
  }

  /** The rank of a flow before the overrides: the maximum for a required flow, 1 otherwise. */
  function DefaultRank(required: bool, maxIsoUsability: int): int
  {
    if required then maxIsoUsability else 1
  }

  /** Rank triples whose flow lies inside the table. */
  predicate RanksInTable(nHost: nat, triples: seq<(int, int, int)>)
  {
    forall k :: 0 <= k < |triples| ==> 0 <= triples[k].0 <= nHost && 0 <= triples[k].1 <= nHost
  }

  /**
   * Builds the flow-rank table: every flow between hosts gets its default
   * rank, then every rank triple (i, j, r) sets entry [i, j] to r. A triple
   * outside the table makes the input unreadable.
   */
  method BuildFlowRank(nHost: nat, reachReq: array2<int>, maxIsoUsability: int, triples: seq<(int, int, int)>)
    returns (ok: bool, flowRank: array2<int>)
    requires reachReq.Length0 == nHost + 1 && reachReq.Length1 == nHost + 1
    ensures flowRank.Length0 == nHost + 1 && flowRank.Length1 == nHost + 1
    ensures ok <==> RanksInTable(nHost, triples)
    ensures ok ==> forall i, j :: 1 <= i <= nHost && 1 <= j <= nHost ==>
                     flowRank[i, j] == RankSpec(triples, i, j, DefaultRank(reachReq[i, j] == 1, maxIsoUsability))
  {
    flowRank := new int[nHost + 1, nHost + 1]((_, _) => 0);
    var i := 1;
    while i <= nHost
      invariant 1 <= i <= nHost + 1
      invariant forall a, b :: 1 <= a < i && 1 <= b <= nHost ==>
                  flowRank[a, b] == DefaultRank(reachReq[a, b] == 1, maxIsoUsability)
    {
      var j := 1;
      while j <= nHost
        invariant 1 <= j <= nHost + 1
        invariant forall a, b :: ((1 <= a < i && 1 <= b <= nHost) || (a == i && 1 <= b < j)) ==>
                    flowRank[a, b] == DefaultRank(reachReq[a, b] == 1, maxIsoUsability)
      {
        if reachReq[i, j] == 1 {
          flowRank[i, j] := maxIsoUsability;
        } else {
          flowRank[i, j] := 1;
        }
        j := j + 1;
      }
      i := i + 1;
    }
    var k := 0;
    while k < |triples|
      invariant 0 <= k <= |triples|
      invariant RanksInTable(nHost, triples[..k])
      invariant forall a, b :: 1 <= a <= nHost && 1 <= b <= nHost ==>
                  flowRank[a, b] == RankSpec(triples[..k], a, b, DefaultRank(reachReq[a, b] == 1, maxIsoUsability))
    {
      var (a, b, r) := triples[k];
      if !(0 <= a <= nHost && 0 <= b <= nHost) {
        return false, flowRank;
      }
      flowRank[a, b] := r;
      assert triples[..k + 1][..k] == triples[..k];
      k := k + 1;
    }
    assert triples[..k] == triples;
    return true, flowRank;
  }

  // ---------------------------------------------------------------------
  // Weights, maxima and the resiliency target
  // ---------------------------------------------------------------------

  /** The slider scale. */
  const MAX_SLIDER_VAL: int := 10
  /** The initial isolation weight, (int)(0.7 * MAX_SLIDER_VAL). */
  const INITIAL_ISOLATION_WEIGHT: int := 7
  /** The diversity weight, (int)(0.3 * MAX_SLIDER_VAL). */
  const DIVERSITY_WEIGHT: int := 3
  /** The weights of transitivity levels 0, 1 and 2. */
  const TRANSITIVITY_WEIGHT: seq<int> := [3, 2, 1]
  const TRANSITIVITY_LEVEL: nat := 2

  /**
   * The isolation weight rescaled so that isolation and diversity scores are
   * comparable: (7 * maxDiversity) / maxIsolation, truncated.
   */
  function IsolationWeight(maxIsolation: int, maxDiversity: int): (w: int)
    requires maxIsolation != 0
    ensures maxIsolation > 0 && maxDiversity >= 0 ==>
              w * maxIsolation <= INITIAL_ISOLATION_WEIGHT * maxDiversity < (w + 1) * maxIsolation
  {
    TruncDiv(INITIAL_ISOLATION_WEIGHT * maxDiversity, maxIsolation)
  }

  /** The score of the best flow at level 0: full isolation and full diversity. */
  function MaxResiliency(maxIsolation: int, maxDiversity: int): int
    requires maxIsolation != 0
  {
    maxIsolation * IsolationWeight(maxIsolation, maxDiversity) + maxDiversity * DIVERSITY_WEIGHT
  }

  /** The sum of the transitivity weights of levels 0 .. l-1. */
  function WeightUpTo(l: nat): int
    requires l <= |TRANSITIVITY_WEIGHT|
  {
    if l == 0 then 0 else WeightUpTo(l - 1) + TRANSITIVITY_WEIGHT[l - 1]
  }

  /**
   * The maximum total resiliency: for every level, the number of ordered
   * host pairs times the best flow score times the level's weight. It is
   * the best flow score counted once per ordered pair and weight unit.
   */
  method MaxTotalResiliency(nHost: nat, maxResiliency: int) returns (maxRes: int)
    ensures maxRes == nHost * (nHost - 1) * maxResiliency * 6
  {
    maxRes := 0;
    var l := 0;
    while l <= TRANSITIVITY_LEVEL
      invariant 0 <= l <= TRANSITIVITY_LEVEL + 1
      invariant maxRes == Binomial(nHost, 2) * Fact(2) * maxResiliency * WeightUpTo(l)
    {
      var pairs := Choose(nHost, 2);
      var twice := Factorial(2);
      maxRes := maxRes + pairs * twice * maxResiliency * TRANSITIVITY_WEIGHT[l];
      l := l + 1;
    }
    OrderedPairs(nHost);
    assert WeightUpTo(3) == 6;
  }

  /**
   * The resiliency target of the slider s in 0..MAX_SLIDER_VAL: the share
   * s / MAX_SLIDER_VAL of the maximum total resiliency, truncated.
   */
  function ResiliencyTarget(s: int, maxRes: int): int
  {
    TruncDiv(s * maxRes, MAX_SLIDER_VAL)
  }

  /** Moving the slider up never lowers the target, from 0 at the bottom to the maximum at the top. */
  lemma TargetMonotone(s1: int, s2: int, maxRes: int)
    requires 0 <= s1 <= s2 && maxRes >= 0
    ensures 0 <= ResiliencyTarget(s1, maxRes) <= ResiliencyTarget(s2, maxRes)
    ensures ResiliencyTarget(0, maxRes) == 0 && ResiliencyTarget(MAX_SLIDER_VAL, maxRes) == maxRes
  {
    assert s1 * maxRes <= s2 * maxRes by {
      assert (s2 - s1) * maxRes >= 0;
    }
    assert MAX_SLIDER_VAL * maxRes / MAX_SLIDER_VAL == maxRes;
  }
}
