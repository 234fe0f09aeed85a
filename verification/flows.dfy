/**
 * What the isolation, route and flow-tie assertions force on a solver
 * model: blocking is exactly unreachability, an isolated flow carries its
 * device on every one of its routes, and a flow without routes cannot be
 * isolated at all.
 */
module Flows {
  import opened Constraints
  import Routes

  /** A flow is blocked (measure 1) exactly when it is not reachable. */
  lemma BlockedIffUnreachable(P: Params, A: Assignment, i: int, j: int)
    requires IsolationLinkage(P, A)
    requires IsHost(P, i) && IsHost(P, j)
    ensures A.flowIsoMsr(i, j) == 1 <==> !A.reachable(i, j)
  {
  }

  /** A host's traffic to itself is reachable and unblocked. */
  lemma SelfFlowOpen(P: Params, A: Assignment, i: int)
    requires ValidParams(P) && Satisfies(P, A)
    requires IsHost(P, i)
    ensures A.reachable(i, i) && A.flowIsoMsr(i, i) == 0
    ensures A.flowIso(i, i) == 0.0
    ensures A.flowIsoUsa(i, i) == P.maxIsoUsability as real * P.flowRank(i, i) as real
  {
    assert A.flowIsoMsr(i, i) == 0;
    assert IsoWgtAt(P, 0) == 0 && IsoUsaAt(P, 0) == P.maxIsoUsability;
  }

  /** The measure of a flow fixes its isolation score and usability, for whatever slot it is. */
  lemma ScoreOfMeasure(P: Params, A: Assignment, i: int, j: int)
    requires MeasureRange(P, A) && IsolationScore(P, A)
    requires IsHost(P, i) && IsHost(P, j)
    ensures A.flowIso(i, j) == IsoWgtAt(P, A.flowIsoMsr(i, j)) as real
    ensures A.flowIsoUsa(i, j) == IsoUsaAt(P, A.flowIsoMsr(i, j)) as real * P.flowRank(i, j) as real
  {
    var k := A.flowIsoMsr(i, j);
    assert 0 <= k <= P.nDev;
    assert A.flowIso(i, j) == IsoWgtAt(P, k) as real;
  }

  /**
   * The device a route's rules choose is placed on a link of that route;
   * the encryption device is placed on one of the first two links and on
   * one of the last two.
   */
  lemma RouteCarriesDevice(P: Params, A: Assignment, src: int, dest: int, k: int, r: Routes.Route)
    requires RouteShape(r) && RouteRules(P, A, src, dest, k, r)
    requires A.devInFlowRoute(src, dest, k) >= 1
    ensures DeviceOn(A, r.linkIds, 0, |r.nodes| - 1, A.devInFlowRoute(src, dest, k))
    ensures A.devInFlowRoute(src, dest, k) == IPSEC ==>
              && DeviceOn(A, r.linkIds, 0, if |r.nodes| >= 4 then 2 else 1, IPSEC)
              && DeviceOn(A, r.linkIds, if |r.nodes| >= 4 then |r.nodes| - 3 else |r.nodes| - 2, |r.nodes| - 1, IPSEC)
  {
    var v := A.devInFlowRoute(src, dest, k);
    var ids := r.linkIds;
    var len := |r.nodes|;
    if v == IPSEC {
      if len >= 4 {
        if A.devInLink(ids[0], IPSEC) {
          assert DeviceOn(A, ids, 0, 2, IPSEC);
        } else {
          assert DeviceOn(A, ids, 0, 2, IPSEC);
        }
        if A.devInLink(ids[len - 2], IPSEC) {
          assert DeviceOn(A, ids, len - 3, len - 1, IPSEC);
        } else {
          assert DeviceOn(A, ids, len - 3, len - 1, IPSEC);
        }
      } else {
        assert DeviceOn(A, ids, 0, 1, IPSEC);
        assert DeviceOn(A, ids, len - 2, len - 1, IPSEC);
      }
    } else {
      assert IsDevice(P, v);
    }
  }

  /**
   * An isolated flow (measure d > 0) has device d placed on a link of every
   * one of its routes.
   */
  lemma IsolatedFlowProtected(P: Params, A: Assignment, i: int, j: int)
    requires ValidParams(P) && Satisfies(P, A)
    requires IsHost(P, i) && IsHost(P, j) && i != j
    requires A.flowIsoMsr(i, j) > 0
    ensures forall k :: 0 <= k < |P.routes[(i, j)]| ==>
              DeviceOn(A, P.routes[(i, j)][k].linkIds, 0, |P.routes[(i, j)][k].nodes| - 1, A.flowIsoMsr(i, j))
  {
    var rs := P.routes[(i, j)];
    forall k | 0 <= k < |rs|
      ensures DeviceOn(A, rs[k].linkIds, 0, |rs[k].nodes| - 1, A.flowIsoMsr(i, j))
    {
      assert A.devInAllFlowRoutes(i, j) == A.flowIsoMsr(i, j);
      assert A.devInAllFlowRoutes(i, j) == A.devInFlowRoute(i, j, k + 1);
      assert RouteRules(P, A, i, j, k + 1, rs[k]);
      RouteCarriesDevice(P, A, i, j, k + 1, rs[k]);
    }
  }

  /** An unreachable flow has device 1 on a link of every one of its routes. */
  lemma UnreachableFlowBlocked(P: Params, A: Assignment, i: int, j: int)
    requires ValidParams(P) && Satisfies(P, A)
    requires IsHost(P, i) && IsHost(P, j) && i != j
    requires !A.reachable(i, j)
    ensures forall k :: 0 <= k < |P.routes[(i, j)]| ==>
              DeviceOn(A, P.routes[(i, j)][k].linkIds, 0, |P.routes[(i, j)][k].nodes| - 1, 1)
  {
    BlockedIffUnreachable(P, A, i, j);
    IsolatedFlowProtected(P, A, i, j);
  }

  /**
   * A flow between distinct hosts without any route gets no device, so it
   * cannot be isolated: it is reachable with measure 0.
   */
  lemma RoutelessFlowOpen(P: Params, A: Assignment, i: int, j: int)
    requires ValidParams(P) && Satisfies(P, A)
    requires IsHost(P, i) && IsHost(P, j) && i != j
    requires |P.routes[(i, j)]| == 0
    ensures A.flowIsoMsr(i, j) == 0 && A.reachable(i, j)
  {
    assert A.devInAllFlowRoutes(i, j) == 0;
    assert A.flowIsoMsr(i, j) >= 0;
    assert !(A.flowIsoMsr(i, j) > 0);
  }
}
