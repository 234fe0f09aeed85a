/**
 * The route enumerator of the constraint-model compiler (`findPath` and
 * `getPath`): a depth-first search from a source host to a destination host
 * through the routers, over a shared path buffer. For every route it finds
 * it allocates the next per-route device variable of the flow and emits the
 * per-route device rules, which depend only on the links along the route.
 */
module Routes {

  /** Size of the per-flow route table: route indices run 1..MAX_ROUTES. */
  const MAX_ROUTES: nat := 5
  /** Size of the shared path buffer. */
  const MAX_PATH_LEN: nat := 20

  /**
   * What the enumerator emits for one route: its nodes (source first,
   * destination last) and the ids of the links between consecutive nodes,
   * which the per-route device rules are stated over.
   */
  datatype Route = Route(nodes: seq<int>, linkIds: seq<int>)

  predicate IsHost(nHost: nat, x: int)
  {
    1 <= x <= nHost
  }

  predicate IsRouter(nHost: nat, nRouter: nat, x: int)
  {
    nHost < x <= nHost + nRouter
  }

  /** The link table covers node ids 0..nHost+nRouter in both dimensions. */
  predicate TableShape(links: array2<int>, nHost: nat, nRouter: nat)
  {
    links.Length0 == nHost + nRouter + 1 && links.Length1 == nHost + nRouter + 1
  }

  /** The link id between u and v; 0 (no link) outside the table. */
  function LinkAt(links: array2<int>, u: int, v: int): int
    reads links
  {
    if 0 <= u < links.Length0 && 0 <= v < links.Length1 then links[u, v] else 0
  }

  /** The test the search makes on the link table: a positive link id. */
  predicate Linked(links: array2<int>, u: int, v: int)
    reads links
  {
    LinkAt(links, u, v) > 0
  }

  /** A search prefix: a source host followed by distinct routers. */
  predicate ValidPrefix(nHost: nat, nRouter: nat, p: seq<int>)
  {
    && |p| >= 1
    && IsHost(nHost, p[0])
    && (forall k :: 1 <= k < |p| ==> IsRouter(nHost, nRouter, p[k]))
    && (forall a, b :: 1 <= a < b < |p| ==> p[a] != p[b])
  }

  /** Routers that a prefix has not visited yet. */
  function Unvisited(nHost: nat, nRouter: nat, p: seq<int>): set<int>
  {
    set r | nHost < r <= nHost + nRouter && r !in p
  }

  // ---------------------------------------------------------------------
  // The search, as a specification
  // ---------------------------------------------------------------------

  /**
   * The routes the depth-first search reports when it is entered with the
   * prefix p: if the last node of p is linked to dest, only p + [dest] (the
   * prefix is not extended further); otherwise the routes through every
   * unvisited router linked to the last node, in increasing router order.
   */
  function Search(links: array2<int>, nHost: nat, nRouter: nat, p: seq<int>, dest: int): seq<seq<int>>
    requires |p| >= 1
    reads links
    decreases Unvisited(nHost, nRouter, p), 1, 0
  {
    if Linked(links, p[|p| - 1], dest) then [p + [dest]]
    else ExtendUpTo(links, nHost, nRouter, p, dest, nHost + nRouter + 1)
  }

  /** The routes through the routers nHost+1 .. hi-1 that may extend p. */
  function ExtendUpTo(links: array2<int>, nHost: nat, nRouter: nat, p: seq<int>, dest: int, hi: int): seq<seq<int>>
    requires |p| >= 1
    reads links
    decreases Unvisited(nHost, nRouter, p), 0, if hi <= nHost + 1 then 0 else hi - nHost
  {
    if hi <= nHost + 1 || hi > nHost + nRouter + 1 then []
    else ExtendUpTo(links, nHost, nRouter, p, dest, hi - 1) + Via(links, nHost, nRouter, p, dest, hi - 1)
  }

  /** The routes through router x, when x is unvisited and linked to the last node of p. */
  function Via(links: array2<int>, nHost: nat, nRouter: nat, p: seq<int>, dest: int, x: int): seq<seq<int>>
    requires |p| >= 1
    reads links
    decreases Unvisited(nHost, nRouter, p), 0, 0
  {
    if IsRouter(nHost, nRouter, x) && x !in p && Linked(links, p[|p| - 1], x) then
      assert Unvisited(nHost, nRouter, p + [x]) < Unvisited(nHost, nRouter, p) by {
        assert x in Unvisited(nHost, nRouter, p);
        assert x !in Unvisited(nHost, nRouter, p + [x]);
      }
      Search(links, nHost, nRouter, p + [x], dest)
    else []
  }

  /** The link ids between consecutive nodes of r. */
  function LinkIds(links: array2<int>, r: seq<int>): (ids: seq<int>)
    reads links
    ensures |r| >= 1 ==> |ids| == |r| - 1
  {
    if |r| <= 1 then [] else seq(|r| - 1, k requires 0 <= k < |r| - 1 reads links => LinkAt(links, r[k], r[k + 1]))
  }

  /** The route records emitted for a list of found routes, in order. */
  function Emitted(links: array2<int>, rs: seq<seq<int>>): (out: seq<Route>)
    reads links
    ensures |out| == |rs|
  {
    seq(|rs|, k requires 0 <= k < |rs| reads links => Route(rs[k], LinkIds(links, rs[k])))
  }

  lemma EmittedAppend(links: array2<int>, a: seq<seq<int>>, b: seq<seq<int>>)
    ensures Emitted(links, a + b) == Emitted(links, a) + Emitted(links, b)
  {
  }

  lemma EmittedPrefix(links: array2<int>, a: seq<seq<int>>, b: seq<seq<int>>)
    requires a <= b
    ensures Emitted(links, a) <= Emitted(links, b)
  {
  }

  // ---------------------------------------------------------------------
  // What the search reports: exactly the routes, each once
  // ---------------------------------------------------------------------

  /**
   * A route of the flow src -> dest as the enumerator understands it: it
   * starts at src and ends at dest, its interior nodes are distinct routers,
   * consecutive nodes are linked, and no node before the last interior one
   * is linked to dest (the search stops extending at such a node).
   */
  ghost predicate IsRoute(links: array2<int>, nHost: nat, nRouter: nat, src: int, dest: int, r: seq<int>)
    reads links
  {
    && |r| >= 2
    && r[0] == src
    && r[|r| - 1] == dest
    && (forall k :: 0 < k < |r| - 1 ==> IsRouter(nHost, nRouter, r[k]))
    && (forall a, b :: 0 < a < b < |r| - 1 ==> r[a] != r[b])
    && (forall k :: 0 <= k < |r| - 1 ==> Linked(links, r[k], r[k + 1]))
    && (forall k :: 0 <= k < |r| - 2 ==> !Linked(links, r[k], dest))
  }

  /** A prefix from which the search can still continue towards dest. */
  ghost predicate OpenPrefix(links: array2<int>, nHost: nat, nRouter: nat, p: seq<int>, dest: int)
    reads links
  {
    && ValidPrefix(nHost, nRouter, p)
    && (forall k :: 0 <= k < |p| - 1 ==> Linked(links, p[k], p[k + 1]))
    && (forall k :: 0 <= k < |p| - 1 ==> !Linked(links, p[k], dest))
  }

  /** Every route the search reports from an open prefix is a route extending it. */
  lemma {:induction false} SearchSound(links: array2<int>, nHost: nat, nRouter: nat, p: seq<int>, dest: int)
    requires OpenPrefix(links, nHost, nRouter, p, dest)
    ensures forall r :: r in Search(links, nHost, nRouter, p, dest) ==>
              IsRoute(links, nHost, nRouter, p[0], dest, r) && |r| > |p| && r[..|p|] == p
    decreases Unvisited(nHost, nRouter, p), 1, 0
  {
    if Linked(links, p[|p| - 1], dest) {
      var r := p + [dest];
      assert Search(links, nHost, nRouter, p, dest) == [r];
      assert r[..|p|] == p;
      assert forall k :: 0 <= k < |p| ==> r[k] == p[k];
    } else {
      ExtendSound(links, nHost, nRouter, p, dest, nHost + nRouter + 1);
    }
  }

  /** Stepping from an open prefix to an unvisited linked router keeps it open and shrinks what is unvisited. */
  lemma StepOpen(links: array2<int>, nHost: nat, nRouter: nat, p: seq<int>, dest: int, x: int)
    requires OpenPrefix(links, nHost, nRouter, p, dest)
    requires !Linked(links, p[|p| - 1], dest)
    requires IsRouter(nHost, nRouter, x) && x !in p && Linked(links, p[|p| - 1], x)
    ensures OpenPrefix(links, nHost, nRouter, p + [x], dest)
    ensures Unvisited(nHost, nRouter, p + [x]) < Unvisited(nHost, nRouter, p)
  {
    var q := p + [x];
    assert forall k :: 0 <= k < |p| ==> q[k] == p[k];
    assert x in Unvisited(nHost, nRouter, p);
    assert x !in Unvisited(nHost, nRouter, q);
  }

  /** A route extending p + [x] extends p with x as its next node. */
  lemma ExtensionHead(p: seq<int>, x: int, r: seq<int>)
    requires |r| > |p| + 1 && r[..|p| + 1] == p + [x]
    ensures r[..|p|] == p && r[|p|] == x
  {
    assert r[..|p|] == r[..|p| + 1][..|p|];
  }

  /** Every route found through the routers below hi extends p through one of them. */
  lemma {:induction false} ExtendSound(links: array2<int>, nHost: nat, nRouter: nat, p: seq<int>, dest: int, hi: int)
    requires OpenPrefix(links, nHost, nRouter, p, dest)
    requires !Linked(links, p[|p| - 1], dest)
    ensures forall r :: r in ExtendUpTo(links, nHost, nRouter, p, dest, hi) ==>
              && IsRoute(links, nHost, nRouter, p[0], dest, r) && |r| > |p| + 1 && r[..|p|] == p
              && nHost < r[|p|] < hi
    decreases Unvisited(nHost, nRouter, p), 0, if hi <= nHost + 1 then 0 else hi - nHost
  {
    if hi <= nHost + 1 || hi > nHost + nRouter + 1 {
    } else {
      var x := hi - 1;
      ExtendSound(links, nHost, nRouter, p, dest, x);
      if x !in p && Linked(links, p[|p| - 1], x) {
        var q := p + [x];
        StepOpen(links, nHost, nRouter, p, dest, x);
        SearchSound(links, nHost, nRouter, q, dest);
        forall r | r in Search(links, nHost, nRouter, q, dest)
          ensures r[..|p|] == p && r[|p|] == x && |r| > |p| + 1
        {
          ExtensionHead(p, x, r);
        }
      }
    }
  }

  /** The routes through a router x below hi are among those found through the routers below hi. */
  lemma {:induction false} ExtendContains(links: array2<int>, nHost: nat, nRouter: nat, p: seq<int>, dest: int, hi: int, x: int)
    requires |p| >= 1
    requires nHost < x < hi <= nHost + nRouter + 1
    requires x !in p && Linked(links, p[|p| - 1], x)
    ensures forall r :: r in Search(links, nHost, nRouter, p + [x], dest) ==>
              r in ExtendUpTo(links, nHost, nRouter, p, dest, hi)
    decreases hi
  {
    if x < hi - 1 {
      ExtendContains(links, nHost, nRouter, p, dest, hi - 1, x);
    }
  }

  /** Every route extending a prefix is reported by the search from that prefix. */
  lemma {:induction false} SearchComplete(links: array2<int>, nHost: nat, nRouter: nat, p: seq<int>, dest: int, r: seq<int>)
    requires ValidPrefix(nHost, nRouter, p)
    requires IsRoute(links, nHost, nRouter, p[0], dest, r) && |r| > |p| && r[..|p|] == p
    ensures r in Search(links, nHost, nRouter, p, dest)
    decreases Unvisited(nHost, nRouter, p)
  {
    var last := p[|p| - 1];
    assert r[|p| - 1] == last;
    // the link from the last node of p to the next node of r
    assert Linked(links, r[|p| - 1], r[|p|]);
    if Linked(links, last, dest) {
      // the search stops at p, so r cannot go on beyond dest
      assert Linked(links, r[|p| - 1], dest);
      assert |r| == |p| + 1;
      assert r == p + [dest];
    } else {
      assert |r| > |p| + 1;
      var x := r[|p|];
      assert IsRouter(nHost, nRouter, x);
      assert x !in p by {
        forall a | 0 <= a < |p| ensures p[a] != x {
          assert p[a] == r[a];
        }
      }
      var q := p + [x];
      assert r[..|q|] == q;
      assert Unvisited(nHost, nRouter, q) < Unvisited(nHost, nRouter, p) by {
        assert x in Unvisited(nHost, nRouter, p);
        assert x !in Unvisited(nHost, nRouter, q);
      }
      SearchComplete(links, nHost, nRouter, q, dest, r);
      ExtendContains(links, nHost, nRouter, p, dest, nHost + nRouter + 1, x);
    }
  }

  /** No element occurs twice. */
  ghost predicate NoDuplicates<T>(s: seq<T>)
  {
    forall a, b :: 0 <= a < b < |s| ==> s[a] != s[b]
  }

  /** The search reports every route at most once. */
  lemma {:induction false} SearchNoDuplicates(links: array2<int>, nHost: nat, nRouter: nat, p: seq<int>, dest: int)
    requires OpenPrefix(links, nHost, nRouter, p, dest)
    ensures NoDuplicates(Search(links, nHost, nRouter, p, dest))
    decreases Unvisited(nHost, nRouter, p), 1, 0
  {
    if !Linked(links, p[|p| - 1], dest) {
      ExtendNoDuplicates(links, nHost, nRouter, p, dest, nHost + nRouter + 1);
    }
  }

  lemma {:induction false} ExtendNoDuplicates(links: array2<int>, nHost: nat, nRouter: nat, p: seq<int>, dest: int, hi: int)
    requires OpenPrefix(links, nHost, nRouter, p, dest)
    requires !Linked(links, p[|p| - 1], dest)
    ensures NoDuplicates(ExtendUpTo(links, nHost, nRouter, p, dest, hi))
    decreases Unvisited(nHost, nRouter, p), 0, if hi <= nHost + 1 then 0 else hi - nHost
  {
    if hi <= nHost + 1 || hi > nHost + nRouter + 1 {
    } else {
      var x := hi - 1;
      var front := ExtendUpTo(links, nHost, nRouter, p, dest, x);
      ExtendNoDuplicates(links, nHost, nRouter, p, dest, x);
      ExtendSound(links, nHost, nRouter, p, dest, x);
      if x !in p && Linked(links, p[|p| - 1], x) {
        var q := p + [x];
        var back := Search(links, nHost, nRouter, q, dest);
        StepOpen(links, nHost, nRouter, p, dest, x);
        SearchNoDuplicates(links, nHost, nRouter, q, dest);
        SearchSound(links, nHost, nRouter, q, dest);
        var all := front + back;
        assert ExtendUpTo(links, nHost, nRouter, p, dest, hi) == all;
        forall a, b | 0 <= a < b < |all| ensures all[a] != all[b] {
          if a < |front| && b >= |front| {
            var u, v := all[a], all[b];
            assert u in front && v in back;
            assert u[|p|] < x;
            ExtensionHead(p, x, v);
          }
        }
      }
    }
  }

  /**
   * The search from a single source host reports exactly the routes of the
   * flow, each once: this is why nPath counts the routes of the flow.
   */
  lemma RoutesOfFlow(links: array2<int>, nHost: nat, nRouter: nat, src: int, dest: int)
    requires IsHost(nHost, src)
    ensures NoDuplicates(Search(links, nHost, nRouter, [src], dest))
    ensures forall r :: r in Search(links, nHost, nRouter, [src], dest) <==>
              IsRoute(links, nHost, nRouter, src, dest, r)
  {
    SearchSound(links, nHost, nRouter, [src], dest);
    SearchNoDuplicates(links, nHost, nRouter, [src], dest);
    forall r | IsRoute(links, nHost, nRouter, src, dest, r)
      ensures r in Search(links, nHost, nRouter, [src], dest)
    {
      assert r[..1] == [src];
      SearchComplete(links, nHost, nRouter, [src], dest, r);
    }
  }

  /** A direct link between the two hosts makes it the only route of the flow. */
  lemma DirectLinkOnly(links: array2<int>, nHost: nat, nRouter: nat, src: int, dest: int, r: seq<int>)
    requires Linked(links, src, dest)
    requires IsRoute(links, nHost, nRouter, src, dest, r)
    ensures r == [src, dest]
  {
    assert Linked(links, r[0], dest);
    assert |r| == 2;
  }

  // ---------------------------------------------------------------------
  // Helper facts for the search over the path buffer
  // ---------------------------------------------------------------------

  /** The routers ranging over nHost+1 .. nHost+nRouter number nRouter. */
  lemma {:induction false} RouterCount(nHost: nat, nRouter: nat, h: int)
    requires IsHost(nHost, h)
    ensures |Unvisited(nHost, nRouter, [h])| == nRouter
  {
    if nRouter > 0 {
      RouterCount(nHost, nRouter - 1, h);
      assert Unvisited(nHost, nRouter, [h]) == Unvisited(nHost, nRouter - 1, [h]) + {nHost + nRouter};
    } else {
      assert Unvisited(nHost, nRouter, [h]) == {};
    }
  }

  /** A prefix with n routers leaves nRouter - n routers unvisited. */
  lemma {:induction false} UnvisitedCount(nHost: nat, nRouter: nat, p: seq<int>)
    requires ValidPrefix(nHost, nRouter, p)
    ensures |Unvisited(nHost, nRouter, p)| + |p| - 1 == nRouter
    decreases |p|
  {
    if |p| == 1 {
      assert p == [p[0]];
      RouterCount(nHost, nRouter, p[0]);
    } else {
      var q := p[..|p| - 1];
      var x := p[|p| - 1];
      assert p == q + [x];
      assert ValidPrefix(nHost, nRouter, q);
      UnvisitedCount(nHost, nRouter, q);
      assert x !in q;
      assert Unvisited(nHost, nRouter, q) == Unvisited(nHost, nRouter, p) + {x};
    }
  }

  /** A search prefix never holds more than the source and every router once. */
  lemma PrefixBound(nHost: nat, nRouter: nat, p: seq<int>)
    requires ValidPrefix(nHost, nRouter, p)
    ensures |p| <= nRouter + 1
  {
    UnvisitedCount(nHost, nRouter, p);
  }

  /** The routes found through the routers below lo come first among those below hi. */
  lemma {:induction false} ExtendPrefix(links: array2<int>, nHost: nat, nRouter: nat, p: seq<int>, dest: int, lo: int, hi: int)
    requires |p| >= 1
    requires lo <= hi <= nHost + nRouter + 1
    ensures ExtendUpTo(links, nHost, nRouter, p, dest, lo) <= ExtendUpTo(links, nHost, nRouter, p, dest, hi)
    decreases hi - lo
  {
    if lo < hi && hi > nHost + 1 {
      ExtendPrefix(links, nHost, nRouter, p, dest, lo, hi - 1);
    }
  }

  /** The first MAX_ROUTES routes of a list, which is all of them when it is short enough. */
  function Capped(all: seq<Route>): (kept: seq<Route>)
    ensures |kept| <= MAX_ROUTES && kept <= all
    ensures |all| <= MAX_ROUTES ==> kept == all
  {
    if |all| > MAX_ROUTES then all[..MAX_ROUTES] else all
  }

  /** Two lists that overflow with the one a prefix of the other keep the same routes. */
  lemma CappedPrefix(a: seq<Route>, b: seq<Route>)
    requires a <= b && |a| > MAX_ROUTES
    ensures |b| > MAX_ROUTES && Capped(a) == Capped(b)
  {
    assert a[..MAX_ROUTES] == b[..MAX_ROUTES];
  }

  /** Once the routes found so far overflow, so do all routes from the prefix, and the same ones are kept. */
  lemma OverflowStep(links: array2<int>, nHost: nat, nRouter: nat, base: seq<Route>, p: seq<int>, dest: int, hi: int)
    requires |p| >= 1 && !Linked(links, p[|p| - 1], dest)
    requires hi <= nHost + nRouter + 1
    requires |base + Emitted(links, ExtendUpTo(links, nHost, nRouter, p, dest, hi))| > MAX_ROUTES
    ensures var all := base + Emitted(links, Search(links, nHost, nRouter, p, dest));
            |all| > MAX_ROUTES && Capped(base + Emitted(links, ExtendUpTo(links, nHost, nRouter, p, dest, hi))) == Capped(all)
  {
    var upTo := ExtendUpTo(links, nHost, nRouter, p, dest, hi);
    ExtendPrefix(links, nHost, nRouter, p, dest, hi, nHost + nRouter + 1);
    EmittedPrefix(links, upTo, Search(links, nHost, nRouter, p, dest));
    CappedPrefix(base + Emitted(links, upTo), base + Emitted(links, Search(links, nHost, nRouter, p, dest)));
  }

  /** The routes of the flow src -> dest. */
  function FlowRoutes(links: array2<int>, nHost: nat, nRouter: nat, src: int, dest: int): seq<seq<int>>
    reads links
  {
    Search(links, nHost, nRouter, [src], dest)
  }

  // ---------------------------------------------------------------------
  // The enumerator over the shared path buffer
  // ---------------------------------------------------------------------

  /**
   * The search state of the compiler: the link table, the path buffer, the
   * route counter nPath of the current flow, and the routes emitted so far
   * for it (each stands for its route variable and its device rules). The
   * route variable table has room for MAX_ROUTES routes per flow; finding one
   * more fails the allocation, which ends the whole model building: this is
   * recorded by overflow, with nPath = MAX_ROUTES + 1.
   */
  class PathFinder {
    const links: array2<int>
    const nHost: nat
    const nRouter: nat
    const path: array<int>
    var nPath: nat
    var routes: seq<Route>
    var overflow: bool

    ghost predicate Valid()
      reads this
    {
      && TableShape(links, nHost, nRouter)
      && path.Length == MAX_PATH_LEN
      && nRouter + 2 <= MAX_PATH_LEN
      && |routes| <= MAX_ROUTES
      && nPath == |routes| + (if overflow then 1 else 0)
    }

    constructor (links: array2<int>, nHost: nat, nRouter: nat)
      requires TableShape(links, nHost, nRouter)
      requires nRouter + 2 <= MAX_PATH_LEN
      ensures Valid() && !overflow
      ensures this.links == links && this.nHost == nHost && this.nRouter == nRouter
      ensures nPath == 0 && routes == []
      ensures fresh(path)
    {
      this.links := links;
      this.nHost := nHost;
      this.nRouter := nRouter;
      path := new int[MAX_PATH_LEN];
      nPath := 0;
      routes := [];
      overflow := false;
    }

    /** Whether x is among the first len nodes of the path buffer. */
    method OnPath(x: int, len: nat) returns (found: bool)
      requires len <= path.Length
      ensures found <==> x in path[..len]
    {
      var j := 0;
      while j < len
        invariant 0 <= j <= len
        invariant x !in path[..j]
      {
        if path[j] == x {
          assert path[..len][j] == x;
          return true;
        }
        assert path[..j + 1] == path[..j] + [path[j]];
        j := j + 1;
      }
      return false;
    }

    /** The link ids along the first len nodes of the path buffer. */
    method RouteLinkIds(len: nat) returns (ids: seq<int>)
      requires TableShape(links, nHost, nRouter) && 1 <= len <= path.Length
      requires forall k :: 0 <= k < len ==> 0 <= path[k] <= nHost + nRouter
      ensures ids == LinkIds(links, path[..len])
    {
      ids := [];
      var i := 0;
      while i < len - 1
        invariant 0 <= i <= len - 1
        invariant |ids| == i
        invariant forall k :: 0 <= k < i ==> ids[k] == LinkAt(links, path[k], path[k + 1])
      {
        ids := ids + [links[path[i], path[i + 1]]];
        i := i + 1;
      }
    }

    /**
     * The destination is reached from the first len nodes of the path buffer:
     * counts the route, completes it in the buffer and emits it, unless the
     * route table of the flow is already full.
     */
    method EmitRoute(dest: int, len: nat)
      requires Valid() && !overflow
      requires IsHost(nHost, dest)
      requires 1 <= len < path.Length
      requires forall k :: 0 <= k < len ==> 0 <= path[k] <= nHost + nRouter
      modifies this, path
      ensures Valid()
      ensures path[..len] == old(path[..len])
      ensures var all := old(routes) + Emitted(links, [old(path[..len]) + [dest]]);
              overflow == (|all| > MAX_ROUTES) && routes == Capped(all)
    {
      ghost var p := path[..len];
      nPath := nPath + 1;
      path[len] := dest;
      assert path[..len + 1] == p + [dest];
      assert path[..len] == p;
      if nPath > MAX_ROUTES {
        overflow := true;
        return;
      }
      var ids := RouteLinkIds(len + 1);
      routes := routes + [Route(path[..len + 1], ids)];
    }

    /**
     * One iteration of the search loop: continues the search through router i
     * when it is not on the path yet and is linked to its last node.
     */
    method TryRouter(dest: int, len: nat, i: int)
      requires Valid() && !overflow
      requires IsHost(nHost, dest)
      requires len <= path.Length && ValidPrefix(nHost, nRouter, path[..len])
      requires IsRouter(nHost, nRouter, i)
      modifies this, path
      ensures Valid()
      ensures path[..len] == old(path[..len])
      ensures var all := old(routes) + Emitted(links, Via(links, nHost, nRouter, old(path[..len]), dest, i));
              overflow == (|all| > MAX_ROUTES) && routes == Capped(all)
      decreases Unvisited(nHost, nRouter, path[..len]), 0
    {
      ghost var p := path[..len];
      PrefixBound(nHost, nRouter, p);
      var seen := OnPath(i, len);
      if !seen && links[path[len - 1], i] > 0 {
        path[len] := i;
        assert path[..len + 1] == p + [i];
        assert Unvisited(nHost, nRouter, p + [i]) < Unvisited(nHost, nRouter, p) by {
          assert i in Unvisited(nHost, nRouter, p);
          assert i !in Unvisited(nHost, nRouter, p + [i]);
        }
        FindPath(dest, len + 1);
        assert path[..len] == p by {
          assert path[..len] == path[..len + 1][..len];
        }
      }
    }

    /**
     * The depth-first search from the first len nodes of the path buffer:
     * appends the routes that Search reports from that prefix, keeping the
     * buffer's prefix, until the route table of the flow overflows.
     */
    method FindPath(dest: int, len: nat)
      requires Valid() && !overflow
      requires IsHost(nHost, dest)
      requires len <= path.Length && ValidPrefix(nHost, nRouter, path[..len])
      modifies this, path
      ensures Valid()
      ensures path[..len] == old(path[..len])
      ensures var all := old(routes) + Emitted(links, Search(links, nHost, nRouter, old(path[..len]), dest));
              overflow == (|all| > MAX_ROUTES) && routes == Capped(all)
      decreases Unvisited(nHost, nRouter, path[..len]), 1
    {
      ghost var p := path[..len];
      PrefixBound(nHost, nRouter, p);
      if links[path[len - 1], dest] > 0 {
        assert Search(links, nHost, nRouter, p, dest) == [p + [dest]];
        EmitRoute(dest, len);
      } else {
        var i := nHost + 1;
        while i <= nHost + nRouter
          invariant nHost + 1 <= i <= nHost + nRouter + 1
          invariant Valid() && !overflow
          invariant path[..len] == p
          invariant routes == old(routes) + Emitted(links, ExtendUpTo(links, nHost, nRouter, p, dest, i))
        {
          ghost var done := ExtendUpTo(links, nHost, nRouter, p, dest, i);
          ghost var via := Via(links, nHost, nRouter, p, dest, i);
          ghost var mid := routes;
          assert ExtendUpTo(links, nHost, nRouter, p, dest, i + 1) == done + via;
          TryRouter(dest, len, i);
          assert mid + Emitted(links, via) == old(routes) + Emitted(links, done + via) by {
            EmittedAppend(links, done, via);
          }
          if overflow {
            OverflowStep(links, nHost, nRouter, old(routes), p, dest, i + 1);
            return;
          }
          i := i + 1;
        }
      }
    }

    /** The search for the flow src -> dest: the source host starts the path. */
    method GetPath(src: int, dest: int)
      requires Valid() && !overflow
      requires IsHost(nHost, src) && IsHost(nHost, dest)
      modifies this, path
      ensures Valid()
      ensures var all := old(routes) + Emitted(links, FlowRoutes(links, nHost, nRouter, src, dest));
              overflow == (|all| > MAX_ROUTES) && routes == Capped(all)
    {
      path[0] := src;
      assert path[..1] == [src];
      FindPath(dest, 1);
    }

    /**
     * The route enumeration of the model: for every ordered pair of distinct
     * hosts, resets the route counter and searches the routes of that flow.
     * Succeeds with the routes of every flow when no flow has more than
     * MAX_ROUTES routes; otherwise stops at the first flow that has more.
     */
    method AllFlowRoutes() returns (ok: bool, table: map<(int, int), seq<Route>>)
      requires Valid() && !overflow
      modifies this, path
      ensures Valid() && ok == !overflow
      ensures ok ==> forall a, b :: IsHost(nHost, a) && IsHost(nHost, b) && a != b ==>
                       && |FlowRoutes(links, nHost, nRouter, a, b)| <= MAX_ROUTES
                       && (a, b) in table && table[(a, b)] == Emitted(links, FlowRoutes(links, nHost, nRouter, a, b))
      ensures !ok ==> exists a, b :: IsHost(nHost, a) && IsHost(nHost, b) && a != b &&
                        |FlowRoutes(links, nHost, nRouter, a, b)| > MAX_ROUTES
    {
      table := map[];
      var i := 1;
      while i <= nHost
        invariant 1 <= i <= nHost + 1
        invariant Valid() && !overflow
        invariant forall a, b :: IsHost(nHost, a) && IsHost(nHost, b) && a != b && a < i ==>
                    && |FlowRoutes(links, nHost, nRouter, a, b)| <= MAX_ROUTES
                    && (a, b) in table && table[(a, b)] == Emitted(links, FlowRoutes(links, nHost, nRouter, a, b))
      {
        var j := 1;
        while j <= nHost
          invariant 1 <= j <= nHost + 1
          invariant Valid() && !overflow
          invariant forall a, b :: IsHost(nHost, a) && IsHost(nHost, b) && a != b && (a < i || (a == i && b < j)) ==>
                      && |FlowRoutes(links, nHost, nRouter, a, b)| <= MAX_ROUTES
                      && (a, b) in table && table[(a, b)] == Emitted(links, FlowRoutes(links, nHost, nRouter, a, b))
        {
          if i != j {
            nPath := 0;
            routes := [];
            GetPath(i, j);
            if overflow {
              return false, table;
            }
            table := table[(i, j) := routes];
          }
          j := j + 1;
        }
        i := i + 1;
      }
      return true, table;
    }
  }
}
