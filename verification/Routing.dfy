/**
 The longest-prefix-match loop of Router/src/router/sr_router.c. Addresses and masks are held in network
 order, so on a little-endian host the loop compares byte-swapped words.
 */
module Routing {
  import opened Base

  datatype Route = Route(dest: bv32, mask: bv32)

  function Swap(x: bv32): bv32 {
    (x << 24) | ((x & 0xFF00) << 8) | ((x >> 8) & 0xFF00) | (x >> 24)
  }

  /** Ones, then zeros, from the most significant bit of the host-order word. */
  predicate Contiguous(m: bv32) { !m & (!m + 1) == 0 }

  function And(a: bv32, b: bv32): bv32 { a & b }

  predicate Above(a: bv32, b: bv32) { a > b }

  /** Every bit of `a` is in `b`: for contiguous masks, the prefix of `a` is no longer than that of `b`. */
  predicate Within(a: bv32, b: bv32) { And(a, b) == a }

  /** The route covers the address. */
  predicate Hits(r: Route, dst: bv32) { And(r.mask, dst) == r.dest }

  /** What the loop takes for a match: a route with a mask above its starting value 0. */
  predicate Matches(r: Route, dst: bv32) { Hits(r, dst) && Above(r.mask, 0) }

  /** Byte order does not matter to masking. */
  lemma SwapAnd(a: bv32, b: bv32)
    ensures Swap(And(a, b)) == And(Swap(a), Swap(b))
  {
  }

  lemma SwapTwice(a: bv32)
    ensures Swap(Swap(a)) == a
  {
  }

  lemma SwapInjective(a: bv32, b: bv32)
    ensures Swap(a) == Swap(b) <==> a == b
  {
    SwapTwice(a);
    SwapTwice(b);
  }

  /** Contiguous masks are nested. */
  lemma Nested(a: bv32, b: bv32)
    requires Contiguous(a) && Contiguous(b)
    ensures Within(a, b) || Within(b, a)
  {
  }

  lemma WithinBelow(a: bv32, b: bv32)
    requires Within(a, b)
    ensures !Above(a, b) && (a != b ==> Above(b, a))
  {
  }

  lemma WithinSwap(a: bv32, b: bv32)
    ensures Within(Swap(a), Swap(b)) <==> Within(a, b)
  {
    hide Swap, And;
    SwapAnd(a, b);
    SwapInjective(And(a, b), a);
  }

  /** Comparing masks as integers compares prefix lengths, in network order as in host order. */
  lemma CompareIsPrefixOrder(a: bv32, b: bv32)
    requires Contiguous(Swap(a)) && Contiguous(Swap(b))
    ensures Above(a, b) <==> Within(b, a) && a != b
    ensures Above(Swap(a), Swap(b)) <==> Above(a, b)
    ensures Within(a, b) || Within(b, a)
  {
    hide Swap, Contiguous, Within, Above, And;
    Nested(Swap(a), Swap(b));
    WithinSwap(a, b);
    WithinSwap(b, a);
    SwapInjective(a, b);
    if Within(a, b) {
      WithinBelow(a, b);
      WithinBelow(Swap(a), Swap(b));
    }
    if Within(b, a) {
      WithinBelow(b, a);
      WithinBelow(Swap(b), Swap(a));
    }
    if Within(a, b) && Within(b, a) {
      WithinAntisymmetric(a, b);
    }
  }

  // ---- what the loop must find ----

  /** The earliest of the matching routes with the longest prefix among the first `n`; none if none matches. */
  predicate IsBest(routes: seq<Route>, n: nat, dst: bv32, r: Option<nat>)
    requires n <= |routes|
  {
    match r
    case None => forall i :: 0 <= i < n ==> !Matches(routes[i], dst)
    case Some(k) =>
      && k < n && Matches(routes[k], dst)
      && (forall i :: 0 <= i < n && Matches(routes[i], dst) ==> Within(routes[i].mask, routes[k].mask))
      && (forall i :: 0 <= i < k && Matches(routes[i], dst) ==> routes[i].mask != routes[k].mask)
  }

  predicate ContiguousMasks(routes: seq<Route>) {
    forall i :: 0 <= i < |routes| ==> Contiguous(Swap(routes[i].mask))
  }

  lemma WithinAntisymmetric(a: bv32, b: bv32)
    requires Within(a, b) && Within(b, a)
    ensures a == b
  {
  }

  lemma WithinTransitive(a: bv32, b: bv32, c: bv32)
    requires Within(a, b) && Within(b, c)
    ensures Within(a, c)
  {
  }

  /** There is only one such route. */
  lemma BestIsUnique(routes: seq<Route>, dst: bv32, r: Option<nat>, s: Option<nat>)
    requires IsBest(routes, |routes|, dst, r) && IsBest(routes, |routes|, dst, s)
    ensures r == s
  {
    hide Matches, Within, And, Above;
    if r.Some? && s.Some? {
      WithinAntisymmetric(routes[r.value].mask, routes[s.value].mask);
    }
  }

  /** A matching route with a longer prefix replaces the best so far. */
  lemma BestReplaced(routes: seq<Route>, n: nat, dst: bv32, k: nat)
    requires n < |routes| && IsBest(routes, n, dst, Some(k)) && Matches(routes[n], dst)
    requires Within(routes[k].mask, routes[n].mask) && routes[k].mask != routes[n].mask
    ensures IsBest(routes, n + 1, dst, Some(n))
  {
    hide Within, Matches;
    var m := routes[n].mask;
    WithinSelf(m);
    forall i | 0 <= i < n && Matches(routes[i], dst)
      ensures Within(routes[i].mask, m) && routes[i].mask != m
    {
      WithinTransitive(routes[i].mask, routes[k].mask, m);
      if routes[i].mask == m {
        WithinAntisymmetric(m, routes[k].mask);
      }
    }
  }

  lemma AboveZero(a: bv32, b: bv32)
    ensures Above(a, b) ==> Above(a, 0)
  {
  }

  /** One iteration of the loop. */
  lemma BestStep(routes: seq<Route>, n: nat, dst: bv32, r: Option<nat>, lMatch: bv32)
    requires ContiguousMasks(routes) && n < |routes| && IsBest(routes, n, dst, r)
    requires lMatch == if r.Some? then routes[r.value].mask else 0
    ensures var taken := And(routes[n].mask, dst) == routes[n].dest && Above(routes[n].mask, lMatch);
            IsBest(routes, n + 1, dst, if taken then Some(n) else r)
  {
    hide Within, Swap, Contiguous, And, Above;
    var m := routes[n].mask;
    WithinSelf(m);
    if r.Some? {
      CompareIsPrefixOrder(m, lMatch);
      AboveZero(m, lMatch);
      if Above(m, lMatch) && Matches(routes[n], dst) {
        BestReplaced(routes, n, dst, r.value);
      }
    }
  }

  lemma WithinSelf(a: bv32)
    ensures Within(a, a)
  {
  }

  /** The loop over the routing table. */
  method LongestPrefixMatch(routes: seq<Route>, dst: bv32) returns (r: Option<nat>)
    requires ContiguousMasks(routes)
    ensures IsBest(routes, |routes|, dst, r)
  {
    hide Matches, Within, Swap, Contiguous, And, Above;
    var lMatch: bv32 := 0;
    r := None;
    var n := 0;
    while n < |routes|
      invariant n <= |routes| && IsBest(routes, n, dst, r)
      invariant lMatch == if r.Some? then routes[r.value].mask else 0
    {
      BestStep(routes, n, dst, r, lMatch);
      if And(routes[n].mask, dst) == routes[n].dest {
        if Above(routes[n].mask, lMatch) {
          lMatch := routes[n].mask;
          r := Some(n);
        }
      }
      n := n + 1;
    }
  }

  // ---- default routes ----

  /** Longest-prefix match as routers promise it: any covering route counts, a default route as the shortest. */
  predicate IsLongestMatch(routes: seq<Route>, dst: bv32, r: Option<nat>) {
    match r
    case None => forall i :: 0 <= i < |routes| ==> !Hits(routes[i], dst)
    case Some(k) =>
      && k < |routes| && Hits(routes[k], dst)
      && (forall i :: 0 <= i < |routes| && Hits(routes[i], dst) ==> Within(routes[i].mask, routes[k].mask))
      && (forall i :: 0 <= i < k && Hits(routes[i], dst) ==> routes[i].mask != routes[k].mask)
  }

  /** 0.0.0.0/0 */
  const DEFAULT_ROUTE := Route(0, 0)

  lemma HitsByDefault(r: Route, dst: bv32)
    ensures Hits(r, dst) && !Matches(r, dst) <==> r == DEFAULT_ROUTE
    ensures Within(DEFAULT_ROUTE.mask, r.mask)
  {
  }

  /**
   The loop finds the longest match if and only if some route with a non-zero mask covers the address or the table
   has no default route.
   */
  lemma DefaultRouteIgnored(routes: seq<Route>, dst: bv32, r: Option<nat>)
    requires IsBest(routes, |routes|, dst, r)
    ensures IsLongestMatch(routes, dst, r) <==>
            (exists i :: 0 <= i < |routes| && Matches(routes[i], dst)) || DEFAULT_ROUTE !in routes
  {
    forall i | 0 <= i < |routes|
      ensures Hits(routes[i], dst) <==> Matches(routes[i], dst) || routes[i] == DEFAULT_ROUTE
      ensures Within(DEFAULT_ROUTE.mask, routes[i].mask)
    {
      HitsByDefault(routes[i], dst);
    }
    if r.Some? {
      HitsByDefault(routes[r.value], dst);
    }
    hide Hits, Within;
    if r.None? && DEFAULT_ROUTE in routes {
      var i :| 0 <= i < |routes| && routes[i] == DEFAULT_ROUTE;
      assert Hits(routes[i], dst);
    }
  }

  /** It fails: a table with only a default route gets no route for any address. */
  lemma OnlyDefault(dst: bv32, r: Option<nat>)
    requires IsBest([DEFAULT_ROUTE], 1, dst, r)
    ensures r == None && !IsLongestMatch([DEFAULT_ROUTE], dst, r) && IsLongestMatch([DEFAULT_ROUTE], dst, Some(0))
  {
    var routes := [DEFAULT_ROUTE];
    HitsByDefault(routes[0], dst);
    assert Hits(routes[0], dst) && !Matches(routes[0], dst);
  }

  // ---- host order gives the same answer ----

  function Swapped(r: Route): Route { Route(Swap(r.dest), Swap(r.mask)) }

  function SwappedAll(routes: seq<Route>): (s: seq<Route>)
    ensures |s| == |routes|
  {
    seq(|routes|, i requires 0 <= i < |routes| => Swapped(routes[i]))
  }

  lemma SwapAboveZero(a: bv32)
    ensures Above(Swap(a), 0) <==> Above(a, 0)
  {
  }

  lemma MatchesSwapped(r: Route, dst: bv32)
    ensures Matches(Swapped(r), Swap(dst)) <==> Matches(r, dst)
  {
    SwapAboveZero(r.mask);
    hide Swap, And, Above;
    SwapAnd(r.mask, dst);
    SwapInjective(And(r.mask, dst), r.dest);
  }

  /** The best route does not depend on the byte order in which the table is held. */
  lemma BestSwapped(routes: seq<Route>, dst: bv32, r: Option<nat>)
    requires r.Some? ==> r.value < |routes|
    ensures IsBest(SwappedAll(routes), |routes|, Swap(dst), r) <==> IsBest(routes, |routes|, dst, r)
  {
    var s := SwappedAll(routes);
    forall i | 0 <= i < |routes|
      ensures Matches(s[i], Swap(dst)) <==> Matches(routes[i], dst)
    {
      MatchesSwapped(routes[i], dst);
    }
    if r.Some? {
      var k := r.value;
      forall i | 0 <= i < |routes|
        ensures Within(s[i].mask, s[k].mask) <==> Within(routes[i].mask, routes[k].mask)
        ensures s[i].mask == s[k].mask <==> routes[i].mask == routes[k].mask
      {
        WithinSwap(routes[i].mask, routes[k].mask);
        SwapInjective(routes[i].mask, routes[k].mask);
      }
    }
  }
}
