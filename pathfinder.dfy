/**
 * The shortest-path engine of src/pathfinder.hpp: Dijkstra's algorithm with a
 * lazy min-priority queue over the adjacency map, filling a distance map and
 * a predecessor map, and the walk back along the predecessors to a path.
 */
module Pathfinding {
  import opened Results
  import opened Graphs

  /** A tentative distance: a finite value, or the infinity every node starts at. */
  datatype Dist = Inf | Fin(d: real)

  /** A priority-queue entry `(cost, id)`. */
  datatype Entry = Entry(cost: real, id: Id)

  datatype PathError =
    | StartNodeNotFound        // the constructor's `runtime_error`
    | NoPredecessor(at: Id)    // `m_Prev.at(at)` throwing `out_of_range`

  /** `m_Graph[u].neighbours` on the pathfinder's copy: a missing key reads as a blank node. */
  function Adj(g: map<Id, Node>, u: Id): seq<Neighbour> {
    At(g, u).neighbours
  }

  /** `d + w` on doubles, where infinity absorbs any finite weight. */
  function Plus(a: Dist, w: real): Dist {
    match a
    case Inf => Inf
    case Fin(d) => Fin(d + w)
  }

  /** `a < b` on doubles, where infinity is below nothing and nothing finite is above it. */
  predicate Below(a: Dist, b: Dist) {
    match (a, b)
    case (Fin(x), Fin(y)) => x < y
    case (Fin(_), Inf) => true
    case (Inf, _) => false
  }

  predicate AtMost(a: Dist, r: real) {
    a.Fin? && a.d <= r
  }

  // ---------------------------------------------------------------------
  // Walks and their weights: the reference the distances are proved against
  // ---------------------------------------------------------------------

  /** Some entry of the list leads to `v`. */
  predicate Links(ns: seq<Neighbour>, v: Id) {
    exists k :: 0 <= k < |ns| && ns[k].id == v
  }

  /** The lightest of the (possibly parallel) entries that lead to `v`. */
  function MinWeight(ns: seq<Neighbour>, v: Id): (w: real)
    requires Links(ns, v)
    ensures exists k :: 0 <= k < |ns| && ns[k].id == v && ns[k].weight == w
    ensures forall k :: 0 <= k < |ns| && ns[k].id == v ==> w <= ns[k].weight
    decreases |ns|
  {
    if ns[0].id != v then
      assert Links(ns[1..], v) by {
        var k :| 0 <= k < |ns| && ns[k].id == v;
        assert ns[1..][k - 1].id == v;
      }
      MinWeight(ns[1..], v)
    else if !Links(ns[1..], v) then
      ns[0].weight
    else
      var m := MinWeight(ns[1..], v);
      if ns[0].weight <= m then ns[0].weight else m
  }

  /** Some entry of the list leads to `v` with a weight of at most `bound`. */
  predicate EdgeWithin(ns: seq<Neighbour>, v: Id, bound: real) {
    exists k :: 0 <= k < |ns| && ns[k].id == v && ns[k].weight <= bound
  }

  /** A non-empty sequence of ids each of which lists the next as a neighbour. */
  ghost predicate IsWalk(g: map<Id, Node>, p: seq<Id>) {
    |p| > 0 && forall i :: 0 <= i < |p| - 1 ==> Links(Adj(g, p[i]), p[i + 1])
  }

  /** A walk from `s` to `v`. */
  ghost predicate WalkFrom(g: map<Id, Node>, s: Id, p: seq<Id>, v: Id) {
    IsWalk(g, p) && p[0] == s && p[|p| - 1] == v
  }

  lemma WalkPrefix(g: map<Id, Node>, p: seq<Id>)
    requires IsWalk(g, p) && |p| > 1
    ensures IsWalk(g, p[..|p| - 1])
  {
    var q := p[..|p| - 1];
    forall i | 0 <= i < |q| - 1 ensures Links(Adj(g, q[i]), q[i + 1]) {
      assert q[i] == p[i] && q[i + 1] == p[i + 1];
    }
  }

  /** The sum of the lightest edge weights along a walk. */
  ghost function Weight(g: map<Id, Node>, p: seq<Id>): real
    requires IsWalk(g, p)
    decreases |p|
  {
    if |p| == 1 then 0.0
    else
      WalkPrefix(g, p);
      Weight(g, p[..|p| - 1]) + MinWeight(Adj(g, p[|p| - 2]), p[|p| - 1])
  }

  /**
   * The guarantee the engine gives for graph keys: a finite distance is the
   * weight of some walk from the start and no walk is lighter; an infinite
   * distance means no walk reaches the node.
   */
  ghost predicate ShortestDistances(g: map<Id, Node>, s: Id, dist: map<Id, Dist>) {
    (forall v :: v in g ==> v in dist)
    && (forall v :: v in g && v in dist && dist[v].Fin? ==>
          exists p :: WalkFrom(g, s, p, v) && Weight(g, p) == dist[v].d)
    && (forall v, p :: v in g && WalkFrom(g, s, p, v) ==> v in dist && AtMost(dist[v], Weight(g, p)))
    && (forall v :: v in g && v in dist && dist[v].Inf? ==> forall p :: !WalkFrom(g, s, p, v))
  }

  // ---------------------------------------------------------------------
  // The state of the algorithm and its invariants
  // ---------------------------------------------------------------------

  /** Every id the distance map can ever hold: the keys and every neighbour id. */
  function Universe(g: map<Id, Node>): set<Id> {
    g.Keys + set x, k | x in g && 0 <= k < |g[x].neighbours| :: g[x].neighbours[k].id
  }


  /**
   * The shape of the distance map: every key has an entry, and every other
   * entry is a neighbour id (default-inserted by `m_Dist[v]`) at 0; the start
   * is at 0 and nothing is negative.
   */
  ghost predicate Tentative(g: map<Id, Node>, s: Id, dist: map<Id, Dist>) {
    s in g && g.Keys <= dist.Keys && dist[s] == Fin(0.0)
    && DistancesNonNegative(dist)
    && (forall x :: x in dist && x !in g ==> x in Universe(g) && dist[x] == Fin(0.0))
  }

  /** No finite distance is negative. */
  ghost predicate DistancesNonNegative(dist: map<Id, Dist>) {
    forall x :: x in dist && dist[x].Fin? ==> dist[x].d >= 0.0
  }

  /**
   * The distance map holds every key and otherwise only neighbour ids; in a
   * graph closed under neighbour ids (as `Graph` builds) it holds exactly the keys.
   */
  lemma KeysWithin(g: map<Id, Node>, s: Id, dist: map<Id, Dist>)
    requires Tentative(g, s, dist)
    ensures dist.Keys <= Universe(g)
    ensures Closed(g) ==> dist.Keys == g.Keys
  {
  }

  /** Node `x` has been relaxed along its first `j` entries. */
  ghost predicate RelaxedUpTo(g: map<Id, Node>, dist: map<Id, Dist>, x: Id, j: int) {
    x in dist && dist[x].Fin? && j <= |Adj(g, x)|
    && forall k :: 0 <= k < j ==>
         Adj(g, x)[k].id in dist && AtMost(dist[Adj(g, x)[k].id], dist[x].d + Adj(g, x)[k].weight)
  }

  ghost predicate Relaxed(g: map<Id, Node>, dist: map<Id, Dist>, x: Id) {
    RelaxedUpTo(g, dist, x, |Adj(g, x)|)
  }

  /** Every queue entry names a key whose distance is at most its cost, and no cost is below `lo`. */
  ghost predicate QueueOk(g: map<Id, Node>, dist: map<Id, Dist>, Q: multiset<Entry>, lo: real) {
    forall e :: e in Q ==> e.id in g && e.id in dist && AtMost(dist[e.id], e.cost) && lo <= e.cost
  }

  /** Settled nodes (the domain of `order`) have a distance at most `lo`, and order numbers below `count`. */
  ghost predicate SettledOk(dist: map<Id, Dist>, order: map<Id, nat>, count: nat, lo: real) {
    order.Keys <= dist.Keys
    && forall x :: x in order ==> AtMost(dist[x], lo) && order[x] < count
  }

  /** An unsettled node with a finite distance has an up-to-date queue entry. */
  ghost predicate Pending(dist: map<Id, Dist>, order: map<Id, nat>, Q: multiset<Entry>) {
    forall x :: x in dist && dist[x].Fin? && x !in order ==> Entry(dist[x].d, x) in Q
  }

  /**
   * Predecessors: `prev[v]` is a settled key that lists `v`, whose distance
   * plus that edge is at most `v`'s; it was settled before `v`; and every
   * reached key other than the start has a predecessor.
   */
  ghost predicate PrevOk(g: map<Id, Node>, s: Id, dist: map<Id, Dist>, prev: map<Id, Id>, order: map<Id, nat>) {
    (forall v :: v in prev ==>
       v in g && v != s && v in dist && dist[v].Fin?
       && prev[v] in g && prev[v] in order && prev[v] in dist && dist[prev[v]].Fin?
       && EdgeWithin(Adj(g, prev[v]), v, dist[v].d - dist[prev[v]].d)
       && (v in order ==> order[prev[v]] < order[v]))
    && (forall x {:trigger x in prev} :: x in g && x in dist && x != s && dist[x].Fin? ==> x in prev)
  }

  /** The predecessor of every node was settled before it. */
  ghost predicate Ranked(prev: map<Id, Id>, order: map<Id, nat>) {
    forall v :: v in prev ==> v in order && prev[v] in order && order[prev[v]] < order[v]
  }

  /** The invariant of the main loop, apart from relaxation. */
  ghost predicate Core(g: map<Id, Node>, s: Id, dist: map<Id, Dist>, prev: map<Id, Id>,
                       Q: multiset<Entry>, order: map<Id, nat>, count: nat, lo: real)
  {
    Tentative(g, s, dist) && 0.0 <= lo && QueueOk(g, dist, Q, lo)
    && SettledOk(dist, order, count, lo) && Pending(dist, order, Q)
    && PrevOk(g, s, dist, prev, order)
  }

  /** The invariant of the relaxation loop over `u`'s first `j` entries. */
  ghost predicate Inner(g: map<Id, Node>, s: Id, dist: map<Id, Dist>, prev: map<Id, Id>,
                        Q: multiset<Entry>, order: map<Id, nat>, count: nat, lo: real, u: Id, j: int)
  {
    Core(g, s, dist, prev, Q, order, count, lo) && NonNegative(g)
    && u in g && u in order && 0 <= j && RelaxedUpTo(g, dist, u, j)
    && (forall x :: x in order && x != u ==> Relaxed(g, dist, x))
    && (dist[u] == Fin(lo) || Relaxed(g, dist, u))
  }

  /** The invariant of the main loop: every settled node is relaxed. */
  ghost predicate Outer(g: map<Id, Node>, s: Id, dist: map<Id, Dist>, prev: map<Id, Id>,
                        Q: multiset<Entry>, order: map<Id, nat>, count: nat, lo: real)
  {
    Core(g, s, dist, prev, Q, order, count, lo) && NonNegative(g)
    && forall x :: x in order ==> Relaxed(g, dist, x)
  }

  /**
   * What relaxing `u`'s entries did to the state `(d0, p0, Q0)`, giving
   * `(d, p, Q)`: no distance rose; every distance that fell has `u` as its
   * predecessor and an entry of that cost in the queue; every other id kept
   * its predecessor or its lack of one; an id new to the map is one of `u`'s
   * neighbours, at 0; and entries were only pushed.
   */
  ghost predicate Lowered(g: map<Id, Node>, u: Id, d0: map<Id, Dist>, p0: map<Id, Id>, Q0: multiset<Entry>,
                          d: map<Id, Dist>, p: map<Id, Id>, Q: multiset<Entry>)
  {
    Q0 <= Q
    && (forall x :: x in d0 ==> x in d && !Below(d0[x], d[x]))
    && (forall x :: x in d0 && x in d && d[x] != d0[x] ==>
          d[x].Fin? && x in p && p[x] == u && Entry(d[x].d, x) in Q)
    && (forall x :: x in d0 && x in d && d[x] == d0[x] ==>
          (x in p <==> x in p0) && (x in p ==> p[x] == p0[x]))
    && (forall x :: x in d && x !in d0 ==> d[x] == Fin(0.0) && Links(Adj(g, u), x))
  }

  /**
   * The state the inner loop updates: distances, predecessors, the queue,
   * and the (ghost) settle order with its counter.
   */
  datatype Relaxation = Relaxation(dist: map<Id, Dist>, prev: map<Id, Id>, queue: multiset<Entry>,
                                   order: map<Id, nat>, count: nat)

  /**
   * One entry `nb` of `u`'s list. `m_Dist[v]` first inserts 0 for an absent
   * id, which counts as settled at once; then, when `alt` is below `v`'s
   * distance, the distance becomes `alt`, the predecessor `u`, and
   * `(alt, v)` is pushed; otherwise nothing more changes.
   */
  function RelaxEntry(u: Id, nb: Neighbour, r: Relaxation): (r': Relaxation)
    requires u in r.dist
    ensures u in r'.dist && nb.id in r'.dist && r.order.Keys <= r'.order.Keys
  {
    var alt := Plus(r.dist[u], nb.weight);
    if nb.id !in r.dist then
      var r1 := r.(dist := r.dist[nb.id := Fin(0.0)], order := r.order[nb.id := r.count], count := r.count + 1);
      if Below(alt, r1.dist[nb.id]) then
        r1.(dist := r1.dist[nb.id := alt], prev := r1.prev[nb.id := u], queue := r1.queue + multiset{Entry(alt.d, nb.id)})
      else
        r1
    else if Below(alt, r.dist[nb.id]) then
      r.(dist := r.dist[nb.id := alt], prev := r.prev[nb.id := u], queue := r.queue + multiset{Entry(alt.d, nb.id)})
    else
      r
  }

  /**
   * The state after relaxing the entries of `u`'s list from index `j` on, in
   * order: the whole loop is `RelaxFrom(g, u, 0, r)`.
   */
  function RelaxFrom(g: map<Id, Node>, u: Id, j: nat, r: Relaxation): (r': Relaxation)
    requires j <= |Adj(g, u)| && u in r.dist
    ensures u in r'.dist && r.order.Keys <= r'.order.Keys
    decreases |Adj(g, u)| - j
  {
    if j == |Adj(g, u)| then r else RelaxFrom(g, u, j + 1, RelaxEntry(u, Adj(g, u)[j], r))
  }

  /** The state `dijkstra()` leaves behind. */
  ghost predicate Done(g: map<Id, Node>, s: Id, dist: map<Id, Dist>, prev: map<Id, Id>, order: map<Id, nat>) {
    Tentative(g, s, dist) && PrevOk(g, s, dist, prev, order) && Ranked(prev, order)
    && (forall x :: x in dist && dist[x].Fin? ==> x in order && Relaxed(g, dist, x))
  }

  // ---------------------------------------------------------------------
  // Correctness of the final state
  // ---------------------------------------------------------------------

  /**
   * After completion a predecessor link is tight: `v`'s distance is its
   * predecessor's plus the lightest edge between them.
   */
  lemma PrevTight(g: map<Id, Node>, s: Id, dist: map<Id, Dist>, prev: map<Id, Id>, order: map<Id, nat>, v: Id)
    requires Done(g, s, dist, prev, order) && v in prev
    ensures prev[v] in dist && v in dist && dist[prev[v]].Fin? && dist[v].Fin?
    ensures Links(Adj(g, prev[v]), v)
    ensures dist[v].d == dist[prev[v]].d + MinWeight(Adj(g, prev[v]), v)
  {
    var u := prev[v];
    var ns := Adj(g, u);
    var i :| 0 <= i < |ns| && ns[i].id == v && ns[i].weight <= dist[v].d - dist[u].d;
    assert Links(ns, v);
    var k :| 0 <= k < |ns| && ns[k].id == v && ns[k].weight == MinWeight(ns, v);
    assert RelaxedUpTo(g, dist, u, |ns|);
    assert AtMost(dist[v], dist[u].d + ns[k].weight);
  }

  /** No walk from the start is lighter than the distance of its last node. */
  lemma {:induction false} NoShorterWalk(g: map<Id, Node>, s: Id, dist: map<Id, Dist>, prev: map<Id, Id>,
                                         order: map<Id, nat>, p: seq<Id>)
    requires Done(g, s, dist, prev, order)
    requires IsWalk(g, p) && p[0] == s
    ensures p[|p| - 1] in dist && AtMost(dist[p[|p| - 1]], Weight(g, p))
    decreases |p|
  {
    if |p| > 1 {
      var q := p[..|p| - 1];
      WalkPrefix(g, p);
      NoShorterWalk(g, s, dist, prev, order, q);
      var x, v := p[|p| - 2], p[|p| - 1];
      assert q[|q| - 1] == x;
      var ns := Adj(g, x);
      assert Links(ns, v);
      var k :| 0 <= k < |ns| && ns[k].id == v && ns[k].weight == MinWeight(ns, v);
      assert Relaxed(g, dist, x);
    }
  }

  /** The walk back along the predecessors from `v`, in start-to-`v` order. */
  ghost function Chain(prev: map<Id, Id>, order: map<Id, nat>, v: Id): seq<Id>
    requires Ranked(prev, order)
    decreases if v in prev then order[v] + 1 else 0
  {
    if v in prev then Chain(prev, order, prev[v]) + [v] else [v]
  }

  /** For a reached key, the predecessor chain is a walk from the start whose weight is the distance. */
  lemma {:induction false} ChainIsShortest(g: map<Id, Node>, s: Id, dist: map<Id, Dist>, prev: map<Id, Id>,
                                           order: map<Id, nat>, v: Id)
    requires Done(g, s, dist, prev, order)
    requires v in g && dist[v].Fin?
    ensures WalkFrom(g, s, Chain(prev, order, v), v)
    ensures Weight(g, Chain(prev, order, v)) == dist[v].d
    decreases if v in prev then order[v] + 1 else 0
  {
    if v in prev {
      var u := prev[v];
      ChainIsShortest(g, s, dist, prev, order, u);
      var c := Chain(prev, order, u);
      var p := c + [v];
      assert Chain(prev, order, v) == p;
      forall i | 0 <= i < |p| - 1 ensures Links(Adj(g, p[i]), p[i + 1]) {
        if i < |c| - 1 {
          assert p[i] == c[i] && p[i + 1] == c[i + 1];
        }
      }
      assert p[..|p| - 1] == c;
      PrevTight(g, s, dist, prev, order, v);
    }
  }

  /** Dijkstra's guarantee, from the state it leaves behind. */
  lemma DistancesAreShortest(g: map<Id, Node>, s: Id, dist: map<Id, Dist>, prev: map<Id, Id>, order: map<Id, nat>)
    requires Done(g, s, dist, prev, order)
    ensures ShortestDistances(g, s, dist)
  {
    forall v | v in g && v in dist && dist[v].Fin?
      ensures exists p :: WalkFrom(g, s, p, v) && Weight(g, p) == dist[v].d
    {
      ChainIsShortest(g, s, dist, prev, order, v);
    }
    forall v, p | v in g && WalkFrom(g, s, p, v)
      ensures v in dist && AtMost(dist[v], Weight(g, p))
    {
      NoShorterWalk(g, s, dist, prev, order, p);
    }
  }

  // ---------------------------------------------------------------------
  // Path reconstruction
  // ---------------------------------------------------------------------

  /** `std::reverse`. */
  function Reversed(s: seq<Id>): (r: seq<Id>)
    decreases |s|
  {
    if s == [] then [] else [s[|s| - 1]] + Reversed(s[..|s| - 1])
  }

  lemma {:induction false} ReversedAt(s: seq<Id>)
    ensures |Reversed(s)| == |s|
    ensures forall i :: 0 <= i < |s| ==> Reversed(s)[i] == s[|s| - 1 - i]
    decreases |s|
  {
    if s != [] {
      ReversedAt(s[..|s| - 1]);
    }
  }

  /**
   * The loop of `GetPath` before the reversal: from `at`, stop on the empty
   * id, stop after pushing the start, otherwise follow `m_Prev.at`, which
   * throws on a node without a predecessor.
   */
  ghost function Trace(prev: map<Id, Id>, order: map<Id, nat>, s: Id, at: Id): Result<seq<Id>, PathError>
    requires Ranked(prev, order)
    decreases if at in prev then order[at] + 1 else 0
  {
    if at == "" then Ok([])
    else if at == s then Ok([at])
    else if at !in prev then Err(NoPredecessor(at))
    else
      match Trace(prev, order, s, prev[at])
      case Ok(rest) => Ok([at] + rest)
      case Err(e) => Err(e)
  }

  /** `GetPath`'s result: the trace, reversed into start-to-end order. */
  ghost function PathOf(t: Result<seq<Id>, PathError>): Result<seq<Id>, PathError> {
    match t
    case Ok(q) => Ok(Reversed(q))
    case Err(e) => Err(e)
  }

  /** Pushing `path` in front of whatever the rest of the trace gives. */
  function Prefixed(path: seq<Id>, t: Result<seq<Id>, PathError>): Result<seq<Id>, PathError> {
    match t
    case Ok(q) => Ok(path + q)
    case Err(e) => Err(e)
  }

  /** Nothing pushed yet: the trace itself. */
  lemma PrefixedNothing(t: Result<seq<Id>, PathError>)
    ensures Prefixed([], t) == t
  {
    if t.Ok? {
      assert [] + t.value == t.value;
    }
  }

  /** One turn of `GetPath`'s loop: push `at`, then continue from its predecessor. */
  lemma TraceStep(prev: map<Id, Id>, order: map<Id, nat>, s: Id, at: Id, path: seq<Id>)
    requires Ranked(prev, order) && at != "" && at != s && at in prev
    ensures Prefixed(path, Trace(prev, order, s, at)) == Prefixed(path + [at], Trace(prev, order, s, prev[at]))
  {
    match Trace(prev, order, s, prev[at])
    case Ok(rest) =>
      assert path + ([at] + rest) == path + [at] + rest;
    case Err(_) =>
  }

  /** Without an empty id among the keys, the trace of a reached key is its chain, reversed. */
  lemma {:induction false} TraceFollowsChain(g: map<Id, Node>, s: Id, dist: map<Id, Dist>, prev: map<Id, Id>,
                                             order: map<Id, nat>, v: Id)
    requires Done(g, s, dist, prev, order) && "" !in g
    requires v in g && dist[v].Fin?
    ensures Trace(prev, order, s, v) == Ok(Reversed(Chain(prev, order, v)))
    decreases if v in prev then order[v] + 1 else 0
  {
    if v in prev {
      var u := prev[v];
      TraceFollowsChain(g, s, dist, prev, order, u);
      var c := Chain(prev, order, u);
      assert Chain(prev, order, v) == c + [v];
      assert (c + [v])[..|c|] == c;
      assert Reversed(c + [v]) == [v] + Reversed(c);
      assert v != "" && v != s;
    } else {
      assert v == s;
      assert Chain(prev, order, v) == [v];
      assert [v][..0] == [];
      assert Reversed([v]) == [v];
    }
  }

  /** For a reached end, `GetPath` returns its predecessor chain: a shortest walk from the start. */
  lemma PathToReached(g: map<Id, Node>, s: Id, dist: map<Id, Dist>, prev: map<Id, Id>,
                      order: map<Id, nat>, end: Id)
    requires Done(g, s, dist, prev, order) && "" !in g
    requires end in g && dist[end].Fin?
    ensures PathOf(Trace(prev, order, s, end)) == Ok(Chain(prev, order, end))
    ensures WalkFrom(g, s, Chain(prev, order, end), end) && Weight(g, Chain(prev, order, end)) == dist[end].d
  {
    TraceFollowsChain(g, s, dist, prev, order, end);
    ChainIsShortest(g, s, dist, prev, order, end);
    var c := Chain(prev, order, end);
    ReversedAt(c);
    ReversedAt(Reversed(c));
    assert Reversed(Reversed(c)) == c;
  }

  /**
   * What `GetPath` returns, for an end id other than the empty one and a
   * graph without the empty id: a path exactly when the end is the start or
   * a reached key; that path is a walk from the start to the end whose
   * weight is the end's distance; otherwise `m_Prev.at` throws.
   */
  lemma PathOutcome(g: map<Id, Node>, s: Id, dist: map<Id, Dist>, prev: map<Id, Id>,
                    order: map<Id, nat>, end: Id)
    requires Done(g, s, dist, prev, order) && "" !in g && end != ""
    ensures PathOf(Trace(prev, order, s, end)).Ok?
            <==> end == s || (end in g && dist[end].Fin?)
    ensures PathOf(Trace(prev, order, s, end)).Ok? ==>
              var p := PathOf(Trace(prev, order, s, end)).value;
              WalkFrom(g, s, p, end) && Weight(g, p) == dist[end].d
    ensures PathOf(Trace(prev, order, s, end)).Err? ==>
              PathOf(Trace(prev, order, s, end)).error == NoPredecessor(end)
    ensures end == s ==> PathOf(Trace(prev, order, s, end)) == Ok([s])
    ensures end != s && end !in prev ==> PathOf(Trace(prev, order, s, end)) == Err(NoPredecessor(end))
  {
    if end == s {
      assert Reversed([s]) == [s] by {
        assert [s][..0] == [];
      }
    }
    if end in g && dist[end].Fin? {
      PathToReached(g, s, dist, prev, order, end);
    } else if end != s {
      assert end !in prev;
    }
  }

  // ---------------------------------------------------------------------
  // Proof steps of the main loop
  // ---------------------------------------------------------------------

  /** A non-empty queue has an entry of least cost. */
  lemma {:induction false} MinExists(Q: multiset<Entry>)
    requires Q != multiset{}
    ensures exists e :: e in Q && forall f :: f in Q ==> e.cost <= f.cost
    decreases |Q|
  {
    var x :| x in Q;
    var rest := Q - multiset{x};
    assert forall f :: f in Q ==> f == x || f in rest;
    if rest == multiset{} {
      assert forall f :: f in Q ==> x.cost <= f.cost;
    } else {
      MinExists(rest);
      var m :| m in rest && forall f :: f in rest ==> m.cost <= f.cost;
      var least := if m.cost <= x.cost then m else x;
      assert least in Q && forall f :: f in Q ==> least.cost <= f.cost;
    }
  }

  /** Settling more nodes of the universe shrinks what is left to settle. */
  lemma SettleShrinks(U: set<Id>, before: set<Id>, after: set<Id>)
    requires before <= after <= U
    ensures after != before ==> |U - after| < |U - before|
  {
    if after == before {
      return;
    }
    var u :| u in after && u !in before;
    var A, B := U - after, U - before;
    assert A <= B && u in B - A;
    assert B == A + (B - A) && A * (B - A) == {};
    assert |B| == |A| + |B - A|;
  }

  /** After the pop every remaining entry costs at least the popped one. */
  lemma PopQueue(g: map<Id, Node>, dist: map<Id, Dist>, Q: multiset<Entry>, lo: real, e: Entry)
    requires QueueOk(g, dist, Q, lo)
    requires e in Q && forall f :: f in Q ==> e.cost <= f.cost
    ensures QueueOk(g, dist, Q - multiset{e}, e.cost)
  {
    forall f | f in Q - multiset{e} ensures f in Q {
    }
  }

  /** The popped node, when not yet settled, is settled with the next order number. */
  lemma PopSettled(g: map<Id, Node>, dist: map<Id, Dist>, Q: multiset<Entry>, order: map<Id, nat>,
                   count: nat, lo: real, e: Entry)
    requires QueueOk(g, dist, Q, lo) && SettledOk(dist, order, count, lo)
    requires e in Q
    ensures e.id !in order ==> SettledOk(dist, order[e.id := count], count + 1, e.cost)
    ensures e.id in order ==> SettledOk(dist, order, count, e.cost)
  {
  }

  /** Entries of other unsettled nodes survive the pop. */
  lemma PopPending(dist: map<Id, Dist>, Q: multiset<Entry>, order: map<Id, nat>, e: Entry, order': map<Id, nat>)
    requires Pending(dist, order, Q) && e in Q
    requires order.Keys <= order'.Keys && e.id in order'
    ensures Pending(dist, order', Q - multiset{e})
  {
    forall x | x in dist && dist[x].Fin? && x !in order' ensures Entry(dist[x].d, x) in Q - multiset{e} {
      assert Entry(dist[x].d, x) in Q;
      assert Entry(dist[x].d, x) != e;
    }
  }

  /** Settling a node with a fresh, largest order number keeps the predecessor facts. */
  lemma SettlePrev(g: map<Id, Node>, s: Id, dist: map<Id, Dist>, prev: map<Id, Id>,
                   order: map<Id, nat>, count: nat, lo: real, u: Id)
    requires PrevOk(g, s, dist, prev, order) && SettledOk(dist, order, count, lo) && u !in order
    ensures PrevOk(g, s, dist, prev, order[u := count])
  {
    var order' := order[u := count];
    forall v | v in prev && v in order'
      ensures prev[v] in order' && order'[prev[v]] < order'[v]
    {
      assert prev[v] in order && order[prev[v]] < count;
    }
  }

  /** The main-loop invariant survives the pop of a least-cost entry `e` whose node is new: it is settled. */
  lemma PopSettle(g: map<Id, Node>, s: Id, dist: map<Id, Dist>, prev: map<Id, Id>,
                  Q: multiset<Entry>, order: map<Id, nat>, count: nat, lo: real, e: Entry,
                  Q': multiset<Entry>, order': map<Id, nat>)
    requires Outer(g, s, dist, prev, Q, order, count, lo) && e.id !in order
    requires e in Q && forall f :: f in Q ==> e.cost <= f.cost
    requires Q' == Q - multiset{e} && order' == order[e.id := count]
    ensures Inner(g, s, dist, prev, Q', order', count + 1, e.cost, e.id, 0)
    ensures e.id in dist && dist[e.id].Fin? && DistancesNonNegative(dist)
  {
    var u := e.id;
    assert Entry(dist[u].d, u) in Q;
    SettlePrev(g, s, dist, prev, order, count, lo, u);
    PopQueue(g, dist, Q, lo, e);
    PopSettled(g, dist, Q, order, count, lo, e);
    PopPending(dist, Q, order, e, order');
  }

  /** ... and one whose node is settled already (a stale entry). */
  lemma PopStale(g: map<Id, Node>, s: Id, dist: map<Id, Dist>, prev: map<Id, Id>,
                 Q: multiset<Entry>, order: map<Id, nat>, count: nat, lo: real, e: Entry, Q': multiset<Entry>)
    requires Outer(g, s, dist, prev, Q, order, count, lo) && e.id in order
    requires e in Q && forall f :: f in Q ==> e.cost <= f.cost
    requires Q' == Q - multiset{e}
    ensures Inner(g, s, dist, prev, Q', order, count, e.cost, e.id, 0)
    ensures e.id in dist && dist[e.id].Fin? && DistancesNonNegative(dist)
  {
    PopQueue(g, dist, Q, lo, e);
    PopSettled(g, dist, Q, order, count, lo, e);
    PopPending(dist, Q, order, e, order);
  }

  /** Lowering an unsettled key's distance to `a >= lo` keeps the distance map's shape. */
  lemma LowerTentative(g: map<Id, Node>, s: Id, dist: map<Id, Dist>, v: Id, a: real)
    requires Tentative(g, s, dist) && v in g && v != s && a >= 0.0
    ensures Tentative(g, s, dist[v := Fin(a)])
  {
  }

  /** ... keeps every queue entry above its node's distance, and adds `(a, v)`. */
  lemma LowerQueue(g: map<Id, Node>, dist: map<Id, Dist>, Q: multiset<Entry>, lo: real, v: Id, a: real)
    requires QueueOk(g, dist, Q, lo) && v in g && v in dist && Below(Fin(a), dist[v]) && lo <= a
    ensures QueueOk(g, dist[v := Fin(a)], Q + multiset{Entry(a, v)}, lo)
  {
    var dist' := dist[v := Fin(a)];
    forall e | e in Q + multiset{Entry(a, v)}
      ensures e.id in g && e.id in dist' && AtMost(dist'[e.id], e.cost) && lo <= e.cost
    {
      if e != Entry(a, v) {
        assert e in Q;
      }
    }
  }

  /** ... keeps the settled nodes' facts. */
  lemma LowerSettled(dist: map<Id, Dist>, order: map<Id, nat>, count: nat, lo: real, v: Id, a: real)
    requires SettledOk(dist, order, count, lo) && v !in order && v in dist
    ensures SettledOk(dist[v := Fin(a)], order, count, lo)
  {
  }

  /** ... keeps every unsettled finite node in the queue, `v` by its new entry. */
  lemma LowerPending(dist: map<Id, Dist>, order: map<Id, nat>, Q: multiset<Entry>, v: Id, a: real)
    requires Pending(dist, order, Q)
    ensures Pending(dist[v := Fin(a)], order, Q + multiset{Entry(a, v)})
  {
    var dist' := dist[v := Fin(a)];
    forall x | x in dist' && dist'[x].Fin? && x !in order
      ensures Entry(dist'[x].d, x) in Q + multiset{Entry(a, v)}
    {
      if x != v {
        assert Entry(dist[x].d, x) in Q;
      }
    }
  }

  /** ... and recording the settled `u` as `v`'s predecessor keeps the predecessor facts. */
  lemma LowerPrev(g: map<Id, Node>, s: Id, dist: map<Id, Dist>, prev: map<Id, Id>, order: map<Id, nat>,
                  u: Id, v: Id, w: real, dist': map<Id, Dist>, prev': map<Id, Id>)
    requires PrevOk(g, s, dist, prev, order)
    requires u in g && u in order && u in dist && dist[u].Fin? && v in g && v != s && v !in order && v in dist
    requires Neighbour(v, w) in Adj(g, u)
    requires dist' == dist[v := Fin(dist[u].d + w)] && prev' == prev[v := u]
    ensures PrevOk(g, s, dist', prev', order)
  {
    var ns := Adj(g, u);
    var k :| 0 <= k < |ns| && ns[k] == Neighbour(v, w);
    forall y | y in prev'
      ensures y in g && y != s && y in dist' && dist'[y].Fin?
      ensures prev'[y] in g && prev'[y] in order && prev'[y] in dist' && dist'[prev'[y]].Fin?
      ensures EdgeWithin(Adj(g, prev'[y]), y, dist'[y].d - dist'[prev'[y]].d)
      ensures y in order ==> order[prev'[y]] < order[y]
    {
      if y != v {
        assert prev'[y] == prev[y] && prev[y] in order;
      } else {
        assert ns[k].id == v && ns[k].weight <= dist'[v].d - dist'[u].d;
      }
    }
    forall x {:trigger x in prev'} | x in g && x in dist' && x != s && dist'[x].Fin?
      ensures x in prev'
    {
      if x != v {
        assert x in prev;
      }
    }
  }

  /** ... and keeps every settled node relaxed, only lowering its neighbours' distances. */
  lemma LowerRelaxed(g: map<Id, Node>, dist: map<Id, Dist>, order: map<Id, nat>, u: Id, j: int, v: Id, a: real)
    requires u in order && v !in order && v in dist && Below(Fin(a), dist[v])
    requires RelaxedUpTo(g, dist, u, j) && 0 <= j < |Adj(g, u)| && Adj(g, u)[j].id == v
    requires a == dist[u].d + Adj(g, u)[j].weight
    requires forall x :: x in order && x != u ==> Relaxed(g, dist, x)
    ensures RelaxedUpTo(g, dist[v := Fin(a)], u, j + 1)
    ensures forall x :: x in order && x != u ==> Relaxed(g, dist[v := Fin(a)], x)
  {
    var dist' := dist[v := Fin(a)];
    forall x | x in order
      ensures RelaxedUpTo(g, dist', x, if x == u then j else |Adj(g, x)|)
    {
      var n := if x == u then j else |Adj(g, x)|;
      assert RelaxedUpTo(g, dist, x, n);
      forall k | 0 <= k < n
        ensures Adj(g, x)[k].id in dist' && AtMost(dist'[Adj(g, x)[k].id], dist'[x].d + Adj(g, x)[k].weight)
      {
      }
    }
  }

  /** Inserting an absent id leaves every relaxation fact in place. */
  lemma ExtendRelaxed(g: map<Id, Node>, dist: map<Id, Dist>, v: Id, c: Dist, x: Id, n: int)
    requires RelaxedUpTo(g, dist, x, n) && v !in dist
    ensures RelaxedUpTo(g, dist[v := c], x, n)
  {
  }

  /** ... and every predecessor fact, the phantom being settled last. */
  lemma PhantomPrev(g: map<Id, Node>, s: Id, dist: map<Id, Dist>, prev: map<Id, Id>,
                    order: map<Id, nat>, count: nat, v: Id, dist': map<Id, Dist>, order': map<Id, nat>)
    requires PrevOk(g, s, dist, prev, order) && v !in g && v !in dist
    requires dist' == dist[v := Fin(0.0)] && order' == order[v := count]
    ensures PrevOk(g, s, dist', prev, order')
  {
    forall y | y in prev
      ensures y in g && y != s && y in dist' && dist'[y].Fin?
      ensures prev[y] in g && prev[y] in order' && prev[y] in dist' && dist'[prev[y]].Fin?
      ensures EdgeWithin(Adj(g, prev[y]), y, dist'[y].d - dist'[prev[y]].d)
      ensures y in order' ==> order'[prev[y]] < order'[y]
    {
      assert y != v && prev[y] != v;
      assert dist'[y] == dist[y] && dist'[prev[y]] == dist[prev[y]];
    }
    forall x {:trigger x in prev} | x in g && x in dist' && x != s && dist'[x].Fin?
      ensures x in prev
    {
      assert x != v && x in dist;
    }
  }

  /** ... and the relaxation of every settled node; the phantom has no entries to relax. */
  lemma PhantomRelaxed(g: map<Id, Node>, dist: map<Id, Dist>, order: map<Id, nat>, order': map<Id, nat>,
                       lo: real, u: Id, j: int, v: Id)
    requires order'.Keys == order.Keys + {v}
    requires v !in g && v !in dist && u in dist && dist[u].Fin?
    requires RelaxedUpTo(g, dist, u, j) && (dist[u] == Fin(lo) || Relaxed(g, dist, u))
    requires forall x :: x in order && x != u ==> Relaxed(g, dist, x)
    ensures RelaxedUpTo(g, dist[v := Fin(0.0)], u, j)
    ensures dist[v := Fin(0.0)][u] == Fin(lo) || Relaxed(g, dist[v := Fin(0.0)], u)
    ensures forall x :: x in order' && x != u ==> Relaxed(g, dist[v := Fin(0.0)], x)
  {
    ExtendRelaxed(g, dist, v, Fin(0.0), u, j);
    if dist[u] != Fin(lo) {
      ExtendRelaxed(g, dist, v, Fin(0.0), u, |Adj(g, u)|);
    }
    forall x | x in order' && x != u ensures Relaxed(g, dist[v := Fin(0.0)], x) {
      if x == v {
        assert Adj(g, v) == [];
      } else {
        ExtendRelaxed(g, dist, v, Fin(0.0), x, |Adj(g, x)|);
      }
    }
  }

  /** ... and the shape of the distance map, queue and settled nodes. */
  lemma PhantomShape(g: map<Id, Node>, s: Id, dist: map<Id, Dist>, Q: multiset<Entry>,
                     order: map<Id, nat>, count: nat, lo: real, v: Id,
                     dist': map<Id, Dist>, order': map<Id, nat>)
    requires Tentative(g, s, dist) && QueueOk(g, dist, Q, lo) && SettledOk(dist, order, count, lo)
    requires Pending(dist, order, Q) && 0.0 <= lo && v !in g && v in Universe(g) && v !in dist
    requires dist' == dist[v := Fin(0.0)] && order' == order[v := count]
    ensures Tentative(g, s, dist') && QueueOk(g, dist', Q, lo) && SettledOk(dist', order', count + 1, lo)
    ensures Pending(dist', order', Q)
  {
  }

  /** ... and so the invariant apart from relaxation. */
  lemma PhantomState(g: map<Id, Node>, s: Id, dist: map<Id, Dist>, prev: map<Id, Id>,
                     Q: multiset<Entry>, order: map<Id, nat>, count: nat, lo: real, u: Id, j: int,
                     dist': map<Id, Dist>, order': map<Id, nat>)
    requires Inner(g, s, dist, prev, Q, order, count, lo, u, j) && j < |Adj(g, u)|
    requires Adj(g, u)[j].id !in dist
    requires dist' == dist[Adj(g, u)[j].id := Fin(0.0)] && order' == order[Adj(g, u)[j].id := count]
    ensures Tentative(g, s, dist') && QueueOk(g, dist', Q, lo) && SettledOk(dist', order', count + 1, lo)
    ensures Pending(dist', order', Q) && PrevOk(g, s, dist', prev, order')
  {
    var v := Adj(g, u)[j].id;
    assert v !in g && v in Universe(g);
    PhantomShape(g, s, dist, Q, order, count, lo, v, dist', order');
    PhantomPrev(g, s, dist, prev, order, count, v, dist', order');
  }

  /**
   * A phantom neighbour (not a key) read by `m_Dist[v]` enters at 0, which
   * no `alt` is below, and counts as settled: it has no entries, so it is
   * relaxed at once.
   */
  lemma RelaxPhantom(g: map<Id, Node>, s: Id, dist: map<Id, Dist>, prev: map<Id, Id>,
                     Q: multiset<Entry>, order: map<Id, nat>, count: nat, lo: real, u: Id, j: int,
                     dist': map<Id, Dist>, order': map<Id, nat>)
    requires Inner(g, s, dist, prev, Q, order, count, lo, u, j) && j < |Adj(g, u)|
    requires Adj(g, u)[j].id !in dist
    requires dist' == dist[Adj(g, u)[j].id := Fin(0.0)] && order' == order[Adj(g, u)[j].id := count]
    ensures !Below(Plus(dist[u], Adj(g, u)[j].weight), dist'[Adj(g, u)[j].id])
    ensures Inner(g, s, dist', prev, Q, order', count + 1, lo, u, j + 1)
  {
    var v := Adj(g, u)[j].id;
    assert Adj(g, u)[j].weight >= 0.0;
    PhantomState(g, s, dist, prev, Q, order, count, lo, u, j, dist', order');
    PhantomRelaxed(g, dist, order, order', lo, u, j, v);
    PhantomEntry(g, dist, u, j, dist');
  }

  /** The entry leading to the phantom is relaxed: `0 <= d(u) + w`. */
  lemma PhantomEntry(g: map<Id, Node>, dist: map<Id, Dist>, u: Id, j: int, dist': map<Id, Dist>)
    requires 0 <= j < |Adj(g, u)| && Adj(g, u)[j].weight >= 0.0 && Adj(g, u)[j].id != u
    requires u in dist && dist[u].Fin? && dist[u].d >= 0.0
    requires dist' == dist[Adj(g, u)[j].id := Fin(0.0)] && RelaxedUpTo(g, dist', u, j)
    ensures !Below(Plus(dist[u], Adj(g, u)[j].weight), dist'[Adj(g, u)[j].id])
    ensures RelaxedUpTo(g, dist', u, j + 1)
  {
  }

  /** An entry that does not improve leaves everything as it was, one more entry relaxed. */
  lemma RelaxKeep(g: map<Id, Node>, s: Id, dist: map<Id, Dist>, prev: map<Id, Id>,
                  Q: multiset<Entry>, order: map<Id, nat>, count: nat, lo: real, u: Id, j: int)
    requires Inner(g, s, dist, prev, Q, order, count, lo, u, j) && j < |Adj(g, u)|
    requires Adj(g, u)[j].id in dist && !Below(Plus(dist[u], Adj(g, u)[j].weight), dist[Adj(g, u)[j].id])
    ensures Inner(g, s, dist, prev, Q, order, count, lo, u, j + 1)
  {
    assert RelaxedUpTo(g, dist, u, j + 1);
  }

  /** Only the node being settled can still improve a neighbour: a settled one is relaxed. */
  lemma ImprovingMeansSettling(g: map<Id, Node>, dist: map<Id, Dist>, u: Id, j: int, lo: real)
    requires u in dist && dist[u].Fin? && 0 <= j < |Adj(g, u)|
    requires dist[u] == Fin(lo) || Relaxed(g, dist, u)
    requires Adj(g, u)[j].id in dist && Below(Plus(dist[u], Adj(g, u)[j].weight), dist[Adj(g, u)[j].id])
    ensures dist[u] == Fin(lo)
  {
    if dist[u] != Fin(lo) {
      assert false;
    }
  }

  /**
   * An entry of `u` that improves on `v`'s distance: `u` is the node being
   * settled, and `v` is a key other than the start, not yet settled.
   */
  lemma LowerFacts(g: map<Id, Node>, s: Id, dist: map<Id, Dist>, order: map<Id, nat>, count: nat,
                   lo: real, u: Id, j: int, v: Id, alt: real)
    requires Tentative(g, s, dist) && SettledOk(dist, order, count, lo) && NonNegative(g)
    requires u in g && u in dist && dist[u].Fin? && 0 <= j < |Adj(g, u)|
    requires dist[u] == Fin(lo) || Relaxed(g, dist, u)
    requires v == Adj(g, u)[j].id && alt == dist[u].d + Adj(g, u)[j].weight
    requires v in dist && Below(Fin(alt), dist[v])
    ensures v in g && v != s && v !in order && dist[u] == Fin(lo) && alt >= lo
    ensures Neighbour(v, Adj(g, u)[j].weight) in Adj(g, u)
  {
    assert Adj(g, u)[j].weight >= 0.0;
    ImprovingMeansSettling(g, dist, u, j, lo);
  }

  /** ... so the invariant apart from relaxation survives. */
  lemma LowerCore(g: map<Id, Node>, s: Id, dist: map<Id, Dist>, prev: map<Id, Id>,
                  Q: multiset<Entry>, order: map<Id, nat>, count: nat, lo: real, u: Id, w: real,
                  v: Id, alt: real, dist': map<Id, Dist>, prev': map<Id, Id>, Q': multiset<Entry>)
    requires Core(g, s, dist, prev, Q, order, count, lo) && u in g && u in order && dist[u].Fin?
    requires v in g && v != s && v !in order && alt == dist[u].d + w && alt >= lo
    requires Neighbour(v, w) in Adj(g, u) && v in dist && Below(Fin(alt), dist[v])
    requires dist' == dist[v := Fin(alt)] && prev' == prev[v := u] && Q' == Q + multiset{Entry(alt, v)}
    ensures Core(g, s, dist', prev', Q', order, count, lo)
  {
    LowerTentative(g, s, dist, v, alt);
    LowerQueue(g, dist, Q, lo, v, alt);
    LowerSettled(dist, order, count, lo, v, alt);
    LowerPending(dist, order, Q, v, alt);
    LowerPrev(g, s, dist, prev, order, u, v, w, dist', prev');
  }

  /** ... so the whole invariant of the relaxation loop survives, one more entry relaxed. */
  lemma RelaxLower(g: map<Id, Node>, s: Id, dist: map<Id, Dist>, prev: map<Id, Id>,
                   Q: multiset<Entry>, order: map<Id, nat>, count: nat, lo: real, u: Id, j: int,
                   v: Id, alt: real, dist': map<Id, Dist>, prev': map<Id, Id>, Q': multiset<Entry>)
    requires Inner(g, s, dist, prev, Q, order, count, lo, u, j) && j < |Adj(g, u)|
    requires v == Adj(g, u)[j].id && alt == dist[u].d + Adj(g, u)[j].weight
    requires v in dist && Below(Fin(alt), dist[v])
    requires dist' == dist[v := Fin(alt)] && prev' == prev[v := u] && Q' == Q + multiset{Entry(alt, v)}
    ensures Inner(g, s, dist', prev', Q', order, count, lo, u, j + 1)
  {
    LowerFacts(g, s, dist, order, count, lo, u, j, v, alt);
    LowerCore(g, s, dist, prev, Q, order, count, lo, u, Adj(g, u)[j].weight, v, alt, dist', prev', Q');
    LowerRelaxed(g, dist, order, u, j, v, alt);
  }

  /** Before any entry is relaxed, nothing has changed. */
  lemma LoweredNothing(g: map<Id, Node>, u: Id, d: map<Id, Dist>, p: map<Id, Id>, Q: multiset<Entry>)
    ensures Lowered(g, u, d, p, Q, d, p, Q)
  {
    forall x | x in d ensures !Below(d[x], d[x]) {
    }
  }

  /** Relaxing one more entry of `u` extends what relaxing its earlier ones did: an absent id enters at 0 ... */
  lemma LoweredPhantom(g: map<Id, Node>, u: Id, v: Id,
                       d0: map<Id, Dist>, p0: map<Id, Id>, Q0: multiset<Entry>,
                       d: map<Id, Dist>, p: map<Id, Id>, Q: multiset<Entry>, d': map<Id, Dist>)
    requires Lowered(g, u, d0, p0, Q0, d, p, Q) && v !in d && Links(Adj(g, u), v)
    requires d' == d[v := Fin(0.0)]
    ensures Lowered(g, u, d0, p0, Q0, d', p, Q)
  {
  }

  /** ... and when it lowers `v`'s distance to `a`, which is not negative. */
  lemma LoweredLower(g: map<Id, Node>, u: Id, v: Id, a: real,
                     d0: map<Id, Dist>, p0: map<Id, Id>, Q0: multiset<Entry>,
                     d: map<Id, Dist>, p: map<Id, Id>, Q: multiset<Entry>,
                     d': map<Id, Dist>, p': map<Id, Id>, Q': multiset<Entry>)
    requires Lowered(g, u, d0, p0, Q0, d, p, Q) && v in d && Below(Fin(a), d[v]) && 0.0 <= a
    requires d' == d[v := Fin(a)] && p' == p[v := u] && Q' == Q + multiset{Entry(a, v)}
    ensures Lowered(g, u, d0, p0, Q0, d', p', Q')
  {
    forall x | x in d0 && x in d' && d'[x] != d0[x]
      ensures d'[x].Fin? && x in p' && p'[x] == u && Entry(d'[x].d, x) in Q'
    {
      if x != v {
        assert Entry(d[x].d, x) in Q;
      }
    }
  }

  /** A settled node is relaxed along all its entries: none of them can improve. */
  lemma SettledKeeps(g: map<Id, Node>, dist: map<Id, Dist>, u: Id, j: int)
    requires Relaxed(g, dist, u) && 0 <= j < |Adj(g, u)|
    ensures Adj(g, u)[j].id in dist && !Below(Plus(dist[u], Adj(g, u)[j].weight), dist[Adj(g, u)[j].id])
  {
  }

  /** The end of the relaxation loop restores the main-loop invariant. */
  lemma InnerDone(g: map<Id, Node>, s: Id, dist: map<Id, Dist>, prev: map<Id, Id>,
                  Q: multiset<Entry>, order: map<Id, nat>, count: nat, lo: real, u: Id)
    requires Inner(g, s, dist, prev, Q, order, count, lo, u, |Adj(g, u)|)
    ensures Outer(g, s, dist, prev, Q, order, count, lo)
  {
  }

  /** The state after initialisation satisfies the main-loop invariant. */
  lemma OuterInit(g: map<Id, Node>, s: Id, dist: map<Id, Dist>, Q: multiset<Entry>)
    requires s in g && NonNegative(g) && dist.Keys == g.Keys
    requires forall x :: x in dist ==> dist[x] == if x == s then Fin(0.0) else Inf
    requires Q == multiset{Entry(0.0, s)}
    ensures Outer(g, s, dist, map[], Q, map[], 0, 0.0)
  {
  }

  /** At an empty queue the main-loop invariant is the final state. */
  lemma FinishDone(g: map<Id, Node>, s: Id, dist: map<Id, Dist>, prev: map<Id, Id>,
                   order: map<Id, nat>, count: nat, lo: real)
    requires Outer(g, s, dist, prev, multiset{}, order, count, lo)
    ensures Done(g, s, dist, prev, order)
  {
  }

  // ---------------------------------------------------------------------
  // The inner loop as a whole
  // ---------------------------------------------------------------------

  /** Entry `j` keeps the invariant of the relaxation loop, relaxed up to `k = j + 1`. */
  lemma RelaxEntryInner(g: map<Id, Node>, s: Id, lo: real, u: Id, j: nat, k: nat, r: Relaxation, r': Relaxation)
    requires Inner(g, s, r.dist, r.prev, r.queue, r.order, r.count, lo, u, j) && j < |Adj(g, u)| && k == j + 1
    requires r' == RelaxEntry(u, Adj(g, u)[j], r)
    ensures Inner(g, s, r'.dist, r'.prev, r'.queue, r'.order, r'.count, lo, u, k)
  {
    var nb := Adj(g, u)[j];
    var alt := Plus(r.dist[u], nb.weight);
    if nb.id !in r.dist {
      RelaxPhantom(g, s, r.dist, r.prev, r.queue, r.order, r.count, lo, u, j, r'.dist, r'.order);
    } else if Below(alt, r.dist[nb.id]) {
      RelaxLower(g, s, r.dist, r.prev, r.queue, r.order, r.count, lo, u, j, nb.id, alt.d, r'.dist, r'.prev, r'.queue);
    } else {
      RelaxKeep(g, s, r.dist, r.prev, r.queue, r.order, r.count, lo, u, j);
    }
  }

  /**
   * One more entry, whose `alt` cannot be negative, extends what relaxing
   * `u`'s earlier entries did to the state `r0`.
   */
  lemma RelaxEntryLowered(g: map<Id, Node>, u: Id, j: nat, r0: Relaxation, r: Relaxation, r': Relaxation)
    requires NonNegative(g) && j < |Adj(g, u)| && u in r.dist && r.dist[u].Fin? && DistancesNonNegative(r.dist)
    requires Lowered(g, u, r0.dist, r0.prev, r0.queue, r.dist, r.prev, r.queue)
    requires r' == RelaxEntry(u, Adj(g, u)[j], r)
    ensures Lowered(g, u, r0.dist, r0.prev, r0.queue, r'.dist, r'.prev, r'.queue)
  {
    var nb := Adj(g, u)[j];
    assert u in g && nb.weight >= 0.0;
    var alt := Plus(r.dist[u], nb.weight);
    if nb.id !in r.dist {
      assert Links(Adj(g, u), nb.id);
      LoweredPhantom(g, u, nb.id, r0.dist, r0.prev, r0.queue, r.dist, r.prev, r.queue, r'.dist);
    } else if Below(alt, r.dist[nb.id]) {
      LoweredLower(g, u, nb.id, alt.d, r0.dist, r0.prev, r0.queue, r.dist, r.prev, r.queue, r'.dist, r'.prev, r'.queue);
    }
  }

  /** With no negative weight, relaxing an entry of `u` never makes a distance negative, nor `u`'s infinite. */
  lemma RelaxEntryNonNegative(g: map<Id, Node>, u: Id, j: nat, r: Relaxation, r': Relaxation)
    requires NonNegative(g) && j < |Adj(g, u)| && u in r.dist && r.dist[u].Fin? && DistancesNonNegative(r.dist)
    requires r' == RelaxEntry(u, Adj(g, u)[j], r)
    ensures r'.dist[u].Fin? && DistancesNonNegative(r'.dist)
  {
    assert u in g && Adj(g, u)[j].weight >= 0.0;
  }

  /** Relaxing the rest of `u`'s list from entry `j` on keeps the invariant of the relaxation loop to its end. */
  lemma {:induction false} RelaxFromInner(g: map<Id, Node>, s: Id, lo: real, u: Id, j: nat, r: Relaxation, r': Relaxation)
    requires Inner(g, s, r.dist, r.prev, r.queue, r.order, r.count, lo, u, j) && j <= |Adj(g, u)|
    requires r' == RelaxFrom(g, u, j, r)
    ensures Inner(g, s, r'.dist, r'.prev, r'.queue, r'.order, r'.count, lo, u, |Adj(g, u)|)
    decreases |Adj(g, u)| - j
  {
    if j < |Adj(g, u)| {
      var next := RelaxEntry(u, Adj(g, u)[j], r);
      RelaxEntryInner(g, s, lo, u, j, j + 1, r, next);
      RelaxFromInner(g, s, lo, u, j + 1, next, r');
    }
  }

  /** Relaxing the whole list of a popped node restores the main-loop invariant. */
  lemma RelaxAllInner(g: map<Id, Node>, s: Id, lo: real, u: Id, r: Relaxation, r': Relaxation)
    requires Inner(g, s, r.dist, r.prev, r.queue, r.order, r.count, lo, u, 0)
    requires r' == RelaxFrom(g, u, 0, r)
    ensures Outer(g, s, r'.dist, r'.prev, r'.queue, r'.order, r'.count, lo)
    ensures u in r'.order && Relaxed(g, r'.dist, u)
  {
    RelaxFromInner(g, s, lo, u, 0, r, r');
    InnerDone(g, s, r'.dist, r'.prev, r'.queue, r'.order, r'.count, lo, u);
  }

  /**
   * From a state with no negative distance, in a graph with no negative
   * weight, relaxing the rest of `u`'s list changes the state only as
   * `Lowered` allows.
   */
  lemma {:induction false} RelaxFromLowered(g: map<Id, Node>, u: Id, j: nat, r0: Relaxation, r: Relaxation, r': Relaxation)
    requires NonNegative(g) && j <= |Adj(g, u)| && u in r.dist && r.dist[u].Fin? && DistancesNonNegative(r.dist)
    requires Lowered(g, u, r0.dist, r0.prev, r0.queue, r.dist, r.prev, r.queue)
    requires r' == RelaxFrom(g, u, j, r)
    ensures Lowered(g, u, r0.dist, r0.prev, r0.queue, r'.dist, r'.prev, r'.queue)
    decreases |Adj(g, u)| - j
  {
    if j < |Adj(g, u)| {
      var next := RelaxEntry(u, Adj(g, u)[j], r);
      RelaxEntryLowered(g, u, j, r0, r, next);
      RelaxEntryNonNegative(g, u, j, r, next);
      RelaxFromLowered(g, u, j + 1, r0, next, r');
    }
  }

  /** For a node already relaxed, relaxing its list again changes nothing. */
  lemma {:induction false} RelaxFromSettled(g: map<Id, Node>, u: Id, j: nat, r: Relaxation)
    requires j <= |Adj(g, u)| && u in r.dist && Relaxed(g, r.dist, u)
    ensures RelaxFrom(g, u, j, r) == r
    decreases |Adj(g, u)| - j
  {
    if j < |Adj(g, u)| {
      SettledKeeps(g, r.dist, u, j);
      RelaxFromSettled(g, u, j + 1, r);
    }
  }

  // ---------------------------------------------------------------------
  // The Pathfinder class
  // ---------------------------------------------------------------------

  class Pathfinder {
    const graph: map<Id, Node>
    const start: Id
    const end: Id
    var dist: map<Id, Dist>
    var prev: map<Id, Id>
    /** The order in which nodes were settled; it orders every predecessor before its node. */
    ghost var order: map<Id, nat>

    ghost predicate Valid()
      reads this
    {
      Done(graph, start, dist, prev, order)
    }

    /** Construction after the start check: runs `dijkstra()` at once. */
    constructor (g: map<Id, Node>, s: Id, e: Id)
      requires s in g && NonNegative(g)
      ensures graph == g && start == s && end == e
      ensures Valid()
    {
      graph, start, end := g, s, e;
      dist, prev, order := map[], map[], map[];
      new;
      Dijkstra();
    }

    /** The distance map: the shortest walk weight to every key, 0 at the start. */
    function GetDistances(): (m: map<Id, Dist>)
      reads this
      requires Valid()
      ensures ShortestDistances(graph, start, m)
      ensures m[start] == Fin(0.0)
      ensures forall x :: x in m && x !in graph ==> m[x] == Fin(0.0)
      ensures m.Keys <= Universe(graph)
      ensures Closed(graph) ==> m.Keys == graph.Keys
    {
      DistancesAreShortest(graph, start, dist, prev, order);
      KeysWithin(graph, start, dist);
      dist
    }

    /** Every key at infinity except the start at 0; the queue holds `(0, start)`. */
    method Initialise() returns (Q: multiset<Entry>)
      requires start in graph && dist == map[]
      modifies this
      ensures dist.Keys == graph.Keys
      ensures forall x :: x in dist ==> dist[x] == if x == start then Fin(0.0) else Inf
      ensures Q == multiset{Entry(0.0, start)}
      ensures prev == old(prev) && order == old(order)
    {
      var pending := graph.Keys;
      while pending != {}
        invariant pending <= graph.Keys
        invariant dist.Keys == graph.Keys - pending
        invariant forall x :: x in dist ==> dist[x] == Inf
        invariant prev == old(prev) && order == old(order)
        decreases pending
      {
        var id :| id in pending;
        dist := dist[id := Inf];
        pending := pending - {id};
      }
      dist := dist[start := Fin(0.0)];
      Q := multiset{Entry(0.0, start)};
    }

    /**
     * One step of the inner loop: read `m_Dist[v]` (inserting 0 for an
     * absent id) and, when `alt < m_Dist[v]`, lower it, record `u` as the
     * predecessor and push `(alt, v)`; the new state is `RelaxEntry`'s.
     */
    method Relax(u: Id, j: nat, Q: multiset<Entry>, ghost count: nat)
      returns (Q': multiset<Entry>, ghost count': nat)
      requires u in dist && j < |Adj(graph, u)|
      modifies this
      ensures Relaxation(dist, prev, Q', order, count')
              == RelaxEntry(u, Adj(graph, u)[j], Relaxation(old(dist), old(prev), Q, old(order), count))
    {
      var nb := Adj(graph, u)[j];
      var v := nb.id;
      var alt := Plus(dist[u], nb.weight);
      count', Q' := count, Q;
      if v !in dist {
        dist := dist[v := Fin(0.0)];
        order := order[v := count];
        count' := count + 1;
      }
      if Below(alt, dist[v]) {
        dist := dist[v := alt];
        prev := prev[v := u];
        Q' := Q + multiset{Entry(alt.d, v)};
      }
    }

    /**
     * `dijkstra()`: pop a least-cost entry (stale ones included), relax every
     * entry of the popped node's list, until the queue is empty.
     */
    method Dijkstra()
      requires start in graph && NonNegative(graph)
      requires dist == map[] && prev == map[] && order == map[]
      modifies this
      ensures Valid()
      ensures ShortestDistances(graph, start, dist)
      ensures start !in prev && dist[start] == Fin(0.0)
      ensures dist.Keys <= Universe(graph)
      ensures Closed(graph) ==> dist.Keys == graph.Keys
    {
      var Q := Initialise();
      ghost var count: nat := 0;
      ghost var lo: real := 0.0;
      OuterInit(graph, start, dist, Q);
      while Q != multiset{}
        invariant Outer(graph, start, dist, prev, Q, order, count, lo)
        decreases |Universe(graph) - order.Keys|, |Q|
      {
        ghost var settled := order.Keys;
        ghost var top;
        Q, count, lo, top := Step(Q, count, lo);
        SettleShrinks(Universe(graph), settled, order.Keys);
      }
      FinishDone(graph, start, dist, prev, order, count, lo);
      DistancesAreShortest(graph, start, dist, prev, order);
      KeysWithin(graph, start, dist);
    }

    /**
     * One round of the main loop: pop a least-cost entry, settle its node if
     * it is not settled yet, and relax the node's entries. A stale entry (its
     * node already settled) changes nothing but the queue.
     */
    method Step(Q: multiset<Entry>, ghost count: nat, ghost lo: real)
      returns (Q': multiset<Entry>, ghost count': nat, ghost lo': real, ghost top: Entry)
      requires Outer(graph, start, dist, prev, Q, order, count, lo) && Q != multiset{}
      modifies this
      ensures top in Q && forall f :: f in Q ==> top.cost <= f.cost
      ensures top.id in order && Relaxed(graph, dist, top.id)
      ensures Lowered(graph, top.id, old(dist), old(prev), Q - multiset{top}, dist, prev, Q')
      ensures Outer(graph, start, dist, prev, Q', order, count', lo')
      ensures old(order).Keys <= order.Keys
      ensures order.Keys == old(order).Keys ==> |Q'| < |Q|
    {
      MinExists(Q);
      var e :| e in Q && forall f :: f in Q ==> e.cost <= f.cost;
      top := e;
      var u := e.id;
      ghost var settling := u !in order;
      Q' := Q - multiset{e};
      lo' := e.cost;
      if settling {
        order := order[u := count];
        count' := count + 1;
        PopSettle(graph, start, dist, prev, Q, old(order), count, lo, e, Q', order);
      } else {
        PopStale(graph, start, dist, prev, Q, order, count, lo, e, Q');
        count' := count;
      }
      assert dist == old(dist) && prev == old(prev) && Q' == Q - multiset{top};
      ghost var r := Relaxation(dist, prev, Q', order, count');
      Q', count' := RelaxAll(u, Q', count');
      RelaxAllInner(graph, start, lo', u, r, Relaxation(dist, prev, Q', order, count'));
    }

    /**
     * The inner loop of `dijkstra()`: relax every entry of `u`'s list in
     * order, leaving the state `RelaxFrom` gives. Distances only fall, each
     * with `u` as the new predecessor and a matching queue entry; for a node
     * relaxed in an earlier round nothing changes.
     */
    method RelaxAll(u: Id, Q: multiset<Entry>, ghost count: nat)
      returns (Q': multiset<Entry>, ghost count': nat)
      requires NonNegative(graph) && u in dist && dist[u].Fin? && DistancesNonNegative(dist)
      modifies this
      ensures Relaxation(dist, prev, Q', order, count')
              == RelaxFrom(graph, u, 0, Relaxation(old(dist), old(prev), Q, old(order), count))
      ensures Lowered(graph, u, old(dist), old(prev), Q, dist, prev, Q')
      ensures old(order).Keys <= order.Keys
      ensures Relaxed(graph, old(dist), u) ==>
                dist == old(dist) && prev == old(prev) && order == old(order) && Q' == Q && count' == count
    {
      var neighbours := Adj(graph, u);
      Q', count' := Q, count;
      ghost var r0 := Relaxation(dist, prev, Q, order, count);
      for j := 0 to |neighbours|
        invariant u in dist
        invariant RelaxFrom(graph, u, j, Relaxation(dist, prev, Q', order, count')) == RelaxFrom(graph, u, 0, r0)
      {
        Q', count' := Relax(u, j, Q', count');
      }
      LoweredNothing(graph, u, r0.dist, r0.prev, r0.queue);
      RelaxFromLowered(graph, u, 0, r0, r0, Relaxation(dist, prev, Q', order, count'));
      if Relaxed(graph, r0.dist, u) {
        RelaxFromSettled(graph, u, 0, r0);
      }
    }

    /**
     * `GetPath`: push ids from the end back along `m_Prev` until the start
     * (or an empty id), then reverse.
     */
    method GetPath() returns (r: Result<seq<Id>, PathError>)
      requires Valid()
      ensures r == PathOf(Trace(prev, order, start, end))
    {
      var path: seq<Id> := [];
      var at := end;
      ghost var whole := Trace(prev, order, start, end);
      PrefixedNothing(whole);
      while at != ""
        invariant Ranked(prev, order)
        invariant whole == Prefixed(path, Trace(prev, order, start, at))
        decreases if at in prev then order[at] + 1 else 0
      {
        path := path + [at];
        if at == start {
          assert whole == Ok(path);
          break;
        }
        if at !in prev {
          return Err(NoPredecessor(at));
        }
        TraceStep(prev, order, start, at, path[..|path| - 1]);
        assert path[..|path| - 1] + [at] == path;
        at := prev[at];
      }
      assert whole == Ok(path) by {
        if at == "" { assert path + [] == path; }
      }
      return Ok(Reversed(path));
    }
  }

  /** The constructor's start check: a missing start throws and Dijkstra never runs. */
  method Create(g: map<Id, Node>, s: Id, e: Id) returns (r: Result<Pathfinder, PathError>)
    requires s in g ==> NonNegative(g)
    ensures r.Err? <==> s !in g
    ensures r.Err? ==> r.error == StartNodeNotFound
    ensures r.Ok? ==> fresh(r.value) && r.value.graph == g && r.value.start == s
                      && r.value.end == e && r.value.Valid()
  {
    if s !in g {
      return Err(StartNodeNotFound);
    }
    var p := new Pathfinder(g, s, e);
    return Ok(p);
  }
}
