/**
 * The graph store of src/graph.hpp: a node table and an edge list, already
 * parsed from the dataset, become an id-keyed adjacency map in which every
 * edge is listed at both of its endpoints.
 */
module Graphs {
  import opened Results

  type Id = string

  /** One entry of a node's neighbour list: the neighbour's id and the edge weight. */
  datatype Neighbour = Neighbour(id: Id, weight: real)

  /** A graph node: its coordinate and its neighbour list, in insertion order. */
  datatype Node = Node(lat: real, lon: real, neighbours: seq<Neighbour>)

  /** A row of the dataset's node table. */
  datatype NodeRow = NodeRow(id: Id, lat: real, lon: real)

  /** A row of the dataset's edge list. */
  datatype EdgeRow = EdgeRow(from: Id, to: Id, weight: real)

  /** The parsed dataset: the node table in iteration order and the edge list. */
  datatype Dataset = Dataset(nodes: seq<NodeRow>, edges: seq<EdgeRow>)

  datatype LoadError = OpenFailed

  /** The node `operator[]` inserts for a missing key: zero coordinates, no neighbours. */
  const Blank := Node(0.0, 0.0, [])

  /** `m[id]` read through `operator[]`. */
  function At(m: map<Id, Node>, id: Id): Node {
    if id in m then m[id] else Blank
  }

  // ---------------------------------------------------------------------
  // Specification of the two construction passes
  // ---------------------------------------------------------------------

  /** One pass of the node loop: set the row's coordinate, keep the neighbour list. */
  function PlaceNode(m: map<Id, Node>, row: NodeRow): map<Id, Node> {
    m[row.id := At(m, row.id).(lat := row.lat, lon := row.lon)]
  }

  /** The node loop over `rows`, in order. */
  function PlaceNodes(m: map<Id, Node>, rows: seq<NodeRow>): map<Id, Node>
    decreases |rows|
  {
    if rows == [] then m
    else PlaceNode(PlaceNodes(m, rows[..|rows| - 1]), rows[|rows| - 1])
  }

  /** `m[id].neighbours.emplace_back(nb)`. */
  function Append(m: map<Id, Node>, id: Id, nb: Neighbour): map<Id, Node> {
    m[id := At(m, id).(neighbours := At(m, id).neighbours + [nb])]
  }

  /** One pass of the edge loop: list the edge at `from`, then at `to`. */
  function PlaceEdge(m: map<Id, Node>, e: EdgeRow): map<Id, Node> {
    Append(Append(m, e.from, Neighbour(e.to, e.weight)), e.to, Neighbour(e.from, e.weight))
  }

  /** The edge loop over `edges`, in order. */
  function PlaceEdges(m: map<Id, Node>, edges: seq<EdgeRow>): map<Id, Node>
    decreases |edges|
  {
    if edges == [] then m
    else PlaceEdge(PlaceEdges(m, edges[..|edges| - 1]), edges[|edges| - 1])
  }

  /** The adjacency map the constructor builds from a dataset. */
  function Build(ds: Dataset): map<Id, Node> {
    PlaceEdges(PlaceNodes(map[], ds.nodes), ds.edges)
  }

  // ---------------------------------------------------------------------
  // Reference definitions the construction is proved against
  // ---------------------------------------------------------------------

  /** The entries one edge gives to `x`'s list: one per endpoint equal to `x`. */
  function Contribution(e: EdgeRow, x: Id): seq<Neighbour> {
    (if e.from == x then [Neighbour(e.to, e.weight)] else [])
    + (if e.to == x then [Neighbour(e.from, e.weight)] else [])
  }

  /** The entries the whole edge list gives to `x`'s list, in edge order. */
  function Incident(edges: seq<EdgeRow>, x: Id): seq<Neighbour>
    decreases |edges|
  {
    if edges == [] then []
    else Incident(edges[..|edges| - 1], x) + Contribution(edges[|edges| - 1], x)
  }

  /** Edge `k` lists `nb` at node `x`. */
  predicate Lists(edges: seq<EdgeRow>, k: int, x: Id, nb: Neighbour)
    requires 0 <= k < |edges|
  {
    (edges[k].from == x && nb == Neighbour(edges[k].to, edges[k].weight))
    || (edges[k].to == x && nb == Neighbour(edges[k].from, edges[k].weight))
  }

  /** Some edge names `x` as one of its endpoints. */
  predicate Touches(edges: seq<EdgeRow>, x: Id) {
    exists k :: 0 <= k < |edges| && (edges[k].from == x || edges[k].to == x)
  }

  /** Some row of the node table carries `id`. */
  predicate Listed(rows: seq<NodeRow>, id: Id) {
    exists k :: 0 <= k < |rows| && rows[k].id == id
  }

  /** Row `k` is the last row of the node table that carries its id. */
  predicate LastRow(rows: seq<NodeRow>, k: int) {
    0 <= k < |rows| && forall j :: k < j < |rows| ==> rows[j].id != rows[k].id
  }

  /** The edges naming `x` as `from`, and as `to`, by index. */
  function FromIndices(edges: seq<EdgeRow>, x: Id): set<int> {
    set k | 0 <= k < |edges| && edges[k].from == x
  }

  function ToIndices(edges: seq<EdgeRow>, x: Id): set<int> {
    set k | 0 <= k < |edges| && edges[k].to == x
  }

  /** Every neighbour id is itself a key of the map. */
  predicate Closed(g: map<Id, Node>) {
    forall x, k :: x in g && 0 <= k < |g[x].neighbours| ==> g[x].neighbours[k].id in g
  }

  /** No stored edge weight is negative. */
  predicate NonNegative(g: map<Id, Node>) {
    forall x, k :: x in g && 0 <= k < |g[x].neighbours| ==> g[x].neighbours[k].weight >= 0.0
  }

  // ---------------------------------------------------------------------
  // Properties of the construction
  // ---------------------------------------------------------------------

  /** The node table lists `id` when its prefix does or its last row does. */
  lemma ListedSnoc(rows: seq<NodeRow>, id: Id)
    requires rows != []
    ensures Listed(rows, id) <==> Listed(rows[..|rows| - 1], id) || rows[|rows| - 1].id == id
  {
    var init := rows[..|rows| - 1];
    if Listed(rows, id) {
      var k :| 0 <= k < |rows| && rows[k].id == id;
      if k < |init| { assert init[k].id == id; }
    }
    if Listed(init, id) {
      var k :| 0 <= k < |init| && init[k].id == id;
      assert rows[k].id == id;
    }
  }

  /**
   * The node pass, seen from one id: it is a key afterwards when it was one
   * or the table lists it; the last row carrying it decides its coordinate;
   * its neighbour list does not change; an id the table does not list keeps
   * its node.
   */
  lemma {:induction false} PlaceNodesEffect(m: map<Id, Node>, rows: seq<NodeRow>, id: Id)
    ensures id in PlaceNodes(m, rows) <==> id in m || Listed(rows, id)
    ensures At(PlaceNodes(m, rows), id).neighbours == At(m, id).neighbours
    ensures forall k :: LastRow(rows, k) && rows[k].id == id ==>
              At(PlaceNodes(m, rows), id).lat == rows[k].lat
              && At(PlaceNodes(m, rows), id).lon == rows[k].lon
    ensures !Listed(rows, id) ==> At(PlaceNodes(m, rows), id) == At(m, id)
    decreases |rows|
  {
    if rows != [] {
      var init, last := rows[..|rows| - 1], rows[|rows| - 1];
      PlaceNodesEffect(m, init, id);
      ListedSnoc(rows, id);
      forall k | LastRow(rows, k) && rows[k].id == id
        ensures At(PlaceNodes(m, rows), id).lat == rows[k].lat
        ensures At(PlaceNodes(m, rows), id).lon == rows[k].lon
      {
        if k < |init| {
          assert LastRow(init, k);
          assert init[k] == rows[k];
        }
      }
    }
  }

  /** One edge: its endpoints become keys, coordinates stay, lists gain `Contribution`. */
  lemma PlaceEdgeStep(m: map<Id, Node>, e: EdgeRow, x: Id)
    ensures x in PlaceEdge(m, e) <==> x in m || e.from == x || e.to == x
    ensures At(PlaceEdge(m, e), x).lat == At(m, x).lat
    ensures At(PlaceEdge(m, e), x).lon == At(m, x).lon
    ensures At(PlaceEdge(m, e), x).neighbours == At(m, x).neighbours + Contribution(e, x)
  {
    var m1 := Append(m, e.from, Neighbour(e.to, e.weight));
    assert At(m1, x).neighbours
        == At(m, x).neighbours + (if e.from == x then [Neighbour(e.to, e.weight)] else []);
  }

  /** The edge list touches `x` when its prefix does or its last edge does. */
  lemma TouchesSnoc(edges: seq<EdgeRow>, x: Id)
    requires edges != []
    ensures Touches(edges, x) <==>
            Touches(edges[..|edges| - 1], x) || edges[|edges| - 1].from == x || edges[|edges| - 1].to == x
  {
    var init := edges[..|edges| - 1];
    if Touches(edges, x) {
      var k :| 0 <= k < |edges| && (edges[k].from == x || edges[k].to == x);
      if k < |init| { assert init[k] == edges[k]; }
    }
    if Touches(init, x) {
      var k :| 0 <= k < |init| && (init[k].from == x || init[k].to == x);
      assert edges[k] == init[k];
    }
  }

  /**
   * The edge pass: every endpoint becomes a key; no coordinate changes; each
   * node's list grows by exactly the entries `Incident` gives it, appended
   * in edge order.
   */
  lemma {:induction false} PlaceEdgesEffect(m: map<Id, Node>, edges: seq<EdgeRow>, x: Id)
    ensures x in PlaceEdges(m, edges) <==> x in m || Touches(edges, x)
    ensures At(PlaceEdges(m, edges), x).lat == At(m, x).lat
    ensures At(PlaceEdges(m, edges), x).lon == At(m, x).lon
    ensures At(PlaceEdges(m, edges), x).neighbours == At(m, x).neighbours + Incident(edges, x)
    decreases |edges|
  {
    if edges != [] {
      var init, e := edges[..|edges| - 1], edges[|edges| - 1];
      PlaceEdgesEffect(m, init, x);
      PlaceEdgeStep(PlaceEdges(m, init), e, x);
      TouchesSnoc(edges, x);
      assert At(m, x).neighbours + Incident(init, x) + Contribution(e, x)
          == At(m, x).neighbours + Incident(edges, x);
    }
  }

  /** Every entry of `Incident(edges, x)` comes from an edge that lists it at `x`. */
  lemma {:induction false} IncidentHasEdge(edges: seq<EdgeRow>, x: Id, nb: Neighbour)
    requires nb in Incident(edges, x)
    ensures exists k :: 0 <= k < |edges| && Lists(edges, k, x, nb)
    decreases |edges|
  {
    var n := |edges| - 1;
    var init, e := edges[..n], edges[n];
    assert Incident(edges, x) == Incident(init, x) + Contribution(e, x);
    if nb in Incident(init, x) {
      IncidentHasEdge(init, x, nb);
      var k :| 0 <= k < |init| && Lists(init, k, x, nb);
      assert init[k] == edges[k];
      assert Lists(edges, k, x, nb);
    } else {
      assert nb in Contribution(e, x);
      assert Lists(edges, n, x, nb);
    }
  }

  /** An edge that lists `nb` at `x` puts it into `Incident(edges, x)`. */
  lemma {:induction false} EdgeInIncident(edges: seq<EdgeRow>, x: Id, nb: Neighbour, k: int)
    requires 0 <= k < |edges| && Lists(edges, k, x, nb)
    ensures nb in Incident(edges, x)
    decreases |edges|
  {
    var n := |edges| - 1;
    var init, e := edges[..n], edges[n];
    assert Incident(edges, x) == Incident(init, x) + Contribution(e, x);
    if k < n {
      assert init[k] == edges[k];
      EdgeInIncident(init, x, nb, k);
    } else {
      assert nb in Contribution(e, x);
    }
  }

  /** An entry is in `Incident(edges, x)` exactly when some edge lists it at `x`. */
  lemma IncidentMembers(edges: seq<EdgeRow>, x: Id, nb: Neighbour)
    ensures nb in Incident(edges, x) <==> exists k :: 0 <= k < |edges| && Lists(edges, k, x, nb)
  {
    if nb in Incident(edges, x) {
      IncidentHasEdge(edges, x, nb);
    }
    if exists k :: 0 <= k < |edges| && Lists(edges, k, x, nb) {
      var k :| 0 <= k < |edges| && Lists(edges, k, x, nb);
      EdgeInIncident(edges, x, nb, k);
    }
  }

  /**
   * A node's list length is the number of edges naming it as `from` plus the
   * number naming it as `to`; a self-loop therefore counts twice.
   */
  lemma {:induction false} IncidentLength(edges: seq<EdgeRow>, x: Id)
    ensures |Incident(edges, x)| == |FromIndices(edges, x)| + |ToIndices(edges, x)|
    decreases |edges|
  {
    if edges != [] {
      var n := |edges| - 1;
      var init, e := edges[..n], edges[n];
      IncidentLength(init, x);
      FromIndicesSnoc(edges, x);
      ToIndicesSnoc(edges, x);
    }
  }

  /** Extending the edge list by one edge adds its index to the sets it belongs to. */
  lemma FromIndicesSnoc(edges: seq<EdgeRow>, x: Id)
    requires edges != []
    ensures |FromIndices(edges, x)|
            == |FromIndices(edges[..|edges| - 1], x)| + (if edges[|edges| - 1].from == x then 1 else 0)
  {
    var n := |edges| - 1;
    var init := edges[..n];
    var f, f0 := FromIndices(edges, x), FromIndices(init, x);
    forall i ensures i in f <==> i in f0 || (i == n && edges[n].from == x) {
      if 0 <= i < n { assert init[i] == edges[i]; }
    }
    assert n !in f0;
    if edges[n].from == x { assert f == f0 + {n}; } else { assert f == f0; }
  }

  lemma ToIndicesSnoc(edges: seq<EdgeRow>, x: Id)
    requires edges != []
    ensures |ToIndices(edges, x)|
            == |ToIndices(edges[..|edges| - 1], x)| + (if edges[|edges| - 1].to == x then 1 else 0)
  {
    var n := |edges| - 1;
    var init := edges[..n];
    var t, t0 := ToIndices(edges, x), ToIndices(init, x);
    forall i ensures i in t <==> i in t0 || (i == n && edges[n].to == x) {
      if 0 <= i < n { assert init[i] == edges[i]; }
    }
    assert n !in t0;
    if edges[n].to == x { assert t == t0 + {n}; } else { assert t == t0; }
  }

  /** One edge gives `(y, w)` to `x` as often as it gives `(x, w)` to `y`. */
  lemma ContributionSymmetric(e: EdgeRow, x: Id, y: Id, w: real)
    ensures multiset(Contribution(e, x))[Neighbour(y, w)] == multiset(Contribution(e, y))[Neighbour(x, w)]
  {
  }

  /**
   * Undirectedness, with multiplicity: `x` lists `(y, w)` exactly as often as
   * `y` lists `(x, w)`.
   */
  lemma {:induction false} IncidentSymmetric(edges: seq<EdgeRow>, x: Id, y: Id, w: real)
    ensures multiset(Incident(edges, x))[Neighbour(y, w)]
            == multiset(Incident(edges, y))[Neighbour(x, w)]
    decreases |edges|
  {
    if edges != [] {
      var init, e := edges[..|edges| - 1], edges[|edges| - 1];
      IncidentSymmetric(init, x, y, w);
      assert Incident(edges, x) == Incident(init, x) + Contribution(e, x);
      assert Incident(edges, y) == Incident(init, y) + Contribution(e, y);
      ContributionSymmetric(e, x, y, w);
    }
  }

  /**
   * What the constructor builds: the keys are the table's ids and the edge
   * endpoints; a node's list is exactly its incident entries in edge order;
   * a table id has its last row's coordinate and an id met only in the edge
   * list has the blank coordinate (0, 0).
   */
  lemma BuildShape(ds: Dataset)
    ensures forall x :: x in Build(ds) <==> Listed(ds.nodes, x) || Touches(ds.edges, x)
    ensures forall x :: x in Build(ds) ==> Build(ds)[x].neighbours == Incident(ds.edges, x)
    ensures forall k :: LastRow(ds.nodes, k) ==>
              At(Build(ds), ds.nodes[k].id).lat == ds.nodes[k].lat
              && At(Build(ds), ds.nodes[k].id).lon == ds.nodes[k].lon
    ensures forall x :: x in Build(ds) && !Listed(ds.nodes, x) ==>
              Build(ds)[x].lat == 0.0 && Build(ds)[x].lon == 0.0
  {
    var afterNodes := PlaceNodes(map[], ds.nodes);
    var g := Build(ds);
    forall x
      ensures x in g <==> Listed(ds.nodes, x) || Touches(ds.edges, x)
      ensures x in g ==> g[x].neighbours == Incident(ds.edges, x)
      ensures x in g && !Listed(ds.nodes, x) ==> g[x].lat == 0.0 && g[x].lon == 0.0
      ensures forall k :: LastRow(ds.nodes, k) && ds.nodes[k].id == x ==>
                At(g, x).lat == ds.nodes[k].lat && At(g, x).lon == ds.nodes[k].lon
    {
      PlaceNodesEffect(map[], ds.nodes, x);
      PlaceEdgesEffect(afterNodes, ds.edges, x);
    }
  }

  /** Every neighbour id of the built graph is itself a key. */
  lemma BuildClosed(ds: Dataset)
    ensures Closed(Build(ds))
  {
    var g := Build(ds);
    BuildShape(ds);
    forall x, k | x in g && 0 <= k < |g[x].neighbours| ensures g[x].neighbours[k].id in g {
      var nb := g[x].neighbours[k];
      IncidentMembers(ds.edges, x, nb);
      var j :| 0 <= j < |ds.edges| && Lists(ds.edges, j, x, nb);
      assert Touches(ds.edges, nb.id);
    }
  }

  /** The built graph is undirected: `(y, w)` at `x` as often as `(x, w)` at `y`. */
  lemma BuildSymmetric(ds: Dataset, x: Id, y: Id, w: real)
    ensures multiset(At(Build(ds), x).neighbours)[Neighbour(y, w)]
            == multiset(At(Build(ds), y).neighbours)[Neighbour(x, w)]
  {
    PlaceNodesEffect(map[], ds.nodes, x);
    PlaceNodesEffect(map[], ds.nodes, y);
    PlaceEdgesEffect(PlaceNodes(map[], ds.nodes), ds.edges, x);
    PlaceEdgesEffect(PlaceNodes(map[], ds.nodes), ds.edges, y);
    IncidentSymmetric(ds.edges, x, y, w);
  }

  /** Weights are stored exactly as given, so non-negative input yields a non-negative graph. */
  lemma BuildNonNegative(ds: Dataset)
    requires forall k :: 0 <= k < |ds.edges| ==> ds.edges[k].weight >= 0.0
    ensures NonNegative(Build(ds))
  {
    var g := Build(ds);
    BuildShape(ds);
    forall x, k | x in g && 0 <= k < |g[x].neighbours| ensures g[x].neighbours[k].weight >= 0.0 {
      IncidentMembers(ds.edges, x, g[x].neighbours[k]);
    }
  }

  // ---------------------------------------------------------------------
  // The Graph class
  // ---------------------------------------------------------------------

  /** The `Graph` class: owns the adjacency map and fills it in place. */
  class Graph {
    var nodes: map<Id, Node>
    /** The dataset the map was built from. */
    ghost const data: Dataset

    ghost predicate Valid()
      reads this
    {
      nodes == Build(data)
    }

    /** Runs the node loop, then the edge loop, over the parsed dataset. */
    constructor (ds: Dataset)
      ensures data == ds && nodes == Build(ds)
      ensures Valid() && Closed(nodes)
    {
      nodes, data := map[], ds;
      new;
      for i := 0 to |ds.nodes|
        invariant nodes == PlaceNodes(map[], ds.nodes[..i])
      {
        var row := ds.nodes[i];
        assert ds.nodes[..i + 1][..i] == ds.nodes[..i];
        nodes := nodes[row.id := At(nodes, row.id).(lat := row.lat)];
        nodes := nodes[row.id := nodes[row.id].(lon := row.lon)];
      }
      assert ds.nodes[..|ds.nodes|] == ds.nodes;
      ghost var afterNodes := nodes;
      for i := 0 to |ds.edges|
        invariant nodes == PlaceEdges(afterNodes, ds.edges[..i])
      {
        var e := ds.edges[i];
        assert ds.edges[..i + 1][..i] == ds.edges[..i];
        nodes := nodes[e.from := At(nodes, e.from).(neighbours := At(nodes, e.from).neighbours + [Neighbour(e.to, e.weight)])];
        nodes := nodes[e.to := At(nodes, e.to).(neighbours := At(nodes, e.to).neighbours + [Neighbour(e.from, e.weight)])];
      }
      assert ds.edges[..|ds.edges|] == ds.edges;
      BuildClosed(ds);
    }

    /** `getGraph`: hands out (a copy of) the adjacency map built from the dataset. */
    method GetGraph() returns (g: map<Id, Node>)
      requires Valid()
      ensures g == nodes && g == Build(data)
      ensures Closed(g)
    {
      g := nodes;
      BuildClosed(data);
    }
  }

  /**
   * Opening the dataset: `None` stands for a file that could not be opened,
   * which the source reports by throwing before anything is built.
   */
  method Load(source: Option<Dataset>) returns (r: Result<Graph, LoadError>)
    ensures r.Err? <==> source.None?
    ensures r.Ok? ==> fresh(r.value) && r.value.data == source.value && r.value.Valid()
  {
    if source.None? {
      return Err(OpenFailed);
    }
    var g := new Graph(source.value);
    return Ok(g);
  }
}
