/**
 * The circular test track of the loop scenario (cistar_dev/scenarios/loop/gen.py):
 * a ring cut into four quarter-circle edges, bottom, right, top and left,
 * joined at four nodes at the cardinal points, one shared lane type, a route
 * per edge that goes once round the ring, and one rerouter per edge.
 *
 * The constant pi enters only through the radius `length / pi`; it is a
 * positive parameter here and its value plays no part in any property.
 */
module LoopGen {
  import opened Wrappers

  /** The network parameters the generator reads. */
  datatype NetParams = NetParams(length: real, lanes: int, speedLimit: real, resolution: int)

  /** The four quadrants; each names a node, the edge leaving it and the route starting on that edge. */
  datatype Segment = Bottom | Right | Top | Left

  /** The identifier the simulator sees for a segment. */
  function Name(s: Segment): string
  {
    match s
    case Bottom => "bottom"
    case Right => "right"
    case Top => "top"
    case Left => "left"
  }

  /** A junction and its coordinates. */
  datatype Node = Node(id: Segment, x: real, y: real)

  /** A road segment: its id, lane type, end nodes and length. */
  datatype Edge = Edge(id: Segment, edgeType: string, from: Segment, to: Segment, length: real)

  /** A lane type: lane count and speed limit. */
  datatype EdgeType = EdgeType(id: string, numLanes: int, speed: real)

  /** A rerouter sends the vehicles on segment `from` onto the route named `route`. */
  datatype Rerouter = Rerouter(name: string, from: Segment, route: string)

  /** The four segments, in the order the generator lists them. */
  const Segments: seq<Segment> := [Bottom, Right, Top, Left]

  /** The one lane type every edge uses. */
  const TypeId: string := "edgeType"

  /** The radius of the ring. */
  function Radius(length: real, pi: real): (r: real)
    requires pi > 0.0
    ensures r * pi == length
  {
    length / pi
  }

  function EdgeIds(edges: seq<Edge>): (ids: seq<Segment>)
    ensures |ids| == |edges|
    ensures forall i :: 0 <= i < |edges| ==> ids[i] == edges[i].id
  {
    seq(|edges|, i requires 0 <= i < |edges| => edges[i].id)
  }

  // ---------------------------------------------------------------------------
  // Nodes

  /**
   * The four junctions: the first at the bottom of the circle, each next one a
   * quarter turn counter-clockwise from the one before, all on the circle.
   */
  function SpecifyNodes(p: NetParams, pi: real): (nodes: seq<Node>)
    requires pi > 0.0
    ensures |nodes| == 4 && forall i :: 0 <= i < 4 ==> nodes[i].id == Segments[i]
    ensures var r := Radius(p.length, pi);
      nodes[0].x == 0.0 && nodes[0].y == -r &&
      (forall i :: 0 <= i < 3 ==> nodes[i + 1].x == -nodes[i].y && nodes[i + 1].y == nodes[i].x) &&
      nodes[0].x == -nodes[3].y && nodes[0].y == nodes[3].x &&
      (forall i :: 0 <= i < 4 ==> nodes[i].x * nodes[i].x + nodes[i].y * nodes[i].y == r * r)
  {
    var r := Radius(p.length, pi);
    [Node(Bottom, 0.0, -r),
     Node(Right, r, 0.0),
     Node(Top, 0.0, r),
     Node(Left, -r, 0.0)]
  }

  // ---------------------------------------------------------------------------
  // Edges

  /** The four quarter-circle edges (their polyline shapes are not modelled). */
  function SpecifyEdges(p: NetParams): (edges: seq<Edge>)
    ensures EdgeIds(edges) == Segments
    ensures forall i :: 0 <= i < |edges| ==>
      edges[i].from == edges[i].id && edges[i].edgeType == TypeId && edges[i].length * 4.0 == p.length
    ensures (forall i :: 0 <= i < 3 ==> edges[i].to == edges[i + 1].from) && edges[3].to == edges[0].from
  {
    var edgelen := p.length / 4.0;
    [Edge(Bottom, TypeId, Bottom, Right, edgelen),
     Edge(Right, TypeId, Right, Top, edgelen),
     Edge(Top, TypeId, Top, Left, edgelen),
     Edge(Left, TypeId, Left, Bottom, edgelen)]
  }

  function TotalLength(edges: seq<Edge>): real
  {
    if edges == [] then 0.0 else edges[0].length + TotalLength(edges[1..])
  }

  /** The four edge lengths add up to the circumference. */
  lemma EdgeLengthsSumToLength(p: NetParams)
    ensures TotalLength(SpecifyEdges(p)) == p.length
  {
    var e := SpecifyEdges(p);
    assert e[3..][1..] == [];
    assert e[2..][1..] == e[3..];
    assert e[1..][1..] == e[2..];
    assert TotalLength(e[3..]) == e[3].length;
    assert TotalLength(e[2..]) == e[2].length + e[3].length;
    assert TotalLength(e[1..]) == e[1].length + e[2].length + e[3].length;
  }

  /** Every end of every edge is one of the nodes. */
  lemma EdgesJoinNodes(p: NetParams, pi: real)
    requires pi > 0.0
    ensures var nodes := SpecifyNodes(p, pi); var edges := SpecifyEdges(p);
      forall i :: 0 <= i < |edges| ==>
        (exists j :: 0 <= j < |nodes| && nodes[j].id == edges[i].from) &&
        (exists j :: 0 <= j < |nodes| && nodes[j].id == edges[i].to)
  {
    var nodes := SpecifyNodes(p, pi);
    var edges := SpecifyEdges(p);
    forall i | 0 <= i < |edges|
      ensures exists j :: 0 <= j < |nodes| && nodes[j].id == edges[i].from
      ensures exists j :: 0 <= j < |nodes| && nodes[j].id == edges[i].to
    {
      assert nodes[Index(edges[i].from)].id == edges[i].from;
      assert nodes[Index(edges[i].to)].id == edges[i].to;
    }
  }

  /** The segment the edge with the given id leads to, looked up in list order. */
  function Next(edges: seq<Edge>, id: Segment): (n: Option<Segment>)
    ensures n.Some? <==> id in EdgeIds(edges)
  {
    if edges == [] then None
    else
      assert EdgeIds(edges) == [edges[0].id] + EdgeIds(edges[1..]);
      if edges[0].id == id then Some(edges[0].to) else Next(edges[1..], id)
  }

  /** The lookup finds the first edge with the given id. */
  lemma {:induction false} NextAt(edges: seq<Edge>, k: nat)
    requires k < |edges|
    requires forall j :: 0 <= j < k ==> edges[j].id != edges[k].id
    ensures Next(edges, edges[k].id) == Some(edges[k].to)
  {
    if k > 0 {
      NextAt(edges[1..], k - 1);
    }
  }

  /** The segment a quarter turn further counter-clockwise. */
  function Following(s: Segment): Segment
  {
    match s
    case Bottom => Right
    case Right => Top
    case Top => Left
    case Left => Bottom
  }

  /** Following the edges from any segment leads to the next segment round the ring. */
  lemma NextSegment(p: NetParams, s: Segment)
    ensures Next(SpecifyEdges(p), s) == Some(Following(s))
  {
    var e := SpecifyEdges(p);
    match s
    case Bottom => NextAt(e, 0);
    case Right => NextAt(e, 1);
    case Top => NextAt(e, 2);
    case Left => NextAt(e, 3);
  }

  /** The walk of `n` segments along the edges, starting from segment `start`. */
  function Walk(edges: seq<Edge>, start: Segment, n: nat): seq<Segment>
    decreases n
  {
    if n == 0 then []
    else match Next(edges, start)
      case None => [start]
      case Some(t) => [start] + Walk(edges, t, n - 1)
  }

  // ---------------------------------------------------------------------------
  // Lane type

  /** The single lane type, carrying the network's lane count and speed limit. */
  function SpecifyTypes(p: NetParams): (types: seq<EdgeType>)
    ensures |types| == 1
    ensures types[0].id == TypeId && types[0].numLanes == p.lanes && types[0].speed == p.speedLimit
  {
    [EdgeType(TypeId, p.lanes, p.speedLimit)]
  }

  /** Every edge refers to a declared lane type. */
  lemma EdgeTypesDeclared(p: NetParams)
    ensures var types := SpecifyTypes(p); var edges := SpecifyEdges(p);
      forall i :: 0 <= i < |edges| ==> exists t :: t in types && t.id == edges[i].edgeType
  {
    var t := SpecifyTypes(p)[0];
    assert t in SpecifyTypes(p);
  }

  // ---------------------------------------------------------------------------
  // Routes

  /** The route table: for each segment, the whole ring starting at it. */
  function SpecifyRoutes(p: NetParams): (rts: map<Segment, seq<Segment>>)
    ensures rts.Keys == {Bottom, Right, Top, Left}
    ensures forall k :: k in rts ==> |rts[k]| == 4 && rts[k][0] == k
  {
    map[Top := [Top, Left, Bottom, Right],
        Left := [Left, Bottom, Right, Top],
        Bottom := [Bottom, Right, Top, Left],
        Right := [Right, Top, Left, Bottom]]
  }

  /** `route` is `base` cut at some point and its two pieces swapped. */
  ghost predicate IsRotation(route: seq<Segment>, base: seq<Segment>)
  {
    exists k :: 0 <= k < |base| && route == base[k..] + base[..k]
  }

  /** Every segment occurs in `fs`. */
  predicate CoversRing(fs: seq<Segment>)
  {
    Bottom in fs && Right in fs && Top in fs && Left in fs
  }

  /** No segment occurs twice in `fs`. */
  predicate NoRepeats(fs: seq<Segment>)
  {
    forall i, j :: 0 <= i < j < |fs| ==> fs[i] != fs[j]
  }

  /** The route of a segment lists the ring from that segment on. */
  lemma RouteOf(p: NetParams, k: Segment)
    ensures SpecifyRoutes(p)[k] == RingFrom(k)
  {
  }

  /** The four segments in travel order, starting at `k`. */
  function RingFrom(k: Segment): seq<Segment>
  {
    [k, Following(k), Following(Following(k)), Following(Following(Following(k)))]
  }

  /** Reading the ring from any segment cuts the generator's listing at that segment. */
  lemma RingFromIsRotation(k: Segment)
    ensures RingFrom(k) == Segments[Index(k)..] + Segments[..Index(k)]
    ensures CoversRing(RingFrom(k)) && NoRepeats(RingFrom(k))
  {
  }

  /** Each route is the ring read from its own segment, so it lists every segment exactly once. */
  lemma RoutesAreRotations(p: NetParams)
    ensures forall k :: k in SpecifyRoutes(p) ==>
      IsRotation(SpecifyRoutes(p)[k], Segments) &&
      CoversRing(SpecifyRoutes(p)[k]) && NoRepeats(SpecifyRoutes(p)[k])
  {
    var rts := SpecifyRoutes(p);
    forall k | k in rts
      ensures IsRotation(rts[k], Segments) && CoversRing(rts[k]) && NoRepeats(rts[k])
    {
      RouteOf(p, k);
      RingFromIsRotation(k);
      assert 0 <= Index(k) < |Segments|;
    }
  }

  /** The position of a segment in the generator's listing. */
  function Index(s: Segment): (i: nat)
    ensures i < 4 && Segments[i] == s
  {
    match s case Bottom => 0 case Right => 1 case Top => 2 case Left => 3
  }

  /** On any edge list whose lookups follow the ring, a walk of four goes once round it. */
  lemma WalkAlongRing(edges: seq<Edge>, s: Segment)
    requires forall x :: Next(edges, x) == Some(Following(x))
    ensures Walk(edges, s, 4) == RingFrom(s)
  {
  }

  /** The walk of four segments along the generated edges from any segment goes once round the ring. */
  lemma WalkRound(p: NetParams, s: Segment)
    ensures Walk(SpecifyEdges(p), s, 4) == RingFrom(s)
  {
    forall x
      ensures Next(SpecifyEdges(p), x) == Some(Following(x))
    {
      NextSegment(p, x);
    }
    WalkAlongRing(SpecifyEdges(p), s);
  }

  /** Four quarter turns lead back to the start. */
  lemma FollowingCloses(s: Segment)
    ensures Following(Following(Following(Following(s)))) == s
  {
  }

  /**
   * Each route is the walk along the edges from its own segment, and the edge
   * of its last segment leads back to its first: the route closes the loop.
   */
  lemma RoutesFollowEdges(p: NetParams)
    ensures var rts := SpecifyRoutes(p); var edges := SpecifyEdges(p);
      forall k :: k in rts ==>
        rts[k] == Walk(edges, k, 4) &&
        Next(edges, rts[k][3]) == Some(k)
  {
    var rts := SpecifyRoutes(p);
    var edges := SpecifyEdges(p);
    forall k | k in rts
      ensures rts[k] == Walk(edges, k, 4) && Next(edges, rts[k][3]) == Some(k)
    {
      WalkRound(p, k);
      RouteOf(p, k);
      NextSegment(p, rts[k][3]);
      FollowingCloses(k);
    }
  }

  // ---------------------------------------------------------------------------
  // Rerouters

  /** The name under which the route starting at segment `key` is registered. */
  function RouteName(key: Segment): string
  {
    "route" + Name(key)
  }

  /** The segments the rerouters watch, in list order. */
  function Froms(rr: seq<Rerouter>): (fs: seq<Segment>)
    ensures |fs| == |rr|
    ensures forall i :: 0 <= i < |rr| ==> fs[i] == rr[i].from
  {
    seq(|rr|, i requires 0 <= i < |rr| => rr[i].from)
  }

  /** One rerouter per segment. */
  function SpecifyRerouters(p: NetParams): (rr: seq<Rerouter>)
    ensures |rr| == 4
    ensures CoversRing(Froms(rr)) && NoRepeats(Froms(rr))
  {
    var rr := [Rerouter("rerouterTop", Top, "routebottom"),
               Rerouter("rerouterBottom", Bottom, "routetop"),
               Rerouter("rerouterLeft", Left, "routeright"),
               Rerouter("rerouterRight", Right, "routeleft")];
    assert Froms(rr) == [Top, Bottom, Left, Right];
    rr
  }

  /** Each rerouter names the route registered for the segment opposite its own. */
  lemma RerouterRoute(p: NetParams, i: nat)
    requires i < 4
    ensures var r := SpecifyRerouters(p)[i]; r.route == RouteName(Following(Following(r.from)))
  {
  }

  /**
   * Every rerouter names the route that starts two segments further round the
   * ring (top to bottom, bottom to top, left to right, right to left), and
   * that route passes through the rerouter's own segment.
   */
  lemma ReroutersTargetOppositeRoute(p: NetParams)
    ensures var rr := SpecifyRerouters(p); var rts := SpecifyRoutes(p); var edges := SpecifyEdges(p);
      forall i :: 0 <= i < |rr| ==>
        var key := Walk(edges, rr[i].from, 4)[2];
        rr[i].route == RouteName(key) && key in rts && rr[i].from in rts[key]
  {
    var rr := SpecifyRerouters(p);
    var rts := SpecifyRoutes(p);
    var edges := SpecifyEdges(p);
    forall i | 0 <= i < |rr|
      ensures var key := Walk(edges, rr[i].from, 4)[2];
        rr[i].route == RouteName(key) && key in rts && rr[i].from in rts[key]
    {
      var from := rr[i].from;
      WalkRound(p, from);
      RouteOf(p, Following(Following(from)));
      RerouterRoute(p, i);
    }
  }
}
