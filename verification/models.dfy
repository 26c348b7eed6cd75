/** The map elements (OverpassModels.swift) and the merge of two results. `Node` and
    `Way` declare `Equatable` without a custom `==`, so they compare field by field:
    the model uses Dafny's structural equality for them, although `hash` looks at the
    id only. */
module Models {
  import opened Wrappers
  import opened Geometry
  import opened Seqs
  import opened Bounds

  /** `OverpassId`: an opaque string. */
  type Id = string

  /** A map node. */
  datatype Node = Node(id: Id, location: Point)

  /** A way: its nodes in path order, and its tags. */
  datatype Way = Way(id: Id, nodes: seq<Node>, tags: map<string, string>)

  /** A relation: its member ways and nodes, and its tags. Member roles are not kept. */
  datatype Relation = Relation(id: Id, ways: seq<Way>, nodes: seq<Node>, tags: map<string, string>)

  /** A way whose nodes are still ids. */
  datatype InterimWay = InterimWay(id: Id, references: seq<Id>, tags: map<string, string>)

  /** A relation whose members are still ids; way members carry their role. */
  datatype InterimRelation =
    InterimRelation(id: Id, wayRefs: seq<(Id, string)>, nodeRefs: seq<Id>, tags: map<string, string>)

  /** A parsed response: bounds, relations, top-level ways and the nodes no way or
      relation owns. */
  datatype OverpassResult =
    OverpassResult(bounds: Bounds, relations: seq<Relation>, ways: seq<Way>, loneNodes: seq<Node>)

  /** The ids of a list of nodes, in order. */
  function NodeIds(nodes: seq<Node>): (r: seq<Id>)
    ensures |r| == |nodes|
    ensures forall i :: 0 <= i < |nodes| ==> r[i] == nodes[i].id
  {
    if nodes == [] then [] else [nodes[0].id] + NodeIds(nodes[1..])
  }

  /** The member lookup `way.key`: the tag's value, if the way has that tag. */
  function Tag(w: Way, key: string): (r: Option<string>)
    ensures r.Some? <==> key in w.tags
    ensures r.Some? ==> r.value == w.tags[key]
  {
    Get(w.tags, key)
  }

  /** `InterimWay.elevate`: the way with the resolved nodes. */
  function ElevateWay(iw: InterimWay, nodes: seq<Node>): (r: Way)
    ensures r.id == iw.id && r.tags == iw.tags && r.nodes == nodes
  {
    Way(iw.id, nodes, iw.tags)
  }

  /** The interim form of a way: its node ids instead of its nodes. */
  function InterimOf(w: Way): InterimWay {
    InterimWay(w.id, NodeIds(w.nodes), w.tags)
  }

  /** Elevating a way's interim form with its own nodes gives the way back, and the
      interim form references exactly the ids of the nodes it is elevated with. */
  lemma ElevateInterimRoundTrip(w: Way)
    ensures ElevateWay(InterimOf(w), w.nodes) == w
    ensures |InterimOf(w).references| == |w.nodes|
    ensures forall i :: 0 <= i < |w.nodes| ==> InterimOf(w).references[i] == w.nodes[i].id
  {
  }

  /** `InterimRelation.elevate`, by analogy with the way: the relation with the
      resolved ways and nodes. */
  function ElevateRelation(ir: InterimRelation, ways: seq<Way>, nodes: seq<Node>): (r: Relation)
    ensures r.id == ir.id && r.tags == ir.tags && r.ways == ways && r.nodes == nodes
  {
    Relation(ir.id, ways, nodes, ir.tags)
  }

  /** `Way.+`: when the ways are equal, the left one's nodes followed by the right
      one's nodes it lacks; otherwise the left way. */
  function WayPlus(lhs: Way, rhs: Way): (r: Way)
    ensures r.id == lhs.id && r.tags == lhs.tags
    ensures lhs.nodes <= r.nodes
    ensures forall n :: n in r.nodes <==> n in lhs.nodes || (lhs == rhs && n in rhs.nodes)
    ensures lhs != rhs ==> r == lhs
  {
    if lhs == rhs then Way(lhs.id, lhs.nodes + Without(rhs.nodes, lhs.nodes), lhs.tags)
    else lhs
  }

  /** Because equality is field by field, the right way only ever contributes nodes the
      left one already has: `lhs + rhs` is always `lhs`. */
  lemma WayPlusIsLeft(lhs: Way, rhs: Way)
    ensures WayPlus(lhs, rhs) == lhs
  {
    if lhs == rhs {
      WithoutCovered(rhs.nodes, lhs.nodes);
      assert lhs.nodes + [] == lhs.nodes;
    }
  }

  /** `ways.first(where: { $0 == way })`. */
  function FirstEqual(ways: seq<Way>, w: Way): (r: Option<Way>)
    ensures r.Some? <==> w in ways
    ensures r.Some? ==> r.value == w
  {
    if ways == [] then None
    else if ways[0] == w then Some(ways[0])
    else FirstEqual(ways[1..], w)
  }

  /** One way of the left result, merged with its equal in the right result if any:
      the merge adds nothing, so the way comes back as it was. */
  function MergeWay(w: Way, others: seq<Way>): (r: Way)
    ensures r == w
  {
    match FirstEqual(others, w)
    case Some(another) =>
      WayPlusIsLeft(w, another);
      WayPlus(w, another)
    case None => w
  }

  /** The `map` over the left result's ways. Every merge is a no-op, so the list is
      the left result's ways unchanged. */
  function MergeWays(ways: seq<Way>, others: seq<Way>): (r: seq<Way>)
    ensures r == ways
  {
    if ways == [] then []
    else [MergeWay(ways[0], others)] + MergeWays(ways[1..], others)
  }

  /** `expanded(with:newBounds:)`: the given bounds; the left result's ways (each
      merged with its equal) followed by the right result's ways that equal none of
      them, in order; the lone nodes of both once each. The Swift merge has no
      relations, so the left result's relations are kept. */
  function ExpandedWith(self: OverpassResult, result: OverpassResult, newBounds: Bounds): (r: OverpassResult)
    ensures r.bounds == newBounds
    ensures r.relations == self.relations
    ensures |self.ways| <= |r.ways| <= |self.ways| + |result.ways|
    ensures r.ways[..|self.ways|] == self.ways
    ensures forall w :: w in r.ways[|self.ways|..] <==> w in result.ways && w !in self.ways
    ensures forall w :: w in r.ways <==> w in self.ways || w in result.ways
    ensures forall n :: n in r.loneNodes <==> n in self.loneNodes || n in result.loneNodes
    ensures Distinct(r.loneNodes)
  {
    var ways := MergeWays(self.ways, result.ways);
    var added := Without(result.ways, ways);
    assert (ways + added)[..|self.ways|] == self.ways;
    assert (ways + added)[|self.ways|..] == added;
    OverpassResult(newBounds, self.relations, ways + added, Dedup(self.loneNodes + result.loneNodes))
  }

  /** `expanded(with:)`: the merge with the right result's bounds. */
  function Expanded(self: OverpassResult, result: OverpassResult): (r: OverpassResult)
    ensures r == ExpandedWith(self, result, result.bounds)
    ensures r.bounds == result.bounds
  {
    ExpandedWith(self, result, result.bounds)
  }

  /** The `+` operator on results. */
  function Plus(lhs: OverpassResult, rhs: OverpassResult): (r: OverpassResult)
    ensures r == ExpandedWith(lhs, rhs, rhs.bounds)
    ensures r.bounds == rhs.bounds
  {
    Expanded(lhs, rhs)
  }

  /** The ways the merge appends are exactly the right result's ways that are not
      among the left one's, in order: the right result's own order is kept. */
  lemma ExpandedAppendsInOrder(self: OverpassResult, result: OverpassResult, newBounds: Bounds)
    ensures ExpandedWith(self, result, newBounds).ways == self.ways + Without(result.ways, self.ways)
  {
    var r := ExpandedWith(self, result, newBounds);
    assert r.ways == r.ways[..|self.ways|] + r.ways[|self.ways|..];
  }

  /** Merging a result with itself gives it back, up to the order of its lone nodes:
      the bounds, relations and ways are the same, and so is the set of lone nodes. */
  lemma {:induction false} PlusIdempotent(r: OverpassResult)
    ensures Plus(r, r).bounds == r.bounds
    ensures Plus(r, r).relations == r.relations
    ensures Plus(r, r).ways == r.ways
    ensures forall n :: n in Plus(r, r).loneNodes <==> n in r.loneNodes
  {
    var m := Plus(r, r);
    ExpandedAppendsInOrder(r, r, r.bounds);
    WithoutCovered(r.ways, r.ways);
    assert m.ways == r.ways + [];
  }
}
