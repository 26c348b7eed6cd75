/** `OverpassResponse.init(bounds:data:)` (OverpassProtocol.swift): turning the flat
    list of `node`, `way` and `relation` elements into a graph of resolved ways and
    relations plus the nodes nothing owns. Parsing a coordinate is the parameter
    `parse`, standing for `Double(text)`. */
module Response {
  import opened Wrappers
  import opened Seqs
  import opened Geometry
  import opened Bounds
  import opened Xml
  import opened Models

  /** `OverpassResponse`. */
  datatype OverpassResponse = ResultResponse(result: OverpassResult) | Error

  /** Coordinate parsing, `Double(text)`: a partial function. */
  type Parser = string -> Option<real>

  // ---------------------------------------------------------------------------
  // Record extraction: one element at a time, dropping what the guards reject.

  /** A `node` element as a dictionary entry: kept only with a parsable `lat`, a
      parsable `lon` and an `id`. */
  function NodeEntry(e: XElem, parse: Parser): (r: Option<(Id, Node)>)
    ensures r.Some? <==>
      && e.name == "node"
      && "lat" in e.attrs && parse(e.attrs["lat"]).Some?
      && "lon" in e.attrs && parse(e.attrs["lon"]).Some?
      && "id" in e.attrs
    ensures r.Some? ==> r.value.0 == r.value.1.id == e.attrs["id"]
    ensures r.Some? ==>
      r.value.1.location == Point(parse(e.attrs["lat"]).value, parse(e.attrs["lon"]).value)
  {
    if e.name != "node" then None
    else
      match Attr(e, "lat")
      case None => None
      case Some(latText) =>
        match parse(latText)
        case None => None
        case Some(lat) =>
          match Attr(e, "lon")
          case None => None
          case Some(lonText) =>
            match parse(lonText)
            case None => None
            case Some(lon) =>
              match Attr(e, "id")
              case None => None
              case Some(id) => Some((id, Node(id, Point(lat, lon))))
  }

  /** A `tag` child: kept only with both `k` and `v`. */
  function TagEntry(c: XElem): (r: Option<(string, string)>)
    ensures r.Some? <==> c.name == "tag" && "k" in c.attrs && "v" in c.attrs
    ensures r.Some? ==> r.value == (c.attrs["k"], c.attrs["v"])
  {
    if c.name != "tag" then None
    else
      match (Attr(c, "k"), Attr(c, "v"))
      case (Some(k), Some(v)) => Some((k, v))
      case _ => None
  }

  /** An `nd` child: its `ref`, if present. */
  function NdRef(c: XElem): (r: Option<Id>)
    ensures r.Some? <==> c.name == "nd" && "ref" in c.attrs
    ensures r.Some? ==> r.value == c.attrs["ref"]
  {
    if c.name != "nd" then None else Attr(c, "ref")
  }

  /** A `member` child of type `way`: its `ref` and `role`, both required. */
  function WayMember(c: XElem): (r: Option<(Id, string)>)
    ensures r.Some? <==>
      && c.name == "member" && "type" in c.attrs && c.attrs["type"] == "way"
      && "ref" in c.attrs && "role" in c.attrs
    ensures r.Some? ==> r.value == (c.attrs["ref"], c.attrs["role"])
  {
    if c.name != "member" || Attr(c, "type") != Some("way") then None
    else
      match (Attr(c, "ref"), Attr(c, "role"))
      case (Some(id), Some(role)) => Some((id, role))
      case _ => None
  }

  /** A `member` child of type `node`: its `ref`, required. */
  function NodeMember(c: XElem): (r: Option<Id>)
    ensures r.Some? <==>
      c.name == "member" && "type" in c.attrs && c.attrs["type"] == "node" && "ref" in c.attrs
    ensures r.Some? ==> r.value == c.attrs["ref"]
  {
    if c.name != "member" || Attr(c, "type") != Some("node") then None
    else Attr(c, "ref")
  }

  /** The tags of an element: later `tag` children overwrite earlier ones. */
  function Tags(children: seq<XElem>): map<string, string> {
    LastWins(FilterMap(children, TagEntry))
  }

  /** A `way` element as a dictionary entry: kept only with an `id`; its `nd` refs in
      document order. */
  function WayEntry(e: XElem): (r: Option<(Id, InterimWay)>)
    ensures r.Some? <==> e.name == "way" && "id" in e.attrs
    ensures r.Some? ==> r.value.0 == r.value.1.id == e.attrs["id"]
    ensures r.Some? ==> r.value.1.tags == Tags(e.children)
    ensures r.Some? ==> r.value.1.references == FilterMap(e.children, NdRef)
  {
    if e.name != "way" then None
    else
      match Attr(e, "id")
      case None => None
      case Some(id) => Some((id, InterimWay(id, FilterMap(e.children, NdRef), Tags(e.children))))
  }

  /** A `relation` element: kept only with an `id`; its way and node members in
      document order. */
  function RelationOf(e: XElem): (r: Option<InterimRelation>)
    ensures r.Some? <==> e.name == "relation" && "id" in e.attrs
    ensures r.Some? ==> r.value.id == e.attrs["id"] && r.value.tags == Tags(e.children)
    ensures r.Some? ==> r.value.wayRefs == FilterMap(e.children, WayMember)
    ensures r.Some? ==> r.value.nodeRefs == FilterMap(e.children, NodeMember)
  {
    if e.name != "relation" then None
    else
      match Attr(e, "id")
      case None => None
      case Some(id) =>
        Some(InterimRelation(id, FilterMap(e.children, WayMember), FilterMap(e.children, NodeMember), Tags(e.children)))
  }

  // ---------------------------------------------------------------------------
  // Collection: the dictionaries and the relation list after the parsing loop.

  function NodeEntryOf(parse: Parser): XElem -> Option<(Id, Node)> {
    e => NodeEntry(e, parse)
  }

  /** The node entries of the top-level elements, in document order. */
  function NodeEntries(elems: seq<XElem>, parse: Parser): seq<(Id, Node)> {
    FilterMap(elems, NodeEntryOf(parse))
  }

  /** The way entries of the top-level elements, in document order. */
  function WayEntries(elems: seq<XElem>): seq<(Id, InterimWay)> {
    FilterMap(elems, WayEntry)
  }

  /** `nodeMap` after the loop. */
  function NodeMap(elems: seq<XElem>, parse: Parser): map<Id, Node> {
    LastWins(NodeEntries(elems, parse))
  }

  /** `interimWayMap` after the loop. */
  function InterimWayMap(elems: seq<XElem>): map<Id, InterimWay> {
    LastWins(WayEntries(elems))
  }

  /** `interimRelations` after the loop: every kept relation, duplicates included. */
  function InterimRelations(elems: seq<XElem>): seq<InterimRelation> {
    FilterMap(elems, RelationOf)
  }

  /** One more element in the loop: a kept node is stored under its id, replacing
      any earlier node with that id; anything else leaves the dictionary alone. */
  lemma NodeMapStep(elems: seq<XElem>, e: XElem, parse: Parser)
    ensures NodeEntry(e, parse).Some? ==>
      NodeMap(elems + [e], parse) == NodeMap(elems, parse)[NodeEntry(e, parse).value.0 := NodeEntry(e, parse).value.1]
    ensures NodeEntry(e, parse).None? ==> NodeMap(elems + [e], parse) == NodeMap(elems, parse)
  {
    var entries := NodeEntries(elems, parse);
    FilterMapAppend(elems, [e], NodeEntryOf(parse));
    FilterMapSingle(e, NodeEntryOf(parse));
    if NodeEntry(e, parse).Some? {
      LastWinsSnoc(entries, NodeEntry(e, parse).value);
    } else {
      assert NodeEntries(elems + [e], parse) == entries + [] == entries;
    }
  }

  /** One more element in the loop: a kept way replaces any earlier way with its id. */
  lemma InterimWayMapStep(elems: seq<XElem>, e: XElem)
    ensures WayEntry(e).Some? ==>
      InterimWayMap(elems + [e]) == InterimWayMap(elems)[WayEntry(e).value.0 := WayEntry(e).value.1]
    ensures WayEntry(e).None? ==> InterimWayMap(elems + [e]) == InterimWayMap(elems)
  {
    var entries := WayEntries(elems);
    FilterMapAppend(elems, [e], WayEntry);
    FilterMapSingle(e, WayEntry);
    if WayEntry(e).Some? {
      LastWinsSnoc(entries, WayEntry(e).value);
    } else {
      assert WayEntries(elems + [e]) == entries + [] == entries;
    }
  }

  /** One more element in the loop: a kept relation is appended, even when a relation
      with its id is already there. */
  lemma InterimRelationsStep(elems: seq<XElem>, e: XElem)
    ensures RelationOf(e).Some? ==> InterimRelations(elems + [e]) == InterimRelations(elems) + [RelationOf(e).value]
    ensures RelationOf(e).None? ==> InterimRelations(elems + [e]) == InterimRelations(elems)
  {
    FilterMapAppend(elems, [e], RelationOf);
    if RelationOf(e).Some? {
      assert FilterMap([e], RelationOf) == [RelationOf(e).value];
    } else {
      assert FilterMap([e], RelationOf) == [];
      assert InterimRelations(elems) + [] == InterimRelations(elems);
    }
  }

  /** Every stored node is stored under its own id. */
  lemma NodeMapKeyedById(elems: seq<XElem>, parse: Parser)
    ensures forall k :: k in NodeMap(elems, parse) ==> NodeMap(elems, parse)[k].id == k
  {
    var entries := NodeEntries(elems, parse);
    LastWinsFromEntries(entries);
    forall x | x in entries ensures x.1.id == x.0 {
      var e :| e in elems && NodeEntryOf(parse)(e) == Some(x);
    }
  }

  /** Every stored interim way is stored under its own id. */
  lemma InterimWayMapKeyedById(elems: seq<XElem>)
    ensures forall k :: k in InterimWayMap(elems) ==> InterimWayMap(elems)[k].id == k
  {
    var entries := WayEntries(elems);
    LastWinsFromEntries(entries);
    forall x | x in entries ensures x.1.id == x.0 {
      var e :| e in elems && WayEntry(e) == Some(x);
    }
  }

  // ---------------------------------------------------------------------------
  // Resolution and removal.

  function NodeLookup(nodeMap: map<Id, Node>): Id -> Option<Node> {
    k => Get(nodeMap, k)
  }

  function WayLookup(wayMap: map<Id, Way>): ((Id, string)) -> Option<Way> {
    (m: (Id, string)) => Get(wayMap, m.0)
  }

  /** `references.compactMap { nodeMap[$0] }`. */
  function ResolveNodes(refs: seq<Id>, nodeMap: map<Id, Node>): (r: seq<Node>)
    ensures |r| <= |refs|
    ensures forall n :: n in r ==> n in nodeMap.Values
  {
    FilterMap(refs, NodeLookup(nodeMap))
  }

  /** `wayRefs.compactMap { wayMap[$0.0] }`: roles are dropped. */
  function ResolveWays(refs: seq<(Id, string)>, wayMap: map<Id, Way>): (r: seq<Way>)
    ensures |r| <= |refs|
    ensures forall w :: w in r ==> w in wayMap.Values
  {
    FilterMap(refs, WayLookup(wayMap))
  }

  /** A resolved node list holds exactly the stored nodes of the ids referenced. */
  lemma ResolveNodesMembers(refs: seq<Id>, nodeMap: map<Id, Node>)
    ensures forall n :: n in ResolveNodes(refs, nodeMap) <==> exists k :: k in refs && k in nodeMap && nodeMap[k] == n
  {
    forall n ensures n in ResolveNodes(refs, nodeMap) <==> exists k :: k in refs && k in nodeMap && nodeMap[k] == n {
      if n in ResolveNodes(refs, nodeMap) {
        var k :| k in refs && NodeLookup(nodeMap)(k) == Some(n);
        assert k in nodeMap && nodeMap[k] == n;
      }
      if exists k :: k in refs && k in nodeMap && nodeMap[k] == n {
        var k :| k in refs && k in nodeMap && nodeMap[k] == n;
        assert NodeLookup(nodeMap)(k) == Some(n);
      }
    }
  }

  /** When every reference resolves, resolution keeps the order and the repeats: the
      i-th node is the one stored for the i-th id. */
  lemma ResolveNodesInOrder(refs: seq<Id>, nodeMap: map<Id, Node>)
    requires forall k :: k in refs ==> k in nodeMap
    ensures |ResolveNodes(refs, nodeMap)| == |refs|
    ensures forall i :: 0 <= i < |refs| ==> ResolveNodes(refs, nodeMap)[i] == nodeMap[refs[i]]
  {
    FilterMapTotal(refs, NodeLookup(nodeMap));
  }

  /** `wayMap`: every interim way elevated with its resolved nodes. */
  function WayMap(interimWays: map<Id, InterimWay>, nodeMap: map<Id, Node>): (r: map<Id, Way>)
    ensures r.Keys == interimWays.Keys
  {
    map k | k in interimWays :: ElevateWay(interimWays[k], ResolveNodes(interimWays[k].references, nodeMap))
  }

  /** The relations, elevated in document order with their resolved members. */
  function Relations(irs: seq<InterimRelation>, wayMap: map<Id, Way>, nodeMap: map<Id, Node>): (r: seq<Relation>)
    ensures |r| == |irs|
    ensures forall i :: 0 <= i < |irs| ==>
      r[i] == ElevateRelation(irs[i], ResolveWays(irs[i].wayRefs, wayMap), ResolveNodes(irs[i].nodeRefs, nodeMap))
  {
    if irs == [] then []
    else
      [ElevateRelation(irs[0], ResolveWays(irs[0].wayRefs, wayMap), ResolveNodes(irs[0].nodeRefs, nodeMap))]
        + Relations(irs[1..], wayMap, nodeMap)
  }

  /** The node ids consumed by the ways, owned or not. */
  function WayNodeIds(wayMap: map<Id, Way>): set<Id> {
    set k, n | k in wayMap && n in wayMap[k].nodes :: n.id
  }

  /** The node ids consumed by the relations. */
  function RelationNodeIds(relations: seq<Relation>): set<Id> {
    set r, n | r in relations && n in r.nodes :: n.id
  }

  /** The way ids consumed by the relations. */
  function RelationWayIds(relations: seq<Relation>): set<Id> {
    set r, w | r in relations && w in r.ways :: w.id
  }

  /** The state after the parsing loop and the two resolution loops. */
  datatype Assembly = Assembly(
    nodeMap: map<Id, Node>,
    wayMap: map<Id, Way>,
    relations: seq<Relation>,
    topWays: map<Id, Way>,
    loneNodes: map<Id, Node>)

  /** The graph assembled from the top-level elements: ways that a relation uses are
      no longer top-level, and nodes that a way or a relation uses are not lone. */
  function Assemble(elems: seq<XElem>, parse: Parser): (a: Assembly)
    ensures a.topWays.Keys <= a.wayMap.Keys && a.loneNodes.Keys <= a.nodeMap.Keys
    ensures forall k :: k in a.topWays ==> a.topWays[k] == a.wayMap[k] && k !in RelationWayIds(a.relations)
    ensures forall k :: k in a.loneNodes ==>
      a.loneNodes[k] == a.nodeMap[k] && k !in WayNodeIds(a.wayMap) && k !in RelationNodeIds(a.relations)
    ensures forall k :: k in a.wayMap && k !in RelationWayIds(a.relations) ==> k in a.topWays
    ensures forall k :: k in a.nodeMap && k !in WayNodeIds(a.wayMap) && k !in RelationNodeIds(a.relations) ==> k in a.loneNodes
  {
    var nodeMap := NodeMap(elems, parse);
    var wayMap := WayMap(InterimWayMap(elems), nodeMap);
    var relations := Relations(InterimRelations(elems), wayMap, nodeMap);
    Assembly(
      nodeMap, wayMap, relations,
      wayMap - RelationWayIds(relations),
      nodeMap - (WayNodeIds(wayMap) + RelationNodeIds(relations)))
  }

  /** Every top-level way's id occurs among the way entries. */
  lemma TopWayIdsListed(elems: seq<XElem>, parse: Parser)
    ensures forall k :: k in Assemble(elems, parse).topWays ==> k in Dedup(Firsts(WayEntries(elems)))
  {
    var a := Assemble(elems, parse);
    assert a.wayMap.Keys == InterimWayMap(elems).Keys;
    forall k | k in a.topWays ensures k in Dedup(Firsts(WayEntries(elems))) {
      assert k in InterimWayMap(elems);
    }
  }

  /** Every lone node's id occurs among the node entries. */
  lemma LoneNodeIdsListed(elems: seq<XElem>, parse: Parser)
    ensures forall k :: k in Assemble(elems, parse).loneNodes ==> k in Dedup(Firsts(NodeEntries(elems, parse)))
  {
    var a := Assemble(elems, parse);
    forall k | k in a.loneNodes ensures k in Dedup(Firsts(NodeEntries(elems, parse))) {
      assert k in NodeMap(elems, parse);
    }
  }

  /** `OverpassResponse.init(bounds:data:)`: always a result, carrying the given
      bounds; its top-level ways and lone nodes listed once each. Dictionary order is
      not modelled: values are listed by the first appearance of their id. */
  function Init(bounds: Bounds, document: XElem, parse: Parser): (r: OverpassResponse)
    ensures r.ResultResponse? && r.result.bounds == bounds
    ensures r.result.relations == Assemble(document.children, parse).relations
    ensures forall w :: w in r.result.ways <==> w in Assemble(document.children, parse).topWays.Values
    ensures forall n :: n in r.result.loneNodes <==> n in Assemble(document.children, parse).loneNodes.Values
  {
    var elems := document.children;
    var a := Assemble(elems, parse);
    var wayIds := Dedup(Firsts(WayEntries(elems)));
    var nodeIds := Dedup(Firsts(NodeEntries(elems, parse)));
    TopWayIdsListed(elems, parse);
    LoneNodeIdsListed(elems, parse);
    ResultResponse(OverpassResult(bounds, a.relations, Values(wayIds, a.topWays), Values(nodeIds, a.loneNodes)))
  }

  // ---------------------------------------------------------------------------
  // Properties of the assembled graph.

  /** Every assembled way, owned or top-level, is stored under its own id, with the
      tags of its record and its references resolved against the node dictionary. */
  lemma WayMapKeyedById(elems: seq<XElem>, parse: Parser)
    ensures forall k :: k in Assemble(elems, parse).wayMap ==>
      && Assemble(elems, parse).wayMap[k].id == k
      && Assemble(elems, parse).wayMap[k].tags == InterimWayMap(elems)[k].tags
      && Assemble(elems, parse).wayMap[k].nodes == ResolveNodes(InterimWayMap(elems)[k].references, NodeMap(elems, parse))
  {
    InterimWayMapKeyedById(elems);
  }

  /** Every assembled way is stored under its own id. */
  lemma WayMapIds(elems: seq<XElem>, parse: Parser)
    ensures forall k :: k in Assemble(elems, parse).wayMap ==> Assemble(elems, parse).wayMap[k].id == k
  {
    InterimWayMapKeyedById(elems);
  }

  /** A resolved way is stored under its own id, when every way is. */
  lemma ResolvedWaysStored(refs: seq<(Id, string)>, wayMap: map<Id, Way>, x: Way)
    requires forall k :: k in wayMap ==> wayMap[k].id == k
    requires x in ResolveWays(refs, wayMap)
    ensures x.id in wayMap && wayMap[x.id] == x
  {
    var m :| m in refs && WayLookup(wayMap)(m) == Some(x);
    assert m.0 in wayMap && wayMap[m.0] == x;
  }

  /** A way a relation holds is the stored way for its own id. */
  lemma RelationWaysStored(elems: seq<XElem>, parse: Parser)
    ensures forall r, x :: r in Assemble(elems, parse).relations && x in r.ways ==>
      x.id in Assemble(elems, parse).wayMap && Assemble(elems, parse).wayMap[x.id] == x
  {
    var a := Assemble(elems, parse);
    WayMapIds(elems, parse);
    var irs := InterimRelations(elems);
    forall r, x | r in a.relations && x in r.ways
      ensures x.id in a.wayMap && a.wayMap[x.id] == x
    {
      var i :| 0 <= i < |a.relations| && a.relations[i] == r;
      assert r.ways == ResolveWays(irs[i].wayRefs, a.wayMap);
      ResolvedWaysStored(irs[i].wayRefs, a.wayMap, x);
    }
  }

  /** A relation keeps every way it references that was assembled, in member order,
      even though those ways are then no longer top-level. */
  lemma RelationsKeepOwnedWays(elems: seq<XElem>, parse: Parser)
    ensures |Assemble(elems, parse).relations| == |InterimRelations(elems)|
    ensures forall i, x :: 0 <= i < |InterimRelations(elems)| ==>
      (x in Assemble(elems, parse).relations[i].ways <==>
        exists m :: m in InterimRelations(elems)[i].wayRefs && m.0 in Assemble(elems, parse).wayMap
          && Assemble(elems, parse).wayMap[m.0] == x)
    ensures forall i, x :: 0 <= i < |InterimRelations(elems)| && x in Assemble(elems, parse).relations[i].ways ==>
      x.id !in Assemble(elems, parse).topWays
  {
    var a := Assemble(elems, parse);
    var irs := InterimRelations(elems);
    forall i, x | 0 <= i < |irs|
      ensures x in a.relations[i].ways <==>
        exists m :: m in irs[i].wayRefs && m.0 in a.wayMap && a.wayMap[m.0] == x
    {
      if x in a.relations[i].ways {
        var m :| m in irs[i].wayRefs && WayLookup(a.wayMap)(m) == Some(x);
        assert m.0 in a.wayMap && a.wayMap[m.0] == x;
      }
      if exists m :: m in irs[i].wayRefs && m.0 in a.wayMap && a.wayMap[m.0] == x {
        var m :| m in irs[i].wayRefs && m.0 in a.wayMap && a.wayMap[m.0] == x;
        assert WayLookup(a.wayMap)(m) == Some(x);
      }
    }
    forall i, x | 0 <= i < |irs| && x in a.relations[i].ways
      ensures x.id !in a.topWays
    {
      assert a.relations[i] in a.relations;
      assert x.id in RelationWayIds(a.relations);
    }
  }

  /** No top-level way is one a relation holds. */
  lemma TopWaysNotOwned(bounds: Bounds, document: XElem, parse: Parser)
    ensures forall w, r, x ::
      (w in Init(bounds, document, parse).result.ways && r in Init(bounds, document, parse).result.relations
       && x in r.ways) ==> x.id != w.id
  {
    var a := Assemble(document.children, parse);
    var res := Init(bounds, document, parse).result;
    WayMapIds(document.children, parse);
    forall w, r, x | w in res.ways && r in res.relations && x in r.ways
      ensures x.id != w.id
    {
      var k :| k in a.topWays && a.topWays[k] == w;
      assert x.id in RelationWayIds(a.relations);
    }
  }

  /** The listed lone nodes are the stored lone ones, keyed by their own ids. */
  lemma LoneNodesStored(bounds: Bounds, document: XElem, parse: Parser)
    ensures forall n :: n in Init(bounds, document, parse).result.loneNodes ==>
      n.id in Assemble(document.children, parse).loneNodes
  {
    var a := Assemble(document.children, parse);
    NodeMapKeyedById(document.children, parse);
    forall n | n in Init(bounds, document, parse).result.loneNodes
      ensures n.id in a.loneNodes
    {
      var k :| k in a.loneNodes && a.loneNodes[k] == n;
    }
  }

  /** No lone node is a member node of a relation. */
  lemma LoneNodesNotInRelations(bounds: Bounds, document: XElem, parse: Parser)
    ensures forall n, r, m ::
      (n in Init(bounds, document, parse).result.loneNodes && r in Init(bounds, document, parse).result.relations
       && m in r.nodes) ==> m.id != n.id
  {
    var a := Assemble(document.children, parse);
    var res := Init(bounds, document, parse).result;
    LoneNodesStored(bounds, document, parse);
    forall n, r, m | n in res.loneNodes && r in res.relations && m in r.nodes
      ensures m.id != n.id
    {
      assert m.id in RelationNodeIds(a.relations);
    }
  }

  /** No lone node is a node of a top-level way. */
  lemma LoneNodesNotInWays(bounds: Bounds, document: XElem, parse: Parser)
    ensures forall n, w, m ::
      (n in Init(bounds, document, parse).result.loneNodes && w in Init(bounds, document, parse).result.ways
       && m in w.nodes) ==> m.id != n.id
  {
    var a := Assemble(document.children, parse);
    var res := Init(bounds, document, parse).result;
    LoneNodesStored(bounds, document, parse);
    forall n, w, m | n in res.loneNodes && w in res.ways && m in w.nodes
      ensures m.id != n.id
    {
      var k :| k in a.topWays && a.topWays[k] == w;
      assert m.id in WayNodeIds(a.wayMap);
    }
  }

  /** No lone node is a node of a way that a relation owns. */
  lemma LoneNodesNotInOwnedWays(bounds: Bounds, document: XElem, parse: Parser)
    ensures forall n, r, w, m ::
      (n in Init(bounds, document, parse).result.loneNodes && r in Init(bounds, document, parse).result.relations
       && w in r.ways && m in w.nodes) ==> m.id != n.id
  {
    var a := Assemble(document.children, parse);
    var res := Init(bounds, document, parse).result;
    LoneNodesStored(bounds, document, parse);
    RelationWaysStored(document.children, parse);
    forall n, r, w, m | n in res.loneNodes && r in res.relations && w in r.ways && m in w.nodes
      ensures m.id != n.id
    {
      assert m.id in WayNodeIds(a.wayMap);
    }
  }

  /** The lone nodes are exactly the stored nodes whose id no way and no relation
      uses. */
  lemma LoneNodesExactly(bounds: Bounds, document: XElem, parse: Parser)
    ensures forall n :: n in Init(bounds, document, parse).result.loneNodes <==>
      && n.id in NodeMap(document.children, parse) && NodeMap(document.children, parse)[n.id] == n
      && n.id !in WayNodeIds(Assemble(document.children, parse).wayMap)
      && n.id !in RelationNodeIds(Assemble(document.children, parse).relations)
  {
    var a := Assemble(document.children, parse);
    NodeMapKeyedById(document.children, parse);
    forall n ensures n in Init(bounds, document, parse).result.loneNodes <==>
      && n.id in a.nodeMap && a.nodeMap[n.id] == n
      && n.id !in WayNodeIds(a.wayMap) && n.id !in RelationNodeIds(a.relations)
    {
      if n in a.loneNodes.Values {
        var k :| k in a.loneNodes && a.loneNodes[k] == n;
      }
      if n.id in a.nodeMap && a.nodeMap[n.id] == n && n.id !in WayNodeIds(a.wayMap) && n.id !in RelationNodeIds(a.relations) {
        assert a.loneNodes[n.id] == n;
      }
    }
  }

  /** The top-level ways are exactly the assembled ways whose id no relation uses. */
  lemma TopWaysExactly(bounds: Bounds, document: XElem, parse: Parser)
    ensures forall w :: w in Init(bounds, document, parse).result.ways <==>
      && w.id in Assemble(document.children, parse).wayMap && Assemble(document.children, parse).wayMap[w.id] == w
      && w.id !in RelationWayIds(Assemble(document.children, parse).relations)
  {
    var a := Assemble(document.children, parse);
    WayMapIds(document.children, parse);
    forall w ensures w in Init(bounds, document, parse).result.ways <==>
      w.id in a.wayMap && a.wayMap[w.id] == w && w.id !in RelationWayIds(a.relations)
    {
      if w in a.topWays.Values {
        var k :| k in a.topWays && a.topWays[k] == w;
      }
      if w.id in a.wayMap && a.wayMap[w.id] == w && w.id !in RelationWayIds(a.relations) {
        assert a.topWays[w.id] == w;
      }
    }
  }

  /** No way and no lone node is listed twice. */
  lemma ResultListsDistinct(bounds: Bounds, document: XElem, parse: Parser)
    ensures Distinct(Init(bounds, document, parse).result.ways)
    ensures Distinct(Init(bounds, document, parse).result.loneNodes)
  {
    var elems := document.children;
    var a := Assemble(elems, parse);
    WayMapIds(elems, parse);
    NodeMapKeyedById(elems, parse);
    ValuesDistinct(Dedup(Firsts(WayEntries(elems))), a.topWays, (w: Way) => w.id);
    ValuesDistinct(Dedup(Firsts(NodeEntries(elems, parse))), a.loneNodes, (n: Node) => n.id);
  }
}
