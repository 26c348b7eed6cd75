/** Two worked documents for the assembler: a node used by a way, and the same node
    alone. */
module ResponseExamples {
  import opened Wrappers
  import opened Seqs
  import opened Geometry
  import opened Bounds
  import opened Xml
  import opened Models
  import opened Response

  /** `<node id="n1" lat="1" lon="1"/>` */
  function PointElement(): XElem { XElem("node", map["id" := "n1", "lat" := "1", "lon" := "1"], []) }

  /** `<nd ref="n1"/>` */
  function NdElement(): XElem { XElem("nd", map["ref" := "n1"], []) }

  /** `<way id="w1"><nd ref="n1"/></way>` */
  function WayElement(): XElem { XElem("way", map["id" := "w1"], [NdElement()]) }

  /** The node the point element describes. */
  function N1(): Node { Node("n1", Point(1.0, 1.0)) }

  /** How each example element is read. */
  lemma ElementEntries(parse: Parser)
    requires parse("1") == Some(1.0)
    ensures NodeEntry(PointElement(), parse) == Some(("n1", N1()))
    ensures NodeEntry(WayElement(), parse).None?
    ensures WayEntry(PointElement()).None?
    ensures WayEntry(WayElement()) == Some(("w1", InterimWay("w1", ["n1"], map[])))
    ensures RelationOf(PointElement()).None? && RelationOf(WayElement()).None?
  {
    assert FilterMap([NdElement()], TagEntry) == [];
    assert FilterMap([NdElement()], NdRef) == ["n1"];
  }

  /** The dictionaries after reading the point and then the way. */
  lemma PointAndWayMaps(parse: Parser)
    requires parse("1") == Some(1.0)
    ensures NodeMap([PointElement(), WayElement()], parse) == map["n1" := N1()]
    ensures InterimWayMap([PointElement(), WayElement()]) == map["w1" := InterimWay("w1", ["n1"], map[])]
    ensures InterimRelations([PointElement(), WayElement()]) == []
  {
    ElementEntries(parse);
    assert [PointElement(), WayElement()] == [PointElement()] + [WayElement()];
    assert [PointElement()] == [] + [PointElement()];
    NodeMapStep([], PointElement(), parse);
    NodeMapStep([PointElement()], WayElement(), parse);
    InterimWayMapStep([], PointElement());
    InterimWayMapStep([PointElement()], WayElement());
    InterimRelationsStep([], PointElement());
    InterimRelationsStep([PointElement()], WayElement());
  }

  /** The dictionaries after reading the point alone. */
  lemma PointAloneMaps(parse: Parser)
    requires parse("1") == Some(1.0)
    ensures NodeMap([PointElement()], parse) == map["n1" := N1()]
    ensures InterimWayMap([PointElement()]) == map[]
    ensures InterimRelations([PointElement()]) == []
  {
    ElementEntries(parse);
    assert [PointElement()] == [] + [PointElement()];
    NodeMapStep([], PointElement(), parse);
    InterimWayMapStep([], PointElement());
    InterimRelationsStep([], PointElement());
  }

  /** A one-way dictionary whose single reference resolves. */
  lemma WayMapOne(iw: InterimWay, nodeMap: map<Id, Node>, n: Node)
    requires iw.references == [n.id] && n.id in nodeMap && nodeMap[n.id] == n
    ensures WayMap(map[iw.id := iw], nodeMap) == map[iw.id := Way(iw.id, [n], iw.tags)]
  {
    assert NodeLookup(nodeMap)(n.id) == Some(n);
    assert FilterMap([n.id], NodeLookup(nodeMap)) == [n];
  }

  /** A node of a way is among the ids the ways use. */
  lemma WayNodeIdsOne(w: Way, n: Node)
    requires n in w.nodes
    ensures n.id in WayNodeIds(map[w.id := w])
  {
    var m := map[w.id := w];
    assert w.id in m && n in m[w.id].nodes;
  }

  /** One node, one way using it and no relation: the way is top-level and no node is
      lone. */
  lemma AssembleOneWay(elems: seq<XElem>, parse: Parser, n: Node, iw: InterimWay)
    requires NodeMap(elems, parse) == map[n.id := n]
    requires InterimWayMap(elems) == map[iw.id := iw]
    requires iw.references == [n.id]
    requires InterimRelations(elems) == []
    ensures Assemble(elems, parse).topWays == map[iw.id := Way(iw.id, [n], iw.tags)]
    ensures Assemble(elems, parse).loneNodes == map[]
  {
    var nodeMap := NodeMap(elems, parse);
    WayMapOne(iw, nodeMap, n);
    var w := Way(iw.id, [n], iw.tags);
    var wayMap := WayMap(InterimWayMap(elems), nodeMap);
    assert Relations([], wayMap, nodeMap) == [];
    OneWayRemoval(nodeMap, wayMap, n, w);
  }

  /** The removal step for one node used by one way, with no relation. */
  lemma OneWayRemoval(nodeMap: map<Id, Node>, wayMap: map<Id, Way>, n: Node, w: Way)
    requires nodeMap == map[n.id := n] && wayMap == map[w.id := w] && n in w.nodes
    ensures wayMap - RelationWayIds([]) == wayMap
    ensures nodeMap - (WayNodeIds(wayMap) + RelationNodeIds([])) == map[]
  {
    assert RelationWayIds([]) == {} && RelationNodeIds([]) == {};
    WayNodeIdsOne(w, n);
  }

  /** One node and nothing else: the node is lone. */
  lemma AssembleLoneNode(elems: seq<XElem>, parse: Parser, n: Node)
    requires NodeMap(elems, parse) == map[n.id := n]
    requires InterimWayMap(elems) == map[]
    requires InterimRelations(elems) == []
    ensures Assemble(elems, parse).topWays == map[]
    ensures Assemble(elems, parse).loneNodes == map[n.id := n]
  {
    var nodeMap := NodeMap(elems, parse);
    assert WayMap(map[], nodeMap) == map[];
    assert Relations([], map[], nodeMap) == [];
    assert WayNodeIds(map[]) == {};
  }

  /** A single id lists its single value. */
  lemma ValuesOne<V(!new)>(k: Id, v: V)
    ensures Dedup([k]) == [k]
    ensures Values(Dedup([k]), map[k := v]) == [v]
  {
    assert [k][..0] == [];
    assert Values([k][1..], map[k := v]) == [];
  }

  /** Listing a single top-level way and no lone node. */
  lemma InitOneWay(bounds: Bounds, document: XElem, parse: Parser, w: Way)
    requires Assemble(document.children, parse).topWays == map[w.id := w]
    requires Assemble(document.children, parse).loneNodes == map[]
    requires Firsts(WayEntries(document.children)) == [w.id]
    ensures Init(bounds, document, parse).result.ways == [w]
    ensures Init(bounds, document, parse).result.loneNodes == []
  {
    var a := Assemble(document.children, parse);
    ValuesOne(w.id, w);
    ValuesUnbound(Dedup(Firsts(NodeEntries(document.children, parse))), a.loneNodes);
  }

  /** Listing a single lone node and no way. */
  lemma InitLoneNode(bounds: Bounds, document: XElem, parse: Parser, n: Node)
    requires Assemble(document.children, parse).topWays == map[]
    requires Assemble(document.children, parse).loneNodes == map[n.id := n]
    requires Firsts(NodeEntries(document.children, parse)) == [n.id]
    ensures Init(bounds, document, parse).result.ways == []
    ensures Init(bounds, document, parse).result.loneNodes == [n]
  {
    var a := Assemble(document.children, parse);
    ValuesOne(n.id, n);
    ValuesUnbound(Dedup(Firsts(WayEntries(document.children))), a.topWays);
  }

  /** A point and a way referencing it: the way holds the node, and no node is lone. */
  lemma PointAndWay(parse: Parser)
    requires parse("1") == Some(1.0)
    ensures Init(Arbitrary, XElem("osm", map[], [PointElement(), WayElement()]), parse).result.ways
      == [Way("w1", [N1()], map[])]
    ensures Init(Arbitrary, XElem("osm", map[], [PointElement(), WayElement()]), parse).result.loneNodes == []
  {
    ElementEntries(parse);
    PointAndWayMaps(parse);
    var elems := [PointElement(), WayElement()];
    AssembleOneWay(elems, parse, N1(), InterimWay("w1", ["n1"], map[]));
    assert WayEntries(elems) == [("w1", InterimWay("w1", ["n1"], map[]))];
    InitOneWay(Arbitrary, XElem("osm", map[], elems), parse, Way("w1", [N1()], map[]));
  }

  /** The same point alone: it is lone, and there are no ways. */
  lemma PointAlone(parse: Parser)
    requires parse("1") == Some(1.0)
    ensures Init(Arbitrary, XElem("osm", map[], [PointElement()]), parse).result.ways == []
    ensures Init(Arbitrary, XElem("osm", map[], [PointElement()]), parse).result.loneNodes == [N1()]
  {
    ElementEntries(parse);
    PointAloneMaps(parse);
    var elems := [PointElement()];
    AssembleLoneNode(elems, parse, N1());
    assert NodeEntries(elems, parse) == [("n1", N1())];
    InitLoneNode(Arbitrary, XElem("osm", map[], elems), parse, N1());
  }
}
