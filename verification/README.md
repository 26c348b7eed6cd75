# OverpassSwift core, modelled in Dafny

This project models the pure core of OverpassSwift, a Swift client for the Overpass
API of OpenStreetMap. It covers four parts.

- **Boundary algebra** (`OverpassBounds`). It models the four kinds of bounds,
  the box built from a point and a size, and the `contains` and `touches` tests.
  It also models `difference` and its private `boxMinusBox`: a 4×4 grid built from
  the sorted edges of both boxes, the kept grid points, nearest-diagonal pairing,
  duplicate rectangles removed under all four corner pairings, and the subtracted
  box dropped.
- **Result model and merge**. This covers `Node`, `Way`, `InterimWay.elevate`, the
  tag lookup, `Way.+`, `OverpassResult.expanded(with:newBounds:)`,
  `expanded(with:)` and `+`. Ways and nodes compare field by field, as Swift's
  synthesized `==` does. Their id-only `hash` plays no part in equality.
- **Response assembly** (`OverpassResponse.init(bounds:data:)`). The parsed XML
  document is an abstract tree `XElem(name, attrs, children)`. The model covers:
  - guarded extraction of nodes, ways and relations;
  - last-wins dictionaries keyed by id;
  - in-order resolution of references, skipping unknown ids;
  - removal of referenced ids, which leaves only top-level ways and lone nodes.
- **Request side**. This covers the statement tree built by the query language
  (`Script`, `Union`, `Query`, `IdQuery`, `Recurse`, `HasKV`, `Bounding`,
  `Print`, `ForEach`, `If`). It also covers the request's recursive statement
  iterator, `setupBox` (the last `Bounding` wins), and the request document, in
  which a statement with an empty name is spliced into its parent.

Modules, in dependency order:
- `Wrappers`: `Option`, `Result`.
- `Seqs`: `compactMap`, `filter`, `Array(Set(_))`, dictionary assignment and `sorted()`, as used by the source.
- `Geometry`.
- `Bounds`.
- `BoundsDifference`.
- `Models`.
- `Xml`.
- `Response`.
- `ResponseExamples`.
- `Language`.
- `Request`.

Modelling choices:
- **Numbers.** Coordinates (`Double`) are exact `real`s. `distance(to:)` is replaced by its square, `SqDistance`, which orders points the same way.
  - The area tests are stated in squared form: `0 <= radius && SqDistance < radius * radius`. That is exactly when the square root lies below the radius.
  - Parsing a coordinate (`Double(text)`) is a parameter `parse: string -> Option<real>`.
  - Printing one (`String(d)`) is a parameter `show: real -> string`.
- **Bounds.**
  - A polygon's `contains` and `touches` stop the program (`fatalError`). The model returns `Failure(NotSupported)`.
  - The doc comment of `difference` says it returns the parts of `another` outside `self`. The code computes `self` minus `another`: its keep test uses `self` for inclusion and `another` for exclusion. The model follows the code.
  - The "skip already processed points" test in `boxMinusBox` never skips, because it asks whether `points` contains the point taken from `points`. The model has no such test.
- **Ways.** `Way.+` compares ways with the synthesized `==`, so it only merges a way with itself. `Models.WayPlusIsLeft` proves that `lhs + rhs == lhs` for all ways. The merge of results therefore keeps its left operand's ways unchanged.
- **Relations.** The Swift declarations of `Relation` and `InterimRelation` are not part of this model. Both are defined by analogy with `InterimWay`: `Relation(id, ways, nodes, tags)`, and `elevate` keeps id and tags and takes the resolved members verbatim.
- **Result relations.** The response initializer builds its result with `relations`, but the `OverpassResult` declared in OverpassModels.swift has no such field. The model gives the result a `relations` field. The merge, which only touches `ways` and `loneNodes`, passes the left operand's relations through.
- **Dictionary order.** Swift dictionaries have no defined order, so `Array(wayMap.values)` and `Array(nodeMap.values)` have none either. The model lists values in the order in which their ids first appear in the document. Contracts speak only of membership and of the absence of repeats.
- **Deduplication.** `Array(Set(_))` has no defined order. `Seqs.Dedup` keeps first occurrences, which is one order the source allows. No contract depends on that order: they speak only of membership and the absence of repeats.
- **Request root.** The request document's root element carries no attributes: `requestData` writes the properties of children only, never those of the root.

## Model

| member | source | states |
|---|---|---|
| Wrappers.Get | OverpassSwift/OverpassProtocol.swift:188 | a dictionary subscript yields a value exactly when the key is bound, and then the bound value |
| Xml.Attr | OverpassSwift/OverpassProtocol.swift:121-123 | an attribute lookup yields a value exactly when the element has that attribute, and then its value |
| Seqs.FilterMap | OverpassSwift/OverpassProtocol.swift:188 | `compactMap` keeps exactly the successful results, and never grows the list |
| Seqs.FilterMapAppend | OverpassSwift/OverpassProtocol.swift:130-141 | `compactMap` over a concatenation is the concatenation of the two results, so document order is kept |
| Seqs.FilterMapTotal | OverpassSwift/OverpassProtocol.swift:191 | when the function never fails, `compactMap` is `map`: same length, element i maps to result i |
| Seqs.Without | OverpassSwift/OverpassModels.swift:158 | `filter { !ys.contains($0) }` keeps exactly the elements absent from `ys`, and never grows the list |
| Seqs.WithoutCovered | OverpassSwift/OverpassModels.swift:158 | filtering by a list that holds every element leaves nothing |
| Seqs.Dedup | OverpassSwift/OverpassModels.swift:161 | `Array(Set(s))` holds the same elements as `s`, each exactly once |
| Seqs.Firsts | OverpassSwift/OverpassProtocol.swift:124 | the keys of a list of entries, position by position |
| Seqs.LastWins | OverpassSwift/OverpassProtocol.swift:124 | assigning entries into an empty dictionary in order binds exactly the keys that occur |
| Seqs.LastWinsValue | OverpassSwift/OverpassProtocol.swift:142 | a key is bound to the value of its last entry: later assignments overwrite earlier ones |
| Seqs.LastWinsFromEntries | OverpassSwift/OverpassProtocol.swift:124 | every binding of the dictionary is one of the assigned entries |
| Seqs.Values | OverpassSwift/OverpassProtocol.swift:214-215 | listing the values of a dictionary by a list of keys yields exactly the values bound to those keys |
| Seqs.ValuesUnbound | OverpassSwift/OverpassProtocol.swift:214-215 | keys that are not bound list nothing |
| Seqs.ValuesDistinct | OverpassSwift/OverpassProtocol.swift:214-215 | if every value carries its own key and the keys are distinct, no value is listed twice |
| Seqs.Flatten | OverpassSwift/OverpassLanguage.swift:325 | the concatenation of a list of lists holds exactly the elements of its parts |
| Seqs.FlattenAppend | OverpassSwift/OverpassLanguage.swift:325 | concatenation distributes over appending lists of lists |
| Seqs.Sort | OverpassSwift/OverpassTypes.swift:128-130 | `sorted()` returns an ascending permutation of its input |
| Seqs.Insert | OverpassSwift/OverpassTypes.swift:128-130 | inserting into an ascending list keeps it ascending and adds exactly that element |
| Geometry.SqDistance | OverpassSwift/OverpassModels.swift:32-34 | the squared distance is never negative, and zero from a point to itself |
| Geometry.DistanceSymmetric | OverpassSwift/OverpassModels.swift:32-34 | distance is symmetric, and zero from a point to itself |
| Bounds.FromPointSize | OverpassSwift/OverpassTypes.swift:30-32 | the point is the north-west corner, and the box spans the size southwards and eastwards |
| Bounds.FromPointSizeExtent | OverpassSwift/OverpassTypes.swift:27-32 | for a non-negative size the box touches its point, and contains-or-touches exactly the points within the size south-east of it |
| Bounds.Contains | OverpassSwift/OverpassTypes.swift:69-80 | it fails exactly for a polygon. Arbitrary bounds contain everything. A box contains points strictly inside one pair of edges and between or on the other pair. An area contains points strictly closer than its radius |
| Bounds.Touches | OverpassSwift/OverpassTypes.swift:85-96 | it fails exactly for a polygon. Arbitrary bounds touch nothing. A box is touched on a south or north edge line that is also on a west or east edge line. An area is touched at exactly its radius |
| Bounds.ContainsTouchesExclusive | OverpassSwift/OverpassTypes.swift:66-96 | no bounds both contain and touch the same point |
| Bounds.BoxTouchesCorners | OverpassSwift/OverpassTypes.swift:88 | a box is touched exactly at its four corners |
| Bounds.BoxClosedExtent | OverpassSwift/OverpassTypes.swift:66-88 | for a well-ordered box, contains-or-touches is exactly the closed extent. Non-corner edge points count as contained, and the result agrees with the contains-or-touches test of line 139 |
| Bounds.ArbitraryContainsAll | OverpassSwift/OverpassTypes.swift:77-94 | arbitrary bounds contain every point and touch none |
| BoundsDifference.Span | OverpassSwift/OverpassTypes.swift:201 | a pair of corners spans the smallest box holding both: its south and west edges are the smaller latitude and longitude of the two corners, its north and east edges the larger |
| BoundsDifference.SameRect | OverpassSwift/OverpassTypes.swift:164-193 | two corner pairs that pass the duplicate test span the same box |
| BoundsDifference.SameRectIffSameSpan | OverpassSwift/OverpassTypes.swift:164-193 | for diagonal corner pairs, the four-pairing duplicate test holds exactly when both pairs span the same box |
| BoundsDifference.AnySameRect | OverpassSwift/OverpassTypes.swift:164-193 | the `contains(where:)` test finds a match only when some collected rectangle spans the same box, and, when all pairs are diagonal, exactly then |
| BoundsDifference.Latitudes | OverpassSwift/OverpassTypes.swift:130 | the horizontal edges are the four latitudes of both boxes, in ascending order |
| BoundsDifference.Longitudes | OverpassSwift/OverpassTypes.swift:128 | the vertical edges are the four longitudes of both boxes, in ascending order |
| BoundsDifference.Grid | OverpassSwift/OverpassTypes.swift:136-138 | the grid holds exactly the points whose longitude is a vertical edge and whose latitude is a horizontal edge |
| BoundsDifference.KeepPoints | OverpassSwift/OverpassTypes.swift:139-141 | a grid point is kept exactly when `self` contains or touches it and `another` does not contain it |
| BoundsDifference.KeptGrid | OverpassSwift/OverpassTypes.swift:127-144 | the kept points are exactly those built from the four latitudes and four longitudes of the two boxes that pass the keep test |
| BoundsDifference.Closest | OverpassSwift/OverpassTypes.swift:154-161 | there is no partner exactly when no kept point differs from the point in both coordinates. Otherwise the partner is such a point and nearer than every other |
| BoundsDifference.CollectRects | OverpassSwift/OverpassTypes.swift:147-197 | every collected pair consists of kept points, and no two collected pairs span the same box. Every new pair is a processed point with its nearest diagonal partner |
| BoundsDifference.CollectRectsCovers | OverpassSwift/OverpassTypes.swift:147-197 | earlier rectangles are kept. Every point that has a nearest diagonal partner ends up with its rectangle, or one spanning the same box, among the result |
| BoundsDifference.Boxes | OverpassSwift/OverpassTypes.swift:199-205 | the boxes are exactly the spans of the rectangles other than the subtracted box, with no repeats when the spans are distinct |
| BoundsDifference.BoxesAllExcluded | OverpassSwift/OverpassTypes.swift:202 | rectangles that all span the subtracted box yield no box |
| BoundsDifference.SpanOfKeptPair | OverpassSwift/OverpassTypes.swift:128-160 | a rectangle of two diagonal kept points has positive height and width, takes its edges from the input edges, and lies within `self` |
| BoundsDifference.BoxMinusBox | OverpassSwift/OverpassTypes.swift:121-208 | every output box has s < n and w < e, takes its edges from the two inputs' edges, and lies within `self`'s closed extent. No output box equals the subtracted box, and no box is output twice. Every output box is spanned by a kept point and its nearest diagonal kept point |
| BoundsDifference.Difference | OverpassSwift/OverpassTypes.swift:103-116 | unless both operands are boxes the result is empty. Otherwise it is exactly `boxMinusBox` of the two boxes, so all of BoxMinusBox's guarantees hold |
| BoundsDifference.OppositeCornersSpan | OverpassSwift/OverpassTypes.swift:88-201 | two diagonal corners of a well-ordered box span that box |
| BoundsDifference.SelfDifferenceEmpty | OverpassSwift/OverpassTypes.swift:139-203 | a well-ordered box minus itself is empty |
| BoundsDifference.NearestPairEmitted | OverpassSwift/OverpassTypes.swift:148-205 | a kept point paired with its nearest diagonal point yields that rectangle's box, unless the box is the subtracted one |
| BoundsDifference.RingOriginPartner | OverpassSwift/OverpassTypes.swift:154-161 | in the grid of boxes (0,0,10,10) and (2,2,8,8), the nearest diagonal partner of the origin is (2,2) |
| BoundsDifference.RingKeepsCornerSquare | OverpassSwift/OverpassTypes.swift:103-208 | box (0,0,10,10) minus box (2,2,8,8) includes the corner square (0,0,2,2) |
| BoundsDifference.RingGridKept | OverpassSwift/OverpassTypes.swift:136-144 | every point of the grid of boxes (0,0,10,10) and (2,2,8,8) is kept, since the inner box contains none of them |
| BoundsDifference.RingPairsAreSquares | OverpassSwift/OverpassTypes.swift:148-161 | in that grid, every kept point pairs with a point two units away in latitude and in longitude |
| BoundsDifference.RingBoxesAreSquares | OverpassSwift/OverpassTypes.swift:121-208 | every box of (0,0,10,10) minus (2,2,8,8) is a 2 by 2 square with edges on the grid |
| BoundsDifference.RingLeavesStripUncovered | OverpassSwift/OverpassTypes.swift:98-116 | the point (5,1) lies inside (0,0,10,10) and neither in nor on (2,2,8,8), yet in or on no box of their difference: the result is not the area difference the doc comment describes |
| Models.NodeIds | OverpassSwift/OverpassProtocol.swift:191 | the ids of a list of nodes, position by position |
| Models.Tag | OverpassSwift/OverpassModels.swift:86-92 | a way's dynamic member is present exactly when it is a tag key, and then it is that tag's value |
| Models.ElevateWay | OverpassSwift/OverpassModels.swift:118-122 | elevation keeps id and tags and uses the given nodes verbatim |
| Models.ElevateInterimRoundTrip | OverpassSwift/OverpassModels.swift:113-122 | a way turned back into an interim way, with its node ids as references, elevates to itself |
| Models.ElevateRelation | OverpassSwift/OverpassProtocol.swift:197 | relation elevation keeps id and tags and uses the resolved ways and nodes verbatim |
| Models.WayPlus | OverpassSwift/OverpassModels.swift:96-104 | the merge keeps lhs's id and tags, and its nodes start with lhs's nodes. A node is in it exactly when it is in lhs, or in rhs when the two ways are equal. Unequal ways give lhs unchanged |
| Models.WayPlusIsLeft | OverpassSwift/OverpassModels.swift:96-104 | under field-wise equality, `lhs + rhs` is always `lhs` |
| Models.FirstEqual | OverpassSwift/OverpassModels.swift:151 | `first(where: ==)` finds a way exactly when an equal way is present, and returns that way |
| Models.MergeWay | OverpassSwift/OverpassModels.swift:150-156 | a way merged with its equal in the other result comes back unchanged |
| Models.MergeWays | OverpassSwift/OverpassModels.swift:150-156 | merging each way with its equal match leaves the ways unchanged |
| Models.ExpandedWith | OverpassSwift/OverpassModels.swift:149-162 | the merge takes the new bounds. Its ways are self's ways in order, followed by the other result's ways that are not among them. Its lone nodes are those of both results, each once |
| Models.ExpandedAppendsInOrder | OverpassSwift/OverpassModels.swift:150-158 | the merged ways are exactly self's ways followed by the other result's new ways in their order |
| Models.Expanded | OverpassSwift/OverpassModels.swift:169-171 | `expanded(with:)` takes the other result's bounds |
| Models.Plus | OverpassSwift/OverpassModels.swift:176-178 | `+` takes the right operand's bounds |
| Models.PlusIdempotent | OverpassSwift/OverpassModels.swift:149-178 | a result added to itself keeps its bounds, relations and ways, and the same set of lone nodes |
| Response.NodeEntry | OverpassSwift/OverpassProtocol.swift:120-124 | a `node` element is kept exactly when `lat` and `lon` are present and parse and `id` is present. Its key and id are the `id` attribute, at the parsed location |
| Response.TagEntry | OverpassSwift/OverpassProtocol.swift:132-134 | a `tag` child counts exactly when it has both `k` and `v` |
| Response.NdRef | OverpassSwift/OverpassProtocol.swift:135-137 | an `nd` child yields its `ref` exactly when it has one |
| Response.WayMember | OverpassSwift/OverpassProtocol.swift:154-160 | a way member counts exactly when its type is `way` and it has both `ref` and `role` |
| Response.NodeMember | OverpassSwift/OverpassProtocol.swift:161-163 | a node member counts exactly when its type is `node` and it has `ref` |
| Response.WayEntry | OverpassSwift/OverpassProtocol.swift:126-142 | a `way` element is kept exactly when it has `id`. Its tags come from its tag children, and its references are its `nd` refs in document order |
| Response.RelationOf | OverpassSwift/OverpassProtocol.swift:144-174 | a `relation` element is kept exactly when it has `id`, with its tags, way members and node members in document order |
| Response.NodeMapStep | OverpassSwift/OverpassProtocol.swift:118-124 | one more element rebinds its node's id when it is a valid node, and otherwise changes nothing |
| Response.InterimWayMapStep | OverpassSwift/OverpassProtocol.swift:126-142 | one more element rebinds its way's id when it is a valid way, and otherwise changes nothing |
| Response.InterimRelationsStep | OverpassSwift/OverpassProtocol.swift:171-174 | one more element appends its relation when it is a valid relation, duplicates included, and otherwise changes nothing |
| Response.NodeMapKeyedById | OverpassSwift/OverpassProtocol.swift:124 | every node in the node dictionary is stored under its own id |
| Response.InterimWayMapKeyedById | OverpassSwift/OverpassProtocol.swift:142 | every interim way is stored under its own id |
| Response.ResolveNodes | OverpassSwift/OverpassProtocol.swift:188 | resolution never yields more nodes than references, and only nodes stored in the dictionary |
| Response.ResolveWays | OverpassSwift/OverpassProtocol.swift:196 | resolution never yields more ways than references, and only ways stored in the dictionary |
| Response.ResolveNodesMembers | OverpassSwift/OverpassProtocol.swift:188 | resolved nodes are exactly the nodes bound to some reference |
| Response.ResolveNodesInOrder | OverpassSwift/OverpassProtocol.swift:188 | when every reference is known, resolution keeps length and order, repeats included |
| Response.WayMap | OverpassSwift/OverpassProtocol.swift:187-192 | the way dictionary has exactly the interim ways' ids as keys |
| Response.WayMapKeyedById | OverpassSwift/OverpassProtocol.swift:187-189 | each assembled way has its key as id, its interim way's tags, and its references resolved in order as nodes |
| Response.Relations | OverpassSwift/OverpassProtocol.swift:194-197 | one relation per interim relation, in order, each elevated with its resolved ways and nodes |
| Response.Assemble | OverpassSwift/OverpassProtocol.swift:181-210 | a way is top-level exactly when no relation uses its id. A node is lone exactly when no way and no relation uses its id |
| Response.Init | OverpassSwift/OverpassProtocol.swift:111-216 | the initializer always yields a result, never an error, with the given bounds and the assembled relations. Its ways are exactly the top-level ways and its lone nodes exactly the lone nodes |
| Response.RelationWaysStored | OverpassSwift/OverpassProtocol.swift:196 | every way a relation holds is the way stored under its id |
| Response.RelationsKeepOwnedWays | OverpassSwift/OverpassProtocol.swift:194-206 | each relation holds exactly the known ways of its way members, even though those ways are no longer top-level |
| Response.TopWaysNotOwned | OverpassSwift/OverpassProtocol.swift:200-206 | no top-level way shares its id with a way of a relation |
| Response.LoneNodesStored | OverpassSwift/OverpassProtocol.swift:208-215 | every listed lone node is one the assembly kept as lone |
| Response.LoneNodesNotInRelations | OverpassSwift/OverpassProtocol.swift:199-210 | no lone node shares its id with a node of a relation |
| Response.LoneNodesNotInWays | OverpassSwift/OverpassProtocol.swift:191-210 | no lone node shares its id with a node of a top-level way |
| Response.LoneNodesNotInOwnedWays | OverpassSwift/OverpassProtocol.swift:191-210 | no lone node shares its id with a node of a way owned by a relation |
| Response.LoneNodesExactly | OverpassSwift/OverpassProtocol.swift:118-215 | a node is listed as lone exactly when it is the last node parsed for its id and no way or relation uses that id |
| Response.TopWaysExactly | OverpassSwift/OverpassProtocol.swift:187-215 | a way is listed exactly when it is the assembled way for its id and no relation uses that id |
| Response.ResultListsDistinct | OverpassSwift/OverpassProtocol.swift:214-215 | neither the ways nor the lone nodes of the result repeat |
| ResponseExamples.PointAndWay | OverpassSwift/OverpassProtocol.swift:111-216 | a document with node n1 and a way through n1 yields that way with n1 resolved, and no lone node |
| ResponseExamples.PointAlone | OverpassSwift/OverpassProtocol.swift:111-216 | a document holding only node n1 yields no way and n1 as its one lone node |
| Language.Script | OverpassSwift/OverpassLanguage.swift:48-69 | a script is named `osm-script`, has exactly the properties timeout 10 and element-limit 50000, and holds the given contents |
| Language.Union | OverpassSwift/OverpassLanguage.swift:72-100 | a union has no properties, or exactly `into` when one is given, and holds the given contents |
| Language.QTypeRawInjective | OverpassSwift/OverpassLanguage.swift:104-109 | the four query types have distinct raw values, and a relation's is `rel` |
| Language.Query | OverpassSwift/OverpassLanguage.swift:111-140 | a query has exactly the properties `type` (the raw type) and `into` |
| Language.QueryDefault | OverpassSwift/OverpassLanguage.swift:115 | `into` defaults to `_` |
| Language.IdQuery | OverpassSwift/OverpassLanguage.swift:143-164 | an id query has exactly the properties `type` and `ref` |
| Language.RecurseText | OverpassSwift/OverpassLanguage.swift:184-188 | a recurse statement has exactly the property `type`, as given |
| Language.Recurse | OverpassSwift/OverpassLanguage.swift:178-182 | a typed recurse statement is named `recurse`, holds nothing, and has exactly the property `type`, the type's raw value |
| Language.RecurseInjective | OverpassSwift/OverpassLanguage.swift:167-182 | distinct recurse types give distinct statements |
| Language.HasKey | OverpassSwift/OverpassLanguage.swift:197-201 | a key filter has exactly the property `k` |
| Language.Negated | OverpassSwift/OverpassLanguage.swift:209-211 | a negated filter gains exactly `modv = not` and keeps every other property |
| Language.HasKV | OverpassSwift/OverpassLanguage.swift:203-212 | a value filter has exactly `k` and `v`, plus `modv = not` when not equal |
| Language.HasValue | OverpassSwift/OverpassLanguage.swift:214-216 | the plain value filter is the equal one, without `modv` |
| Language.HasRegex | OverpassSwift/OverpassLanguage.swift:218-227 | a regex filter has exactly `k` and `regv`, plus `modv = not` when not equal |
| Language.HasRegexValue | OverpassSwift/OverpassLanguage.swift:229-231 | the plain regex filter is the equal one, without `modv` |
| Language.FiltersDistinct | OverpassSwift/OverpassLanguage.swift:203-231 | value and regex filters never coincide, and negation always changes a filter |
| Language.Bounding | OverpassSwift/OverpassLanguage.swift:234-275 | the name follows the bounds kind. A box has exactly s, w, n and e, an area exactly its radius, a polygon exactly its point list, and arbitrary bounds no properties |
| Language.BoundingName | OverpassSwift/OverpassLanguage.swift:237-248 | a bounding statement's name is never empty, and is `query` exactly for arbitrary bounds |
| Language.BoundingNamesDistinct | OverpassSwift/OverpassLanguage.swift:237-248 | bounding names tell the four kinds apart. The arbitrary one shares the name `query` with Query, yet is a different statement |
| Language.Print | OverpassSwift/OverpassLanguage.swift:290-295 | a print statement has exactly `mode` and `from` |
| Language.PrintDefault | OverpassSwift/OverpassLanguage.swift:297-307 | the default print has mode `body` and from `_` |
| Language.ForEach | OverpassSwift/OverpassLanguage.swift:316-318 | a nameless helper whose contents are the body mapped over the collection, same length and order |
| Language.ForEachIndexed | OverpassSwift/OverpassLanguage.swift:320-322 | the same, with each element's index passed to the body |
| Language.ForEachFlat | OverpassSwift/OverpassLanguage.swift:324-326 | a nameless helper whose contents concatenate the bodies in order |
| Language.FlatBodiesSingletons | OverpassSwift/OverpassLanguage.swift:320-326 | concatenating one-statement bodies gives one statement per element, in order |
| Language.ForEachFlatSingletons | OverpassSwift/OverpassLanguage.swift:320-326 | the concatenating form with one-statement bodies equals the mapping form |
| Language.IfThen | OverpassSwift/OverpassLanguage.swift:334-344 | a nameless helper holding the contents when the condition holds, and nothing otherwise |
| Language.IfElse | OverpassSwift/OverpassLanguage.swift:346-376 | a nameless helper holding exactly the chosen branch |
| Language.IfVariants | OverpassSwift/OverpassLanguage.swift:334-376 | the one-branch form is the two-branch form with an empty else, and negating the condition swaps the branches |
| Request.Next | OverpassSwift/OverpassProtocol.swift:49-58 | the iterator ends exactly when no iterator has elements left. Otherwise it yields the first remaining element and keeps the rest in order |
| Request.Drain | OverpassSwift/OverpassProtocol.swift:44-75 | calling `next()` until it ends yields the concatenation of the iterators |
| Request.Frames | OverpassSwift/OverpassProtocol.swift:64-75 | filling a statement's iterators makes one per statement of its subtree, itself included, starting with its own children |
| Request.FramesAll | OverpassSwift/OverpassProtocol.swift:64-75 | filling the iterators of a list of statements makes one per statement of their subtrees |
| Request.FramesAllCount | OverpassSwift/OverpassProtocol.swift:64-75 | the filled iterators, together with the statements themselves, hold every statement of the subtrees |
| Request.StatementsAreDescendants | OverpassSwift/OverpassProtocol.swift:64-75 | iterating a request yields every statement below the root exactly once |
| Request.StatementsStartWithChildren | OverpassSwift/OverpassProtocol.swift:66-73 | iteration starts with the root's own children, in order |
| Request.LastBounds | OverpassSwift/OverpassProtocol.swift:35-39 | with no `Bounding`, the bounds stay as they were. Otherwise they are those of the last `Bounding` met |
| Request.SetupBox | OverpassSwift/OverpassProtocol.swift:33-40 | request bounds are `.arbitrary` without a `Bounding`, and otherwise those of the last `Bounding` met |
| Request.NewRequest | OverpassSwift/OverpassProtocol.swift:18-40 | a request's statement is an `osm-script` holding the given statements. Its bounds are `.arbitrary` when iteration meets no `Bounding`, and otherwise those of the last `Bounding` met |
| Request.LastBoundsAgree | OverpassSwift/OverpassProtocol.swift:35-39 | when every `Bounding` met carries the same bounds, those are the result |
| Request.SingleBoundsWin | OverpassSwift/OverpassProtocol.swift:23-40 | a request with at least one `Bounding` at any depth, all carrying the same bounds, takes those bounds |
| Request.Emit | OverpassSwift/OverpassProtocol.swift:81-94 | a statement emits only named elements. A named one emits exactly one element, with its name and its properties as attributes |
| Request.EmitAll | OverpassSwift/OverpassProtocol.swift:81-94 | a list of statements emits only named elements, one per statement when none of them has an empty name |
| Request.RequestDocument | OverpassSwift/OverpassProtocol.swift:80-100 | the document root is named after the root statement, has no attributes, and holds the emitted contents |
| Request.EmitAllNamed | OverpassSwift/OverpassProtocol.swift:81-94 | no emitted element has an empty name, at any depth |
| Request.EmitAllAppend | OverpassSwift/OverpassProtocol.swift:82-93 | emitting a list of statements emits each in order |
| Request.NamelessSpliced | OverpassSwift/OverpassProtocol.swift:83-84 | a statement with an empty name is replaced by its own contents, in place |
| Request.HelpersTransparent | OverpassSwift/OverpassProtocol.swift:83-84 | `If` and `ForEach` leave no element of their own: their contents are spliced in place |
| Request.Named | OverpassSwift/OverpassProtocol.swift:83 | exactly the statements with a non-empty name |
| Request.EmitAllCount | OverpassSwift/OverpassProtocol.swift:81-94 | the emitted elements are as many as the named statements of the subtrees |
| Request.DocumentSize | OverpassSwift/OverpassProtocol.swift:80-97 | the document holds one element per named statement below the root |

## Left out

- Networking (`OverpassClient.swift`): sessions, publishers and asynchronous delivery are I/O.
- The libxml2 wrapper is foreign code. Attribute lookup is an optional map lookup, and a document is its tree of elements. The wrapper's quirks are not modelled: a getter over a possibly-null C pointer, and a child iterator that appears to skip the first child.
- `diameter`: it needs a square root and `Double.infinity`, neither of which the model has.
- Floating point: `Double` is `real`, so rounding, NaN and infinities are not modelled. The square root of the distance is dropped, and no lemma relates the squared-form area tests to the square root, because that needs nonlinear real arithmetic.
- Parsing and printing of numbers are the parameters `parse` and `show`. The polygon's `"lat lon"` text is a plain join over `show`, whose formatting is not modelled.
- The `description` strings and the serialised XML bytes are textual output. The request document stops at the element tree.
- Builder closures (`@_functionBuilder`) and the single-statement initialisers are Swift syntax. Each becomes one function over a list of contents.
- `+=` on ways and results only assigns the result of `+`.
- `@dynamicMemberLookup` on `Way` becomes `Models.Tag`.
- The order of a Swift dictionary's values is undefined. `Response.Init` lists them by the first appearance of their ids in the document.
- BoundsDifference.Closest: sorting by distance breaks ties in a way Swift does not document. The model picks the earliest point in grid order at minimal distance, which is what a stable sort gives. Three contracts name the partner picked and so rely on this tie-break: the last ensures of `BoundsDifference.CollectRects`, the last ensures of `BoundsDifference.BoxMinusBox`, and `BoundsDifference.NearestPairEmitted`. With another tie-break, a point with several nearest partners (such as (1,1) in (0,0,2,2) minus (1,1,3,3)) could span a different box.
- BoundsDifference.BoxMinusBox: the contract does not claim that the output boxes cover `self` minus `another`. The doc comment of `difference` (OverpassTypes.swift:98-99) promises an area difference, though with the operands swapped. The grid pairing does not achieve it. For (0,0,10,10) minus (2,2,8,8) it emits only 2 by 2 squares (`BoundsDifference.RingBoxesAreSquares`), so a side strip such as (2,0,8,2) is never emitted. `BoundsDifference.RingLeavesStripUncovered` proves that the point (5,1) is left uncovered.
- Response.Init: the order of the ways and lone nodes is not stated. Only membership and the absence of repeats are, because the source's order is that of a dictionary.
- Models.ExpandedWith: the lone nodes are stated as a set without repeats. `Array(Set(_))` has no defined order.
- The relations of a merged result: the merge in OverpassModels.swift has no relations, so the left operand's relations pass through.
