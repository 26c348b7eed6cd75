/** The query statement tree (OverpassLanguage.swift). Every statement is a name, a
    dictionary of properties and child statements; a `Bounding` statement also
    remembers its bounds, which is how the request finds it. The result-builder
    closures are replaced by the sequences they produce: a single-statement closure
    is the one-element sequence. Number formatting, `String(Double)`, is the
    parameter `show`. */
module Language {
  import opened Wrappers
  import opened Geometry
  import opened Bounds

  /** `OverpassStatement`. */
  datatype Statement = Statement(
    name: string,
    properties: map<string, string>,
    contents: seq<Statement>,
    bounding: Option<Bounds>)

  /** A statement with no bounds attached. */
  function Plain(name: string, properties: map<string, string>, contents: seq<Statement>): Statement {
    Statement(name, properties, contents, None)
  }

  // ---------------------------------------------------------------------------
  // Script and Union

  /** The properties every script starts with. */
  const ScriptDefaults: map<string, string> := map["timeout" := "10", "element-limit" := "50000"]

  /** `Script { ... }`: the root statement. */
  function Script(contents: seq<Statement>): (r: Statement)
    ensures r.name == "osm-script" && r.bounding.None?
    ensures r.properties.Keys == {"timeout", "element-limit"}
    ensures r.properties["timeout"] == "10" && r.properties["element-limit"] == "50000"
    ensures r.contents == contents
  {
    Plain("osm-script", ScriptDefaults, contents)
  }

  /** `Union { ... }` and `Union(into:) { ... }`. */
  function Union(into: Option<string>, contents: seq<Statement>): (r: Statement)
    ensures r.name == "union" && r.contents == contents && r.bounding.None?
    ensures into.None? ==> r.properties == map[]
    ensures into.Some? ==> r.properties.Keys == {"into"} && r.properties["into"] == into.value
  {
    Plain("union", if into.Some? then map["into" := into.value] else map[], contents)
  }

  // ---------------------------------------------------------------------------
  // Queries

  /** `Query.QType`. */
  datatype QType = NodeType | WayType | RelationType | AreaType

  /** The raw value a query type is written with. */
  function QTypeRaw(t: QType): string {
    match t
    case NodeType => "node"
    case WayType => "way"
    case RelationType => "rel"
    case AreaType => "area"
  }

  /** Different query types are written differently, and a relation is written "rel". */
  lemma QTypeRawInjective(t: QType, u: QType)
    ensures QTypeRaw(t) == QTypeRaw(u) <==> t == u
    ensures QTypeRaw(RelationType) == "rel"
  {
  }

  /** `Query(t, into) { ... }`; `into` defaults to "_". */
  function Query(t: QType, into: string, contents: seq<Statement>): (r: Statement)
    ensures r.name == "query" && r.contents == contents && r.bounding.None?
    ensures r.properties.Keys == {"type", "into"}
    ensures r.properties["type"] == QTypeRaw(t) && r.properties["into"] == into
  {
    Plain("query", map["type" := QTypeRaw(t), "into" := into], contents)
  }

  /** `Query(t) { ... }`: the default result set "_". */
  function QueryDefault(t: QType, contents: seq<Statement>): (r: Statement)
    ensures r == Query(t, "_", contents)
    ensures r.properties["into"] == "_"
  {
    Query(t, "_", contents)
  }

  /** `IdQuery(t, ref:) { ... }`. */
  function IdQuery(t: QType, ref: string, contents: seq<Statement>): (r: Statement)
    ensures r.name == "id-query" && r.contents == contents && r.bounding.None?
    ensures r.properties.Keys == {"type", "ref"}
    ensures r.properties["type"] == QTypeRaw(t) && r.properties["ref"] == ref
  {
    Plain("id-query", map["type" := QTypeRaw(t), "ref" := ref], contents)
  }

  /** `Recurse.RecurseType`. */
  datatype RecurseType = Up | UpRel | Down | DownRel

  function RecurseRaw(t: RecurseType): string {
    match t
    case Up => "up"
    case UpRel => "up-rel"
    case Down => "down"
    case DownRel => "down-rel"
  }

  /** `Recurse(stringType:)`: any type text. */
  function RecurseText(stringType: string): (r: Statement)
    ensures r.name == "recurse" && r.contents == [] && r.bounding.None?
    ensures r.properties.Keys == {"type"} && r.properties["type"] == stringType
  {
    Plain("recurse", map["type" := stringType], [])
  }

  /** `Recurse(t)`: the same statement as the one written with `t`'s raw value. */
  function Recurse(t: RecurseType): (r: Statement)
    ensures r.name == "recurse" && r.contents == [] && r.bounding.None?
    ensures r.properties.Keys == {"type"} && r.properties["type"] == RecurseRaw(t)
  {
    RecurseText(RecurseRaw(t))
  }

  /** Different recursion types give different statements. */
  lemma RecurseInjective(t: RecurseType, u: RecurseType)
    ensures Recurse(t) == Recurse(u) <==> t == u
  {
    if Recurse(t) == Recurse(u) {
      assert Recurse(t).properties["type"] == RecurseRaw(t);
      assert Recurse(u).properties["type"] == RecurseRaw(u);
    }
  }

  // ---------------------------------------------------------------------------
  // Filters

  /** `HasKV(hasKey:)`. */
  function HasKey(key: string): (r: Statement)
    ensures r.name == "has-kv" && r.contents == [] && r.bounding.None?
    ensures r.properties.Keys == {"k"} && r.properties["k"] == key
  {
    Plain("has-kv", map["k" := key], [])
  }

  /** The negation marker added when `equals` is false. */
  function Negated(properties: map<string, string>, equals: bool): (r: map<string, string>)
    ensures equals ==> r == properties
    ensures !equals ==> r.Keys == properties.Keys + {"modv"} && r["modv"] == "not"
    ensures forall k :: k in properties && k != "modv" ==> k in r && r[k] == properties[k]
  {
    if equals then properties else properties["modv" := "not"]
  }

  /** `HasKV(key:equals:value:)`: keys `k` and `v`, plus `modv = "not"` when the
      value must differ. */
  function HasKV(key: string, equals: bool, value: string): (r: Statement)
    ensures r.name == "has-kv" && r.contents == [] && r.bounding.None?
    ensures r.properties.Keys == if equals then {"k", "v"} else {"k", "v", "modv"}
    ensures r.properties["k"] == key && r.properties["v"] == value
    ensures !equals ==> r.properties["modv"] == "not"
  {
    Plain("has-kv", Negated(map["k" := key, "v" := value], equals), [])
  }

  /** `HasKV(key:value:)`: the equality test. */
  function HasValue(key: string, value: string): (r: Statement)
    ensures r == HasKV(key, true, value)
    ensures "modv" !in r.properties
  {
    HasKV(key, true, value)
  }

  /** `HasKV(key:equals:regex:)`: `regv` in place of `v`. */
  function HasRegex(key: string, equals: bool, regex: string): (r: Statement)
    ensures r.name == "has-kv" && r.contents == [] && r.bounding.None?
    ensures r.properties.Keys == if equals then {"k", "regv"} else {"k", "regv", "modv"}
    ensures r.properties["k"] == key && r.properties["regv"] == regex
    ensures !equals ==> r.properties["modv"] == "not"
  {
    Plain("has-kv", Negated(map["k" := key, "regv" := regex], equals), [])
  }

  /** `HasKV(key:regex:)`: the matching test. */
  function HasRegexValue(key: string, regex: string): (r: Statement)
    ensures r == HasRegex(key, true, regex)
    ensures "modv" !in r.properties
  {
    HasRegex(key, true, regex)
  }

  /** A value filter and a regex filter are never the same statement, and negating
      a filter changes it. */
  lemma FiltersDistinct(key: string, value: string, regex: string, equals: bool)
    ensures HasKV(key, equals, value) != HasRegex(key, equals, regex)
    ensures HasKV(key, true, value) != HasKV(key, false, value)
    ensures HasRegex(key, true, regex) != HasRegex(key, false, regex)
  {
    assert "v" in HasKV(key, equals, value).properties;
    assert "v" !in HasRegex(key, equals, regex).properties;
    assert "modv" in HasKV(key, false, value).properties;
    assert "modv" in HasRegex(key, false, regex).properties;
  }

  // ---------------------------------------------------------------------------
  // Bounding

  /** The tag name of a bounding statement: never empty, so a bounding statement is
      always written as an element of its own, and "query" only for the unconstrained
      bounds. */
  function BoundingName(b: Bounds): (r: string)
    ensures r != ""
    ensures r == "query" <==> b.Arbitrary?
  {
    match b
    case Box(_, _, _, _) => "bbox-query"
    case Area(_, _) => "around"
    case Polygon(_) => "polygon-query"
    case Arbitrary => "query"
  }

  /** A polygon's points as "lat lon" pairs joined by spaces. */
  function PolygonText(points: seq<Point>, show: real -> string): string {
    if points == [] then ""
    else
      var first := show(points[0].lat) + " " + show(points[0].lon);
      if |points| == 1 then first else first + " " + PolygonText(points[1..], show)
  }

  /** `Bounding(bounds)`: a box has edges s, w, n, e, an area its radius, a polygon its
      joined points, and the unconstrained bounds nothing. */
  function Bounding(b: Bounds, show: real -> string): (r: Statement)
    ensures r.name == BoundingName(b) && r.contents == [] && r.bounding == Some(b)
    ensures b.Box? ==> r.properties.Keys == {"s", "w", "n", "e"}
    ensures b.Box? ==> r.properties["s"] == show(b.s) && r.properties["w"] == show(b.w)
    ensures b.Box? ==> r.properties["n"] == show(b.n) && r.properties["e"] == show(b.e)
    ensures b.Area? ==> r.properties.Keys == {"radius"} && r.properties["radius"] == show(b.radius)
    ensures b.Polygon? ==> r.properties.Keys == {"bounds"} && r.properties["bounds"] == PolygonText(b.points, show)
    ensures b.Arbitrary? ==> r.properties == map[]
  {
    var properties :=
      match b
      case Box(s, w, n, e) => map["s" := show(s), "w" := show(w), "n" := show(n), "e" := show(e)]
      case Area(_, radius) => map["radius" := show(radius)]
      case Polygon(points) => map["bounds" := PolygonText(points, show)]
      case Arbitrary => map[];
    Statement(BoundingName(b), properties, [], Some(b))
  }

  /** Bounding names tell the four kinds of bounds apart; the unconstrained one shares
      its name with `Query`, so only the attached bounds identify it. */
  lemma BoundingNamesDistinct(b: Bounds, c: Bounds, show: real -> string, t: QType)
    ensures BoundingName(b) == BoundingName(c) <==>
      (b.Box? && c.Box?) || (b.Area? && c.Area?) || (b.Polygon? && c.Polygon?) || (b.Arbitrary? && c.Arbitrary?)
    ensures Bounding(Arbitrary, show).name == Query(t, "_", []).name
    ensures Bounding(Arbitrary, show) != Query(t, "_", [])
  {
  }

  // ---------------------------------------------------------------------------
  // Output

  /** `Print.PrintType`. */
  datatype PrintType = Body | Skeleton | IdsOnly | Meta

  function PrintRaw(m: PrintType): string {
    match m
    case Body => "body"
    case Skeleton => "skeleton"
    case IdsOnly => "ids_only"
    case Meta => "meta"
  }

  /** `Print(mode, from:)`. */
  function Print(m: PrintType, from: string): (r: Statement)
    ensures r.name == "print" && r.contents == [] && r.bounding.None?
    ensures r.properties.Keys == {"mode", "from"}
    ensures r.properties["mode"] == PrintRaw(m) && r.properties["from"] == from
  {
    Plain("print", map["mode" := PrintRaw(m), "from" := from], [])
  }

  /** `Print()`: the body of the default set. */
  function PrintDefault(): (r: Statement)
    ensures r == Print(Body, "_")
    ensures r.properties["mode"] == "body" && r.properties["from"] == "_"
  {
    Print(Body, "_")
  }

  // ---------------------------------------------------------------------------
  // Helpers: statements without a name of their own.

  /** `ForEach(collection) { item in ... }`. */
  function ForEach<T>(collection: seq<T>, body: T -> Statement): (r: Statement)
    ensures r.name == "" && r.properties == map[] && r.bounding.None?
    ensures |r.contents| == |collection|
    ensures forall i :: 0 <= i < |collection| ==> r.contents[i] == body(collection[i])
  {
    Plain("", map[], seq(|collection|, i requires 0 <= i < |collection| => body(collection[i])))
  }

  /** `ForEach(collection) { index, item in ... }`. */
  function ForEachIndexed<T>(collection: seq<T>, body: (int, T) -> Statement): (r: Statement)
    ensures r.name == "" && r.properties == map[] && r.bounding.None?
    ensures |r.contents| == |collection|
    ensures forall i :: 0 <= i < |collection| ==> r.contents[i] == body(i, collection[i])
  {
    Plain("", map[], seq(|collection|, i requires 0 <= i < |collection| => body(i, collection[i])))
  }

  /** The bodies' statements, concatenated in order. */
  function FlatBodies<T>(collection: seq<T>, start: int, body: (int, T) -> seq<Statement>): seq<Statement>
    decreases |collection|
  {
    if collection == [] then []
    else body(start, collection[0]) + FlatBodies(collection[1..], start + 1, body)
  }

  /** `ForEach(collection) { index, item in ... }` with a builder body: the statements
      of every body, concatenated. */
  function ForEachFlat<T>(collection: seq<T>, body: (int, T) -> seq<Statement>): (r: Statement)
    ensures r.name == "" && r.properties == map[] && r.bounding.None?
    ensures r.contents == FlatBodies(collection, 0, body)
  {
    Plain("", map[], FlatBodies(collection, 0, body))
  }

  /** A builder body that always yields one statement gives the same contents as the
      plain indexed body. */
  lemma {:induction false} FlatBodiesSingletons<T>(collection: seq<T>, start: int, body: (int, T) -> seq<Statement>, one: (int, T) -> Statement)
    requires forall i, x :: body(i, x) == [one(i, x)]
    ensures |FlatBodies(collection, start, body)| == |collection|
    ensures forall i :: 0 <= i < |collection| ==> FlatBodies(collection, start, body)[i] == one(start + i, collection[i])
    decreases |collection|
  {
    if collection != [] {
      var rest := FlatBodies(collection[1..], start + 1, body);
      FlatBodiesSingletons(collection[1..], start + 1, body, one);
      assert FlatBodies(collection, start, body) == [one(start, collection[0])] + rest;
      forall i | 1 <= i < |collection|
        ensures FlatBodies(collection, start, body)[i] == one(start + i, collection[i])
      {
        assert collection[1..][i - 1] == collection[i];
      }
    }
  }

  /** `ForEachFlat` with one statement per item is `ForEachIndexed`. */
  lemma ForEachFlatSingletons<T>(collection: seq<T>, body: (int, T) -> seq<Statement>, one: (int, T) -> Statement)
    requires forall i, x :: body(i, x) == [one(i, x)]
    ensures ForEachFlat(collection, body) == ForEachIndexed(collection, one)
  {
    FlatBodiesSingletons(collection, 0, body, one);
  }

  /** `If(condition) { ... }`: the contents only when the condition holds. */
  function IfThen(condition: bool, contents: seq<Statement>): (r: Statement)
    ensures r.name == "" && r.properties == map[] && r.bounding.None?
    ensures condition ==> r.contents == contents
    ensures !condition ==> r.contents == []
  {
    Plain("", map[], if condition then contents else [])
  }

  /** `If(condition, trueContents:, falseContents:)`: exactly one branch. */
  function IfElse(condition: bool, whenTrue: seq<Statement>, whenFalse: seq<Statement>): (r: Statement)
    ensures r.name == "" && r.properties == map[] && r.bounding.None?
    ensures condition ==> r.contents == whenTrue
    ensures !condition ==> r.contents == whenFalse
  {
    Plain("", map[], if condition then whenTrue else whenFalse)
  }

  /** A one-branch `If` is a two-branch one with an empty false branch, and swapping
      the branches is negating the condition. */
  lemma IfVariants(condition: bool, whenTrue: seq<Statement>, whenFalse: seq<Statement>)
    ensures IfThen(condition, whenTrue) == IfElse(condition, whenTrue, [])
    ensures IfElse(condition, whenTrue, whenFalse) == IfElse(!condition, whenFalse, whenTrue)
  {
  }
}
