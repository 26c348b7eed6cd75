/** `OverpassRequest` (OverpassProtocol.swift): the statement tree under a script, its
    iterator, the bounds it queries and the XML tree it is sent as. */
module Request {
  import opened Wrappers
  import opened Seqs
  import opened Bounds
  import opened Xml
  import opened Language

  /** A request: the script statement and the bounds found in it. */
  datatype OverpassRequest = OverpassRequest(statement: Statement, bounds: Bounds)

  // ---------------------------------------------------------------------------
  // Iteration

  /** `fillIterators`: an iterator over the statement's children, then the iterators
      of every child in turn. */
  function Frames(s: Statement): (r: seq<seq<Statement>>)
    ensures |r| == 1 + |Descendants(s)|
    ensures r[0] == s.contents
    decreases s, 1
  {
    [s.contents] + FramesAll(s.contents)
  }

  /** One iterator for every statement of the forest. */
  function FramesAll(cs: seq<Statement>): (r: seq<seq<Statement>>)
    ensures |r| == |DescendantsAll(cs)|
    decreases cs, 0
  {
    if cs == [] then [] else Frames(cs[0]) + FramesAll(cs[1..])
  }

  /** `_RequestIterator.next()`: the next statement of the first iterator that still
      has one, dropping exhausted iterators; `nil` once all are exhausted. What it
      returns followed by what remains is what there was. */
  function Next(iterators: seq<seq<Statement>>): (r: Option<(Statement, seq<seq<Statement>>)>)
    ensures r.None? <==> Flatten(iterators) == []
    ensures r.Some? ==> [r.value.0] + Flatten(r.value.1) == Flatten(iterators)
    decreases |iterators|
  {
    if iterators == [] then None
    else if iterators[0] != [] then
      var rest := [iterators[0][1..]] + iterators[1..];
      assert Flatten(rest) == iterators[0][1..] + Flatten(iterators[1..]) by {
        assert rest[1..] == iterators[1..];
      }
      Some((iterators[0][0], rest))
    else
      Next(iterators[1..])
  }

  /** Calling `next()` until it returns `nil`. */
  function Drain(iterators: seq<seq<Statement>>): (r: seq<Statement>)
    ensures r == Flatten(iterators)
    decreases |Flatten(iterators)|
  {
    match Next(iterators)
    case None => []
    case Some((s, rest)) => [s] + Drain(rest)
  }

  /** `for statement in request`: everything the iterator yields. */
  function Statements(root: Statement): seq<Statement> {
    Drain(Frames(root))
  }

  /** The statements below a root, each followed by its own descendants. */
  function Descendants(s: Statement): seq<Statement>
    decreases s, 1
  {
    DescendantsAll(s.contents)
  }

  function DescendantsAll(cs: seq<Statement>): seq<Statement>
    decreases cs, 0
  {
    if cs == [] then [] else [cs[0]] + Descendants(cs[0]) + DescendantsAll(cs[1..])
  }

  /** The frames of a list of statements, flattened: the first statement's children,
      the frames below them, then the frames of the other statements. */
  lemma FlattenFramesAll(cs: seq<Statement>)
    requires cs != []
    ensures Flatten(FramesAll(cs))
      == cs[0].contents + Flatten(FramesAll(cs[0].contents)) + Flatten(FramesAll(cs[1..]))
  {
    FlattenAppend(Frames(cs[0]), FramesAll(cs[1..]));
    FlattenAppend([cs[0].contents], FramesAll(cs[0].contents));
    assert Flatten([cs[0].contents]) == cs[0].contents;
  }

  /** The counting step of FramesAllCount, over plain sequences. */
  lemma CountStep(yielded: seq<Statement>, children: seq<Statement>, below: seq<Statement>, others: seq<Statement>,
                  cs: seq<Statement>, inside: seq<Statement>, after: seq<Statement>)
    requires cs != []
    requires yielded == children + below + others
    requires multiset(below) + multiset(children) == multiset(inside)
    requires multiset(others) + multiset(cs[1..]) == multiset(after)
    ensures multiset(yielded) + multiset(cs) == multiset([cs[0]] + inside + after)
  {
    assert cs == [cs[0]] + cs[1..];
  }

  lemma {:induction false} FramesAllCount(cs: seq<Statement>)
    ensures multiset(Flatten(FramesAll(cs))) + multiset(cs) == multiset(DescendantsAll(cs))
    decreases cs, 0
  {
    if cs != [] {
      var c, rest := cs[0], cs[1..];
      FlattenFramesAll(cs);
      FramesAllCount(c.contents);
      FramesAllCount(rest);
      CountStep(Flatten(FramesAll(cs)), c.contents, Flatten(FramesAll(c.contents)), Flatten(FramesAll(rest)),
                cs, DescendantsAll(c.contents), DescendantsAll(rest));
    }
  }

  /** The iterator yields every statement below the root exactly once (the root itself
      is not yielded): the same multiset as the tree's descendants. */
  lemma StatementsAreDescendants(root: Statement)
    ensures multiset(Statements(root)) == multiset(Descendants(root))
  {
    FlattenAppend([root.contents], FramesAll(root.contents));
    assert Flatten([root.contents]) == root.contents;
    FramesAllCount(root.contents);
  }

  /** The root's own children come first, in order. */
  lemma StatementsStartWithChildren(root: Statement)
    ensures root.contents <= Statements(root)
  {
    FlattenAppend([root.contents], FramesAll(root.contents));
    assert Flatten([root.contents]) == root.contents;
  }

  // ---------------------------------------------------------------------------
  // Bounds

  /** The loop of `setupBox`: every `Bounding` met replaces the bounds found so far. */
  function LastBounds(statements: seq<Statement>, current: Bounds): (r: Bounds)
    ensures (forall i :: 0 <= i < |statements| ==> statements[i].bounding.None?) ==> r == current
    ensures forall i :: 0 <= i < |statements| ==>
      ((statements[i].bounding.Some? && forall j :: i < j < |statements| ==> statements[j].bounding.None?)
       ==> r == statements[i].bounding.value)
    decreases |statements|
  {
    if statements == [] then current
    else
      var next := if statements[0].bounding.Some? then statements[0].bounding.value else current;
      var r := LastBounds(statements[1..], next);
      assert forall i :: 1 <= i < |statements| ==> statements[i] == statements[1..][i - 1];
      r
  }

  /** `setupBox` from `.arbitrary`: the bounds of the last `Bounding` the iterator
      yields, or `.arbitrary` when there is none. */
  function SetupBox(root: Statement): (r: Bounds)
    ensures (forall s :: s in Statements(root) ==> s.bounding.None?) ==> r == Arbitrary
    ensures forall i :: 0 <= i < |Statements(root)| ==>
      ((Statements(root)[i].bounding.Some? && forall j :: i < j < |Statements(root)| ==> Statements(root)[j].bounding.None?)
       ==> r == Statements(root)[i].bounding.value)
  {
    LastBounds(Statements(root), Arbitrary)
  }

  /** `OverpassRequest { ... }`: a script holding the statements, with its bounds set. */
  function NewRequest(contents: seq<Statement>): (r: OverpassRequest)
    ensures r.statement.name == "osm-script" && r.statement.contents == contents
    ensures r.statement.bounding.None?
    ensures (forall s :: s in Statements(r.statement) ==> s.bounding.None?) ==> r.bounds == Arbitrary
    ensures forall i :: 0 <= i < |Statements(r.statement)| ==>
      ((Statements(r.statement)[i].bounding.Some?
        && forall j :: i < j < |Statements(r.statement)| ==> Statements(r.statement)[j].bounding.None?)
       ==> r.bounds == Statements(r.statement)[i].bounding.value)
  {
    OverpassRequest(Script(contents), SetupBox(Script(contents)))
  }

  /** When every `Bounding` met carries the same bounds, those are the result. */
  lemma {:induction false} LastBoundsAgree(statements: seq<Statement>, current: Bounds, b: Bounds)
    requires exists s :: s in statements && s.bounding.Some?
    requires forall s :: s in statements && s.bounding.Some? ==> s.bounding.value == b
    ensures LastBounds(statements, current) == b
    decreases |statements|
  {
    var next := if statements[0].bounding.Some? then statements[0].bounding.value else current;
    assert forall s :: s in statements[1..] ==> s in statements;
    if exists s :: s in statements[1..] && s.bounding.Some? {
      LastBoundsAgree(statements[1..], next, b);
    } else {
      assert forall i :: 0 <= i < |statements[1..]| ==> statements[1..][i].bounding.None?;
      assert statements[0].bounding.Some?;
    }
  }

  /** A script whose bounding statements, at any depth, all carry the same bounds, and
      which has at least one, queries those bounds. */
  lemma SingleBoundsWin(contents: seq<Statement>, b: Bounds)
    requires exists s :: s in Descendants(Script(contents)) && s.bounding == Some(b)
    requires forall s :: s in Descendants(Script(contents)) && s.bounding.Some? ==> s.bounding.value == b
    ensures NewRequest(contents).bounds == b
  {
    var root := Script(contents);
    var all := Statements(root);
    StatementsAreDescendants(root);
    var s :| s in Descendants(root) && s.bounding == Some(b);
    assert s in multiset(all);
    forall t | t in all && t.bounding.Some? ensures t.bounding.value == b {
      assert t in multiset(Descendants(root));
    }
    LastBoundsAgree(all, Arbitrary, b);
  }

  // ---------------------------------------------------------------------------
  // Request document

  /** `append(node, statement)`: a named child becomes an element carrying its
      properties as attributes; a child with an empty name adds its own children in
      its place. */
  function Emit(s: Statement): (r: seq<XElem>)
    ensures forall e :: e in r ==> e.name != ""
    ensures s.name != "" ==> |r| == 1 && r[0].name == s.name && r[0].attrs == s.properties
    decreases s, 1
  {
    if s.name == "" then EmitAll(s.contents)
    else [XElem(s.name, s.properties, EmitAll(s.contents))]
  }

  /** The children of a node: named elements only, one per statement when none of
      them is spliced. */
  function EmitAll(cs: seq<Statement>): (r: seq<XElem>)
    ensures forall e :: e in r ==> e.name != ""
    ensures (forall c :: c in cs ==> c.name != "") ==> |r| == |cs|
    decreases cs, 0
  {
    if cs == [] then [] else Emit(cs[0]) + EmitAll(cs[1..])
  }

  /** `requestData`'s tree: the root element is named after the script and carries no
      attributes; the script's own properties are not written. */
  function RequestDocument(request: OverpassRequest): (r: XElem)
    ensures r.name == request.statement.name && r.attrs == map[]
    ensures r.children == EmitAll(request.statement.contents)
  {
    XElem(request.statement.name, map[], EmitAll(request.statement.contents))
  }

  /** Every element of a tree has a non-empty name. */
  predicate AllNamed(e: XElem)
    decreases e, 1
  {
    e.name != "" && AllNamedAll(e.children)
  }

  predicate AllNamedAll(es: seq<XElem>)
    decreases es, 0
  {
    es == [] || (AllNamed(es[0]) && AllNamedAll(es[1..]))
  }

  lemma {:induction false} AllNamedAppend(a: seq<XElem>, b: seq<XElem>)
    requires AllNamedAll(a) && AllNamedAll(b)
    ensures AllNamedAll(a + b)
    decreases |a|
  {
    if a != [] {
      assert (a + b)[0] == a[0];
      assert (a + b)[1..] == a[1..] + b;
      AllNamedAppend(a[1..], b);
    } else {
      assert a + b == b;
    }
  }

  /** No element of the request document has an empty name: nameless statements leave
      no trace of their own. */
  lemma {:induction false} EmitNamed(s: Statement)
    ensures AllNamedAll(Emit(s))
    decreases s, 1
  {
    EmitAllNamed(s.contents);
  }

  lemma {:induction false} EmitAllNamed(cs: seq<Statement>)
    ensures AllNamedAll(EmitAll(cs))
    decreases cs, 0
  {
    if cs != [] {
      EmitNamed(cs[0]);
      EmitAllNamed(cs[1..]);
      AllNamedAppend(Emit(cs[0]), EmitAll(cs[1..]));
    }
  }

  /** Emitting a sequence of statements is emitting each in turn. */
  lemma {:induction false} EmitAllAppend(a: seq<Statement>, b: seq<Statement>)
    ensures EmitAll(a + b) == EmitAll(a) + EmitAll(b)
    decreases |a|
  {
    if a == [] {
      assert a + b == b;
    } else {
      var c := a + b;
      assert c[0] == a[0] && c[1..] == a[1..] + b;
      EmitAllAppend(a[1..], b);
      assert EmitAll(c) == Emit(a[0]) + EmitAll(a[1..] + b);
      ElementsAssoc(Emit(a[0]), EmitAll(a[1..]), EmitAll(b));
    }
  }

  lemma ElementsAssoc(x: seq<XElem>, y: seq<XElem>, z: seq<XElem>)
    ensures x + (y + z) == (x + y) + z
  {
  }

  /** A statement with an empty name is spliced: in the document its children stand
      where it stands. */
  lemma NamelessSpliced(s: Statement, before: seq<Statement>, after: seq<Statement>)
    requires s.name == ""
    ensures EmitAll(before + [s] + after) == EmitAll(before) + EmitAll(s.contents) + EmitAll(after)
  {
    EmitAllAppend(before + [s], after);
    EmitAllAppend(before, [s]);
    EmitAllSingle(s);
  }

  lemma EmitAllSingle(s: Statement)
    ensures EmitAll([s]) == Emit(s)
  {
    assert [s][1..] == [];
    assert Emit(s) + [] == Emit(s);
  }

  /** `If` and `ForEach` are transparent: the document holds the chosen branch, or the
      bodies, in their place. */
  lemma HelpersTransparent<T>(condition: bool, whenTrue: seq<Statement>, whenFalse: seq<Statement>,
                              collection: seq<T>, body: T -> Statement, before: seq<Statement>, after: seq<Statement>)
    ensures EmitAll(before + [IfElse(condition, whenTrue, whenFalse)] + after)
      == EmitAll(before) + EmitAll(if condition then whenTrue else whenFalse) + EmitAll(after)
    ensures EmitAll(before + [ForEach(collection, body)] + after)
      == EmitAll(before) + EmitAll(ForEach(collection, body).contents) + EmitAll(after)
  {
    NamelessSpliced(IfElse(condition, whenTrue, whenFalse), before, after);
    NamelessSpliced(ForEach(collection, body), before, after);
  }

  /** The number of elements in a forest. */
  function CountAll(es: seq<XElem>): nat
    decreases es, 0
  {
    if es == [] then 0 else 1 + CountAll(es[0].children) + CountAll(es[1..])
  }

  lemma {:induction false} CountAllAppend(a: seq<XElem>, b: seq<XElem>)
    ensures CountAll(a + b) == CountAll(a) + CountAll(b)
    decreases |a|
  {
    if a == [] {
      assert a + b == b;
    } else {
      assert (a + b)[0] == a[0];
      assert (a + b)[1..] == a[1..] + b;
      CountAllAppend(a[1..], b);
    }
  }

  /** The statements that have a name. */
  function Named(cs: seq<Statement>): (r: seq<Statement>)
    ensures forall s :: s in r <==> s in cs && s.name != ""
  {
    if cs == [] then []
    else
      assert forall s :: s in cs <==> s == cs[0] || s in cs[1..];
      (if cs[0].name != "" then [cs[0]] else []) + Named(cs[1..])
  }

  lemma {:induction false} NamedAppend(a: seq<Statement>, b: seq<Statement>)
    ensures Named(a + b) == Named(a) + Named(b)
    decreases |a|
  {
    if a == [] {
      assert a + b == b;
    } else {
      assert (a + b)[0] == a[0];
      assert (a + b)[1..] == a[1..] + b;
      NamedAppend(a[1..], b);
    }
  }

  /** The document has one element per named statement below the root. */
  lemma {:induction false} EmitCount(s: Statement)
    ensures CountAll(Emit(s)) == |Named([s] + Descendants(s))|
    decreases s, 1
  {
    EmitAllCount(s.contents);
    NamedAppend([s], Descendants(s));
    if s.name != "" {
      var e := XElem(s.name, s.properties, EmitAll(s.contents));
      assert CountAll([e]) == 1 + CountAll(e.children) + CountAll([]);
    }
  }

  lemma {:induction false} EmitAllCount(cs: seq<Statement>)
    ensures CountAll(EmitAll(cs)) == |Named(DescendantsAll(cs))|
    decreases cs, 0
  {
    if cs != [] {
      EmitCount(cs[0]);
      EmitAllCount(cs[1..]);
      CountAllAppend(Emit(cs[0]), EmitAll(cs[1..]));
      NamedAppend([cs[0]] + Descendants(cs[0]), DescendantsAll(cs[1..]));
    }
  }

  /** The request document holds one element per named statement of the script. */
  lemma DocumentSize(request: OverpassRequest)
    ensures CountAll(RequestDocument(request).children) == |Named(Descendants(request.statement))|
  {
    EmitAllCount(request.statement.contents);
  }
}
