/** Sequence and map combinators the Swift code takes from its standard library:
    `compactMap`, `filter`, `Array(Set(...))`, dictionary assignment, `sorted()`. */
module Seqs {
  import opened Wrappers

  /** No element occurs twice. */
  ghost predicate Distinct<T>(s: seq<T>) {
    forall i, j :: 0 <= i < j < |s| ==> s[i] != s[j]
  }

  /** `compactMap`: apply `f` to every element, keep the `Some` payloads in order. */
  function FilterMap<A(!new), B(!new)>(xs: seq<A>, f: A -> Option<B>): (r: seq<B>)
    ensures |r| <= |xs|
    ensures forall y :: y in r <==> exists x :: x in xs && f(x) == Some(y)
  {
    if xs == [] then []
    else
      var rest := FilterMap(xs[1..], f);
      assert forall x :: x in xs[1..] ==> x in xs;
      assert forall x :: x in xs ==> x == xs[0] || x in xs[1..];
      match f(xs[0])
      case Some(y) => [y] + rest
      case None => rest
  }

  /** `compactMap` distributes over concatenation, so it keeps document order. */
  lemma {:induction false} FilterMapAppend<A(!new), B(!new)>(xs: seq<A>, ys: seq<A>, f: A -> Option<B>)
    ensures FilterMap(xs + ys, f) == FilterMap(xs, f) + FilterMap(ys, f)
  {
    if xs == [] {
      assert xs + ys == ys;
    } else {
      assert (xs + ys)[1..] == xs[1..] + ys;
      FilterMapAppend(xs[1..], ys, f);
    }
  }

  /** When `f` never fails, `compactMap` is `map`: same length, same positions. */
  lemma {:induction false} FilterMapTotal<A(!new), B(!new)>(xs: seq<A>, f: A -> Option<B>)
    requires forall x :: x in xs ==> f(x).Some?
    ensures |FilterMap(xs, f)| == |xs|
    ensures forall i :: 0 <= i < |xs| ==> FilterMap(xs, f)[i] == f(xs[i]).value
  {
    if xs != [] {
      FilterMapTotal(xs[1..], f);
      var rest := FilterMap(xs[1..], f);
      assert FilterMap(xs, f) == [f(xs[0]).value] + rest;
      forall i | 1 <= i < |xs| ensures FilterMap(xs, f)[i] == f(xs[i]).value {
        assert xs[1..][i - 1] == xs[i];
      }
    }
  }

  /** `compactMap` over one element. */
  lemma FilterMapSingle<A(!new), B(!new)>(x: A, f: A -> Option<B>)
    ensures f(x).Some? ==> FilterMap([x], f) == [f(x).value]
    ensures f(x).None? ==> FilterMap([x], f) == []
  {
    assert [x][1..] == [];
  }

  /** `xs.filter { !ys.contains($0) }`. */
  function Without<T(==,!new)>(xs: seq<T>, ys: seq<T>): (r: seq<T>)
    ensures |r| <= |xs|
    ensures forall x :: x in r <==> x in xs && x !in ys
  {
    if xs == [] then []
    else
      var rest := Without(xs[1..], ys);
      assert forall x :: x in xs ==> x == xs[0] || x in xs[1..];
      if xs[0] in ys then rest else [xs[0]] + rest
  }

  /** Filtering by a sequence that holds every element leaves nothing. */
  lemma {:induction false} WithoutCovered<T(!new)>(xs: seq<T>, ys: seq<T>)
    requires forall x :: x in xs ==> x in ys
    ensures Without(xs, ys) == []
  {
    if xs != [] {
      WithoutCovered(xs[1..], ys);
    }
  }

  /** `Array(Set(s))`: one copy of each element. Swift leaves the order open; this
      keeps the first occurrence of each element, and no contract depends on it. */
  function Dedup<T(==,!new)>(s: seq<T>): (r: seq<T>)
    ensures forall x :: x in r <==> x in s
    ensures Distinct(r)
    ensures |r| <= |s|
    decreases |s|
  {
    if s == [] then []
    else
      var init := Dedup(s[..|s| - 1]);
      var last := s[|s| - 1];
      assert forall x :: x in s <==> x in s[..|s| - 1] || x == last by {
        assert s == s[..|s| - 1] + [last];
      }
      if last in init then init else init + [last]
  }

  /** Entry `i` is the last one with its key. */
  ghost predicate LastFor<K, V>(entries: seq<(K, V)>, i: int)
    requires 0 <= i < |entries|
  {
    forall j :: i < j < |entries| ==> entries[j].0 != entries[i].0
  }

  /** The keys of a list of entries, in order. */
  function Firsts<K, V>(entries: seq<(K, V)>): (r: seq<K>)
    ensures |r| == |entries|
    ensures forall i :: 0 <= i < |entries| ==> r[i] == entries[i].0
  {
    if entries == [] then [] else [entries[0].0] + Firsts(entries[1..])
  }

  /** `for (k, v) in entries { dict[k] = v }` starting from an empty dictionary:
      exactly the keys that occur are present. */
  function LastWins<K(!new), V>(entries: seq<(K, V)>): (m: map<K, V>)
    ensures forall k :: k in m <==> k in Firsts(entries)
    decreases |entries|
  {
    if entries == [] then map[]
    else
      var init := entries[..|entries| - 1];
      var last := entries[|entries| - 1];
      assert Firsts(entries) == Firsts(init) + [last.0];
      LastWins(init)[last.0 := last.1]
  }

  /** One more assignment rebinds its key and leaves the other keys alone. */
  lemma LastWinsSnoc<K(!new), V>(entries: seq<(K, V)>, x: (K, V))
    ensures LastWins(entries + [x]) == LastWins(entries)[x.0 := x.1]
  {
    assert (entries + [x])[..|entries|] == entries;
  }

  /** Later entries overwrite earlier ones: a key is bound to its last value. */
  lemma {:induction false} LastWinsValue<K(!new), V>(entries: seq<(K, V)>, i: int)
    requires 0 <= i < |entries| && LastFor(entries, i)
    ensures entries[i].0 in LastWins(entries)
    ensures LastWins(entries)[entries[i].0] == entries[i].1
    decreases |entries|
  {
    var init := entries[..|entries| - 1];
    var last := entries[|entries| - 1];
    assert LastWins(entries) == LastWins(init)[last.0 := last.1];
    if i < |init| {
      assert init[i] == entries[i];
      assert forall j :: i < j < |init| ==> init[j] == entries[j];
      LastWinsValue(init, i);
    }
  }

  /** Every binding of the dictionary is one of the entries. */
  lemma {:induction false} LastWinsFromEntries<K(!new), V>(entries: seq<(K, V)>)
    ensures forall k :: k in LastWins(entries) ==> (k, LastWins(entries)[k]) in entries
    decreases |entries|
  {
    if entries != [] {
      var init := entries[..|entries| - 1];
      LastWinsFromEntries(init);
      assert forall e :: e in init ==> e in entries;
    }
  }

  /** The values bound to `keys`, in the order of the keys, skipping unbound ones. */
  function Values<K(!new), V(!new)>(keys: seq<K>, m: map<K, V>): (r: seq<V>)
    ensures forall v :: v in r <==> exists k :: k in keys && k in m && m[k] == v
  {
    if keys == [] then []
    else
      var rest := Values(keys[1..], m);
      assert forall k :: k in keys <==> k == keys[0] || k in keys[1..];
      if keys[0] in m then [m[keys[0]]] + rest else rest
  }

  /** Keys that are not bound list nothing. */
  lemma {:induction false} ValuesUnbound<K(!new), V(!new)>(keys: seq<K>, m: map<K, V>)
    requires forall k :: k in keys ==> k !in m
    ensures Values(keys, m) == []
  {
    if keys != [] {
      ValuesUnbound(keys[1..], m);
    }
  }

  /** Listing a dictionary whose values carry their own key, by distinct keys, lists
      no value twice. */
  lemma {:induction false} ValuesDistinct<K(!new), V(!new)>(keys: seq<K>, m: map<K, V>, key: V -> K)
    requires Distinct(keys)
    requires forall k :: k in m ==> key(m[k]) == k
    ensures Distinct(Values(keys, m))
  {
    if keys != [] {
      assert Distinct(keys[1..]);
      ValuesDistinct(keys[1..], m, key);
      if keys[0] in m {
        var rest := Values(keys[1..], m);
        assert keys[0] !in keys[1..];
        assert m[keys[0]] !in rest;
      }
    }
  }

  /** Concatenation of a sequence of sequences. */
  function Flatten<T(!new)>(ss: seq<seq<T>>): (r: seq<T>)
    ensures forall x :: x in r <==> exists i :: 0 <= i < |ss| && x in ss[i]
  {
    if ss == [] then []
    else
      var rest := Flatten(ss[1..]);
      assert forall i :: 1 <= i < |ss| ==> ss[i] == ss[1..][i - 1];
      ss[0] + rest
  }

  lemma {:induction false} FlattenAppend<T(!new)>(a: seq<seq<T>>, b: seq<seq<T>>)
    ensures Flatten(a + b) == Flatten(a) + Flatten(b)
  {
    if a == [] {
      assert a + b == b;
    } else {
      assert (a + b)[1..] == a[1..] + b;
      FlattenAppend(a[1..], b);
    }
  }

  /** Ascending order. */
  ghost predicate Sorted(s: seq<real>) {
    forall i, j :: 0 <= i < j < |s| ==> s[i] <= s[j]
  }

  /** `sorted()` on an array of coordinates. */
  function Sort(s: seq<real>): (r: seq<real>)
    ensures Sorted(r)
    ensures multiset(r) == multiset(s)
  {
    if s == [] then []
    else
      assert s == [s[0]] + s[1..];
      Insert(s[0], Sort(s[1..]))
  }

  /** A smallest element in front of a sorted sequence keeps it sorted. */
  lemma SortedCons(h: real, t: seq<real>)
    requires Sorted(t)
    requires forall y :: y in t ==> h <= y
    ensures Sorted([h] + t)
  {
    var r := [h] + t;
    forall i, j | 0 <= i < j < |r| ensures r[i] <= r[j] {
      assert r[j] == t[j - 1];
      if i > 0 {
        assert r[i] == t[i - 1];
      } else {
        assert t[j - 1] in t;
      }
    }
  }

  /** One insertion step of the sort. */
  function Insert(x: real, s: seq<real>): (r: seq<real>)
    requires Sorted(s)
    ensures Sorted(r)
    ensures multiset(r) == multiset(s) + multiset{x}
  {
    if s == [] || x <= s[0] then
      SortedCons(x, s);
      [x] + s
    else
      var rest := Insert(x, s[1..]);
      assert s == [s[0]] + s[1..];
      assert forall y :: y in rest ==> s[0] <= y by {
        forall y | y in rest ensures s[0] <= y {
          assert y in multiset(rest);
        }
      }
      SortedCons(s[0], rest);
      [s[0]] + rest
  }
}
