/** The nested map of configuration values: internal/config/helpers.go and the fold that fills it. */
module ConfigTree {
  import opened FileTree

  datatype Value =
    | Str(text: string)
    | List(items: seq<string>)
    | Map(tree: Tree)
  {
    predicate Leaf()
    {
      Str? || List?
    }
  }

  type Tree = map<string, Value>
  type Path = seq<string>

  /** What getValue finds at a path. */
  function Get(data: Tree, keys: Path): Option<Value>
    decreases |keys|
  {
    if keys == [] || keys[0] !in data then None
    else if |keys| == 1 then Some(data[keys[0]])
    else if data[keys[0]].Map? then Get(data[keys[0]].tree, keys[1..])
    else None
  }

  /** What putValue makes of a tree: intermediate maps are made where there is none, over whatever else is there. */
  function Put(data: Tree, value: Value, keys: Path): Tree
    decreases |keys|
  {
    if keys == [] then data
    else if |keys| == 1 then data[keys[0] := value]
    else
      var next := if keys[0] in data && data[keys[0]].Map? then data[keys[0]].tree else map[];
      data[keys[0] := Map(Put(next, value, keys[1..]))]
  }

  predicate Comparable(p: Path, q: Path)
  {
    p <= q || q <= p
  }

  predicate Above(p: Path, q: Path)
  {
    p <= q && p != q
  }

  lemma {:induction false} GetAfterPut(data: Tree, value: Value, keys: Path)
    requires keys != []
    ensures Get(Put(data, value, keys), keys) == Some(value)
    decreases |keys|
  {
    if |keys| > 1 {
      var next := if keys[0] in data && data[keys[0]].Map? then data[keys[0]].tree else map[];
      GetAfterPut(next, value, keys[1..]);
    }
  }

  /** What Put does to every other path: maps above it, the new value below it, nothing beside it. */
  lemma {:induction false} GetBesidePut(data: Tree, value: Value, keys: Path, q: Path)
    requires keys != [] && q != [] && q != keys
    ensures !Comparable(keys, q) ==> Get(Put(data, value, keys), q) == Get(data, q)
    ensures Above(q, keys) ==> Get(Put(data, value, keys), q).Some? && Get(Put(data, value, keys), q).value.Map?
    ensures Above(keys, q) && value.Leaf() ==> Get(Put(data, value, keys), q) == None
    decreases |keys|
  {
    var next := if keys[0] in data && data[keys[0]].Map? then data[keys[0]].tree else map[];
    if keys[0] == q[0] && |keys| > 1 && |q| > 1 {
      GetBesidePut(next, value, keys[1..], q[1..]);
      assert keys == [keys[0]] + keys[1..] && q == [q[0]] + q[1..];
      assert keys[1..] <= q[1..] <==> keys <= q;
      assert q[1..] <= keys[1..] <==> q <= keys;
      assert !(keys[0] in data && data[keys[0]].Map?) ==> Get(next, q[1..]) == None;
    }
  }

  /** Below a leaf there is nothing, and above a value there are only maps. */
  lemma {:induction false} OnlyMapsAbove(data: Tree, p: Path, q: Path)
    requires p != [] && Above(p, q) && Get(data, q).Some?
    ensures Get(data, p).Some? && Get(data, p).value.Map?
    decreases |p|
  {
    assert p[0] == q[0];
    if |p| > 1 {
      assert p[1..] <= q[1..];
      OnlyMapsAbove(data[p[0]].tree, p[1..], q[1..]);
    }
  }

  // The fold that both readers perform.

  datatype Pair = Pair(key: Path, value: string)

  /** One token: a first value is a string, later ones make a list, and a key that names a map is dropped. */
  function Accumulate(data: Tree, pair: Pair): Tree
  {
    match Get(data, pair.key)
    case Some(Str(text)) => Put(data, List([text, pair.value]), pair.key)
    case Some(List(items)) => Put(data, List(items + [pair.value]), pair.key)
    case Some(Map(_)) => data
    case None => Put(data, Str(pair.value), pair.key)
  }

  function Fold(pairs: seq<Pair>): Tree
  {
    if pairs == [] then map[] else Accumulate(Fold(pairs[..|pairs| - 1]), pairs[|pairs| - 1])
  }

  /** All values given for a key, in order. */
  function ValuesOf(pairs: seq<Pair>, key: Path): seq<string>
  {
    if pairs == [] then []
    else
      var last := pairs[|pairs| - 1];
      ValuesOf(pairs[..|pairs| - 1], key) + if last.key == key then [last.value] else []
  }

  /** The leaf that a key should have. */
  function LeafFor(values: seq<string>): Value
  {
    if |values| == 1 then Str(values[0]) else List(values)
  }

  predicate NonEmptyKeys(pairs: seq<Pair>)
  {
    forall p <- pairs :: p.key != []
  }

  /** No key is a proper prefix of another. */
  predicate PrefixFree(pairs: seq<Pair>)
  {
    forall p <- pairs, q <- pairs :: !Above(p.key, q.key)
  }

  /** Every key has its leaf, and there is no other leaf. */
  ghost predicate Faithful(pairs: seq<Pair>, data: Tree)
  {
    forall key: Path | key != [] :: FaithfulAt(pairs, data, key)
  }

  ghost predicate FaithfulAt(pairs: seq<Pair>, data: Tree, key: Path)
  {
    var values := ValuesOf(pairs, key);
    if values != [] then Get(data, key) == Some(LeafFor(values))
    else Get(data, key).Some? ==> Get(data, key).value.Map? && exists p <- pairs :: Above(key, p.key)
  }

  lemma {:induction false} ValuesOfSome(pairs: seq<Pair>, key: Path)
    ensures ValuesOf(pairs, key) != [] <==> exists p <- pairs :: p.key == key
  {
    if pairs != [] {
      var n := |pairs| - 1;
      ValuesOfSome(pairs[..n], key);
      assert pairs == pairs[..n] + [pairs[n]];
      assert pairs[n] in pairs;
      if p :| p in pairs[..n] && p.key == key {
        assert p in pairs;
      }
    }
  }

  lemma {:induction false} PrefixFreeIsFaithful(pairs: seq<Pair>)
    requires NonEmptyKeys(pairs) && PrefixFree(pairs)
    ensures Faithful(pairs, Fold(pairs))
  {
    if pairs != [] {
      var n := |pairs| - 1;
      assert pairs == pairs[..n] + [pairs[n]] && forall p <- pairs[..n] :: p in pairs;
      PrefixFreeIsFaithful(pairs[..n]);
      forall key: Path | key != []
        ensures FaithfulAt(pairs, Fold(pairs), key)
      {
        AccumulatedKey(pairs[..n], pairs[n], Fold(pairs[..n]), key);
      }
    }
  }

  lemma AccumulatedPut(before: seq<Pair>, last: Pair, d: Tree)
    requires NonEmptyKeys(before + [last]) && PrefixFree(before + [last]) && Faithful(before, d)
    ensures Accumulate(d, last) == Put(d, LeafFor(ValuesOf(before, last.key) + [last.value]), last.key)
  {
    var pairs := before + [last];
    assert last in pairs && forall p <- before :: p in pairs;
    assert FaithfulAt(before, d, last.key);
    var values := ValuesOf(before, last.key);
    if |values| == 1 {
      assert values + [last.value] == [values[0], last.value];
    }
  }

  lemma AccumulatedKey(before: seq<Pair>, last: Pair, d: Tree, key: Path)
    requires key != [] && NonEmptyKeys(before + [last]) && PrefixFree(before + [last]) && Faithful(before, d)
    ensures FaithfulAt(before + [last], Accumulate(d, last), key)
  {
    var pairs := before + [last];
    assert pairs[..|pairs| - 1] == before && last in pairs && forall p <- before :: p in pairs;
    AccumulatedPut(before, last, d);
    assert FaithfulAt(before, d, key);
    var leaf := LeafFor(ValuesOf(before, last.key) + [last.value]);
    if key == last.key {
      GetAfterPut(d, leaf, key);
    } else {
      assert ValuesOf(pairs, key) == ValuesOf(before, key);
      GetBesidePut(d, leaf, last.key, key);
      ValuesOfSome(before, key);
      if ValuesOf(before, key) != [] {
        var p :| p in before && p.key == key;
        assert p in pairs && !Above(p.key, last.key) && !Above(last.key, p.key);
      } else if !Comparable(last.key, key) && Get(d, key).Some? {
        var p :| p in before && Above(key, p.key);
        assert p in pairs;
      }
    }
  }

  /** The tree has exactly one leaf per key, with all its values, if and only if no key is a proper
      prefix of another. */
  lemma FaithfulIffPrefixFree(pairs: seq<Pair>)
    requires NonEmptyKeys(pairs)
    ensures Faithful(pairs, Fold(pairs)) <==> PrefixFree(pairs)
  {
    if PrefixFree(pairs) {
      PrefixFreeIsFaithful(pairs);
    } else if Faithful(pairs, Fold(pairs)) {
      var p, q :| p in pairs && q in pairs && Above(p.key, q.key);
      ValuesOfSome(pairs, p.key);
      ValuesOfSome(pairs, q.key);
      assert FaithfulAt(pairs, Fold(pairs), p.key) && FaithfulAt(pairs, Fold(pairs), q.key);
      OnlyMapsAbove(Fold(pairs), p.key, q.key);
      assert false;
    }
  }

  /** The value of `a` is lost beside one of `a.b`, whichever comes first. */
  lemma ClashLosesLeaf()
    ensures var short, long := Pair(["a"], "1"), Pair(["a", "b"], "2");
            Fold([short, long]) == Fold([long, short]) == map["a" := Map(map["b" := Str("2")])]
  {
    var short, long := Pair(["a"], "1"), Pair(["a", "b"], "2");
    var nested: Tree := map["b" := Str("2")];
    assert [short, long][..1] == [short] && [long, short][..1] == [long] && [short][..0] == [long][..0] == [];
    assert long.key[1..] == ["b"];
    assert Put(map[], Str("2"), ["b"]) == nested;
    assert Fold([short]) == map["a" := Str("1")];
    assert Fold([long]) == map["a" := Map(nested)];
  }
}
