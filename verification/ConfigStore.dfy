/** The nested maps as they are in memory: getValue and putValue (internal/config/helpers.go) follow references
    from map to map, and putValue changes the maps in place. */
module ConfigStore {
  import opened FileTree
  import opened ConfigTree

  /** An entry of a map in memory; a nested map is a reference. */
  datatype Slot = Text(text: string) | Many(items: seq<string>) | Sub(ref: nat)

  type Heap = seq<map<string, Slot>>

  predicate IsRef(h: Heap, r: nat, k: string, c: nat)
  {
    r < |h| && k in h[r] && h[r][k] == Sub(c)
  }

  /** A map is older than the maps inside it, and is inside one other map at most. */
  ghost predicate Nested(h: Heap)
  {
    && (forall r: nat, k, c: nat :: IsRef(h, r, k, c) ==> r < c < |h|)
    && (forall r: nat, k, s: nat, l, c: nat :: IsRef(h, r, k, c) && IsRef(h, s, l, c) ==> r == s && k == l)
  }

  /** The tree that a map stands for. */
  function Abs(h: Heap, r: nat): Tree
    requires Nested(h) && r < |h|
    decreases |h| - r
  {
    map k | k in h[r] ::
      match h[r][k]
      case Text(text) => Str(text)
      case Many(items) => List(items)
      case Sub(c) => assert IsRef(h, r, k, c); Map(Abs(h, c))
  }

  /** Following a path of references. */
  function Walk(h: Heap, r: nat, p: Path): Option<nat>
    decreases |p|
  {
    if p == [] then Some(r)
    else if r < |h| && p[0] in h[r] && h[r][p[0]].Sub? then Walk(h, h[r][p[0]].ref, p[1..])
    else None
  }

  function ValueOf(h: Heap, s: Slot): Value
    requires Nested(h) && (s.Sub? ==> s.ref < |h|)
  {
    match s
    case Text(text) => Str(text)
    case Many(items) => List(items)
    case Sub(c) => Map(Abs(h, c))
  }

  function Set(h: Heap, c: nat, k: string, s: Slot): Heap
    requires c < |h|
  {
    h[c := h[c][k := s]]
  }

  // Walks.

  lemma {:induction false} WalkLast(h: Heap, r: nat, p: Path)
    requires p != [] && Walk(h, r, p).Some?
    ensures var n := |p| - 1;
            Walk(h, r, p[..n]).Some? && IsRef(h, Walk(h, r, p[..n]).value, p[n], Walk(h, r, p).value)
    decreases |p|
  {
    var n := |p| - 1;
    if n > 0 {
      WalkLast(h, h[r][p[0]].ref, p[1..]);
      assert p[..n][1..] == p[1..][..n - 1];
    }
  }

  lemma {:induction false} WalkOn(h: Heap, r: nat, p: Path, k: string, c: nat)
    requires Walk(h, r, p).Some? && IsRef(h, Walk(h, r, p).value, k, c)
    ensures Walk(h, r, p + [k]) == Some(c)
    decreases |p|
  {
    if p == [] {
      assert [k][1..] == [] && p + [k] == [k];
    } else {
      assert (p + [k])[1..] == p[1..] + [k];
      WalkOn(h, h[r][p[0]].ref, p[1..], k, c);
    }
  }

  lemma {:induction false} WalkDown(h: Heap, r: nat, p: Path)
    requires Nested(h) && r < |h| && Walk(h, r, p).Some?
    ensures r <= Walk(h, r, p).value < |h| && (p != [] ==> r < Walk(h, r, p).value)
    decreases |p|
  {
    if p != [] {
      assert IsRef(h, r, p[0], h[r][p[0]].ref);
      WalkDown(h, h[r][p[0]].ref, p[1..]);
    }
  }

  /** There is one way at most from one map to another. */
  lemma {:induction false} OneWay(h: Heap, r: nat, p: Path, q: Path)
    requires Nested(h) && r < |h| && Walk(h, r, p).Some? && Walk(h, r, p) == Walk(h, r, q)
    ensures p == q
    decreases |p|
  {
    WalkDown(h, r, p);
    WalkDown(h, r, q);
    if p != [] {
      WalkLast(h, r, p);
      WalkLast(h, r, q);
      var m, n := |p| - 1, |q| - 1;
      OneWay(h, r, p[..m], q[..n]);
      assert p == p[..m] + [p[m]] && q == q[..n] + [q[n]];
    }
  }

  ghost predicate Reaches(h: Heap, r: nat, c: nat)
  {
    exists p :: Walk(h, r, p) == Some(c)
  }

  // Changing one entry in place.

  ghost predicate Unowned(h: Heap, e: nat)
  {
    forall r: nat, k :: !IsRef(h, r, k, e)
  }

  /** An entry may be set to a leaf, or to a map that is inside no other map yet. */
  ghost predicate CanSet(h: Heap, c: nat, s: Slot)
  {
    Nested(h) && c < |h| && (s.Sub? ==> c < s.ref < |h| && Unowned(h, s.ref))
  }

  lemma SetNested(h: Heap, c: nat, k: string, s: Slot)
    requires CanSet(h, c, s)
    ensures Nested(Set(h, c, k, s))
  {
    var g := Set(h, c, k, s);
    forall r: nat, l, d: nat | IsRef(g, r, l, d)
      ensures r < d < |g| && ((r == c && l == k) || IsRef(h, r, l, d))
    {
      if !(r == c && l == k) {
        assert IsRef(h, r, l, d);
      }
    }
  }

  /** Maps that do not lead to the changed one stand for what they did. */
  lemma {:induction false} SetElsewhere(h: Heap, c: nat, k: string, s: Slot, r: nat)
    requires CanSet(h, c, s) && Nested(Set(h, c, k, s)) && r < |h| && !Reaches(h, r, c)
    ensures Abs(Set(h, c, k, s), r) == Abs(h, r)
    decreases |h| - r
  {
    var g := Set(h, c, k, s);
    assert Walk(h, r, []) == Some(r);
    assert r != c && g[r] == h[r];
    forall l | l in h[r] && h[r][l].Sub?
      ensures h[r][l].ref < |h| && Abs(g, h[r][l].ref) == Abs(h, h[r][l].ref)
    {
      var d := h[r][l].ref;
      assert IsRef(h, r, l, d);
      forall q
        ensures Walk(h, d, q) != Some(c)
      {
        assert ([l] + q)[1..] == q;
        assert Walk(h, r, [l] + q) == Walk(h, d, q);
      }
      SetElsewhere(h, c, k, s, d);
    }
  }

  /** A map that leads to the changed one stands for the tree with the value put there, at that path. */
  lemma {:induction false} SetIsPut(h: Heap, c: nat, k: string, s: Slot, r: nat, p: Path)
    requires CanSet(h, c, s) && Nested(Set(h, c, k, s)) && r < |h| && Walk(h, r, p) == Some(c)
    ensures Abs(Set(h, c, k, s), r) == Put(Abs(h, r), ValueOf(h, s), p + [k])
    decreases |p|
  {
    var g := Set(h, c, k, s);
    var l := if p == [] then k else p[0];
    forall m | m in h[r] && h[r][m].Sub? && m != l
      ensures h[r][m].ref < |h| && Abs(g, h[r][m].ref) == Abs(h, h[r][m].ref)
    {
      Beside(h, c, r, p, m);
      SetElsewhere(h, c, k, s, h[r][m].ref);
    }
    if p == [] {
      if s.Sub? {
        AboveDoesNotReach(h, s.ref, c);
        SetElsewhere(h, c, k, s, s.ref);
      }
    } else {
      assert IsRef(h, r, l, h[r][l].ref);
      AboveDoesNotReach(h, h[r][l].ref, r);
      SetIsPut(h, c, k, s, h[r][l].ref, p[1..]);
      assert (p + [k])[1..] == p[1..] + [k];
    }
    assert Abs(g, r) == Put(Abs(h, r), ValueOf(h, s), p + [k]);
  }

  /** Nothing leads back to an older map. */
  lemma AboveDoesNotReach(h: Heap, r: nat, c: nat)
    requires Nested(h) && c < r < |h|
    ensures !Reaches(h, r, c)
  {
    forall p
      ensures Walk(h, r, p) != Some(c)
    {
      if Walk(h, r, p).Some? {
        WalkDown(h, r, p);
      }
    }
  }

  /** The maps beside the path to `c` do not lead to it. */
  lemma Beside(h: Heap, c: nat, r: nat, p: Path, m: string)
    requires Nested(h) && r < |h| && Walk(h, r, p) == Some(c)
    requires m in h[r] && h[r][m].Sub? && (p != [] ==> m != p[0])
    ensures h[r][m].ref < |h| && !Reaches(h, h[r][m].ref, c)
  {
    var d := h[r][m].ref;
    assert IsRef(h, r, m, d);
    forall q
      ensures Walk(h, d, q) != Some(c)
    {
      assert ([m] + q)[1..] == q;
      assert Walk(h, r, [m] + q) == Walk(h, d, q);
      if Walk(h, d, q) == Some(c) {
        OneWay(h, r, p, [m] + q);
      }
    }
  }

  lemma {:induction false} WalkKept(h: Heap, c: nat, k: string, s: Slot, r: nat, p: Path)
    requires Nested(h) && c < |h| && r < |h| && Walk(h, r, p) == Some(c)
    ensures Walk(Set(h, c, k, s), r, p) == Some(c)
    decreases |p|
  {
    if p != [] {
      WalkDown(h, r, p);
      assert IsRef(h, r, p[0], h[r][p[0]].ref);
      WalkKept(h, c, k, s, h[r][p[0]].ref, p[1..]);
    }
  }

  // A new map.

  lemma NewNested(h: Heap)
    requires Nested(h)
    ensures Nested(h + [map[]]) && Unowned(h + [map[]], |h|) && Abs(h + [map[]], |h|) == map[]
  {
    var g := h + [map[]];
    forall r: nat, k, c: nat | IsRef(g, r, k, c)
      ensures IsRef(h, r, k, c)
    {
    }
  }

  lemma {:induction false} NewElsewhere(h: Heap, r: nat)
    requires Nested(h) && Nested(h + [map[]]) && r < |h|
    ensures Abs(h + [map[]], r) == Abs(h, r)
    decreases |h| - r
  {
    forall l | l in h[r] && h[r][l].Sub?
      ensures h[r][l].ref < |h| && Abs(h + [map[]], h[r][l].ref) == Abs(h, h[r][l].ref)
    {
      assert IsRef(h, r, l, h[r][l].ref);
      NewElsewhere(h, h[r][l].ref);
    }
  }

  lemma {:induction false} NewWalk(h: Heap, r: nat, p: Path)
    requires Walk(h, r, p).Some? && Walk(h, r, p).value < |h|
    ensures Walk(h + [map[]], r, p) == Walk(h, r, p)
    decreases |p|
  {
    if p != [] {
      NewWalk(h, h[r][p[0]].ref, p[1..]);
    }
  }

  /** Where there is no map at a path, one may be put there first. */
  lemma {:induction false} PutThrough(t: Tree, value: Value, keys: Path, n: nat)
    requires 0 < n < |keys| && (Get(t, keys[..n]).Some? ==> !Get(t, keys[..n]).value.Map?)
    ensures Put(Put(t, Map(map[]), keys[..n]), value, keys) == Put(t, value, keys)
    decreases n
  {
    if n > 1 {
      var next := if keys[0] in t && t[keys[0]].Map? then t[keys[0]].tree else map[];
      assert keys[..n][1..] == keys[1..][..n - 1];
      PutThrough(next, value, keys[1..], n - 1);
    }
  }

  lemma {:induction false} NoMapThere(h: Heap, r: nat, p: Path, k: string)
    requires Nested(h) && r < |h| && Walk(h, r, p).Some?
    requires var c := Walk(h, r, p).value; c < |h| && (k !in h[c] || !h[c][k].Sub?)
    ensures Get(Abs(h, r), p + [k]).Some? ==> !Get(Abs(h, r), p + [k]).value.Map?
    decreases |p|
  {
    if p != [] {
      assert IsRef(h, r, p[0], h[r][p[0]].ref);
      assert (p + [k])[1..] == p[1..] + [k];
      NoMapThere(h, h[r][p[0]].ref, p[1..], k);
    }
  }

  class Store {
    var heap: Heap

    ghost predicate Valid()
      reads this
    {
      |heap| > 0 && Nested(heap)
    }

    /** The configuration: the tree of the root map. */
    ghost function Config(): Tree
      requires Valid()
      reads this
    {
      Abs(heap, 0)
    }

    constructor ()
      ensures Valid() && Config() == map[]
    {
      heap := [map[]];
    }

    /** getValue. */
    method GetValue(keys: Path) returns (value: Option<Slot>)
      requires Valid()
      ensures value.Some? && value.value.Sub? ==> value.value.ref < |heap|
      ensures Get(Config(), keys) == match value case None => None case Some(slot) => Some(ValueOf(heap, slot))
    {
      if keys == [] {
        return None;
      }
      var current := Sub(0);
      for i := 0 to |keys|
        invariant current.Sub? ==> current.ref < |heap|
        invariant i < |keys| ==>
                    Get(Config(), keys) == if current.Sub? then Get(Abs(heap, current.ref), keys[i..]) else None
        invariant i == |keys| ==> Get(Config(), keys) == Some(ValueOf(heap, current))
      {
        if !current.Sub? {
          return None;
        }
        var m := heap[current.ref];
        if keys[i] !in m {
          return None;
        }
        assert m[keys[i]].Sub? ==> IsRef(heap, current.ref, keys[i], m[keys[i]].ref);
        assert keys[i..][1..] == keys[i + 1..];
        current := m[keys[i]];
      }
      value := Some(current);
    }

    /** A new empty map under `key` of the map at `path`. */
    method MakeMap(data: nat, key: string, ghost path: Path)
      requires Valid() && data < |heap| && Walk(heap, 0, path) == Some(data)
      modifies this
      ensures Valid() && data < |heap| && Walk(heap, 0, path) == Some(data)
      ensures key in heap[data] && heap[data][key].Sub?
      ensures Config() == Put(old(Config()), Map(map[]), path + [key])
    {
      NewNested(heap);
      NewElsewhere(heap, 0);
      NewWalk(heap, 0, path);
      var h := heap + [map[]];
      var slot := Sub(|heap|);
      SetNested(h, data, key, slot);
      SetIsPut(h, data, key, slot, 0, path);
      WalkKept(h, data, key, slot, 0, path);
      heap := h[data := h[data][key := slot]];
    }

    /** putValue, for a string or a list of strings. */
    method PutValue(val: Slot, keys: Path)
      requires Valid() && !val.Sub?
      modifies this
      ensures Valid() && Config() == Put(old(Config()), ValueOf([], val), keys)
    {
      if keys == [] {
        return;
      }
      var data := 0;
      ghost var value := ValueOf([], val);
      for i := 0 to |keys| - 1
        invariant Valid() && data < |heap| && Walk(heap, 0, keys[..i]) == Some(data)
        invariant Put(Config(), value, keys) == Put(old(Config()), value, keys)
      {
        assert keys[..i + 1] == keys[..i] + [keys[i]];
        if keys[i] !in heap[data] || !heap[data][keys[i]].Sub? {
          NoMapThere(heap, 0, keys[..i], keys[i]);
          PutThrough(Config(), value, keys, i + 1);
          MakeMap(data, keys[i], keys[..i]);
        }
        assert IsRef(heap, data, keys[i], heap[data][keys[i]].ref);
        WalkOn(heap, 0, keys[..i], keys[i], heap[data][keys[i]].ref);
        data := heap[data][keys[i]].ref;
      }
      var last := keys[|keys| - 1];
      assert keys == keys[..|keys| - 1] + [last];
      SetNested(heap, data, last, val);
      SetIsPut(heap, data, last, val, 0, keys[..|keys| - 1]);
      heap := heap[data := heap[data][last := val]];
    }

    /** The body shared by the loops of parseCmdlineArgs and readFlagsFile. A key that names a map is dropped. */
    method Accumulate(keys: Path, value: string)
      requires Valid()
      modifies this
      ensures Valid() && Config() == ConfigTree.Accumulate(old(Config()), Pair(keys, value))
    {
      var existing := GetValue(keys);
      match existing {
        case Some(Text(text)) => PutValue(Many([text, value]), keys);
        case Some(Many(items)) => PutValue(Many(items + [value]), keys);
        case Some(Sub(_)) =>
        case None => PutValue(Text(value), keys);
      }
    }
  }
}
