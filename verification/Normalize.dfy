/** normalizeData (internal/config/decode.go): renaming the keys of a map while ranging over it. Go promises
    no iteration order, and says that an entry created during the range may be produced by it or not. */
module Normalize {
  import opened ConfigTree
  import opened FileTree
  import opened KeyNames

  // What one range over a map can do.

  /** Where a range stands: the map, the entries it must still produce, and those it may still produce. */
  datatype Loop = Loop(data: Tree, pending: set<string>, extra: set<string>)

  /** One turn: the key produced, and what its value has become. */
  datatype Turn = Turn(key: string, value: Value)

  function Take(l: Loop, t: Turn): Loop
  {
    var n, rest := Norm(t.key), l.data - {t.key};
    Loop(rest[n := t.value], l.pending - {t.key}, l.extra - {t.key} + if n == t.key || n in rest then {} else {n})
  }

  function Play(data: Tree, turns: seq<Turn>): Loop
  {
    if turns == [] then Loop(data, data.Keys, {}) else Take(Play(data, turns[..|turns| - 1]), turns[|turns| - 1])
  }

  /** `depth` bounds the nesting of the values. */
  ghost predicate Becomes(depth: nat, before: Value, after: Value)
    decreases depth, 0
  {
    if before.Map? then after.Map? && depth > 0 && Runs(depth - 1, before.tree, after.tree) else after == before
  }

  ghost predicate CanTake(depth: nat, l: Loop, t: Turn)
    decreases depth, 1
  {
    t.key in l.pending + l.extra && t.key in l.data && Becomes(depth, l.data[t.key], t.value)
  }

  ghost predicate Legal(depth: nat, data: Tree, turns: seq<Turn>)
    decreases depth, 2, |turns|
  {
    turns != [] ==>
      var n := |turns| - 1; Legal(depth, data, turns[..n]) && CanTake(depth, Play(data, turns[..n]), turns[n])
  }

  ghost predicate Ends(depth: nat, data: Tree, turns: seq<Turn>, result: Tree)
    decreases depth, 3
  {
    Legal(depth, data, turns) && Play(data, turns).pending == {} && Play(data, turns).data == result
  }

  /** normalizeData can turn `data` into `result`. */
  ghost predicate Runs(depth: nat, data: Tree, result: Tree)
    decreases depth, 4
  {
    exists turns :: Ends(depth, data, turns, result)
  }

  lemma OneMore(depth: nat, data: Tree, turns: seq<Turn>, t: Turn)
    requires Legal(depth, data, turns) && CanTake(depth, Play(data, turns), t)
    ensures Legal(depth, data, turns + [t]) && Play(data, turns + [t]) == Take(Play(data, turns), t)
  {
    assert (turns + [t])[..|turns|] == turns;
  }

  // Nesting depth.

  predicate Fits(v: Value, depth: nat)
    decreases depth, 0
  {
    v.Map? ==> depth > 0 && TreeFits(v.tree, depth - 1)
  }

  predicate TreeFits(t: Tree, depth: nat)
    decreases depth, 1
  {
    forall k <- t :: Fits(t[k], depth)
  }

  lemma {:induction false} FitsMore(v: Value, d: nat, e: nat)
    requires Fits(v, d) && d <= e
    ensures Fits(v, e)
    decreases d
  {
    if v.Map? {
      forall k | k in v.tree
        ensures Fits(v.tree[k], e - 1)
      {
        FitsMore(v.tree[k], d - 1, e - 1);
      }
    }
  }

  lemma {:induction false} EveryValueFits(v: Value) returns (depth: nat)
    ensures Fits(v, depth)
  {
    depth := 0;
    if v.Map? {
      var todo := v.tree.Keys;
      while todo != {}
        invariant todo <= v.tree.Keys
        invariant forall k | k in v.tree && k !in todo :: Fits(v.tree[k], depth)
      {
        var k :| k in todo;
        var d := EveryValueFits(v.tree[k]);
        var e := if d < depth then depth else d;
        forall j | j in v.tree && j !in todo - {k}
          ensures Fits(v.tree[j], e)
        {
          FitsMore(v.tree[j], if j == k then d else depth, e);
        }
        depth, todo := e, todo - {k};
      }
      depth := depth + 1;
    }
  }

  // Every outcome is normal, and normal trees stay as they are.

  predicate Normal(v: Value)
  {
    v.Map? ==> forall k <- v.tree :: Norm(k) == k && Normal(v.tree[k])
  }

  ghost predicate Sound(depth: nat, data: Tree, l: Loop)
  {
    && l.pending <= data.Keys && l.pending <= l.data.Keys && l.extra <= l.data.Keys
    && l.extra !! data.Keys && (forall k <- data | Norm(k) == k :: k in l.data)
    && TreeFits(l.data, depth)
    && forall k <- l.data | k !in l.pending :: Norm(k) == k && Normal(l.data[k])
  }

  lemma {:induction false} LegalIsSound(depth: nat, data: Tree, turns: seq<Turn>)
    requires TreeFits(data, depth) && Legal(depth, data, turns)
    ensures Sound(depth, data, Play(data, turns))
    decreases depth, 1, |turns|
  {
    if turns != [] {
      var n := |turns| - 1;
      var k, t := Play(data, turns[..n]), turns[n];
      LegalIsSound(depth, data, turns[..n]);
      assert CanTake(depth, k, t) && Fits(k.data[t.key], depth);
      ValueIsNormal(depth, k.data[t.key], t.value);
      TakeIsSound(depth, data, k, t);
    }
  }

  lemma TakeIsSound(depth: nat, data: Tree, l: Loop, t: Turn)
    requires Sound(depth, data, l) && t.key in l.pending + l.extra
    requires Normal(t.value) && Fits(t.value, depth)
    ensures Sound(depth, data, Take(l, t))
  {
    NormTwice(t.key);
  }

  lemma {:induction false} ValueIsNormal(depth: nat, before: Value, after: Value)
    requires Fits(before, depth) && Becomes(depth, before, after)
    ensures Normal(after) && Fits(after, depth)
    decreases depth, 0
  {
    if before.Map? {
      OutcomeIsNormal(depth - 1, before.tree, after.tree);
    }
  }

  /** Whatever the order of the range: every key of the result is in lower-case snake form, at every level. */
  lemma {:induction false} OutcomeIsNormal(depth: nat, data: Tree, result: Tree)
    requires TreeFits(data, depth) && Runs(depth, data, result)
    ensures Normal(Map(result)) && TreeFits(result, depth)
    decreases depth, 2
  {
    var turns :| Ends(depth, data, turns, result);
    LegalIsSound(depth, data, turns);
  }

  lemma {:induction false} NormalStays(depth: nat, data: Tree, turns: seq<Turn>)
    requires Normal(Map(data)) && Legal(depth, data, turns)
    ensures Play(data, turns).data == data
    decreases depth, |turns|
  {
    if turns != [] {
      var n := |turns| - 1;
      NormalStays(depth, data, turns[..n]);
      NormalValueStays(depth, data[turns[n].key], turns[n].value);
    }
  }

  lemma {:induction false} NormalValueStays(depth: nat, before: Value, after: Value)
    requires Normal(before) && Becomes(depth, before, after)
    ensures after == before
    decreases depth, 0
  {
    if before.Map? {
      var turns :| Ends(depth - 1, before.tree, turns, after.tree);
      NormalStays(depth - 1, before.tree, turns);
    }
  }

  /** Normalising a second time changes nothing, whatever the orders were. */
  lemma TwiceIsOnce(depth: nat, data: Tree, once: Tree, twice: Tree)
    requires TreeFits(data, depth) && Runs(depth, data, once) && Runs(depth, once, twice)
    ensures twice == once
  {
    OutcomeIsNormal(depth, data, once);
    NormalValueStays(depth + 1, Map(once), Map(twice));
  }

  // The loop of normalizeData.

  method NormalizeData(data: Tree, ghost depth: nat) returns (result: Tree)
    requires TreeFits(data, depth)
    ensures Runs(depth, data, result)
    decreases depth
  {
    result := data;
    var todo := data.Keys;
    ghost var turns := [];
    while todo != {}
      invariant Legal(depth, data, turns) && Play(data, turns).data == result
      invariant Play(data, turns).pending <= todo <= Play(data, turns).pending + Play(data, turns).extra
      decreases Play(data, turns).pending, todo
    {
      var key :| key in todo;
      ghost var l := Play(data, turns);
      LegalIsSound(depth, data, turns);
      var val := NormalizeValue(result[key], depth);
      OneMore(depth, data, turns, Turn(key, val));
      turns := turns + [Turn(key, val)];
      var created;
      result, created := Store(result, key, val);
      var produced := *;
      todo := todo - {key} + if produced then created else {};
    }
    assert Ends(depth, data, turns, result);
  }

  /** Renames the entry if its key is not normal; `created` is the new entry, if there is one. */
  method Store(data: Tree, key: string, val: Value) returns (result: Tree, created: set<string>)
    ensures result == (data - {key})[Norm(key) := val]
    ensures created == if Norm(key) == key || Norm(key) in data - {key} then {} else {Norm(key)}
  {
    var snake := CamelToSnake(key);
    var normalized := ToLower(snake);
    if normalized != key {
      var rest := data - {key};
      created := if normalized in rest then {} else {normalized};
      result := rest[normalized := val];
    } else {
      result, created := data[key := val], {};
    }
  }

  /** Only a nested map changes, in place. */
  method NormalizeValue(val: Value, ghost depth: nat) returns (after: Value)
    requires Fits(val, depth)
    ensures Becomes(depth, val, after)
    decreases depth, 0
  {
    after := val;
    if val.Map? {
      var sub := NormalizeData(val.tree, depth - 1);
      after := Map(sub);
    }
  }

  // When the order does not matter.

  /** No other key is renamed to `k`, so the entry is not overwritten before its turn. */
  predicate Unwritten(t: Tree, k: string)
  {
    k in t && forall j <- t | j != k :: Norm(j) != k
  }

  /** The keys whose entry can end up under `n`. */
  ghost function Sources(t: Tree, n: string): set<string>
  {
    set k | k in t && Norm(k) == n && Unwritten(t, k)
  }

  lemma RenamedIsUnwritten(t: Tree, k: string)
    requires k in t && Norm(k) != k
    ensures Unwritten(t, k)
  {
    forall j | j in t && j != k
      ensures Norm(j) != k
    {
      NormTwice(j);
    }
  }

  lemma SomeSource(t: Tree, k: string)
    requires k in t
    ensures Sources(t, Norm(k)) != {}
  {
    if Unwritten(t, k) {
      assert k in Sources(t, Norm(k));
    } else {
      var j :| j in t && j != k && Norm(j) == k;
      NormTwice(j);
      RenamedIsUnwritten(t, j);
      assert j in Sources(t, Norm(k));
    }
  }

  function Names(t: Tree): set<string>
  {
    set k <- t :: Norm(k)
  }

  ghost function Source(t: Tree, n: string): (k: string)
    requires n in Names(t)
    ensures k in Sources(t, n)
  {
    SomeSource(t, var k :| k in t && Norm(k) == n; k);
    var k :| k in Sources(t, n);
    k
  }

  /** The tree with every key renamed, at every level. */
  ghost function Renamed(v: Value): Value
  {
    match v
    case Map(t) => Map(map n | n in Names(t) :: Renamed(t[Source(t, n)]))
    case _ => v
  }

  /** `r` holds one entry per name, renamed from one of its sources. */
  ghost predicate IsRenaming(t: Tree, r: Tree)
  {
    r.Keys == Names(t) && forall n <- r :: exists k <- Sources(t, n) :: r[n] == Renamed(t[k])
  }

  lemma RenamedIsRenaming(t: Tree)
    ensures IsRenaming(t, Renamed(Map(t)).tree)
  {
    forall n | n in Names(t)
      ensures exists k <- Sources(t, n) :: Renamed(Map(t)).tree[n] == Renamed(t[k])
    {
      assert Source(t, n) in Sources(t, n);
    }
  }

  /** Entries that compete for a name are renamed to equal values, at every level that is kept. */
  ghost predicate Settled(v: Value)
  {
    v.Map? ==>
      && (forall k <- v.tree | Unwritten(v.tree, k) :: Settled(v.tree[k]))
      && Agreeing(v.tree)
  }

  ghost predicate Agreeing(t: Tree)
  {
    forall j <- t, k <- t | Norm(j) == Norm(k) && Unwritten(t, j) && Unwritten(t, k) :: Renamed(t[j]) == Renamed(t[k])
  }

  /** The same for the tree of a map. */
  ghost predicate SettledTree(t: Tree)
  {
    (forall k <- t | Unwritten(t, k) :: Settled(t[k])) && Agreeing(t)
  }

  // Where the entries of an outcome come from.

  /** Under `n` stands an outcome of an entry that competes for that name, and has had its turn. */
  ghost predicate Won(depth: nat, data: Tree, l: Loop, n: string)
  {
    n in l.data && exists k <- Sources(data, n) :: k !in l.pending && Becomes(depth, data[k], l.data[n])
  }

  /** An entry of `data` has this name and has had its turn. */
  ghost predicate Taken(data: Tree, l: Loop, n: string)
  {
    exists k <- data :: k !in l.pending && Norm(k) == n
  }

  /** What a range has done so far: entries that had their turn have won their name, or another has after them;
      those that nothing is renamed to wait as they are. */
  ghost predicate Progress(depth: nat, data: Tree, l: Loop)
  {
    && l.pending <= data.Keys
    && (forall k <- data | k !in l.pending && Unwritten(data, k) :: Won(depth, data, l, Norm(k)))
    && (forall k <- l.pending | Unwritten(data, k) :: k in l.data && l.data[k] == data[k])
    && (forall n <- l.data | n !in l.pending :: Taken(data, l, n))
  }

  ghost predicate GoodTurn(depth: nat, l: Loop, t: Turn)
  {
    && t.key in l.data && t.key in l.pending + l.extra && Becomes(depth, l.data[t.key], t.value)
    && (Normal(l.data[t.key]) ==> t.value == l.data[t.key])
  }

  lemma TakeWins(depth: nat, data: Tree, l: Loop, t: Turn, k: string)
    requires TreeFits(data, depth) && Sound(depth, data, l) && Progress(depth, data, l) && GoodTurn(depth, l, t)
    requires k in data && k !in l.pending - {t.key} && Unwritten(data, k)
    ensures Won(depth, data, Take(l, t), Norm(k))
  {
    var n, m := Norm(k), Norm(t.key);
    NormTwice(t.key);
    NormTwice(k);
    if k == t.key && k in l.pending {
      assert k in Sources(data, n) && k !in Take(l, t).pending;
    } else {
      assert Won(depth, data, l, n);
      var j :| j in Sources(data, n) && j !in l.pending && Becomes(depth, data[j], l.data[n]);
      if m != n {
        assert j !in Take(l, t).pending && Take(l, t).data[n] == l.data[n];
      } else if t.key == n {
        ValueIsNormal(depth, data[j], l.data[n]);
        assert j !in Take(l, t).pending && Take(l, t).data[n] == l.data[n];
      } else {
        OtherSourceWins(depth, data, l, t);
      }
    }
  }

  /** An entry that is renamed to the same name takes it over. */
  lemma OtherSourceWins(depth: nat, data: Tree, l: Loop, t: Turn)
    requires Sound(depth, data, l) && Progress(depth, data, l) && GoodTurn(depth, l, t) && Norm(t.key) != t.key
    ensures Won(depth, data, Take(l, t), Norm(t.key))
  {
    NormTwice(t.key);
    assert t.key in l.pending;
    RenamedIsUnwritten(data, t.key);
    assert t.key in Sources(data, Norm(t.key)) && t.key !in Take(l, t).pending;
  }

  lemma TakeKeepsTaken(depth: nat, data: Tree, l: Loop, t: Turn, n: string)
    requires Sound(depth, data, l) && Progress(depth, data, l) && GoodTurn(depth, l, t)
    requires n in Take(l, t).data && n !in l.pending - {t.key}
    ensures Taken(data, Take(l, t), n)
  {
    NormTwice(t.key);
    if n == Norm(t.key) && t.key in l.pending {
      assert t.key !in Take(l, t).pending;
    } else {
      assert Taken(data, l, n);
      var k :| k in data && k !in l.pending && Norm(k) == n;
      assert k !in Take(l, t).pending;
    }
  }

  lemma TakeProgress(depth: nat, data: Tree, l: Loop, t: Turn)
    requires TreeFits(data, depth) && Sound(depth, data, l) && Progress(depth, data, l) && GoodTurn(depth, l, t)
    ensures Progress(depth, data, Take(l, t))
  {
    var m := Take(l, t);
    forall k | k in data && k !in m.pending && Unwritten(data, k)
      ensures Won(depth, data, m, Norm(k))
    {
      TakeWins(depth, data, l, t, k);
    }
    forall n | n in m.data && n !in m.pending
      ensures Taken(data, m, n)
    {
      TakeKeepsTaken(depth, data, l, t, n);
    }
  }

  lemma {:induction false} LegalProgress(depth: nat, data: Tree, turns: seq<Turn>)
    requires TreeFits(data, depth) && Legal(depth, data, turns)
    ensures Progress(depth, data, Play(data, turns))
    decreases |turns|
  {
    if turns != [] {
      var n := |turns| - 1;
      var l, t := Play(data, turns[..n]), turns[n];
      LegalProgress(depth, data, turns[..n]);
      LegalIsSound(depth, data, turns[..n]);
      assert CanTake(depth, l, t);
      if Normal(l.data[t.key]) {
        NormalValueStays(depth, l.data[t.key], t.value);
      }
      TakeProgress(depth, data, l, t);
    }
  }

  /** An outcome of an entry that competes for `n`. */
  ghost predicate WonBy(depth: nat, data: Tree, n: string, after: Value)
  {
    exists k <- Sources(data, n) :: Becomes(depth, data[k], after)
  }

  /** For every tree and every order: the names of the result are those of the keys, and under each name stands an
      outcome of an entry that competes for it. */
  lemma EveryNameIsWon(depth: nat, data: Tree, result: Tree)
    requires TreeFits(data, depth) && Runs(depth, data, result)
    ensures result.Keys == Names(data)
    ensures forall n <- result :: WonBy(depth, data, n, result[n])
  {
    var turns :| Ends(depth, data, turns, result);
    LegalProgress(depth, data, turns);
    var l := Play(data, turns);
    forall n | n in Names(data)
      ensures Won(depth, data, l, n)
    {
      var k := Source(data, n);
      assert Unwritten(data, k) && Norm(k) == n;
    }
    assert forall n <- result :: Taken(data, l, n);
  }

  /** An entry whose key is already normal always loses to one that has to be renamed. */
  lemma RespeltKeyWins(depth: nat, data: Tree, k: string, result: Tree)
    requires TreeFits(data, depth) && Runs(depth, data, result) && k in data && Norm(k) != k
    ensures Norm(k) in result
    ensures exists j <- data :: Norm(j) == Norm(k) && j != Norm(k) && Becomes(depth, data[j], result[Norm(k)])
  {
    EveryNameIsWon(depth, data, result);
    assert Norm(k) in Names(data) && WonBy(depth, data, Norm(k), result[Norm(k)]);
  }

  lemma {:induction false} SettledValue(depth: nat, before: Value, after: Value)
    requires Fits(before, depth) && Settled(before) && Becomes(depth, before, after)
    ensures after == Renamed(before)
    decreases depth, 0
  {
    if before.Map? {
      SettledMap(before);
      SettledRun(depth - 1, before.tree, after.tree);
    }
  }

  lemma SettledMap(v: Value)
    requires v.Map? && Settled(v)
    ensures SettledTree(v.tree) && Map(v.tree) == v
  {
  }

  lemma {:induction false} SettledRun(depth: nat, data: Tree, result: Tree)
    requires TreeFits(data, depth) && SettledTree(data) && Runs(depth, data, result)
    ensures result == Renamed(Map(data)).tree
    decreases depth, 3
  {
    RenamedIsRenaming(data);
    EveryNameIsWon(depth, data, result);
    SettledIs(depth, data, result, Renamed(Map(data)).tree);
  }

  /** A settled tree has one outcome, in every order: the tree with its keys renamed. */
  lemma SettledOutcome(depth: nat, data: Tree, result: Tree)
    requires TreeFits(data, depth) && Settled(Map(data)) && Runs(depth, data, result)
    ensures Map(result) == Renamed(Map(data))
  {
    SettledRun(depth, data, result);
  }

  lemma {:induction false} SettledIs(depth: nat, data: Tree, result: Tree, r: Tree)
    requires TreeFits(data, depth) && SettledTree(data) && IsRenaming(data, r)
    requires result.Keys == Names(data) && forall n <- result :: WonBy(depth, data, n, result[n])
    ensures result == r
    decreases depth, 2
  {
    forall n | n in result
      ensures SameAt(result, r, n)
    {
      SettledName(depth, data, n, result[n], r);
    }
    SameEverywhere(result, r);
  }

  ghost predicate SameAt(a: Tree, b: Tree, n: string)
  {
    n in a && n in b && a[n] == b[n]
  }

  lemma SameEverywhere(a: Tree, b: Tree)
    requires a.Keys == b.Keys && forall n <- a :: SameAt(a, b, n)
    ensures a == b
  {
    assert forall n <- a :: SameAt(a, b, n) && a[n] == b[n];
  }

  lemma {:induction false} SettledName(depth: nat, data: Tree, n: string, after: Value, r: Tree)
    requires TreeFits(data, depth) && SettledTree(data) && IsRenaming(data, r)
    requires WonBy(depth, data, n, after)
    ensures n in r && after == r[n]
    decreases depth, 1
  {
    var k :| k in Sources(data, n) && Becomes(depth, data[k], after);
    SettledValue(depth, data[k], after);
    SameRenaming(data, r, n, k);
  }

  lemma SameRenaming(data: Tree, r: Tree, n: string, k: string)
    requires Agreeing(data) && IsRenaming(data, r) && k in Sources(data, n)
    ensures n in r && r[n] == Renamed(data[k])
  {
    var j :| j in Sources(data, n) && r[n] == Renamed(data[j]);
    assert Unwritten(data, j) && Unwritten(data, k) && Norm(j) == Norm(k);
  }

  // Every order can be run to its end, and any source can come last.

  lemma {:induction false} SomeOutcome(depth: nat, v: Value) returns (after: Value)
    requires Fits(v, depth)
    ensures Becomes(depth, v, after)
    decreases depth, 0
  {
    after := v;
    if v.Map? {
      var turns := Drain(depth - 1, v.tree, {});
      after := Map(Play(v.tree, turns).data);
      assert Ends(depth - 1, v.tree, turns, after.tree);
    }
  }

  /** Everything but the unwritten entries in `keep` can be taken first. */
  lemma {:induction false} Drain(depth: nat, data: Tree, keep: set<string>) returns (turns: seq<Turn>)
    requires TreeFits(data, depth) && forall k <- keep :: Unwritten(data, k)
    ensures Legal(depth, data, turns) && Play(data, turns).pending == keep
    ensures forall k <- keep :: k in data && k in Play(data, turns).data && Play(data, turns).data[k] == data[k]
    decreases depth, 1
  {
    turns := [];
    while Play(data, turns).pending != keep
      invariant Legal(depth, data, turns) && keep <= Play(data, turns).pending
      invariant forall k <- keep :: k in Play(data, turns).data && Play(data, turns).data[k] == data[k]
      decreases Play(data, turns).pending
    {
      var l := Play(data, turns);
      var j :| j in l.pending && j !in keep;
      LegalIsSound(depth, data, turns);
      var after := SomeOutcome(depth, l.data[j]);
      OneMore(depth, data, turns, Turn(j, after));
      turns := turns + [Turn(j, after)];
    }
  }

  /** Any outcome of an unwritten entry can end up under its name. */
  lemma {:induction false} SourceCanWin(depth: nat, data: Tree, k: string, after: Value) returns (result: Tree)
    requires TreeFits(data, depth) && Unwritten(data, k) && Becomes(depth, data[k], after)
    ensures Runs(depth, data, result) && Norm(k) in result && result[Norm(k)] == after
  {
    var turns := Drain(depth, data, {k});
    var t := Turn(k, after);
    OneMore(depth, data, turns, t);
    result := Play(data, turns + [t]).data;
    assert Ends(depth, data, turns + [t], result);
  }

  /** An unsettled value has two outcomes. */
  lemma {:induction false} UnsettledOutcomes(depth: nat, v: Value) returns (a: Value, b: Value)
    requires Fits(v, depth) && !Settled(v)
    ensures Becomes(depth, v, a) && Becomes(depth, v, b) && a != b
    decreases depth
  {
    var t := v.tree;
    assert v == Map(t) && TreeFits(t, depth - 1);
    if k :| k in t && Unwritten(t, k) && !Settled(t[k]) {
      assert Fits(t[k], depth - 1);
      a, b := UnsettledOutcomes(depth - 1, t[k]);
      a, b := BothCanWin(depth - 1, t, k, k, a, b);
    } else {
      a, b := DisagreeingOutcomes(depth - 1, t);
    }
  }

  lemma {:induction false} DisagreeingOutcomes(depth: nat, t: Tree) returns (a: Value, b: Value)
    requires TreeFits(t, depth) && !Agreeing(t) && forall k <- t | Unwritten(t, k) :: Settled(t[k])
    ensures Becomes(depth + 1, Map(t), a) && Becomes(depth + 1, Map(t), b) && a != b
  {
    var i, j := Disagreement(t);
    a := SomeOutcome(depth, t[i]);
    b := SomeOutcome(depth, t[j]);
    SettledValue(depth, t[i], a);
    SettledValue(depth, t[j], b);
    a, b := BothCanWin(depth, t, i, j, a, b);
  }

  lemma Disagreement(t: Tree) returns (i: string, j: string)
    requires !Agreeing(t)
    ensures i in t && j in t && Norm(i) == Norm(j) && Unwritten(t, i) && Unwritten(t, j)
    ensures Renamed(t[i]) != Renamed(t[j])
  {
    i, j :|
      && i in t && j in t && Norm(i) == Norm(j) && Unwritten(t, i) && Unwritten(t, j)
      && Renamed(t[i]) != Renamed(t[j]);
  }

  /** Two entries for one name, or one entry twice, with different outcomes. */
  lemma {:induction false} BothCanWin(depth: nat, t: Tree, i: string, j: string, a: Value, b: Value)
    returns (v: Value, w: Value)
    requires TreeFits(t, depth) && Unwritten(t, i) && Unwritten(t, j) && Norm(i) == Norm(j)
    requires Becomes(depth, t[i], a) && Becomes(depth, t[j], b) && a != b
    ensures Becomes(depth + 1, Map(t), v) && Becomes(depth + 1, Map(t), w) && v != w
  {
    var r := SourceCanWin(depth, t, i, a);
    var q := SourceCanWin(depth, t, j, b);
    v, w := Map(r), Map(q);
  }

  // Trees of any depth.

  lemma TreeFitsSome(data: Tree) returns (depth: nat)
    ensures TreeFits(data, depth)
  {
    var d := EveryValueFits(Map(data));
    depth := d - 1;
  }

  /** What the range can make of the tree, in one order or another. */
  ghost predicate CanBecome(data: Tree, result: Tree)
  {
    exists depth :: TreeFits(data, depth) && Runs(depth, data, result)
  }

  method NormalizeTree(data: Tree) returns (result: Tree)
    ensures CanBecome(data, result)
  {
    ghost var depth := TreeFitsSome(data);
    result := NormalizeData(data, depth);
  }

  ghost predicate OneOutcome(data: Tree)
  {
    forall r, q | CanBecome(data, r) && CanBecome(data, q) :: r == q
  }

  /** The result is the same for every iteration order if and only if the tree is settled, and it is then the
      renamed tree. */
  lemma OneOutcomeIffSettled(data: Tree)
    ensures OneOutcome(data) <==> Settled(Map(data))
    ensures Settled(Map(data)) ==> CanBecome(data, Renamed(Map(data)).tree)
  {
    var depth := TreeFitsSome(data);
    if Settled(Map(data)) {
      var after := SomeOutcome(depth + 1, Map(data));
      SettledOutcome(depth, data, after.tree);
      forall r | CanBecome(data, r)
        ensures r == after.tree
      {
        var d :| TreeFits(data, d) && Runs(d, data, r);
        SettledOutcome(d, data, r);
      }
    } else {
      var a, b := UnsettledOutcomes(depth + 1, Map(data));
      assert CanBecome(data, a.tree) && CanBecome(data, b.tree);
    }
  }

  /** An entry is under its new name, renamed itself. */
  ghost predicate Moved(data: Tree, now: Tree, k: string)
  {
    k in data && Norm(k) in now && now[Norm(k)] == Renamed(data[k])
  }

  /** Sibling keys have distinct names, at every level. */
  predicate Distinct(v: Value)
  {
    v.Map? ==>
      && (forall j <- v.tree, k <- v.tree | Norm(j) == Norm(k) :: j == k)
      && (forall k <- v.tree :: Distinct(v.tree[k]))
  }

  /** Distinct names are the plain case: no entry is lost and each keeps its own, renamed, value. */
  lemma {:induction false} DistinctIsSettled(v: Value)
    requires Distinct(v)
    ensures Settled(v)
    ensures v.Map? ==> forall k <- v.tree :: Moved(v.tree, Renamed(v).tree, k)
    ensures v.Map? ==> forall n <- Renamed(v).tree :: exists k <- v.tree :: Norm(k) == n
  {
    if v.Map? {
      forall k | k in v.tree
        ensures Settled(v.tree[k]) && Moved(v.tree, Renamed(v).tree, k)
      {
        DistinctIsSettled(v.tree[k]);
        assert Norm(k) in Names(v.tree);
        assert Source(v.tree, Norm(k)) in Sources(v.tree, Norm(k));
      }
    }
  }

  function NormAll(path: Path): Path
  {
    if path == [] then [] else [Norm(path[0])] + NormAll(path[1..])
  }

  lemma EntryMoves(data: Tree, k: string, r: Tree)
    requires Distinct(Map(data)) && k in data && r == Renamed(Map(data)).tree
    ensures Norm(k) in r && r[Norm(k)] == Renamed(data[k])
  {
    DistinctIsSettled(Map(data));
    assert Moved(data, r, k);
  }

  lemma StepDown(t: Tree, k: string, keys: Path)
    requires keys != []
    ensures Get(t, [k] + keys) == if k in t && t[k].Map? then Get(t[k].tree, keys) else None
  {
    assert ([k] + keys)[1..] == keys;
  }

  /** What was found at a path is then found at the renamed path, every leaf as it was. */
  lemma {:induction false} LookupRenamed(data: Tree, path: Path, r: Tree)
    requires Distinct(Map(data)) && Get(data, path).Some? && r == Renamed(Map(data)).tree
    ensures var v := Get(data, path).value; Get(r, NormAll(path)) == Some(if v.Leaf() then v else Renamed(v))
    decreases |path|
  {
    var k, rest := path[0], path[1..];
    EntryMoves(data, k, r);
    if rest == [] {
      assert NormAll(path) == [Norm(k)];
    } else {
      assert path == [k] + rest;
      StepDown(data, k, rest);
      StepDown(r, Norm(k), NormAll(rest));
      LookupRenamed(data[k].tree, rest, r[Norm(k)].tree);
    }
  }

  /** Two spellings of one name: whichever comes last in the range wins. */
  lemma OrderCanMatter()
    ensures !OneOutcome(map["fooBar" := Str("1"), "FooBar" := Str("2")])
  {
    var data: Tree := map["fooBar" := Str("1"), "FooBar" := Str("2")];
    SameName();
    RenamedIsUnwritten(data, "fooBar");
    RenamedIsUnwritten(data, "FooBar");
    assert !Agreeing(data) by {
      assert Renamed(data["fooBar"]) == Str("1") && Renamed(data["FooBar"]) == Str("2");
    }
    OneOutcomeIffSettled(data);
  }

  lemma SameName()
    ensures Norm("fooBar") == Norm("FooBar") == "foo_bar"
  {
    var a, b := "fooBar", "FooBar";
    assert SnakeUpTo(a, 3) == "foo" by { assert SnakeUpTo(a, 1) == "f"; assert SnakeUpTo(a, 2) == "fo"; }
    assert SnakeUpTo(a, 6) == "foo_bar" by { assert SnakeUpTo(a, 4) == "foo_b"; assert SnakeUpTo(a, 5) == "foo_ba"; }
    assert SnakeUpTo(b, 3) == "foo" by { assert SnakeUpTo(b, 1) == "f"; assert SnakeUpTo(b, 2) == "fo"; }
    assert SnakeUpTo(b, 6) == "foo_bar" by { assert SnakeUpTo(b, 4) == "foo_b"; assert SnakeUpTo(b, 5) == "foo_ba"; }
    NormFixesExactlyLower(a);
    NormFixesExactlyLower(b);
  }
}
