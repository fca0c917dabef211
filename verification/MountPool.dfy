/** Mounts that are tracked while they are made and undone in reverse: internal/mount/pool.go and
    internal/namespace/apply_tracked.go. */
module MountPool {

  datatype Point = Point(source: string, target: string, fsType: string, flags: nat, data: string)

  /** What was tried, and what came of it. Mounting never stops at an error, and neither does unmounting. */
  datatype Event =
    | Mounted(point: Point)
    | NotMounted(point: Point)
    | Unmounted(target: string)
    | StillMounted(target: string)

  // The kernel's mount table: entries in the order they were made.

  predicate IsMounted(table: seq<Point>, target: string)
  {
    exists p <- table :: p.target == target
  }

  /** An unmount takes away the topmost entry of its target. */
  function WithoutTop(table: seq<Point>, target: string): seq<Point>
  {
    if table == [] then []
    else
      var n := |table| - 1;
      if table[n].target == target then table[..n] else WithoutTop(table[..n], target) + [table[n]]
  }

  /** `works`: no mount fails, and no unmount where something is mounted. */
  class MountTable {
    const works: bool
    var mounts: seq<Point>
    ghost var log: seq<Event>

    constructor (mounts: seq<Point>, works: bool)
      ensures this.mounts == mounts && log == [] && this.works == works
    {
      this.mounts, log, this.works := mounts, [], works;
    }

    /** The directory is made first. */
    method Mount(p: Point) returns (ok: bool)
      modifies this
      ensures mounts == old(mounts) + if ok then [p] else []
      ensures log == old(log) + [if ok then Mounted(p) else NotMounted(p)]
      ensures works ==> ok
    {
      var madeDir := *;
      ok := *;
      ok := (ok && madeDir) || works;
      mounts := mounts + if ok then [p] else [];
      log := log + [if ok then Mounted(p) else NotMounted(p)];
    }

    /** Fails at least where nothing is mounted. */
    method Unmount(target: string) returns (ok: bool)
      modifies this
      ensures ok ==> IsMounted(old(mounts), target)
      ensures mounts == if ok then WithoutTop(old(mounts), target) else old(mounts)
      ensures log == old(log) + [if ok then Unmounted(target) else StillMounted(target)]
      ensures works && IsMounted(old(mounts), target) ==> ok
    {
      ok := *;
      ok := (ok || works) && exists p <- mounts :: p.target == target;
      if ok {
        mounts := WithoutTop(mounts, target);
      }
      log := log + [if ok then Unmounted(target) else StillMounted(target)];
    }
  }

  /** The table after some unmounts. */
  function Replay(table: seq<Point>, events: seq<Event>): seq<Point>
  {
    if events == [] then table
    else
      var n := |events| - 1;
      var before := Replay(table, events[..n]);
      if events[n].Unmounted? then WithoutTop(before, events[n].target) else before
  }

  predicate Attempt(e: Event, target: string)
  {
    e in {Unmounted(target), StillMounted(target)}
  }

  /** One attempt per point, last point first. */
  predicate Undoes(points: seq<Point>, events: seq<Event>)
  {
    && |events| == |points|
    && forall k :: 0 <= k < |points| ==> Attempt(events[k], points[|points| - 1 - k].target)
  }

  /** The targets that could not be unmounted, in the order of the attempts. */
  function Failures(events: seq<Event>): seq<string>
  {
    if events == [] then []
    else
      var n := |events| - 1;
      Failures(events[..n]) + if events[n].StillMounted? then [events[n].target] else []
  }

  lemma OneMoreEvent(table: seq<Point>, events: seq<Event>, e: Event)
    ensures Replay(table, events + [e]) ==
            if e.Unmounted? then WithoutTop(Replay(table, events), e.target) else Replay(table, events)
    ensures Failures(events + [e]) == Failures(events) + if e.StillMounted? then [e.target] else []
  {
    assert (events + [e])[..|events|] == events;
  }

  lemma OneMoreUndone(points: seq<Point>, i: nat, events: seq<Event>, e: Event)
    requires i < |points| && Undoes(points[i + 1..], events) && Attempt(e, points[i].target)
    ensures Undoes(points[i..], events + [e])
  {
    var rest := points[i + 1..];
    forall k | 0 <= k < |rest| + 1
      ensures Attempt((events + [e])[k], points[i..][|rest| - k].target)
    {
      if k < |rest| {
        assert Attempt(events[k], rest[|rest| - 1 - k].target);
      }
    }
  }

  /** The topmost mounts of the table are these. */
  predicate Ends(table: seq<Point>, points: seq<Point>)
  {
    |points| <= |table| && table[|table| - |points|..] == points
  }

  lemma EndsShorter(table: seq<Point>, points: seq<Point>, i: nat)
    requires i < |points| && Ends(table, points[..i + 1])
    ensures IsMounted(table, points[i].target)
    ensures Ends(WithoutTop(table, points[i].target), points[..i])
  {
    var n := |table| - 1;
    assert table[n] == table[n - i..][i] == points[..i + 1][i] && table[n] in table;
    assert table[..n][n - i..] == table[n - i..][..i] == points[..i + 1][..i] == points[..i];
  }

  class Pool {
    var mounts: seq<Point>

    constructor ()
      ensures mounts == []
    {
      mounts := [];
    }

    method Add(p: Point)
      modifies this
      ensures mounts == old(mounts) + [p]
    {
      mounts := mounts + [p];
    }

    /** `errs` are the failed attempts. The pool is empty afterwards, whatever failed. */
    method UnmountAll(table: MountTable) returns (errs: seq<string>, ghost events: seq<Event>)
      modifies this, table
      ensures mounts == []
      ensures Undoes(old(mounts), events) && table.log == old(table.log) + events
      ensures table.mounts == Replay(old(table.mounts), events)
      ensures errs == Failures(events)
      ensures table.works && Ends(old(table.mounts), old(mounts)) ==> errs == []
    {
      errs, events := [], [];
      ghost var topmost := table.works && Ends(table.mounts, mounts);
      assert mounts[..|mounts|] == mounts;
      for i := |mounts| downto 0
        invariant mounts == old(mounts)
        invariant Undoes(mounts[i..], events) && table.log == old(table.log) + events
        invariant table.mounts == Replay(old(table.mounts), events)
        invariant errs == Failures(events)
        invariant topmost ==> errs == [] && Ends(table.mounts, mounts[..i])
      {
        if topmost {
          EndsShorter(table.mounts, mounts, i);
        }
        var ok := table.Unmount(mounts[i].target);
        if !ok {
          errs := errs + [mounts[i].target];
        }
        ghost var event := if ok then Unmounted(mounts[i].target) else StillMounted(mounts[i].target);
        OneMoreEvent(old(table.mounts), events, event);
        OneMoreUndone(mounts, i, events, event);
        events := events + [event];
      }
      assert mounts[0..] == mounts;
      mounts := [];
    }

    method Len() returns (n: nat)
      ensures n == |mounts|
    {
      n := |mounts|;
    }

    /** A new array, which the caller may change. */
    method Entries() returns (copied: array<Point>)
      ensures fresh(copied) && copied[..] == mounts
    {
      copied := new Point[|mounts|](i requires 0 <= i < |mounts| reads this => mounts[i]);
    }
  }

  /** Neither a change of the copy nor one of the pool shows in the other. */
  method ChangeBoth(pool: Pool, i: nat, p: Point, q: Point) returns (copied: array<Point>)
    requires i < |pool.mounts|
    modifies pool
    ensures copied[..] == old(pool.mounts)[i := p] && pool.mounts == old(pool.mounts) + [q]
  {
    copied := pool.Entries();
    copied[i] := p;
    pool.Add(q);
  }

  // Creating namespace elements.

  datatype Creator = MountCreator(point: Point, silent: bool) | Untracked(name: string)

  predicate AllCreated(outcomes: seq<Outcome>)
  {
    forall o <- outcomes :: o == Created
  }

  /** The mounts among them. */
  function Wanted(creators: seq<Creator>): seq<Point>
  {
    if creators == [] then []
    else
      var last := creators[|creators| - 1];
      Wanted(creators[..|creators| - 1]) + if last.MountCreator? then [last.point] else []
  }

  datatype Outcome = Created | SilentSkip | Failed

  /** Create. A directory, device or link leaves the mount table alone. */
  method Create(c: Creator, table: MountTable) returns (outcome: Outcome)
    modifies table
    ensures outcome == SilentSkip ==> c.MountCreator? && c.silent
    ensures outcome == Failed && c.MountCreator? ==> !c.silent
    ensures table.mounts == old(table.mounts) + MadeBy(c, outcome)
    ensures table.log == old(table.log) + TriedBy(c, outcome)
    ensures table.works ==> outcome == Created
  {
    match c {
      case Untracked(_) =>
        var made := *;
        outcome := if made || table.works then Created else Failed;
      case MountCreator(point, silent) =>
        var ok := table.Mount(point);
        outcome := if ok then Created else if silent then SilentSkip else Failed;
    }
  }

  function MadeBy(c: Creator, outcome: Outcome): seq<Point>
  {
    if c.MountCreator? && outcome == Created then [c.point] else []
  }

  /** The points of the mounts that succeeded, in order. */
  function Points(creators: seq<Creator>, outcomes: seq<Outcome>): seq<Point>
    requires |creators| == |outcomes|
  {
    if creators == [] then []
    else
      var n := |creators| - 1;
      Points(creators[..n], outcomes[..n]) + MadeBy(creators[n], outcomes[n])
  }

  function TriedBy(c: Creator, outcome: Outcome): seq<Event>
  {
    if c.Untracked? then [] else [if outcome == Created then Mounted(c.point) else NotMounted(c.point)]
  }

  /** Every mount was tried, in order. */
  function Tries(creators: seq<Creator>, outcomes: seq<Outcome>): seq<Event>
    requires |creators| == |outcomes|
  {
    if creators == [] then []
    else
      var n := |creators| - 1;
      Tries(creators[..n], outcomes[..n]) + TriedBy(creators[n], outcomes[n])
  }

  /** The same mounts were added to the table and to the pool, and `tried` was logged. */
  ghost predicate Grew(before: Snapshot, after: Snapshot, made: seq<Point>, tried: seq<Event>)
  {
    && after.table == before.table + made
    && after.pool == before.pool + made
    && after.log == before.log + tried
  }

  datatype Snapshot = Snapshot(table: seq<Point>, log: seq<Event>, pool: seq<Point>)

  /** `none` stands for the contents of a missing pool. */
  ghost function Now(table: MountTable, pool: Pool?, none: seq<Point>): Snapshot
    reads table, pool
  {
    Snapshot(table.mounts, table.log, if pool == null then none else pool.mounts)
  }

  lemma GrewMore(a: Snapshot, b: Snapshot, c: Snapshot, made: seq<Point>, more: seq<Point>,
                 tried: seq<Event>, event: seq<Event>)
    requires Grew(a, b, made, tried) && Grew(b, c, more, event)
    ensures Grew(a, c, made + more, tried + event)
  {
  }

  /** ApplyTracked. Every creator is tried; the pool, if there is one, gets exactly the mounts that succeeded. */
  method ApplyTracked(creators: seq<Creator>, pool: Pool?, table: MountTable) returns (ghost outcomes: seq<Outcome>)
    modifies pool, table
    ensures |outcomes| == |creators|
    ensures table.mounts == old(table.mounts) + Points(creators, outcomes)
    ensures table.log == old(table.log) + Tries(creators, outcomes)
    ensures pool != null ==> pool.mounts == old(pool.mounts) + Points(creators, outcomes)
    ensures table.works ==> AllCreated(outcomes)
  {
    outcomes := [];
    ghost var start := Now(table, pool, []);
    for i := 0 to |creators|
      invariant |outcomes| == i && (table.works ==> AllCreated(outcomes))
      invariant Grew(start, Now(table, pool, Points(creators[..i], outcomes)),
                     Points(creators[..i], outcomes), Tries(creators[..i], outcomes))
    {
      ghost var made, before := Points(creators[..i], outcomes), Now(table, pool, Points(creators[..i], outcomes));
      ghost var outcome := CreateTracked(creators[i], pool, table);
      ghost var more := MadeBy(creators[i], outcome);
      OneMoreCreator(creators, outcomes, outcome);
      StillCreated(outcomes, outcome);
      GrewMore(start, before, Now(table, pool, made + more), made, more,
               Tries(creators[..i], outcomes), TriedBy(creators[i], outcome));
      outcomes := outcomes + [outcome];
    }
    assert creators[..|creators|] == creators;
  }

  /** One turn of its loop. */
  method CreateTracked(c: Creator, pool: Pool?, table: MountTable) returns (ghost result: Outcome)
    modifies pool, table
    ensures table.mounts == old(table.mounts) + MadeBy(c, result)
    ensures table.log == old(table.log) + TriedBy(c, result)
    ensures pool != null ==> pool.mounts == old(pool.mounts) + MadeBy(c, result)
    ensures table.works ==> result == Created
  {
    var outcome := Create(c, table);
    result := outcome;
    if outcome != Created {
      return;
    }
    if pool != null && c.MountCreator? {
      pool.Add(c.point);
    }
  }

  function PointsOf(events: seq<Event>): seq<Point>
    requires forall e <- events :: e.Mounted? || e.NotMounted?
  {
    seq(|events|, i requires 0 <= i < |events| => assert events[i] in events; events[i].point)
  }

  /** Every mount is tried once, in order, also a silent one; and those that succeed are in the pool. */
  lemma {:induction false} AllAreTried(creators: seq<Creator>, outcomes: seq<Outcome>)
    requires |outcomes| == |creators|
    ensures forall e <- Tries(creators, outcomes) :: e.Mounted? || e.NotMounted?
    ensures PointsOf(Tries(creators, outcomes)) == Wanted(creators)
    ensures AllCreated(outcomes) ==> Points(creators, outcomes) == Wanted(creators)
  {
    if creators != [] {
      var n := |creators| - 1;
      AllAreTried(creators[..n], outcomes[..n]);
      assert outcomes[n] in outcomes && forall o <- outcomes[..n] :: o in outcomes;
    }
  }

  lemma StillCreated(outcomes: seq<Outcome>, outcome: Outcome)
    ensures AllCreated(outcomes) && outcome == Created ==> AllCreated(outcomes + [outcome])
  {
  }

  lemma OneMoreCreator(creators: seq<Creator>, outcomes: seq<Outcome>, outcome: Outcome)
    requires |outcomes| < |creators|
    ensures var i := |outcomes|;
            && Points(creators[..i + 1], outcomes + [outcome]) ==
                 Points(creators[..i], outcomes) + MadeBy(creators[i], outcome)
            && Tries(creators[..i + 1], outcomes + [outcome]) ==
                 Tries(creators[..i], outcomes) + TriedBy(creators[i], outcome)
  {
    var i := |outcomes|;
    assert creators[..i + 1][..i] == creators[..i] && (outcomes + [outcome])[..i] == outcomes;
  }

  // What the teardown leaves.

  /** The entries of one target, oldest first. */
  function At(table: seq<Point>, target: string): seq<Point>
  {
    if table == [] then []
    else At(table[..|table| - 1], target) + if table[|table| - 1].target == target then [table[|table| - 1]] else []
  }

  /** An unmount pops the stack of its own target, and no other. */
  lemma {:induction false} WithoutTopAt(table: seq<Point>, target: string, other: string)
    ensures At(WithoutTop(table, target), other) ==
            var s := At(table, other); if other == target && s != [] then s[..|s| - 1] else s
    decreases |table|
  {
    if table != [] {
      var n := |table| - 1;
      if table[n].target != target {
        WithoutTopAt(table[..n], target, other);
        var rest := WithoutTop(table[..n], target);
        assert (rest + [table[n]])[..|rest|] == rest;
      }
    }
  }

  lemma {:induction false} AtConcat(a: seq<Point>, b: seq<Point>, target: string)
    ensures At(a + b, target) == At(a, target) + At(b, target)
    decreases |b|
  {
    if b == [] {
      assert a + b == a;
    } else {
      assert (a + b)[..|a| + |b| - 1] == a + b[..|b| - 1];
      AtConcat(a, b[..|b| - 1], target);
    }
  }

  /** If every unmount succeeds, each target has lost as many entries as the pool held for it, from the top. */
  lemma {:induction false} TeardownPops(table: seq<Point>, points: seq<Point>, events: seq<Event>, target: string)
    requires Undoes(points, events) && Failures(events) == []
    requires |At(points, target)| <= |At(table, target)|
    ensures var s := At(table, target); At(Replay(table, events), target) == s[..|s| - |At(points, target)|]
    decreases |points|
  {
    if points != [] {
      var n := |points| - 1;
      assert points == [points[0]] + points[1..];
      AtConcat([points[0]], points[1..], target);
      UndoesTail(points, events);
      AtOne(points[0], target);
      TeardownPops(table, points[1..], events[..n], target);
      WithoutTopAt(Replay(table, events[..n]), points[0].target, target);
    }
  }

  lemma AtOne(p: Point, target: string)
    ensures At([p], target) == if p.target == target then [p] else []
  {
    assert [p][..0] == [];
  }

  /** The first point is undone last. */
  lemma UndoesTail(points: seq<Point>, events: seq<Event>)
    requires points != [] && Undoes(points, events) && Failures(events) == []
    ensures var n := |points| - 1;
            && Undoes(points[1..], events[..n]) && Failures(events[..n]) == []
            && events[n] == Unmounted(points[0].target)
  {
    var n := |points| - 1;
    assert Attempt(events[n], points[n - n].target);
    forall k | 0 <= k < n
      ensures Attempt(events[..n][k], points[1..][n - 1 - k].target)
    {
      assert Attempt(events[k], points[n - k].target);
    }
  }

  /** Whatever others mounted meanwhile: if at each target the pool's mounts are on top of what was there, a
      teardown without errors leaves exactly what was there. */
  lemma TeardownLeavesTheRest(base: seq<Point>, table: seq<Point>, points: seq<Point>, events: seq<Event>,
                              target: string)
    requires Undoes(points, events) && Failures(events) == []
    requires At(table, target) == At(base, target) + At(points, target)
    ensures At(Replay(table, events), target) == At(base, target)
  {
    TeardownPops(table, points, events, target);
  }

  /** A teardown right after ApplyTracked restores the table as it was, repeated targets included. */
  lemma {:induction false} TeardownRestores(base: seq<Point>, points: seq<Point>, events: seq<Event>)
    requires Undoes(points, events) && Failures(events) == []
    ensures Replay(base + points, events) == base
    decreases |points|
  {
    if points == [] {
      assert base + points == base;
    } else {
      var n := |points| - 1;
      assert points == [points[0]] + points[1..] && base + points == (base + [points[0]]) + points[1..];
      UndoesTail(points, events);
      TeardownRestores(base + [points[0]], points[1..], events[..n]);
      assert (base + [points[0]])[..|base|] == base;
    }
  }

  /** Only the mounts of the pool are ever unmounted. */
  lemma TeardownTouchesOnlyItsOwn(table: seq<Point>, points: seq<Point>, events: seq<Event>, target: string)
    requires Undoes(points, events) && !IsMounted(points, target)
    ensures At(Replay(table, events), target) == At(table, target)
  {
    OtherTargetsStay(table, events, target);
  }

  lemma {:induction false} OtherTargetsStay(table: seq<Point>, events: seq<Event>, target: string)
    requires forall e <- events :: e.Unmounted? ==> e.target != target
    ensures At(Replay(table, events), target) == At(table, target)
    decreases |events|
  {
    if events != [] {
      var n := |events| - 1;
      OtherTargetsStay(table, events[..n], target);
      assert events[n] in events;
      if events[n].Unmounted? {
        WithoutTopAt(Replay(table, events[..n]), events[n].target, target);
      }
    }
  }

  /** Setting up a namespace and tearing it down again: the table is as it was if every unmount succeeded. */
  method SetUpAndTearDown(creators: seq<Creator>, table: MountTable) returns (errs: seq<string>)
    modifies table
    ensures errs == [] ==> table.mounts == old(table.mounts)
    ensures table.works ==> errs == []
  {
    var pool := new Pool();
    ghost var outcomes := ApplyTracked(creators, pool, table);
    ghost var points, events := Points(creators, outcomes), [];
    assert pool.mounts == points && table.mounts == old(table.mounts) + points;
    errs, events := pool.UnmountAll(table);
    if errs == [] {
      TeardownRestores(old(table.mounts), points, events);
    }
  }
}
