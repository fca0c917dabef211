/** The disk boot mode, step by step: Execute, Takeover, CleanupEphemeral and PivotAndExec in
    internal/boot/modes/disk.go. */
module DiskBoot {
  import opened FileTree
  import opened StateVolume
  import opened VolumeSetup

  datatype TakeoverResult = NotAsked | Failed | Down

  /** The volume has room for what setup makes in k3os/system. */
  predicate Buildable(t: Entries)
  {
    ("k3os" in t ==> t["k3os"].Dir?) && ("system" in Sub(t, "k3os") ==> Sub(t, "k3os")["system"].Dir?)
  }

  ghost predicate AllSetup(t: Entries, log: seq<Entries>, from: nat, behind: Option<Path>)
  {
    forall i :: from <= i < |log| ==> SetupMay(t, log[i], behind)
  }

  ghost predicate AllBoot(t: Entries, log: seq<Entries>, from: nat, behind: Option<Path>)
  {
    forall i :: from <= i < |log| ==> BootState(t, log[i], behind)
  }

  ghost predicate AllGuarded(log: seq<Entries>, from: nat)
  {
    forall i :: from <= i < |log| ==> Guarded(log[i])
  }

  ghost predicate AllMarked(log: seq<Entries>, from: nat)
  {
    forall i :: from <= i < |log| ==> HasMarker(log[i], FACTORY_RESET)
  }

  /** How one state of the cleaning loops relates to their start. Behind a link that could not be removed, they may
      reach what is kept, and even the markers. */
  ghost predicate CleansLike(t: Entries, s: Entries, behind: Option<Path>)
  {
    && (!(SbinLink(t) && LeadsToKept(behind)) ==> Alike(t, s))
    && (!(SbinLink(t) && LeadsToMarkers(behind)) ==> SameGuards(t, s))
  }

  ghost predicate AllCleanLike(t: Entries, log: seq<Entries>, from: nat, behind: Option<Path>)
  {
    forall i :: from <= i < |log| ==> CleansLike(t, log[i], behind)
  }

  lemma CleansTwice(t: Entries, u: Entries, s: Entries, behind: Option<Path>)
    requires CleansLike(t, u, behind) && CleansLike(u, s, behind)
    ensures CleansLike(t, s, behind)
  {
  }

  /** The same from before the removal of the link, which `stuck` says has failed. */
  ghost predicate StuckLike(t: Entries, s: Entries, stuck: bool, behind: Option<Path>)
  {
    && (!(stuck && LeadsToKept(behind)) ==> Reset(s) == Reset(t) && SameK3os(t, s))
    && (!(stuck && LeadsToMarkers(behind)) ==> SameGuards(t, s))
    && (!stuck ==> !SbinLink(s))
  }

  ghost predicate AllStuckLike(t: Entries, log: seq<Entries>, from: nat, stuck: bool, behind: Option<Path>)
  {
    forall i :: from <= i < |log| ==> StuckLike(t, log[i], stuck, behind)
  }

  /** From the removal of the link on there is none. */
  ghost predicate LinkOnlyMarked(t: Entries, log: seq<Entries>, from: nat)
  {
    forall i :: from <= i < |log| ==> LinkedState(t, log[i])
  }

  lemma BehindLike(t: Entries, s: Entries, behind: Option<Path>)
    requires behind.Some? && DirAt(t, behind.value).Some? && OnlyBehind(t, s, behind.value) && SbinLink(t)
    ensures CleansLike(t, s, behind)
  {
    if !LeadsToKept(behind) {
      BehindIsDropped(t, s, behind.value);
    }
    if !LeadsToMarkers(behind) {
      BehindKeepsGuards(t, s, behind.value);
    }
  }

  ghost predicate AllBehind(t: Entries, log: seq<Entries>, from: nat, p: Path, dataStuck: bool)
    requires DirAt(t, p).Some?
  {
    forall i :: from <= i < |log| ==> BehindState(t, log[i], p, dataStuck)
  }

  lemma AllCleanTwice(t: Entries, u: Entries, log: seq<Entries>, from: nat, at: nat, behind: Option<Path>)
    requires from <= at && CleansLike(t, u, behind) && AllCleanLike(u, log, at, behind)
    requires forall i :: from <= i < at && i < |log| ==> CleansLike(t, log[i], behind)
    ensures AllCleanLike(t, log, from, behind)
  {
    forall i | at <= i < |log|
      ensures CleansLike(t, log[i], behind)
    {
      CleansTwice(t, u, log[i], behind);
    }
  }

  /** The states of the cleaning loops, after the factory-reset marker. */
  lemma CleaningIsResumable(t: Entries, m: Entries, log: seq<Entries>, from: nat, at: nat, now: Entries,
                            stuck: bool, behind: Option<Path>)
    requires Markable(t) && HasMarker(t, TAKEOVER) && m == Marked(t) && Reset(m) == Reset(t)
    requires at == from + 1 && at <= |log| && log[from] == m
    requires AllStuckLike(m, log, at, stuck, behind) && StuckLike(m, now, stuck, behind)
    ensures !(stuck && LeadsToKept(behind)) ==>
              Resumable(t, log, from) && TakeoverState(t, now) && HasMarker(now, TAKEOVER)
    ensures !(stuck && LeadsToMarkers(behind)) ==> AllMarked(log, from) && HasMarker(now, FACTORY_RESET)
    ensures !stuck ==> LinkOnlyMarked(t, log, from)
  {
    MarkedState(t, m, m);
    if !(stuck && LeadsToKept(behind)) {
      MarkedState(t, m, now);
      forall i | at <= i < |log|
        ensures TakeoverState(t, log[i])
      {
        MarkedState(t, m, log[i]);
      }
    }
  }

  lemma MarkedState(t: Entries, m: Entries, s: Entries)
    requires Markable(t) && HasMarker(t, TAKEOVER) && m == Marked(t)
    requires Reset(s) == Reset(m) == Reset(t) && SameK3os(m, s)
    ensures TakeoverState(t, s)
  {
    assert System(s) == System(m) == System(t)[FACTORY_RESET := File("")];
  }

  /** A state of the last removals, from `d` on: the marker may be gone, and part of the data. */
  lemma ForgettingState(d: Entries, t: Entries, s: Entries)
    requires t == d || (TAKEOVER in System(d) && t == WithSystem(d, System(d) - {TAKEOVER}))
    requires OnlyData(t, s)
    ensures System(s) == System(t) && SbinLink(s) == SbinLink(d)
    ensures HasMarker(d, FACTORY_RESET) ==> TakeoverState(d, s)
  {
    if HasMarker(d, FACTORY_RESET) {
      ChangeInK3os(d, t);
      ChangeInK3os(t, s);
    }
  }

  /** And those after them. */
  lemma ForgettingIsResumable(t: Entries, m: Entries, u: Entries, log: seq<Entries>, from: nat, now: Entries,
                              stuck: bool, behind: Option<Path>)
    requires !(stuck && LeadsToKept(behind)) ==> TakeoverState(t, u) && HasMarker(u, TAKEOVER)
    requires HasMarker(u, FACTORY_RESET) ==> Resumable(u, log, from) && TakeoverState(u, now)
    ensures !(stuck && LeadsToKept(behind)) ==> Resumable(t, log, from) && TakeoverState(t, now)
  {
  }

  lemma PoweringOff(t: Entries, u: Entries, now: Entries, stuck: bool, behind: Option<Path>)
    requires now == u || (POWEROFF in System(u) && now == WithSystem(u, System(u) - {POWEROFF}))
    ensures HasMarker(u, FACTORY_RESET) ==> HasMarker(now, FACTORY_RESET) && SbinLink(now) == SbinLink(u)
    ensures HasMarker(u, FACTORY_RESET) && HasSystem(u) && StillReady(t, u) && Reset(u) == Reset(t) ==>
              TakeoverState(t, now)
  {
    if HasMarker(u, FACTORY_RESET) && HasSystem(u) {
      ChangeInK3os(u, now);
    }
  }

  ghost predicate AllSystem(t: Entries, log: seq<Entries>, from: nat)
  {
    forall i :: from <= i < |log| ==> SystemMay(t, log[i], SETUP_NAMES)
  }

  ghost predicate AllInit(t: Entries, log: seq<Entries>, from: nat, behind: Option<Path>)
  {
    forall i :: from <= i < |log| ==> InitMay(t, log[i], behind)
  }

  lemma SystemTwice(t: Entries, u: Entries, s: Entries, log: seq<Entries>, from: nat, at: nat)
    requires from <= at <= |log| && SystemMay(t, u, SETUP_NAMES) && SystemMay(u, s, SETUP_NAMES)
    requires AllSystem(t, log[..at], from) && AllSystem(u, log, at)
    ensures SystemMay(t, s, SETUP_NAMES) && AllSystem(t, log, from)
  {
    SystemMayTwice(t, u, s, SETUP_NAMES);
    forall i | from <= i < |log|
      ensures SystemMay(t, log[i], SETUP_NAMES)
    {
      if i < at {
        assert log[..at][i] == log[i];
      } else {
        SystemMayTwice(t, u, log[i], SETUP_NAMES);
      }
    }
  }

  lemma SetupFirst(t: Entries, m: Entries, log: seq<Entries>, from: nat, behind: Option<Path>)
    requires SystemMay(t, m, SETUP_NAMES) && AllSystem(t, log, from)
    ensures SetupMay(t, m, behind) && AllSetup(t, log, from, behind)
    ensures RoomForInit(t, behind) ==> RoomForInit(m, behind)
  {
    MayAtOnce(t, m, m, m, behind);
    forall i | from <= i < |log|
      ensures SetupMay(t, log[i], behind)
    {
      MayAtOnce(t, log[i], log[i], log[i], behind);
    }
    if RoomForInit(t, behind) {
      SystemKeepsRoom(t, m, behind);
    }
  }

  lemma SetupSecond(t: Entries, m: Entries, n: Entries, log: seq<Entries>, from: nat, at: nat, behind: Option<Path>)
    requires from <= at <= |log| && SystemMay(t, m, SETUP_NAMES) && InitMay(m, n, behind)
    requires AllSetup(t, log[..at], from, behind) && AllInit(m, log, at, behind)
    ensures SetupMay(t, n, behind) && AllSetup(t, log, from, behind)
  {
    MayAtOnce(t, m, n, n, behind);
    forall i | from <= i < |log|
      ensures SetupMay(t, log[i], behind)
    {
      if i < at {
        assert log[..at][i] == log[i];
      } else {
        MayAtOnce(t, m, log[i], log[i], behind);
      }
    }
  }

  lemma SetupThird(t: Entries, m: Entries, n: Entries, s: Entries, log: seq<Entries>, from: nat, at: nat,
                   behind: Option<Path>)
    requires SystemMay(t, m, SETUP_NAMES) && InitMay(m, n, behind) && SystemMay(n, s, SETUP_NAMES)
    requires from <= at <= |log|
    requires AllSetup(t, log[..at], from, behind) && AllSystem(n, log, at)
    ensures SetupMay(t, s, behind) && AllSetup(t, log, from, behind)
    ensures n == WithInit(m, behind) && Settled(n, behind) ==> SetupDone(t, s, behind)
  {
    MayAtOnce(t, m, n, s, behind);
    assert n == WithInit(m, behind) && Settled(n, behind) ==> DoneBy(t, m, n, s, behind);
    forall i | from <= i < |log|
      ensures SetupMay(t, log[i], behind)
    {
      if i < at {
        assert log[..at][i] == log[i];
      } else {
        MayAtOnce(t, m, n, log[i], behind);
      }
    }
  }

  /** A marker that asks for the data to go in every boot, or in the next. */
  predicate ToClean(t: Entries)
  {
    HasMarker(t, "factory-reset") || HasMarker(t, "ephemeral")
  }

  /** `s` is `t` but for k3os/data and the factory-reset marker. */
  ghost predicate OnlyCleaned(t: Entries, s: Entries)
  {
    && Agree(t, s, {"k3os"}) && Agree(Sub(t, "k3os"), Sub(s, "k3os"), {DATA, "system"})
    && Agree(System(t), System(s), {FACTORY_RESET})
  }

  /** How a boot ended. `pivoted`: pivot_root succeeded, whatever came of the exec. `stuck`: a link at `sbin` could
      not be removed. `fault`: k3os/data was to go and is still there, or such a link leads to the markers, which
      may then have been cleaned away. `kept`: the factory-reset marker is still there when the root is pivoted.
      `reset`: the takeover got to its end without a fault. */
  datatype BootReport = BootReport(pivoted: bool, execed: bool, fault: bool, kept: bool, stuck: bool, reset: bool)

  ghost predicate AllLeave(t: Entries, log: seq<Entries>, from: nat, behind: Option<Path>)
  {
    forall i :: from <= i < |log| ==> LeavesData(t, log[i], behind)
  }

  /** What a pivot finds: the data is gone if a marker asked for that, and so is the factory-reset marker. */
  ghost predicate Pivot(t: Entries, now: Entries, r: BootReport)
  {
    && !HasMarker(t, TAKEOVER) && !HasMarker(now, TAKEOVER)
    && (ToClean(t) ==> (HasData(now) <==> r.fault))
    && (HasMarker(now, FACTORY_RESET) <==> r.kept) && (HasMarker(now, EPHEMERAL) <==> HasMarker(t, EPHEMERAL))
  }

  /** From the end of the setup steps on, `t` being the volume there. */
  ghost predicate Rest(t: Entries, now: Entries, log: seq<Entries>, from: nat, r: BootReport, behind: Option<Path>)
  {
    && (Guarded(t) && !r.fault ==> AllGuarded(log, from) && Guarded(now) && (r.pivoted ==> !HasData(now)))
    && (r.pivoted ==> Pivot(t, now, r) && from < |log| && log[|log| - 1] == now)
    && (Unmarked(t) ==> !r.fault && AllLeave(t, log, from, behind) && LeavesData(t, now, behind))
    && (r.stuck && r.fault ==> LeadsToMarkers(behind))
    && (HasMarker(t, TAKEOVER) && !r.stuck ==> Resumable(t, log, from) && LinkOnlyMarked(t, log, from))
    && (r.reset ==> HasMarker(t, TAKEOVER) && !r.stuck && TakeoverReady(t) && now == Reset(t))
  }

  /** What a boot does to the volume `t`, in every state and at its end. */
  ghost predicate WholeBoot(t: Entries, now: Entries, log: seq<Entries>, from: nat, r: BootReport, behind: Option<Path>)
  {
    && (Guarded(t) && !r.fault ==> AllGuarded(log, from) && Guarded(now) && (r.pivoted ==> !HasData(now)))
    && (r.pivoted ==> Pivot(t, now, r) && from < |log| && log[|log| - 1] == now)
    && (Unmarked(t) ==> !r.fault && AllLeave(t, log, from, behind) && LeavesData(t, now, behind))
    && (r.stuck && r.fault ==> LeadsToMarkers(behind))
    && (HasMarker(t, TAKEOVER) && !r.stuck ==> AllBoot(t, log, from, behind))
    && (r.reset ==> HasMarker(t, TAKEOVER) && !r.stuck && CompleteBoot(t, now, behind))
  }

  lemma SetupIsGuarded(t: Entries, s: Entries, log: seq<Entries>, from: nat, behind: Option<Path>)
    requires AllSetup(t, log, from, behind) && SetupMay(t, s, behind)
    ensures SameGuards(t, s)
    ensures Guarded(t) ==> AllGuarded(log, from)
  {
    SetupKeepsGuards(t, s, behind);
    forall i | from <= i < |log|
      ensures SameGuards(t, log[i])
    {
      SetupKeepsGuards(t, log[i], behind);
    }
  }

  /** A boot that ends in its setup steps. */
  lemma SetupIsBoot(t: Entries, s: Entries, log: seq<Entries>, from: nat, behind: Option<Path>)
    requires AllSetup(t, log, from, behind) && SetupMay(t, s, behind)
    ensures WholeBoot(t, s, log, from, BootReport(false, false, false, false, false, false), behind)
    ensures HasMarker(s, TAKEOVER) <==> HasMarker(t, TAKEOVER)
  {
    SetupIsGuarded(t, s, log, from, behind);
    SetupLeavesAll(t, s, log, from, behind);
  }

  lemma SetupLeavesAll(t: Entries, s: Entries, log: seq<Entries>, from: nat, behind: Option<Path>)
    requires AllSetup(t, log, from, behind) && SetupMay(t, s, behind)
    ensures AllLeave(t, log, from, behind) && LeavesData(t, s, behind)
  {
    SetupLeavesData(t, s, behind);
    forall i | from <= i < |log|
      ensures LeavesData(t, log[i], behind)
    {
      SetupLeavesData(t, log[i], behind);
    }
  }

  lemma AllLeaveTwice(t: Entries, u: Entries, s: Entries, first: seq<Entries>, log: seq<Entries>, from: nat,
                      behind: Option<Path>)
    requires first <= log && from <= |first| && AllLeave(t, first, from, behind) && LeavesData(t, u, behind)
    requires AllLeave(u, log, |first|, behind) && LeavesData(u, s, behind)
    ensures AllLeave(t, log, from, behind) && LeavesData(t, s, behind)
  {
    LeavesTwice(t, u, s, behind);
    forall i | from <= i < |log|
      ensures LeavesData(t, log[i], behind)
    {
      if i < |first| {
        assert LeavesData(t, first[i], behind);
      } else {
        LeavesTwice(t, u, log[i], behind);
      }
    }
  }

  lemma GuardedTwice(first: seq<Entries>, log: seq<Entries>, from: nat)
    requires first <= log && from <= |first|
    ensures AllGuarded(first, from) && AllGuarded(log, |first|) ==> AllGuarded(log, from)
  {
  }

  lemma TakeoverIsBoot(t: Entries, ready: Entries, first: seq<Entries>, log: seq<Entries>, from: nat,
                       behind: Option<Path>)
    requires first <= log && from <= |first| && AllSetup(t, first, from, behind) && SetupDone(t, ready, behind)
    requires Resumable(ready, log, |first|) && LinkOnlyMarked(ready, log, |first|)
    ensures AllBoot(t, log, from, behind)
  {
    forall i | from <= i < |log|
      ensures BootState(t, log[i], behind)
    {
      if i < |first| {
        assert SetupMay(t, first[i], behind);
      }
    }
  }

  /** The setup steps change nothing that decides how the rest ends. */
  lemma ReadyForTakeover(t: Entries, ready: Entries, behind: Option<Path>)
    requires SetupDone(t, ready, behind) && Completable(t, behind)
    ensures TakeoverReady(ready) && HasMarker(ready, TAKEOVER)
  {
    InitKeepsSystem(t, behind);
    DoneIsGoal(t, ready, behind);
  }

  lemma ReadyToClear(t: Entries, ready: Entries, behind: Option<Path>)
    requires SetupDone(t, ready, behind) && Clearable(t, behind) && HasMarker(ready, FACTORY_RESET)
    ensures Removable(System(ready), FACTORY_RESET)
  {
    DoneKeepsMarker(t, ready, behind);
    DoneIsInit(t, ready, behind);
  }

  /** A boot that gets past them. */
  lemma BootAround(t: Entries, ready: Entries, first: seq<Entries>, log: seq<Entries>, from: nat, now: Entries,
                   r: BootReport, behind: Option<Path>)
    requires first <= log && from <= |first| && AllSetup(t, first, from, behind)
    requires SetupMay(t, ready, behind) && SetupDone(t, ready, behind) && Rest(ready, now, log, |first|, r, behind)
    ensures WholeBoot(t, now, log, from, r, behind)
  {
    SetupIsGuarded(t, ready, first, from, behind);
    GuardedTwice(first, log, from);
    SetupLeavesAll(t, ready, first, from, behind);
    if Unmarked(t) {
      AllLeaveTwice(t, ready, now, first, log, from, behind);
    }
    if HasMarker(ready, TAKEOVER) && !r.stuck {
      TakeoverIsBoot(t, ready, first, log, from, behind);
    }
  }

  /** `behind` is the directory that a link at `sbin` leads to, None if that is not on the volume. `log` lists every
      state the volume goes through. */
  class Volume {
    const behind: Option<Path>
    var tree: Entries
    ghost var log: seq<Entries>

    constructor (initial: Entries, behind: Option<Path>)
      ensures tree == initial && log == [] && this.behind == behind
    {
      tree, log, this.behind := initial, [], behind;
    }

    /** Create or truncate a marker to an empty file. */
    method WriteMarker(marker: string, works: bool) returns (ok: bool)
      modifies this
      ensures ok ==> HasSystem(old(tree)) && (marker in System(old(tree)) ==> System(old(tree))[marker].File?)
                     && tree == WithSystem(old(tree), System(old(tree))[marker := File("")])
                     && log == old(log) + [tree]
      ensures !ok ==> tree == old(tree) && log == old(log)
      ensures works && HasSystem(old(tree)) && (marker in System(old(tree)) ==> System(old(tree))[marker].File?) ==> ok
    {
      ok := *;
      ok := (ok || works) && HasSystem(tree) && (marker in System(tree) ==> System(tree)[marker].File?);
      if ok {
        tree := WithSystem(tree, System(tree)[marker := File("")]);
        log := log + [tree];
      }
    }

    /** `fault`: it is still there. */
    method RemoveMarker(marker: string, works: bool) returns (fault: bool)
      modifies this
      ensures tree == old(tree) || tree == WithSystem(old(tree), System(old(tree)) - {marker})
      ensures log == if tree == old(tree) then old(log) else old(log) + [tree]
      ensures fault <==> HasMarker(tree, marker)
      ensures tree != old(tree) ==> Removable(System(old(tree)), marker)
      ensures works && Removable(System(old(tree)), marker) ==> !fault
    {
      fault := HasMarker(tree, marker);
      var fails: bool := *;
      if (works || !fails) && Removable(System(tree), marker) {
        tree := WithSystem(tree, System(tree) - {marker});
        log := log + [tree];
        fault := false;
      }
    }

    /** os.RemoveAll of one entry; a fault or a crash can leave part of it. */
    method RemoveEntry(place: Place, name: string, works: bool) returns (fault: bool)
      requires place.In(tree) && !place.Keeps(name)
      modifies this
      ensures place.In(tree) && tree == place.Put(old(tree), place.Of(tree))
      ensures Agree(place.Of(old(tree)), place.Of(tree), {name})
      ensures (!fault ==> name !in place.Of(tree)) && (works ==> !fault)
      ensures old(log) <= log && AllAlike(old(tree), log, |old(log)|) && Alike(old(tree), tree)
    {
      fault := false;
      ghost var t := tree;
      var steps: nat := *;
      while steps > 0 && name in place.Of(tree)
        decreases steps
        invariant place.In(tree) && tree == place.Put(t, place.Of(tree))
        invariant Agree(place.Of(t), place.Of(tree), {name})
        invariant old(log) <= log && AllAlike(t, log, |old(log)|)
      {
        var rest: Node := *;
        tree := place.Put(tree, place.Of(tree)[name := rest]);
        DroppedEntry(t, tree, place, name);
        log := log + [tree];
        steps := steps - 1;
      }
      fault := *;
      fault := fault && !works;
      if !fault {
        tree := place.Put(tree, place.Of(tree) - {name});
        DroppedEntry(t, tree, place, name);
        log := log + [tree];
      }
      DroppedEntry(t, tree, place, name);
    }

    /** The loops of lines 338-373: remove every entry listed at the start that is not kept. */
    method Clean(place: Place, works: bool) returns (faults: bool)
      requires place.In(tree)
      modifies this
      ensures place.In(tree) && tree == place.Put(old(tree), place.Of(tree))
      ensures SameKept(place, place.Of(old(tree)), place.Of(tree))
      ensures (!faults ==> forall n <- place.Of(tree) :: place.Keeps(n)) && (works ==> !faults)
      ensures old(log) <= log && AllAlike(old(tree), log, |old(log)|) && Alike(old(tree), tree)
    {
      faults := false;
      var todo := place.Of(tree).Keys;
      while todo != {}
        decreases |todo|
        invariant place.In(tree) && tree == place.Put(old(tree), place.Of(tree))
        invariant SameKept(place, place.Of(old(tree)), place.Of(tree))
        invariant !faults ==> forall n <- place.Of(tree) :: place.Keeps(n) || n in todo
        invariant works ==> !faults
        invariant old(log) <= log && AllAlike(old(tree), log, |old(log)|) && Alike(old(tree), tree)
      {
        var name :| name in todo;
        todo := todo - {name};
        if !place.Keeps(name) {
          var fault := RemoveEntry(place, name, works);
          faults := faults || fault;
        }
      }
    }

    /** Lines 351-362 when there is still a link at `sbin`: the directory behind it is emptied, but for what a
        cleaning of `sbin` keeps, in the order of the names. `dataStuck`: an entry `data` is still there. */
    method CleanBehind(p: Path, works: bool) returns (faults: bool, dataStuck: bool)
      requires SbinLink(tree) && DirAt(tree, p).Some?
      modifies this
      ensures (dataStuck ==> faults) && (works ==> !faults)
      ensures DirAt(old(tree), p).Some? && BehindState(old(tree), tree, p, dataStuck)
      ensures old(log) <= log && AllBehind(old(tree), log, |old(log)|, p, dataStuck)
      ensures !faults && SbinLink(tree) ==> forall n <- DirAt(tree, p).value :: n in KEPT_SBIN
    {
      faults, dataStuck := false, false;
      ghost var t := tree;
      PutAtDir(t, p, DirAt(t, p).value);
      var todo := DirAt(tree, p).value.Keys;
      while todo != {} && SbinLink(tree)
        decreases |todo|
        invariant (dataStuck ==> faults) && (works ==> !faults)
        invariant BehindState(t, tree, p, dataStuck)
        invariant DATA in todo || dataStuck || DATA !in DirAt(tree, p).value
        invariant !faults ==> forall n <- DirAt(tree, p).value :: n in KEPT_SBIN || n in todo
        invariant old(log) <= log && AllBehind(t, log, |old(log)|, p, dataStuck)
      {
        var name := Next(todo);
        todo := todo - {name};
        if name !in KEPT_SBIN {
          var fault := RemoveBehind(t, p, name, dataStuck, works);
          faults := faults || fault;
          dataStuck := dataStuck || (fault && name == DATA);
        }
      }
    }

    /** Another entry: `data` comes before `system`. */
    method Next(todo: set<string>) returns (name: string)
      requires todo != {}
      ensures name in todo && (name == "system" ==> DATA !in todo)
    {
      if DATA !in todo {
        name :| name in todo;
      } else {
        assert DATA != "system";
        name :| name in todo && name != "system";
      }
    }

    method RemoveBehind(ghost t: Entries, p: Path, name: string, ghost dataStuck: bool, works: bool)
      returns (fault: bool)
      requires DirAt(t, p).Some? && BehindState(t, tree, p, dataStuck) && name !in KEPT_SBIN
      requires name == "system" ==> dataStuck || DATA !in DirAt(tree, p).value
      modifies this
      ensures BehindState(t, tree, p, dataStuck) && Agree(DirAt(old(tree), p).value, DirAt(tree, p).value, {name})
      ensures (!fault ==> name !in DirAt(tree, p).value) && (works ==> !fault)
      ensures old(log) <= log && AllBehind(t, log, |old(log)|, p, dataStuck)
    {
      ghost var start := DirAt(tree, p).value;
      var steps: nat := *;
      while steps > 0 && name in DirAt(tree, p).value
        decreases steps
        invariant BehindState(t, tree, p, dataStuck) && Agree(start, DirAt(tree, p).value, {name})
        invariant old(log) <= log && AllBehind(t, log, |old(log)|, p, dataStuck)
      {
        var rest: Node := *;
        SetBehind(p, DirAt(tree, p).value[name := rest], t, dataStuck);
        steps := steps - 1;
      }
      fault := *;
      fault := fault && !works;
      if !fault {
        SetBehind(p, DirAt(tree, p).value - {name}, t, dataStuck);
      }
    }

    method SetBehind(p: Path, entries: Entries, ghost t: Entries, ghost dataStuck: bool)
      requires DirAt(t, p).Some? && OnlyBehind(t, tree, p)
      requires SameKept(Sbin, DirAt(t, p).value, entries) && InOrder(DirAt(t, p).value, entries, dataStuck)
      modifies this
      ensures BehindState(t, tree, p, dataStuck) && DirAt(tree, p) == Some(entries) && log == old(log) + [tree]
    {
      PutAtDir(tree, p, entries);
      PutAtTwice(t, p, DirAt(tree, p).value, entries);
      tree := PutAt(tree, p, entries);
      log := log + [tree];
    }

    /** os.RemoveAll of k3os/data. */
    method RemoveData(works: bool) returns (fault: bool)
      modifies this
      ensures OnlyData(old(tree), tree)
      ensures old(log) <= log && forall i :: |old(log)| <= i < |log| ==> OnlyData(old(tree), log[i])
      ensures (fault <==> HasData(tree)) && (works ==> !fault)
      ensures !HasData(old(tree)) ==> tree == old(tree) && log == old(log)
    {
      fault := false;
      if HasData(tree) {
        ghost var t := tree;
        var steps: nat := *;
        while steps > 0
          invariant HasData(tree) && OnlyData(t, tree)
          invariant old(log) <= log && forall i :: |old(log)| <= i < |log| ==> OnlyData(t, log[i])
        {
          var rest: Node := *;
          tree := WithSub(tree, "k3os", Sub(tree, "k3os")[DATA := rest]);
          log := log + [tree];
          steps := steps - 1;
        }
        fault := *;
        fault := fault && !works;
        if !fault {
          tree := WithSub(tree, "k3os", Sub(tree, "k3os") - {DATA});
          log := log + [tree];
        }
      }
    }

    /** Lines 351-362. */
    method CleanSbin(works: bool) returns (faults: bool)
      modifies this
      ensures works ==> !faults
      ensures old(log) <= log && AllCleanLike(old(tree), log, |old(log)|, behind) && CleansLike(old(tree), tree, behind)
      ensures !SbinLink(old(tree)) ==> Agree(old(tree), tree, {"sbin"}) && tree.Keys == old(tree).Keys
      ensures !faults && !SbinLink(old(tree)) ==> forall n <- Sub(tree, "sbin") :: n in KEPT_SBIN
    {
      faults := false;
      if Sbin.In(tree) {
        faults := Clean(Sbin, works);
      } else if SbinLink(tree) && behind.Some? && DirAt(tree, behind.value).Some? {
        var dataStuck;
        faults, dataStuck := CleanBehind(behind.value, works);
        BehindLike(old(tree), tree, behind);
        forall i | |old(log)| <= i < |log|
          ensures CleansLike(old(tree), log[i], behind)
        {
          BehindLike(old(tree), log[i], behind);
        }
      }
    }

    /** Lines 364-373. */
    method CleanBoot(works: bool) returns (faults: bool)
      modifies this
      ensures works ==> !faults
      ensures old(log) <= log && AllCleanLike(old(tree), log, |old(log)|, behind) && CleansLike(old(tree), tree, behind)
      ensures Agree(old(tree), tree, {"boot"}) && tree.Keys == old(tree).Keys
      ensures !faults ==> forall n <- Sub(tree, "boot") :: KeptInBoot(n)
    {
      faults := false;
      if Boot.In(tree) {
        faults := Clean(Boot, works);
      }
    }

    /** Lines 351-373. */
    method CleanSubs(works: bool) returns (faults: bool)
      modifies this
      ensures works ==> !faults
      ensures old(log) <= log && AllCleanLike(old(tree), log, |old(log)|, behind) && CleansLike(old(tree), tree, behind)
      ensures !faults && !SbinLink(old(tree)) && (forall n <- old(tree) :: n in KEPT_TOP) ==> Cleaned(tree)
    {
      faults := CleanSbin(works);
      ghost var t, at := tree, |log|;
      var fault := CleanBoot(works);
      faults := faults || fault;
      AllCleanTwice(old(tree), t, log, |old(log)|, at, behind);
      CleansTwice(old(tree), t, tree, behind);
    }

    /** Lines 336-373: the three loops. */
    method CleanPlaces(works: bool) returns (faults: bool)
      modifies this
      ensures works ==> !faults
      ensures old(log) <= log && AllCleanLike(old(tree), log, |old(log)|, behind) && CleansLike(old(tree), tree, behind)
      ensures !faults && !SbinLink(old(tree)) ==> Cleaned(tree)
    {
      faults := Clean(Top, works);
      ghost var t, at := tree, |log|;
      var fault := CleanSubs(works);
      faults := faults || fault;
      AllCleanTwice(old(tree), t, log, |old(log)|, at, behind);
      CleansTwice(old(tree), t, tree, behind);
    }

    /** Lines 329-373: remove a link at `sbin`, then the three loops if the volume can be listed. */
    method CleanVolume(works: bool) returns (ok: bool, faults: bool, stuck: bool)
      modifies this
      ensures works ==> ok && !faults && !stuck
      ensures stuck ==> SbinLink(old(tree)) && faults
      ensures !ok ==> faults
      ensures old(log) <= log && AllStuckLike(old(tree), log, |old(log)|, stuck, behind)
      ensures StuckLike(old(tree), tree, stuck, behind)
      ensures ok && !faults ==> Cleaned(tree)
    {
      stuck := false;
      if SbinLink(tree) {
        stuck := *;
        stuck := stuck && !works;
        if !stuck {
          SbinLinkGone(tree);
          tree := tree - {"sbin"};
          log := log + [tree];
        }
      }
      faults := stuck;
      ok := *;
      ok := ok || works;
      if !ok {
        faults := true;
        return;
      }
      ghost var t, at := tree, |log|;
      var fault := CleanPlaces(works);
      faults := faults || fault;
      forall i | at <= i < |log|
        ensures StuckLike(old(tree), log[i], stuck, behind)
      {
        assert CleansLike(t, log[i], behind);
      }
    }

    /** Lines 376-377: the takeover marker first, then the data. */
    method Forget(works: bool) returns (faults: bool)
      modifies this
      ensures works && Removable(System(old(tree)), TAKEOVER) ==> !faults
      ensures old(log) <= log
      ensures HasMarker(old(tree), FACTORY_RESET) ==> AllMarked(log, |old(log)|) && HasMarker(tree, FACTORY_RESET)
      ensures HasMarker(old(tree), FACTORY_RESET) ==>
                Resumable(old(tree), log, |old(log)|) && TakeoverState(old(tree), tree)
      ensures forall i :: |old(log)| <= i < |log| ==> SbinLink(log[i]) == SbinLink(old(tree))
      ensures forall n :: n != "k3os" ==> (n in tree <==> n in old(tree)) && (n in tree ==> tree[n] == old(tree)[n])
      ensures System(tree) == System(old(tree)) || System(tree) == System(old(tree)) - {TAKEOVER}
      ensures !faults ==> !HasMarker(tree, TAKEOVER) && !HasData(tree)
      ensures !faults && HasMarker(old(tree), TAKEOVER) ==> Removable(System(old(tree)), TAKEOVER)
    {
      var fault := RemoveMarker(TAKEOVER, works);
      ghost var t, at := tree, |log|;
      faults := RemoveData(works);
      faults := faults || fault;
      ForgettingState(old(tree), t, tree);
      ForgettingState(old(tree), t, t);
      forall i | at <= i < |log|
        ensures System(log[i]) == System(t) && SbinLink(log[i]) == SbinLink(old(tree))
        ensures HasMarker(old(tree), FACTORY_RESET) ==> TakeoverState(old(tree), log[i])
      {
        ForgettingState(old(tree), t, log[i]);
      }
    }

    /** Lines 323-377: everything between the check of the takeover marker and the last removal. `stuck`: a link at
        `sbin` could not be removed. */
    method ResetVolume(works: bool) returns (ok: bool, faults: bool, stuck: bool)
      requires HasMarker(tree, TAKEOVER)
      modifies this
      ensures works && Markable(old(tree)) && Removable(System(old(tree)), TAKEOVER) ==> ok && !faults && !stuck
      ensures (stuck ==> SbinLink(old(tree)) && faults && !works) && (!ok ==> faults)
      ensures old(log) <= log
      ensures !(stuck && LeadsToKept(behind)) ==> Resumable(old(tree), log, |old(log)|)
      ensures !(stuck && LeadsToKept(behind)) ==>
                Reset(tree) == Reset(old(tree)) && HasSystem(tree) && StillReady(old(tree), tree)
      ensures !(stuck && LeadsToKept(behind)) ==> HasMarker(tree, if ok then FACTORY_RESET else TAKEOVER)
      ensures !(stuck && LeadsToMarkers(behind)) ==>
                AllMarked(log, |old(log)|) && Armed(tree) && (ok ==> HasMarker(tree, FACTORY_RESET))
      ensures !stuck ==> LinkOnlyMarked(old(tree), log, |old(log)|) && (ok ==> !SbinLink(tree))
      ensures ok && !faults ==>
                && Markable(old(tree)) && Removable(System(old(tree)), TAKEOVER)
                && Cleaned(tree) && !HasData(tree) && !HasMarker(tree, TAKEOVER)
                && System(tree) == System(old(tree))[FACTORY_RESET := File("")] - {TAKEOVER}
    {
      faults, stuck := true, false;
      ok := WriteMarker(FACTORY_RESET, works);
      if !ok {
        return;
      }
      ChangeInK3os(old(tree), tree);
      ghost var t, at := tree, |log|;
      ok, faults, stuck := CleanVolume(works);
      ghost var u, from := tree, |log|;
      CleaningIsResumable(old(tree), t, log, |old(log)|, at, u, stuck, behind);
      if !ok {
        return;
      }
      var fault := Forget(works);
      faults := faults || fault;
      ForgettingIsResumable(old(tree), t, u, log, from, tree, stuck, behind);
    }

    /** Takeover. Whatever reboot and poweroff answer, the boot does not go on after one that was asked for.
        `stuck`: a link at `sbin` could not be removed, so that what it leads to was cleaned. */
    method Takeover(works: bool) returns (r: TakeoverResult, faults: bool, stuck: bool)
      modifies this
      ensures works && HasMarker(old(tree), TAKEOVER) && TakeoverReady(old(tree)) ==> r.Down? && !faults && !stuck
      ensures r.NotAsked? <==> !HasMarker(old(tree), TAKEOVER)
      ensures r.NotAsked? ==> tree == old(tree) && log == old(log) && !stuck
      ensures (stuck ==> SbinLink(old(tree)) && faults && !works) && (r.Failed? ==> faults)
      ensures old(log) <= log
      ensures !(stuck && LeadsToKept(behind)) ==>
                Resumable(old(tree), log, |old(log)|) && Reset(tree) == Reset(old(tree))
      ensures !(stuck && LeadsToMarkers(behind)) ==>
                AllMarked(log, |old(log)|) && (HasMarker(old(tree), TAKEOVER) ==> Armed(tree))
      ensures !stuck ==> LinkOnlyMarked(old(tree), log, |old(log)|)
      ensures r.Down? && !faults ==> TakeoverReady(old(tree)) && tree == Reset(old(tree))
    {
      r, faults, stuck := NotAsked, false, false;
      if !HasMarker(tree, TAKEOVER) {
        return;
      }
      var ok;
      ok, faults, stuck := ResetVolume(works);
      if !ok {
        r := Failed;
        return;
      }
      r := Down;
      if HasMarker(tree, POWEROFF) {
        ghost var t, at := tree, log;
        var fault := RemoveMarker(POWEROFF, works);
        faults := faults || fault;
        PoweringOff(old(tree), t, tree, stuck, behind);
      }
      if !faults {
        NothingLeftToDo(tree);
      }
    }

    /** CleanupEphemeral. `fault`: k3os/data was to go and is still there. `kept`: so is the factory-reset marker. */
    method CleanupEphemeral(works: bool) returns (fault: bool, kept: bool)
      modifies this
      ensures old(log) <= log
      ensures Guarded(old(tree)) ==> forall i :: |old(log)| <= i < |log| ==> Guarded(log[i]) || fault
      ensures ToClean(old(tree)) ==> (HasData(tree) <==> fault)
      ensures !ToClean(old(tree)) ==> !fault && tree == old(tree) && log == old(log)
      ensures OnlyCleaned(old(tree), tree) && (HasMarker(tree, FACTORY_RESET) <==> kept)
      ensures works ==> !fault
      ensures works && (HasMarker(old(tree), FACTORY_RESET) ==> Removable(System(old(tree)), FACTORY_RESET)) ==> !kept
    {
      fault, kept := false, false;
      if HasMarker(tree, FACTORY_RESET) || HasMarker(tree, EPHEMERAL) {
        fault := RemoveData(works);
        kept := RemoveMarker(FACTORY_RESET, works);
      }
    }

    /** A setup step that makes or removes one entry of k3os/system. */
    method InstallUnder(name: string)
      requires name in SETUP_NAMES
      modifies this
      ensures old(log) <= log && SystemMay(old(tree), tree, SETUP_NAMES) && AllSystem(old(tree), log, |old(log)|)
    {
      var steps: nat := *;
      while steps > 0 && Buildable(tree)
        decreases steps
        invariant old(log) <= log && SystemMay(old(tree), tree, SETUP_NAMES) && AllSystem(old(tree), log, |old(log)|)
      {
        var next: Option<Node> := *;
        tree := WithSystem(tree, if next.Some? then System(tree)[name := next.value] else System(tree) - {name});
        log := log + [tree];
        steps := steps - 1;
      }
    }

    /** SetupInit. `works`: no call fails that could succeed. */
    method SetupInit(works: bool) returns (ok: bool)
      modifies this
      ensures old(log) <= log && InitMay(old(tree), tree, behind) && AllInit(old(tree), log, |old(log)|, behind)
      ensures ok ==> tree == WithInit(old(tree), behind) && Settled(tree, behind)
      ensures ok && !SbinLink(old(tree)) && "init" !in Sub(old(tree), "sbin") ==>
                Sub(tree, "sbin") == Sub(old(tree), "sbin")["init" := Link("../k3os/system/k3os/current/k3os")]
      ensures works && RoomForInit(old(tree), behind) ==> ok
    {
      if Settled(tree, behind) {
        return true;
      }
      if "sbin" in tree && (tree["sbin"].File? || (tree["sbin"].Link? && DirAt(tree, behind.value).None?)) {
        return false;
      }
      if SbinLink(tree) {
        ok := works;
        if ok {
          PutAtDir(tree, behind.value, DirAt(tree, behind.value).value["init" := INIT]);
          ghost var t := tree;
          tree := WithInit(tree, behind);
          StillBehind(t, behind.value, tree);
          log := log + [tree];
        }
        return;
      }
      ghost var t := tree;
      if "sbin" !in tree {
        var made: bool := *;
        if !made && !works {
          return false;
        }
        tree := tree["sbin" := Dir(map[])];
        log := log + [tree];
      }
      ok := works;
      if ok {
        tree := GiveInit(tree);
        assert tree == GiveInit(t);
        log := log + [tree];
      }
    }

    /** Some of the setup steps, in order, as far as they get. */
    method InstallAll(names: seq<string>, works: bool) returns (ok: bool)
      requires forall n <- names :: n in SETUP_NAMES
      modifies this
      ensures ok == works
      ensures old(log) <= log && SystemMay(old(tree), tree, SETUP_NAMES) && AllSystem(old(tree), log, |old(log)|)
    {
      for i := 0 to |names|
        invariant old(log) <= log && SystemMay(old(tree), tree, SETUP_NAMES) && AllSystem(old(tree), log, |old(log)|)
      {
        var more: bool := *;
        if !works && !more {
          break;
        }
        ghost var t, at := tree, |log|;
        InstallUnder(names[i]);
        SystemTwice(old(tree), t, tree, log, |old(log)|, at);
      }
      ok := works;
    }

    /** SetupMounts, SetupK3OS, SetupKernelSquashfs, SetupInit and SetupK3s. `works`: no call fails that could
        succeed. */
    method Setup(works: bool) returns (ok: bool)
      modifies this
      ensures old(log) <= log && AllSetup(old(tree), log, |old(log)|, behind) && SetupMay(old(tree), tree, behind)
      ensures ok ==> works && SetupDone(old(tree), tree, behind)
      ensures works && RoomForInit(old(tree), behind) ==> ok
    {
      var more: bool := *;
      ok := InstallAll(["growpart", "k3os", "kernel"], works || more);
      ghost var m := tree;
      SetupFirst(old(tree), m, log, |old(log)|, behind);
      if !ok {
        return;
      }
      ghost var at := |log|;
      ok := SetupInit(works);
      ghost var n, from := tree, |log|;
      SetupSecond(old(tree), m, n, log, |old(log)|, at, behind);
      if !ok {
        return;
      }
      ok := InstallAll(["k3s"], works);
      SetupThird(old(tree), m, n, tree, log, |old(log)|, from, behind);
    }

    /** PivotAndExec: the only change to the volume is the directory for the old root. The moment of the pivot is
        logged too. `pivots`: every call up to pivot_root succeeds. `execs`: the exec after it succeeds. */
    method PivotAndExec(pivots: bool, execs: bool) returns (pivoted: bool, execed: bool)
      modifies this
      ensures pivoted == pivots && execed == (pivots && execs)
      ensures pivoted ==> |old(log)| < |log| && log[|log| - 1] == tree && ".root" in tree
      ensures old(log) <= log && Agree(old(tree), tree, {".root"})
      ensures forall i :: |old(log)| <= i < |log| ==> Agree(old(tree), log[i], {".root"})
    {
      pivoted, execed := false, false;
      var made: bool := *;
      if ".root" !in tree && (made || pivots) {
        tree := tree[".root" := Dir(map[])];
        log := log + [tree];
      }
      if !pivots {
        return;
      }
      pivoted := true;
      log := log + [tree];
      execed := execs;
    }

    /** What follows in a boot that was not asked for a takeover. */
    method Finish(works: bool, pivots: bool, execs: bool)
      returns (pivoted: bool, execed: bool, fault: bool, kept: bool)
      modifies this
      ensures pivoted == pivots && execed == (pivots && execs)
      ensures old(log) <= log && (pivoted ==> |old(log)| < |log| && log[|log| - 1] == tree)
      ensures Guarded(old(tree)) && !HasMarker(old(tree), TAKEOVER) && !fault ==>
                AllGuarded(log, |old(log)|) && !HasData(tree)
      ensures !HasMarker(old(tree), TAKEOVER) ==>
                Pivot(old(tree), tree, BootReport(pivoted, execed, fault, kept, false, false))
      ensures Unmarked(old(tree)) ==>
                !fault && AllLeave(old(tree), log, |old(log)|, behind) && LeavesData(old(tree), tree, behind)
      ensures works ==> !fault
      ensures works && (HasMarker(old(tree), FACTORY_RESET) ==> Removable(System(old(tree)), FACTORY_RESET)) ==> !kept
    {
      fault, kept := CleanupEphemeral(works);
      pivoted, execed := PivotAndExec(pivots, execs);
    }

    /** Takeover, and the rest of a boot that was not asked for one. */
    method TakeOverOrFinish(works: bool, pivots: bool, execs: bool) returns (r: BootReport)
      modifies this
      ensures old(log) <= log
      ensures r.pivoted == (pivots && !HasMarker(old(tree), TAKEOVER)) && r.execed == (r.pivoted && execs)
      ensures Rest(old(tree), tree, log, |old(log)|, r, behind)
      ensures works ==> !r.fault && !r.stuck
      ensures works && HasMarker(old(tree), TAKEOVER) && TakeoverReady(old(tree)) ==> r.reset
      ensures works && (HasMarker(old(tree), FACTORY_RESET) ==> Removable(System(old(tree)), FACTORY_RESET)) ==> !r.kept
    {
      var taken, faults, stuck := Takeover(works);
      if taken.NotAsked? {
        var pivoted, execed, fault, kept := Finish(works, pivots, execs);
        r := BootReport(pivoted, execed, fault, kept, false, false);
      } else {
        r := BootReport(false, false, stuck && LeadsToMarkers(behind), false, stuck, taken.Down? && !faults);
      }
    }

    /** Execute: one boot in disk mode. It pivots if every call succeeds and no takeover was asked for; see
        WholeBoot for what it does to the volume. `setupWorks` and `works`: no call of the setup steps, or of what
        follows them, fails that could succeed. */
    method Execute(setupWorks: bool, works: bool, pivots: bool, execs: bool) returns (r: BootReport)
      modifies this
      ensures old(log) <= log
      ensures r.pivoted ==> setupWorks && pivots && !HasMarker(old(tree), TAKEOVER)
      ensures setupWorks && pivots && !HasMarker(old(tree), TAKEOVER) && RoomForInit(old(tree), behind) ==> r.pivoted
      ensures r.execed <==> r.pivoted && execs
      ensures WholeBoot(old(tree), tree, log, |old(log)|, r, behind)
      ensures works ==> !r.fault && !r.stuck && (Clearable(old(tree), behind) ==> !r.kept)
      ensures works && setupWorks && RoomForInit(old(tree), behind) && Completable(old(tree), behind) ==> r.reset
    {
      r := BootReport(false, false, false, false, false, false);
      var ok := Setup(setupWorks);
      ghost var ready, first := tree, log;
      SetupIsBoot(old(tree), ready, log, |old(log)|, behind);
      if ok {
        r := TakeOverOrFinish(works, pivots, execs);
        BootAround(old(tree), ready, first, log, |old(log)|, tree, r, behind);
        if Completable(old(tree), behind) {
          ReadyForTakeover(old(tree), ready, behind);
        }
        if Clearable(old(tree), behind) && HasMarker(ready, FACTORY_RESET) {
          ReadyToClear(old(tree), ready, behind);
        }
      }
    }
  }
}
