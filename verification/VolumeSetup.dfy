/** What the setup steps of the disk boot mode may make of the volume: SetupMounts to SetupK3s in
    internal/boot/modes/disk.go. They run in every boot, before the takeover. */
module VolumeSetup {
  import opened FileTree
  import opened StateVolume

  const INIT := Link("../k3os/system/k3os/current/k3os")

  /** What they install, or take away, under k3os/system. */
  const SETUP_NAMES := {"k3os", "kernel", "k3s", "growpart"}

  /** `s` is `t` but for the entries `names` of k3os/system, which may be made if it is not there. */
  ghost predicate SystemMay(t: Entries, s: Entries, names: set<string>)
  {
    && Agree(t, s, {"k3os"})
    && Agree(Sub(t, "k3os"), Sub(s, "k3os"), {"system"})
    && Agree(System(t), System(s), names)
    && StillDir(t, s, "k3os") && StillDir(Sub(t, "k3os"), Sub(s, "k3os"), "system")
  }

  predicate StillDir(t: Entries, s: Entries, name: string)
  {
    name in t && t[name].Dir? ==> name in s && s[name].Dir?
  }

  lemma SystemMayTwice(t: Entries, s: Entries, u: Entries, names: set<string>)
    requires SystemMay(t, s, names) && SystemMay(s, u, names)
    ensures SystemMay(t, u, names)
  {
  }

  lemma SystemMayBack(t: Entries, s: Entries, names: set<string>)
    requires SystemMay(t, s, names) && HasSystem(t)
    ensures SystemMay(s, t, names) && HasSystem(s) && SbinLink(s) == SbinLink(t)
  {
  }

  /** SetupInit has nothing to do: `sbin/init` is there, also behind a link. What lies outside the volume, `behind`
      being None, is not looked at. */
  predicate Settled(t: Entries, behind: Option<Path>)
  {
    && "sbin" in t && !t["sbin"].File?
    && (t["sbin"].Dir? ==> "init" in t["sbin"].entries)
    && (t["sbin"].Link? && behind.Some? ==> DirAt(t, behind.value).Some? && "init" in DirAt(t, behind.value).value)
  }

  /** The volume with an `sbin/init`, where there can be one. */
  function WithInit(t: Entries, behind: Option<Path>): Entries
  {
    if SbinLink(t) then
      if behind.Some? && DirAt(t, behind.value).Some? && "init" !in DirAt(t, behind.value).value
      then PutAt(t, behind.value, DirAt(t, behind.value).value["init" := INIT])
      else t
    else GiveInit(t)
  }

  function GiveInit(t: Entries): Entries
  {
    if "sbin" !in t then t["sbin" := Dir(map["init" := INIT])]
    else if t["sbin"].Dir? && "init" !in t["sbin"].entries then t["sbin" := Dir(t["sbin"].entries["init" := INIT])]
    else t
  }

  /** SetupInit makes the directory first. */
  ghost predicate InitMay(t: Entries, s: Entries, behind: Option<Path>)
  {
    s == t || s == WithInit(t, behind) || ("sbin" !in t && s == t["sbin" := Dir(map[])])
  }

  /** Any state on the way through the setup steps. */
  ghost predicate SetupMay(t: Entries, s: Entries, behind: Option<Path>)
  {
    exists m, n :: SystemMay(t, m, SETUP_NAMES) && InitMay(m, n, behind) && SystemMay(n, s, SETUP_NAMES)
  }

  /** And at their end. */
  ghost predicate SetupDone(t: Entries, s: Entries, behind: Option<Path>)
  {
    exists m, n :: DoneBy(t, m, n, s, behind)
  }

  /** SetupInit gets from `m` to `n`. */
  ghost predicate DoneBy(t: Entries, m: Entries, n: Entries, s: Entries, behind: Option<Path>)
  {
    && SystemMay(t, m, SETUP_NAMES) && n == WithInit(m, behind) && Settled(n, behind)
    && SystemMay(n, s, SETUP_NAMES)
  }

  /** No setup step fails because of what is at `sbin`. */
  predicate RoomForInit(t: Entries, behind: Option<Path>)
  {
    "sbin" in t ==>
      && !t["sbin"].File?
      && (t["sbin"].Link? && behind.Some? ==> DirAt(t, behind.value).Some? && !InSetup(behind))
  }

  /** The link leads into what the setup steps install. */
  predicate InSetup(behind: Option<Path>)
  {
    && behind.Some? && |behind.value| >= 3 && behind.value[0] == "k3os" && behind.value[1] == "system"
    && behind.value[2] in SETUP_NAMES
  }

  lemma MayAtOnce(t: Entries, m: Entries, n: Entries, s: Entries, behind: Option<Path>)
    requires SystemMay(t, m, SETUP_NAMES) && InitMay(m, n, behind) && SystemMay(n, s, SETUP_NAMES)
    ensures SetupMay(t, m, behind) && SetupMay(t, n, behind) && SetupMay(t, s, behind)
  {
    assert InitMay(m, m, behind) && SystemMay(m, m, SETUP_NAMES) && SystemMay(n, n, SETUP_NAMES);
  }

  // They leave the markers and the data alone.

  lemma SystemKeepsGuards(t: Entries, s: Entries)
    requires SystemMay(t, s, SETUP_NAMES)
    ensures SameGuards(t, s)
  {
  }

  lemma InitKeepsGuards(t: Entries, s: Entries, behind: Option<Path>)
    requires InitMay(t, s, behind)
    ensures SameGuards(t, s)
  {
    if SbinLink(t) && behind.Some? && DirAt(t, behind.value).Some? {
      PutKeepsGuards(t, behind.value, DirAt(t, behind.value).value["init" := INIT]);
    }
  }

  lemma SetupKeepsGuards(t: Entries, s: Entries, behind: Option<Path>)
    requires SetupMay(t, s, behind)
    ensures SameGuards(t, s)
  {
    var m, n :| SystemMay(t, m, SETUP_NAMES) && InitMay(m, n, behind) && SystemMay(n, s, SETUP_NAMES);
    SystemKeepsGuards(t, m);
    InitKeepsGuards(m, n, behind);
    SystemKeepsGuards(n, s);
  }

  /** A link at `sbin` that leads to the data: the init is made there. */
  predicate LeadsToData(t: Entries, behind: Option<Path>)
  {
    && SbinLink(t) && behind.Some? && |behind.value| >= 2
    && behind.value[0] == "k3os" && behind.value[1] == DATA
  }

  /** Nothing is done to the markers and to the data, but for such an init. */
  ghost predicate LeavesData(t: Entries, s: Entries, behind: Option<Path>)
  {
    SameGuards(t, s) && (!LeadsToData(t, behind) ==> SameData(t, s) && !LeadsToData(s, behind))
  }

  lemma LeavesTwice(t: Entries, u: Entries, s: Entries, behind: Option<Path>)
    requires LeavesData(t, u, behind) && LeavesData(u, s, behind)
    ensures LeavesData(t, s, behind)
  {
  }

  lemma InitLeavesData(t: Entries, s: Entries, behind: Option<Path>)
    requires InitMay(t, s, behind)
    ensures LeavesData(t, s, behind)
  {
    InitKeepsGuards(t, s, behind);
    InitKeepsInit(t, s, behind);
    if SbinLink(t) && s != t && behind.value != [] && behind.value[0] == "k3os" {
      var p, entries := behind.value, DirAt(t, behind.value).value["init" := INIT];
      PutDown(t, p, entries);
      if p[1..] != [] {
        PutDown(Sub(t, "k3os"), p[1..], entries);
      }
    }
  }

  lemma SetupLeavesData(t: Entries, s: Entries, behind: Option<Path>)
    requires SetupMay(t, s, behind)
    ensures LeavesData(t, s, behind)
  {
    var m, n :| SystemMay(t, m, SETUP_NAMES) && InitMay(m, n, behind) && SystemMay(n, s, SETUP_NAMES);
    SystemKeepsGuards(t, m);
    InitLeavesData(m, n, behind);
    SystemKeepsGuards(n, s);
    LeavesTwice(t, m, n, behind);
    LeavesTwice(t, n, s, behind);
  }

  // What a link leads to.

  /** A change of some entries of k3os/system leaves a directory elsewhere where it is, and an `init` in it. */
  lemma {:induction false} DirAtKept(t: Entries, s: Entries, p: Path, names: set<string>)
    requires SystemMay(t, s, names) && DirAt(t, p).Some? && "init" !in names
    requires !(|p| >= 3 && p[0] == "k3os" && p[1] == "system" && p[2] in names)
    ensures DirAt(s, p).Some? && ("init" in DirAt(t, p).value ==> "init" in DirAt(s, p).value)
  {
    if p != [] && p[0] == "k3os" {
      var q := p[1..];
      if q != [] && q[0] == "system" {
        var r := q[1..];
        assert DirAt(Sub(t, "k3os"), q) == DirAt(System(t), r) && DirAt(Sub(s, "k3os"), q) == DirAt(System(s), r);
        assert r != [] ==> r[0] == p[2];
      }
    }
  }

  lemma SystemKeepsRoom(t: Entries, s: Entries, behind: Option<Path>)
    requires SystemMay(t, s, SETUP_NAMES) && RoomForInit(t, behind)
    ensures RoomForInit(s, behind)
  {
    if SbinLink(t) && behind.Some? {
      DirAtKept(t, s, behind.value, SETUP_NAMES);
    }
  }

  // What a takeover leaves, apart from what the setup steps install.

  function Strip(t: Entries): Entries
  {
    if HasSystem(t) then WithSystem(t, System(t) - SETUP_NAMES) else t
  }

  function Core(t: Entries): Entries
  {
    Strip(Reset(t))
  }

  /** The same once the setup of another boot has run. */
  function Later(t: Entries): Entries
  {
    GiveInit(Core(t))
  }

  lemma ResetHasSystem(t: Entries)
    requires HasSystem(t)
    ensures HasSystem(Reset(t)) && System(Reset(t)) == ResetSystem(System(t))
    ensures Agree(Sub(t, "k3os"), Sub(Reset(t), "k3os"), {DATA, "system"}) && DATA !in Sub(Reset(t), "k3os")
  {
    assert Reset(t)["k3os"] == ResetTop("k3os", t["k3os"]);
  }

  lemma SystemKeepsReset(t: Entries, s: Entries)
    requires SystemMay(t, s, SETUP_NAMES) && HasSystem(t)
    ensures HasSystem(s) && SystemMay(Reset(t), Reset(s), SETUP_NAMES)
    ensures TakeoverReady(t) ==> TakeoverReady(s)
  {
    ResetHasSystem(t);
    ResetHasSystem(s);
  }

  lemma SystemKeepsStrip(t: Entries, s: Entries)
    requires SystemMay(t, s, SETUP_NAMES) && HasSystem(t)
    ensures Strip(s) == Strip(t)
  {
    assert System(t) - SETUP_NAMES == System(s) - SETUP_NAMES;
    assert Sub(Strip(t), "k3os") == Sub(Strip(s), "k3os");
  }

  lemma SystemKeepsCore(t: Entries, s: Entries)
    requires SystemMay(t, s, SETUP_NAMES) && HasSystem(t)
    ensures HasSystem(s) && Core(s) == Core(t) && SbinLink(s) == SbinLink(t)
    ensures TakeoverReady(t) ==> TakeoverReady(s)
  {
    SystemKeepsReset(t, s);
    ResetHasSystem(t);
    SystemKeepsStrip(Reset(t), Reset(s));
  }

  /** A new or fuller `sbin` shows in the reset as it is. */
  lemma SbinShows(t: Entries, sbin: Entries)
    requires HasSystem(t) && !SbinLink(t)
    ensures HasSystem(t["sbin" := Dir(sbin)])
    ensures Core(t["sbin" := Dir(sbin)]) == Core(t)["sbin" := Dir(Keep(sbin, KEPT_SBIN))]
  {
    var s := t["sbin" := Dir(sbin)];
    ResetHasSystem(t);
    ResetHasSystem(s);
    assert Reset(s) == Reset(t)["sbin" := Dir(Keep(sbin, KEPT_SBIN))];
  }

  lemma CoreSbin(t: Entries)
    requires HasSystem(t)
    ensures "sbin" in Core(t) <==> "sbin" in t && !SbinLink(t)
    ensures "sbin" in Core(t) ==> Core(t)["sbin"] == ResetTop("sbin", t["sbin"])
  {
    ResetHasSystem(t);
  }

  /** What a completed setup leaves at `sbin`: a link, or a directory with an init. */
  predicate HasSbin(t: Entries)
  {
    "sbin" in t && !t["sbin"].File? && (t["sbin"].Dir? ==> "init" in t["sbin"].entries)
  }

  lemma SetUpSbin(t: Entries)
    requires HasSystem(t) && HasSbin(t)
    ensures "sbin" in Core(t) <==> !SbinLink(t)
    ensures "sbin" in Core(t) ==> Core(t)["sbin"].Dir? && "init" in Core(t)["sbin"].entries
  {
    CoreSbin(t);
  }

  /** Giving `sbin` its init, or part of that, changes nothing that the next setup would not change. */
  lemma GiveInitLater(t: Entries, s: Entries)
    requires HasSystem(t) && !SbinLink(t)
    requires s == t || s == GiveInit(t) || ("sbin" !in t && s == t["sbin" := Dir(map[])])
    ensures HasSystem(s) && !SbinLink(s) && Later(s) == Later(t)
    ensures TakeoverReady(t) ==> TakeoverReady(s)
  {
    if s != t {
      var sbin := s["sbin"].entries;
      SbinShows(t, sbin);
      CoreSbin(t);
      assert System(s) == System(t);
      KeptInit(if "sbin" in t then t["sbin"].entries else map[]);
    }
  }

  lemma KeptInit(sbin: Entries)
    ensures Keep(sbin["init" := INIT], KEPT_SBIN) == Keep(sbin, KEPT_SBIN)["init" := INIT]
    ensures Keep(map[], KEPT_SBIN) == map[]
  {
  }

  /** Giving an init behind a link that leads into what setup installs is a change there. */
  lemma {:induction false} PutInSetup(t: Entries, p: Path, entries: Entries)
    requires DirAt(t, p).Some? && InSetup(Some(p))
    ensures SystemMay(t, PutAt(t, p, entries), SETUP_NAMES)
  {
    var q, r := p[1..], p[2..];
    assert q[0] == "system" && q[1..] == r && r[0] in SETUP_NAMES;
    PutDown(t, p, entries);
    PutDown(Sub(t, "k3os"), q, entries);
    PutDown(System(t), r, entries);
  }

  // Giving `sbin` its init before or after.

  lemma StillBehind(t: Entries, p: Path, s: Entries)
    requires SbinLink(t) && DirAt(t, p).Some? && s == PutAt(t, p, DirAt(t, p).value["init" := INIT])
    ensures SbinLink(s) && DirAt(s, p) == Some(DirAt(t, p).value["init" := INIT])
    ensures HasSystem(t) ==> HasSystem(s)
  {
    PutAtDir(t, p, DirAt(t, p).value["init" := INIT]);
    if p != [] {
      PutDown(t, p, DirAt(t, p).value["init" := INIT]);
      if p[0] == "k3os" && p[1..] != [] {
        PutDown(Sub(t, "k3os"), p[1..], DirAt(t, p).value["init" := INIT]);
      }
    }
  }

  /** Part of SetupInit or all of it: the next one leads to the same volume. */
  lemma InitKeepsInit(t: Entries, s: Entries, behind: Option<Path>)
    requires InitMay(t, s, behind)
    ensures WithInit(s, behind) == WithInit(t, behind) && SbinLink(s) == SbinLink(t)
    ensures HasSystem(t) ==> HasSystem(s)
  {
    if SbinLink(t) && s != t {
      StillBehind(t, behind.value, s);
    }
  }

  /** The same change in two directories that differ elsewhere. */
  lemma PutInBoth(t: Entries, s: Entries, p: Path, entries: Entries, names: set<string>)
    requires Agree(t, s, names) && p != [] && p[0] !in names && DirAt(t, p).Some?
    ensures DirAt(s, p) == DirAt(t, p) && Agree(PutAt(t, p, entries), PutAt(s, p, entries), names)
    ensures forall n <- names :: Sub(PutAt(t, p, entries), n) == Sub(t, n) && Sub(PutAt(s, p, entries), n) == Sub(s, n)
  {
    assert t[p[0]] == s[p[0]];
  }

  /** SetupInit behind a link, on two volumes that differ in what setup installs. */
  lemma PutKeepsSystem(t: Entries, s: Entries, p: Path)
    requires SystemMay(t, s, SETUP_NAMES) && HasSystem(t) && DirAt(t, p).Some? && !InSetup(Some(p))
    ensures DirAt(s, p).Some?
    ensures SystemMay(PutAt(t, p, DirAt(t, p).value["init" := INIT]), PutAt(s, p, DirAt(s, p).value["init" := INIT]),
                      SETUP_NAMES)
  {
    SystemMayBack(t, s, SETUP_NAMES);
    DirAtKept(t, s, p, SETUP_NAMES);
    var a, b := DirAt(t, p).value["init" := INIT], DirAt(s, p).value["init" := INIT];
    if p != [] && p[0] != "k3os" {
      PutInBoth(t, s, p, a, {"k3os"});
    } else if p != [] {
      PutDown(t, p, a);
      PutDown(s, p, b);
      var q := p[1..];
      if q != [] && q[0] != "system" {
        PutInBoth(Sub(t, "k3os"), Sub(s, "k3os"), q, a, {"system"});
      } else if q != [] {
        PutDown(Sub(t, "k3os"), q, a);
        PutDown(Sub(s, "k3os"), q, b);
        var r := q[1..];
        if r != [] {
          assert r[0] == p[2];
          PutInBoth(System(t), System(s), r, a, SETUP_NAMES);
        }
      }
    }
  }

  lemma InitInSetup(t: Entries, behind: Option<Path>)
    requires SbinLink(t) && InSetup(behind)
    ensures SystemMay(t, WithInit(t, behind), SETUP_NAMES)
  {
    if WithInit(t, behind) != t {
      PutInSetup(t, behind.value, DirAt(t, behind.value).value["init" := INIT]);
    }
  }

  /** What the other setup steps install makes no difference to SetupInit. */
  lemma SystemKeepsInit(t: Entries, s: Entries, behind: Option<Path>)
    requires SystemMay(t, s, SETUP_NAMES) && HasSystem(t)
    ensures SystemMay(WithInit(t, behind), WithInit(s, behind), SETUP_NAMES)
  {
    SystemMayBack(t, s, SETUP_NAMES);
    if SbinLink(t) && InSetup(behind) {
      InitInSetup(t, behind);
      InitInSetup(s, behind);
      SystemMayBack(t, WithInit(t, behind), SETUP_NAMES);
      SystemMayTwice(WithInit(t, behind), t, s, SETUP_NAMES);
      SystemMayTwice(WithInit(t, behind), s, WithInit(s, behind), SETUP_NAMES);
    } else if SbinLink(t) && behind.Some? {
      var p := behind.value;
      if DirAt(t, p).Some? {
        DirAtKept(t, s, p, SETUP_NAMES);
        DirAtKept(s, t, p, SETUP_NAMES);
        PutKeepsSystem(t, s, p);
      } else if DirAt(s, p).Some? {
        DirAtKept(s, t, p, SETUP_NAMES);
      }
    }
  }

  /** After a setup that got to its end, SetupInit has nothing left to do but in what setup installs. */
  lemma DoneKeepsInit(t: Entries, s: Entries, behind: Option<Path>)
    requires SetupDone(t, s, behind) && HasSystem(t)
    ensures SystemMay(s, WithInit(s, behind), SETUP_NAMES) && HasSystem(s)
  {
    var m, n :| DoneBy(t, m, n, s, behind);
    InitKeepsInit(m, n, behind);
    SystemKeepsInit(n, s, behind);
    SystemMayBack(n, s, SETUP_NAMES);
    SystemMayTwice(s, n, WithInit(s, behind), SETUP_NAMES);
  }

  /** Seen from before it, the setup has given `sbin` an init and installed something. */
  lemma DoneIsInit(t: Entries, s: Entries, behind: Option<Path>)
    requires SetupDone(t, s, behind) && HasSystem(t)
    ensures SystemMay(WithInit(t, behind), s, SETUP_NAMES)
  {
    var m, n :| DoneBy(t, m, n, s, behind);
    SystemKeepsInit(t, m, behind);
    SystemMayTwice(WithInit(t, behind), n, s, SETUP_NAMES);
  }

  /** The factory-reset marker can be removed. */
  predicate Clearable(t: Entries, behind: Option<Path>)
  {
    HasMarker(t, FACTORY_RESET) ==> Removable(System(WithInit(t, behind)), FACTORY_RESET)
  }

  /** Where the next setup and a takeover lead. */
  function Goal(t: Entries, behind: Option<Path>): Entries
  {
    Later(WithInit(t, behind))
  }

  /** The takeover gets to its end, if no call fails that could succeed. */
  ghost predicate Completable(t: Entries, behind: Option<Path>)
  {
    && TakeoverReady(WithInit(t, behind))
    && ("sbin" in t ==>
          && !t["sbin"].File?
          && (t["sbin"].Link? && behind.Some? ==> DirAt(t, behind.value).Some? || InSetup(behind)))
  }

  lemma SystemKeepsCompletable(t: Entries, s: Entries, behind: Option<Path>)
    requires SystemMay(t, s, SETUP_NAMES) && HasSystem(t) && Completable(t, behind)
    ensures Completable(s, behind)
  {
    SystemKeepsInit(t, s, behind);
    SystemKeepsReset(WithInit(t, behind), WithInit(s, behind));
    if SbinLink(t) && behind.Some? && !InSetup(behind) {
      DirAtKept(t, s, behind.value, SETUP_NAMES);
    }
  }

  lemma InitKeepsCompletable(t: Entries, s: Entries, behind: Option<Path>)
    requires InitMay(t, s, behind)
    ensures Completable(s, behind) <==> Completable(t, behind)
  {
    InitKeepsInit(t, s, behind);
    if SbinLink(t) && s != t {
      StillBehind(t, behind.value, s);
    }
  }

  lemma SystemKeepsGoal(t: Entries, s: Entries, behind: Option<Path>)
    requires SystemMay(t, s, SETUP_NAMES) && HasSystem(t)
    ensures HasSystem(s) && Goal(s, behind) == Goal(t, behind) && SbinLink(s) == SbinLink(t)
    ensures Completable(s, behind) <==> Completable(t, behind)
  {
    SystemMayBack(t, s, SETUP_NAMES);
    SystemKeepsInit(t, s, behind);
    InitKeepsInit(t, WithInit(t, behind), behind);
    SystemKeepsCore(WithInit(t, behind), WithInit(s, behind));
    if Completable(t, behind) {
      SystemKeepsCompletable(t, s, behind);
    }
    if Completable(s, behind) {
      SystemKeepsCompletable(s, t, behind);
    }
  }

  /** Whatever the setup steps get done, the volume that the next setup and a takeover lead to is the same, and they
      get there if they would have before. */
  lemma SetupKeepsGoal(t: Entries, s: Entries, behind: Option<Path>)
    requires SetupMay(t, s, behind) && HasSystem(t)
    ensures HasSystem(s) && Goal(s, behind) == Goal(t, behind) && SbinLink(s) == SbinLink(t)
    ensures Completable(s, behind) <==> Completable(t, behind)
  {
    var m, n :| SystemMay(t, m, SETUP_NAMES) && InitMay(m, n, behind) && SystemMay(n, s, SETUP_NAMES);
    SystemKeepsGoal(t, m, behind);
    InitKeepsInit(m, n, behind);
    InitKeepsCompletable(m, n, behind);
    SystemKeepsGoal(n, s, behind);
  }

  /** At their end `sbin` is a link, or a directory with an init. */
  lemma DoneIsMay(t: Entries, s: Entries, behind: Option<Path>)
    requires SetupDone(t, s, behind)
    ensures SetupMay(t, s, behind)
    ensures HasSbin(s)
  {
    var m, n :| DoneBy(t, m, n, s, behind);
    assert InitMay(m, n, behind);
  }

  /** And the takeover then leads there at once. */
  lemma DoneIsGoal(t: Entries, s: Entries, behind: Option<Path>)
    requires SetupDone(t, s, behind) && HasSystem(t)
    ensures HasSystem(s) && HasSbin(s) && Later(s) == Goal(t, behind) == Goal(s, behind) && SbinLink(s) == SbinLink(t)
    ensures TakeoverReady(s) <==> Completable(t, behind)
  {
    DoneIsMay(t, s, behind);
    SetupKeepsGoal(t, s, behind);
    DoneKeepsInit(t, s, behind);
    SystemKeepsCore(s, WithInit(s, behind));
    DoneIsCompletable(t, s, behind);
  }

  lemma DoneIsCompletable(t: Entries, s: Entries, behind: Option<Path>)
    requires SetupDone(t, s, behind) && HasSystem(t)
    ensures TakeoverReady(s) <==> Completable(s, behind)
  {
    DoneIsMay(t, s, behind);
    DoneKeepsInit(t, s, behind);
    SystemMayBack(s, WithInit(s, behind), SETUP_NAMES);
    if TakeoverReady(s) {
      SystemKeepsReset(s, WithInit(s, behind));
    }
    if TakeoverReady(WithInit(s, behind)) {
      SystemKeepsReset(WithInit(s, behind), s);
    }
    if SbinLink(s) && behind.Some? && !InSetup(behind) {
      DoneIsBehind(t, s, behind.value);
    }
  }

  lemma DoneIsBehind(t: Entries, s: Entries, p: Path)
    requires SetupDone(t, s, Some(p)) && SbinLink(s) && !InSetup(Some(p))
    ensures DirAt(s, p).Some? && "init" in DirAt(s, p).value
  {
    var m, n :| DoneBy(t, m, n, s, Some(p));
    DirAtKept(n, s, p, SETUP_NAMES);
  }

  // One boot that is asked for a takeover.

  /** A boot whose setup steps and takeover ran to their end. */
  ghost predicate CompleteBoot(t: Entries, s: Entries, behind: Option<Path>)
  {
    exists ready | SetupDone(t, ready, behind) :: TakeoverReady(ready) && s == Reset(ready)
  }

  /** Directories one in another, along a path. */
  function Nest(p: Path): (t: Entries)
    ensures DirAt(t, p).Some?
    decreases |p|
  {
    if p == [] then map[] else map[p[0] := Dir(Nest(p[1..]))]
  }

  /** What setup installs can be such that SetupInit succeeds. */
  lemma SetupCanFinish(t: Entries, behind: Option<Path>) returns (s: Entries)
    requires Completable(t, behind)
    ensures SetupDone(t, s, behind)
  {
    var m := t;
    if SbinLink(t) && InSetup(behind) {
      var p := behind.value;
      m := WithSystem(t, System(t)[p[2] := Dir(Nest(p[3..]))]);
      assert p[1..][1..] == p[2..] && p[2..][1..] == p[3..];
      assert DirAt(m, p) == DirAt(Sub(m, "k3os"), p[1..]) == DirAt(System(m), p[2..]) == DirAt(Nest(p[3..]), p[3..]);
    }
    s := WithInit(m, behind);
    if SbinLink(m) && behind.Some? && "init" !in DirAt(m, behind.value).value {
      StillBehind(m, behind.value, s);
    }
    assert SystemMay(t, m, SETUP_NAMES) && SystemMay(s, s, SETUP_NAMES);
    assert DoneBy(t, m, s, s, behind);
  }

  lemma DoneKeepsMarker(t: Entries, s: Entries, behind: Option<Path>)
    requires SetupDone(t, s, behind)
    ensures HasMarker(s, TAKEOVER) <==> HasMarker(t, TAKEOVER)
    ensures HasMarker(s, FACTORY_RESET) <==> HasMarker(t, FACTORY_RESET)
  {
    DoneIsMay(t, s, behind);
    SetupKeepsGuards(t, s, behind);
  }

  /** What such a boot leaves, once the next setup has run. */
  lemma CompleteIsGoal(t: Entries, s: Entries, behind: Option<Path>) returns (ready: Entries)
    requires CompleteBoot(t, s, behind)
    ensures SetupDone(t, ready, behind) && TakeoverReady(ready) && s == Reset(ready)
    ensures HasSystem(t) && HasSbin(ready) && SbinLink(ready) == SbinLink(t) && Completable(t, behind)
    ensures GiveInit(Strip(s)) == Later(ready) == Goal(t, behind)
  {
    ready :| SetupDone(t, ready, behind) && TakeoverReady(ready) && s == Reset(ready);
    DoneKeepsMarker(t, ready, behind);
    DoneIsGoal(t, ready, behind);
  }

  lemma InitKeepsSystem(t: Entries, behind: Option<Path>)
    requires Completable(t, behind)
    ensures HasSystem(t)
  {
    InitKeepsGuards(t, WithInit(t, behind), behind);
    assert HasMarker(t, TAKEOVER);
  }

  /** Such a boot is possible exactly if there is room for the init and the markers are as a takeover needs them. */
  lemma CompletableIff(t: Entries, behind: Option<Path>)
    ensures (exists s :: CompleteBoot(t, s, behind)) <==> Completable(t, behind)
  {
    if Completable(t, behind) {
      InitKeepsSystem(t, behind);
      var ready := SetupCanFinish(t, behind);
      DoneIsGoal(t, ready, behind);
      assert CompleteBoot(t, Reset(ready), behind);
    }
    if s :| CompleteBoot(t, s, behind) {
      var ready := CompleteIsGoal(t, s, behind);
    }
  }

  /** WriteMarker can create or truncate it. */
  predicate Markable(t: Entries)
  {
    HasSystem(t) && (FACTORY_RESET in System(t) ==> System(t)[FACTORY_RESET].File?)
  }

  /** A state of a takeover: as long as there is a link at `sbin`, it has done no more than write its marker. */
  ghost predicate LinkedState(t: Entries, s: Entries)
  {
    SbinLink(s) ==> s == Marked(t) && Markable(t)
  }

  /** A state of a boot that is asked for a takeover: on the way through the setup steps, or after them in the
      takeover. */
  ghost predicate BootState(t: Entries, s: Entries, behind: Option<Path>)
  {
    || SetupMay(t, s, behind)
    || exists ready | SetupDone(t, ready, behind) :: TakeoverState(ready, s) && LinkedState(ready, s)
  }

  lemma MarkedKeepsDir(t: Entries, p: Path)
    requires Markable(t) && DirAt(t, p).Some?
    ensures DirAt(Marked(t), p).Some? && ("init" in DirAt(t, p).value ==> "init" in DirAt(Marked(t), p).value)
  {
    if |p| >= 3 && p[0] == "k3os" && p[1] == "system" {
      assert p[1..][1..] == p[2..] && DirAt(t, p) == DirAt(System(t), p[2..]);
    }
    DirAtKept(t, Marked(t), p, {FACTORY_RESET});
  }

  /** With the marker written too, SetupInit has nothing to do but in what setup installs. */
  lemma MarkedKeepsInit(t: Entries, ready: Entries, s: Entries, behind: Option<Path>)
    requires SetupDone(t, ready, behind) && SbinLink(ready) && Markable(ready) && s == Marked(ready)
    ensures SystemMay(s, WithInit(s, behind), SETUP_NAMES)
    ensures behind.Some? ==> DirAt(s, behind.value).Some? || InSetup(behind)
  {
    if InSetup(behind) {
      InitInSetup(s, behind);
    } else if behind.Some? {
      DoneIsBehind(t, ready, behind.value);
      MarkedKeepsDir(ready, behind.value);
    }
  }

  /** The first state of a takeover with a link at `sbin`. */
  lemma MarkedKeepsGoal(t: Entries, ready: Entries, s: Entries, behind: Option<Path>)
    requires SetupDone(t, ready, behind) && HasSystem(t) && SbinLink(ready) && Markable(ready) && s == Marked(ready)
    requires TakeoverState(ready, s)
    ensures Goal(s, behind) == Later(ready)
    ensures TakeoverReady(ready) && HasMarker(s, TAKEOVER) ==> Completable(s, behind)
  {
    MarkedKeepsInit(t, ready, s, behind);
    SystemKeepsCore(s, WithInit(s, behind));
  }

  /** The later states of a takeover. */
  lemma UnlinkedKeepsGoal(ready: Entries, s: Entries, behind: Option<Path>)
    requires HasSbin(ready) && TakeoverState(ready, s) && !SbinLink(s)
    ensures Goal(s, behind) == Later(ready)
    ensures TakeoverReady(ready) && HasMarker(s, TAKEOVER) ==> Completable(s, behind)
  {
    GiveInitLater(s, GiveInit(s));
  }

  /** Wherever such a boot is cut: the next setup and a takeover lead to the same volume as before, and get there if
      they would have. */
  lemma BootKeepsGoal(t: Entries, s: Entries, behind: Option<Path>)
    requires BootState(t, s, behind) && HasMarker(t, TAKEOVER)
    ensures HasSystem(s) && Goal(s, behind) == Goal(t, behind) && (SbinLink(s) ==> SbinLink(t))
    ensures Completable(t, behind) && HasMarker(s, TAKEOVER) ==> Completable(s, behind)
  {
    if SetupMay(t, s, behind) {
      SetupKeepsGoal(t, s, behind);
    } else {
      var ready :| SetupDone(t, ready, behind) && TakeoverState(ready, s) && LinkedState(ready, s);
      DoneIsGoal(t, ready, behind);
      DoneIsMay(t, ready, behind);
      SetupKeepsGuards(t, ready, behind);
      if SbinLink(s) {
        MarkedKeepsGoal(t, ready, s, behind);
      } else {
        UnlinkedKeepsGoal(ready, s, behind);
      }
    }
  }
}
