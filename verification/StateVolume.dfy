/** The K3OS_STATE volume as the disk boot mode sees it, and what its steps may make of it:
    internal/boot/modes/disk.go. */
module StateVolume {
  import opened FileTree

  const TAKEOVER := "takeover"
  const FACTORY_RESET := "factory-reset"
  const EPHEMERAL := "ephemeral"
  const POWEROFF := "poweroff"
  const DATA := "data"
  const KEPT_TOP := {"boot", "k3os", "sbin"}
  const KEPT_SBIN := {"init", "k3s", "k3os"}

  /** The entries of the directory `name`, if it is one. */
  function Sub(t: Entries, name: string): Entries
  {
    if name in t && t[name].Dir? then t[name].entries else map[]
  }

  /** k3os/system, where the marker files live. */
  function System(t: Entries): Entries
  {
    Sub(Sub(t, "k3os"), "system")
  }

  predicate HasMarker(t: Entries, marker: string)
  {
    marker in System(t)
  }

  predicate HasData(t: Entries)
  {
    DATA in Sub(t, "k3os")
  }

  predicate HasSystem(t: Entries)
  {
    "k3os" in t && t["k3os"].Dir? && "system" in Sub(t, "k3os") && Sub(t, "k3os")["system"].Dir?
  }

  function WithSub(t: Entries, name: string, entries: Entries): Entries
  {
    t[name := Dir(entries)]
  }

  function WithSystem(t: Entries, system: Entries): Entries
  {
    WithSub(t, "k3os", WithSub(Sub(t, "k3os"), "system", system))
  }

  predicate KeptInBoot(name: string)
  {
    name != "" && name[0] == 'g'
  }

  /** A marker that os.Remove can take away. */
  predicate Removable(d: Entries, name: string)
  {
    name in d && (d[name].Dir? ==> d[name].entries == map[])
  }

  /** Everything a takeover needs from the volume to run to its end. */
  ghost predicate TakeoverReady(t: Entries)
  {
    && HasSystem(t)
    && Removable(System(t), TAKEOVER)
    && (FACTORY_RESET in System(t) ==> System(t)[FACTORY_RESET].File?)
    && (POWEROFF in System(t) ==> Removable(System(t), POWEROFF))
  }

  /** A marker says that k3os/data must not be used again. */
  predicate Armed(t: Entries)
  {
    HasMarker(t, TAKEOVER) || HasMarker(t, FACTORY_RESET)
  }

  /** Data that is still there is still marked. */
  predicate Guarded(t: Entries)
  {
    HasData(t) ==> Armed(t)
  }

  predicate SameGuards(t: Entries, u: Entries)
  {
    && (forall m <- {TAKEOVER, FACTORY_RESET, EPHEMERAL, POWEROFF} :: HasMarker(t, m) == HasMarker(u, m))
    && HasData(t) == HasData(u)
  }

  /** No marker asks for anything to be removed. */
  predicate Unmarked(t: Entries)
  {
    !Armed(t) && !HasMarker(t, EPHEMERAL)
  }

  predicate SameData(t: Entries, u: Entries)
  {
    SameEntry(Sub(t, "k3os"), Sub(u, "k3os"), DATA)
  }

  // What a takeover is for.

  function Keep(d: Entries, names: set<string>): Entries
  {
    map n | n in d && n in names :: d[n]
  }

  function KeepGrub(d: Entries): Entries
  {
    map n | n in d && KeptInBoot(n) :: d[n]
  }

  function ResetSystem(d: Entries): Entries
  {
    (d - {TAKEOVER, POWEROFF})[FACTORY_RESET := File("")]
  }

  function ResetTop(name: string, node: Node): Node
  {
    if !node.Dir? then node
    else if name == "sbin" then Dir(Keep(node.entries, KEPT_SBIN))
    else if name == "boot" then Dir(KeepGrub(node.entries))
    else if name == "k3os" then
      Dir(map n | n in node.entries && n != DATA ::
            if n == "system" && node.entries[n].Dir? then Dir(ResetSystem(node.entries[n].entries))
            else node.entries[n])
    else node
  }

  /** The volume a complete takeover leaves: nothing but `boot`, `k3os` and `sbin`, where `sbin` is no
      link and holds only init, k3s and k3os, `boot` holds only names that start with g, and `k3os`
      is as before except for the data, the takeover and poweroff markers, and the factory-reset marker. */
  function Reset(t: Entries): Entries
  {
    map n | n in t && n in KEPT_TOP && !(n == "sbin" && t[n].Link?) :: ResetTop(n, t[n])
  }

  /** The three directories that a takeover cleans. */
  datatype Place = Top | Sbin | Boot
  {
    function Name(): string
    {
      if Sbin? then "sbin" else "boot"
    }

    predicate In(t: Entries)
    {
      !Top? ==> Name() in t && t[Name()].Dir?
    }

    function Of(t: Entries): Entries
    {
      if Top? then t else Sub(t, Name())
    }

    function Put(t: Entries, entries: Entries): Entries
    {
      if Top? then entries else WithSub(t, Name(), entries)
    }

    predicate Keeps(name: string)
    {
      match this
      case Top => name in KEPT_TOP
      case Sbin => name in KEPT_SBIN
      case Boot => KeptInBoot(name)
    }
  }

  ghost predicate SameKept(place: Place, a: Entries, b: Entries)
  {
    forall n | place.Keeps(n) :: (n in a <==> n in b) && (n in a ==> a[n] == b[n])
  }

  predicate SbinLink(t: Entries)
  {
    "sbin" in t && t["sbin"].Link?
  }

  ghost predicate SameK3os(t: Entries, u: Entries)
  {
    ("k3os" in t <==> "k3os" in u) && ("k3os" in t ==> t["k3os"] == u["k3os"])
  }

  /** A takeover of either volume leads to the same one, and all of k3os is the same. */
  ghost predicate Alike(t: Entries, u: Entries)
  {
    Reset(u) == Reset(t) && SameK3os(t, u) && SbinLink(u) == SbinLink(t)
  }

  ghost predicate AllAlike(t: Entries, log: seq<Entries>, from: nat)
  {
    forall i :: from <= i < |log| ==> Alike(t, log[i])
  }

  /** Nothing a takeover decides on differs between the two volumes, but for one entry it drops. */
  lemma DroppedEntry(t: Entries, u: Entries, place: Place, name: string)
    requires place.In(t) && place.In(u) && !place.Keeps(name)
    requires u == place.Put(t, place.Of(u)) && Agree(place.Of(t), place.Of(u), {name})
    ensures Alike(t, u)
  {
    match place
    case Top =>
    case Sbin => assert Keep(Sub(u, "sbin"), KEPT_SBIN) == Keep(Sub(t, "sbin"), KEPT_SBIN);
    case Boot => assert KeepGrub(Sub(u, "boot")) == KeepGrub(Sub(t, "boot"));
  }

  /** Only kept names are left outside k3os. */
  ghost predicate Cleaned(t: Entries)
  {
    && (forall n <- t :: n in KEPT_TOP)
    && !SbinLink(t)
    && (forall n <- Sub(t, "sbin") :: n in KEPT_SBIN)
    && (forall n <- Sub(t, "boot") :: KeptInBoot(n))
  }

  /** `u` is `t` up to what is in k3os/data. */
  ghost predicate OnlyData(t: Entries, u: Entries)
  {
    u == t || (HasData(t) && u == WithSub(t, "k3os", Sub(u, "k3os")) && Agree(Sub(t, "k3os"), Sub(u, "k3os"), {DATA}))
  }

  lemma ChangeInK3os(t: Entries, u: Entries)
    requires HasSystem(t) && HasSystem(u) && u == WithSub(t, "k3os", Sub(u, "k3os"))
    requires Agree(Sub(t, "k3os"), Sub(u, "k3os"), {DATA, "system"})
    requires ResetSystem(System(u)) == ResetSystem(System(t))
    ensures Reset(u) == Reset(t) && SbinLink(u) == SbinLink(t)
  {
    assert ResetTop("k3os", u["k3os"]) == ResetTop("k3os", t["k3os"]);
  }

  lemma SbinLinkGone(t: Entries)
    requires SbinLink(t)
    ensures Reset(t - {"sbin"}) == Reset(t) && !SbinLink(t - {"sbin"})
  {
    assert Reset(t - {"sbin"}).Keys == Reset(t).Keys;
  }

  /** A volume on which everything is done is its own reset. */
  lemma NothingLeftToDo(t: Entries)
    requires HasSystem(t) && !HasData(t) && {TAKEOVER, POWEROFF} !! System(t).Keys
    requires FACTORY_RESET in System(t) && System(t)[FACTORY_RESET] == File("")
    requires Cleaned(t)
    ensures Reset(t) == t
  {
    assert ResetSystem(System(t)) == System(t);
    forall n | n in t
      ensures ResetTop(n, t[n]) == t[n]
    {
      if t[n].Dir? {
        assert n == "sbin" ==> Keep(t[n].entries, KEPT_SBIN) == t[n].entries;
        assert n == "boot" ==> KeepGrub(t[n].entries) == t[n].entries;
        assert n == "k3os" ==> ResetTop(n, t[n]).entries == t[n].entries;
      }
    }
  }

  /** The entries of `b` are exactly those of `a` with these names. */
  ghost predicate OnlyThose(a: Entries, b: Entries, names: iset<string>)
  {
    forall n :: (n in b <==> n in a && n in names) && (n in b ==> b[n] == a[n])
  }

  /** What the reset volume looks like. */
  lemma ResetIsClean(t: Entries)
    requires TakeoverReady(t)
    ensures forall n :: n in Reset(t) <==> n in t && n in {"boot", "k3os", "sbin"} && !(n == "sbin" && t[n].Link?)
    ensures forall n <- Reset(t) :: if t[n].Dir? then Reset(t)[n].Dir? else Reset(t)[n] == t[n]
    ensures !SbinLink(t) ==> OnlyThose(Sub(t, "sbin"), Sub(Reset(t), "sbin"), iset{"init", "k3s", "k3os"})
    ensures OnlyThose(Sub(t, "boot"), Sub(Reset(t), "boot"), iset n: string | n != "" && n[0] == 'g')
    ensures !HasData(Reset(t)) && !HasMarker(Reset(t), TAKEOVER) && !HasMarker(Reset(t), POWEROFF)
    ensures HasMarker(Reset(t), FACTORY_RESET)
    ensures Agree(System(t), System(Reset(t)), {"takeover", "poweroff", "factory-reset"})
    ensures Agree(Sub(t, "k3os"), Sub(Reset(t), "k3os"), {"data", "system"})
    ensures Reset(Reset(t)) == Reset(t)
  {
    var r := Reset(t);
    assert r["k3os"] == ResetTop("k3os", t["k3os"]);
    assert System(r) == ResetSystem(System(t));
    NothingLeftToDo(r);
  }

  ghost predicate StillReady(t: Entries, u: Entries)
  {
    TakeoverReady(t) && HasMarker(u, TAKEOVER) ==> TakeoverReady(u)
  }

  /** The first thing a takeover writes. */
  function Marked(t: Entries): Entries
  {
    WithSystem(t, System(t)[FACTORY_RESET := File("")])
  }

  /** A state of a takeover of `t`: it has the factory-reset marker, leads to the same volume, and can be taken
      over again for as long as the takeover marker is there. */
  ghost predicate TakeoverState(t: Entries, s: Entries)
  {
    Reset(s) == Reset(t) && HasMarker(s, FACTORY_RESET) && HasSystem(s) && StillReady(t, s)
  }

  ghost predicate Resumable(t: Entries, log: seq<Entries>, from: nat)
  {
    forall i :: from <= i < |log| ==> TakeoverState(t, log[i])
  }

  // Where a link at `sbin` leads.

  type Path = seq<string>

  function DirAt(t: Entries, p: Path): Option<Entries>
    decreases |p|
  {
    if p == [] then Some(t)
    else if p[0] in t && t[p[0]].Dir? then DirAt(t[p[0]].entries, p[1..])
    else None
  }

  function PutAt(t: Entries, p: Path, entries: Entries): Entries
    decreases |p|
  {
    if p == [] then entries else WithSub(t, p[0], PutAt(Sub(t, p[0]), p[1..], entries))
  }

  lemma {:induction false} PutAtDir(t: Entries, p: Path, entries: Entries)
    requires DirAt(t, p).Some?
    ensures DirAt(PutAt(t, p, entries), p) == Some(entries)
    ensures PutAt(t, p, DirAt(t, p).value) == t
    decreases |p|
  {
    if p != [] {
      PutAtDir(t[p[0]].entries, p[1..], entries);
    }
  }

  lemma {:induction false} PutAtTwice(t: Entries, p: Path, a: Entries, b: Entries)
    requires DirAt(t, p).Some?
    ensures PutAt(PutAt(t, p, a), p, b) == PutAt(t, p, b)
    decreases |p|
  {
    if p != [] {
      PutAtTwice(t[p[0]].entries, p[1..], a, b);
    }
  }

  /** The directory behind the link is one that a takeover keeps, or the volume itself. */
  predicate LeadsToKept(behind: Option<Path>)
  {
    behind.Some? && (behind.value == [] || behind.value[0] in KEPT_TOP)
  }

  /** Emptying that directory takes the markers away, or the directory they are in. */
  predicate LeadsToMarkers(behind: Option<Path>)
  {
    behind.Some? && behind.value in {["k3os"], ["k3os", "system"]}
  }

  /** `s` is `t` but for entries behind the link that a cleaning of `sbin` does not keep. */
  ghost predicate OnlyBehind(t: Entries, s: Entries, p: Path)
    requires DirAt(t, p).Some?
  {
    && DirAt(s, p).Some? && s == PutAt(t, p, DirAt(s, p).value)
    && SameKept(Sbin, DirAt(t, p).value, DirAt(s, p).value)
  }

  lemma BehindIsDropped(t: Entries, s: Entries, p: Path)
    requires DirAt(t, p).Some? && OnlyBehind(t, s, p) && !LeadsToKept(Some(p))
    ensures Alike(t, s)
  {
    DroppedEntry(t, s, Top, p[0]);
  }

  lemma PutDown(t: Entries, p: Path, entries: Entries)
    requires p != [] && DirAt(t, p).Some?
    ensures DirAt(Sub(t, p[0]), p[1..]) == DirAt(t, p)
    ensures Sub(PutAt(t, p, entries), p[0]) == PutAt(Sub(t, p[0]), p[1..], entries)
    ensures Agree(t, PutAt(t, p, entries), {p[0]})
  {
  }

  /** Changing a directory changes no marker and no k3os/data if it is not one of those that hold them, or if the
      change is in other entries. */
  lemma PutKeepsGuards(t: Entries, p: Path, entries: Entries)
    requires DirAt(t, p).Some?
    requires p == [] ==> SameK3os(t, entries)
    requires LeadsToMarkers(Some(p)) ==> Agree(DirAt(t, p).value, entries, {"init"})
    ensures SameGuards(t, PutAt(t, p, entries))
  {
    var s := PutAt(t, p, entries);
    if p != [] {
      PutDown(t, p, entries);
      var q := p[1..];
      if p[0] == "k3os" {
        if q == [] {
          assert p == ["k3os"];
          assert Sub(s, "k3os") == entries;
        } else {
          PutDown(Sub(t, "k3os"), q, entries);
          if q[0] == "system" && q[1..] == [] {
            assert p == ["k3os", "system"];
          } else if q[0] == "system" {
            PutDown(System(t), q[1..], entries);
            assert forall n :: n in System(s) <==> n in System(t);
          }
        }
      }
    }
  }

  lemma BehindKeepsGuards(t: Entries, s: Entries, p: Path)
    requires DirAt(t, p).Some? && OnlyBehind(t, s, p) && !LeadsToMarkers(Some(p))
    ensures SameGuards(t, s)
  {
    PutKeepsGuards(t, p, DirAt(s, p).value);
  }

  /** os.ReadDir sorts: `data` is removed before `system`, so that `system` is as before for as long as there is
      data, unless the removal of the data has failed. */
  ghost predicate InOrder(a: Entries, b: Entries, dataStuck: bool)
  {
    DATA in b && !dataStuck ==> ("system" in a <==> "system" in b) && ("system" in a ==> a["system"] == b["system"])
  }

  /** A state of the cleaning behind the link. */
  ghost predicate BehindState(t: Entries, s: Entries, p: Path, dataStuck: bool)
    requires DirAt(t, p).Some?
  {
    OnlyBehind(t, s, p) && InOrder(DirAt(t, p).value, DirAt(s, p).value, dataStuck)
  }

  /** Data that is marked stays marked in every state of a cleaning behind the link, except for a link to
      k3os/system, and for one to k3os when the removal of the data fails. */
  lemma BehindKeepsGuardsIff(t: Entries, p: Path, dataStuck: bool)
    requires HasSystem(t) && HasData(t) && Armed(t) && DirAt(t, p).Some?
    ensures (forall s | BehindState(t, s, p, dataStuck) :: Guarded(s)) <==>
            p != ["k3os", "system"] && !(p == ["k3os"] && dataStuck)
  {
    if p == ["k3os", "system"] || (p == ["k3os"] && dataStuck) {
      var s := MarkersTaken(t, p, dataStuck);
      assert BehindState(t, s, p, dataStuck) && !Guarded(s);
    } else {
      forall s | BehindState(t, s, p, dataStuck)
        ensures Guarded(s)
      {
        if p == ["k3os"] {
          assert p[1..] == [] && DirAt(t, p) == DirAt(Sub(t, "k3os"), []) && DirAt(s, p) == DirAt(Sub(s, "k3os"), []);
        } else {
          BehindKeepsGuards(t, s, p);
        }
      }
    }
  }

  /** A state in which the markers are gone, and the data is not. */
  lemma MarkersTaken(t: Entries, p: Path, dataStuck: bool) returns (s: Entries)
    requires HasSystem(t) && HasData(t) && DirAt(t, p).Some?
    requires p == ["k3os", "system"] || (p == ["k3os"] && dataStuck)
    ensures BehindState(t, s, p, dataStuck) && !Guarded(s)
  {
    var kept := if p == ["k3os"] then Sub(t, "k3os") - {"system"} else Keep(System(t), KEPT_SBIN);
    s := PutAt(t, p, kept);
    PutAtDir(t, p, kept);
    PutDown(t, p, kept);
    if p == ["k3os", "system"] {
      assert p[1..] == ["system"] && p[1..][1..] == [];
      PutDown(Sub(t, "k3os"), p[1..], kept);
      assert DirAt(t, p) == DirAt(Sub(t, "k3os"), p[1..]) == DirAt(System(t), []);
    } else {
      assert p[1..] == [] && DirAt(t, p) == DirAt(Sub(t, "k3os"), []);
    }
  }
}
