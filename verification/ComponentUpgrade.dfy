/** Upgrading one component in place: internal/system/component.go. */
module ComponentUpgrade {
  import opened FileTree

  const CURRENT := "current"
  const PREVIOUS := "previous"
  const CURRENT_TMP := "current.tmp"
  const OLD_SUFFIX := ".old"

  /** StatComponentVersion: the name of the version that `alias` links to. */
  function StatVersion(d: Entries, alias: string): Option<string>
  {
    if !NamesDir(d, alias) || !d[alias].Link? then None
    else if NamesDir(d, d[alias].target) then Some(d[alias].target)
    else None
  }

  /** Go's os.Rename: never onto a directory, and a directory only onto a free name. */
  predicate CanRename(d: Entries, from: string, to: string)
  {
    from in d && (to in d ==> !d[from].Dir? && !d[to].Dir?)
  }

  /** os.Remove takes anything but a directory that still has entries. */
  predicate CanRemove(d: Entries, name: string)
  {
    name in d && (d[name].Dir? ==> d[name].entries == map[])
  }

  /** The name os.MkdirTemp builds from a pattern without `*`: the pattern, then digits. */
  predicate IsTempName(temp: string, version: string)
  {
    |version| < |temp| && version == temp[..|version|] && '0' <= temp[|temp| - 1] <= '9'
  }

  /** `current` links to a directory that sits beside it. */
  ghost predicate Pinned(d: Entries)
  {
    CURRENT in d && d[CURRENT].Link? && d[CURRENT].target in d && d[d[CURRENT].target].Dir?
  }

  /** In `s`, `current` still names the version it names in `d`, with the same contents. */
  ghost predicate KeepsCurrent(d: Entries, s: Entries)
    requires Pinned(d)
  {
    var v := d[CURRENT].target;
    CURRENT in s && s[CURRENT] == d[CURRENT] && v in s && s[v] == d[v]
  }

  /** In `s`, `current` names `version`, and `version` holds `tree`. */
  ghost predicate Installed(s: Entries, version: string, tree: Node)
  {
    CURRENT in s && s[CURRENT] == Link(version) && version in s && s[version] == tree
  }

  /** A version kept in a directory called `previous` is at risk exactly when it is empty. */
  ghost predicate SafeName(version: string, tree: Node)
  {
    version == PREVIOUS ==> tree.Dir? && tree.entries != map[]
  }

  ghost predicate SafeBase(d: Entries)
  {
    Pinned(d) && SafeName(d[CURRENT].target, d[d[CURRENT].target])
  }

  /** Whether a failed rename-in leaves the version path as it was. */
  ghost predicate Restorable(d: Entries, version: string)
  {
    || version !in d
    || d[version].Dir?
    || Resolve(d, version).None?
    || (NamesDir(d, version) && version + OLD_SUFFIX !in d)
  }

  datatype Stage = Skipped | Refused | Staged | RenameIn | Swap | Done

  /** How far a call got, and what met a fault on the way: an error although the directory allowed the operation.
      `tidy`: no fault in a deferred or cleaning operation. `spared`: one in the removal of `previous`. `uncopied`:
      one in the copy of `current` over it. `faulted`: one in an operation that the new version depends on. */
  datatype Report = Report(stage: Stage, tidy: bool, spared: bool, uncopied: bool, faulted: bool := false)
  {
    predicate Faultless()
    {
      tidy && !spared && !uncopied && !faulted
    }
  }

  /** The call completes only if `can`, and it does when nothing faults. */
  ghost predicate Progress(r: Report, can: bool)
  {
    (r.stage.Done? ==> can) && (can && !r.faulted ==> r.stage.Done?)
  }

  /** The directory lets a new version take the place at its path, and `current` be swapped. */
  ghost predicate CanInstall(d: Entries, version: string)
  {
    && (CURRENT in d ==> !d[CURRENT].Dir?)
    && if Resolve(d, version).Some? then NamesDir(d, version) ==> CanRename(d, version, version + OLD_SUFFIX)
       else version !in d
  }

  /** There is a new version to copy, and nothing in the way of any step. */
  ghost predicate CanUpgrade(src: Entries, d: Entries, digits: string)
  {
    && StatVersion(src, CURRENT).Some? && !SameVersion(src, d) && NewTree(src).Dir?
    && CURRENT_TMP !in d && NewVersion(src) + digits !in d
    && CanInstall(Staging(d, NewVersion(src), digits), NewVersion(src))
  }

  function NewVersion(src: Entries): string
  {
    StatVersion(src, CURRENT).GetOr("")
  }

  function NewTree(src: Entries): Node
  {
    if NewVersion(src) in src then src[NewVersion(src)] else Dir(map[])
  }

  predicate SameVersion(src: Entries, d: Entries)
  {
    StatVersion(src, CURRENT).Some? && StatVersion(d, CURRENT) == StatVersion(src, CURRENT)
  }

  ghost predicate SafeCall(src: Entries, d: Entries)
  {
    StatVersion(src, CURRENT).Some? && SafeBase(d) && SafeName(NewVersion(src), NewTree(src))
  }

  /** The destination as the rename steps find it. */
  ghost function Staging(d: Entries, version: string, digits: string): Entries
  {
    d[CURRENT_TMP := Link(version)][version + digits := Dir(map[])]
  }

  /** What a call does with a directory that already has the name of the new version: it needs a free name to move
      it aside, and one that completes leaves it there. */
  ghost predicate Replaced(d: Entries, s: Entries, r: Report, version: string)
  {
    version in d && d[version].Dir? ==>
      && (r.stage in {RenameIn, Swap, Done} ==> version + OLD_SUFFIX !in d)
      && (r.stage.Done? && LinkOrAbsent(d, CURRENT) && version != PREVIOUS ==> LeftAside(d, s, version))
  }

  ghost predicate LeftAside(d: Entries, s: Entries, version: string)
    requires version in d
  {
    version + OLD_SUFFIX in s && s[version + OLD_SUFFIX] == d[version]
  }

  /** What becomes of `previous`: one that can be removed is replaced with the old `current`. */
  ghost predicate Rotated(d: Entries, s: Entries, spared: bool, uncopied: bool)
  {
    if PREVIOUS in d && (spared || !CanRemove(d, PREVIOUS)) then SameEntry(d, s, PREVIOUS)
    else if CURRENT in d && !uncopied then PREVIOUS in s && s[PREVIOUS] == d[CURRENT]
    else PREVIOUS !in s
  }

  /** It happens after the rename-in, and only a fault keeps a call that gets there from its end. */
  ghost predicate RotatedInTime(d: Entries, s: Entries, r: Report)
  {
    && (if r.stage in {Swap, Done} then Rotated(d, s, r.spared, r.uncopied) else SameEntry(d, s, PREVIOUS))
    && (r.stage.Swap? ==> r.faulted)
  }

  /** What a call that returns says about the state it leaves. */
  ghost predicate CallContract(version: string, node: Node, d: Entries, s: Entries, r: Report)
  {
    && (r.stage in {Skipped, Refused} ==> s == d && r.tidy)
    && (r.stage.Staged? && r.tidy ==> s == d)
    && Replaced(d, s, r, version)
    && (!r.stage.Done? ==> SameEntry(d, s, CURRENT))
    && (r.stage.Done? ==> CURRENT in s && s[CURRENT] == Link(version) && node.Dir?)
    && (r.tidy && LinkOrAbsent(d, CURRENT) ==>
          Agree(d, s, {version, version + OLD_SUFFIX, PREVIOUS, CURRENT}))
    && (LinkOrAbsent(d, CURRENT) && version != PREVIOUS ==>
          RotatedInTime(d, s, r) && (r.stage.Done? ==> version in s && s[version] == node))
  }

  /** The version is the target of a link to a directory; nothing else is one. */
  lemma VersionIsTarget(d: Entries, alias: string, v: string)
    ensures alias in d && d[alias] == Link(v) && v in d && d[v].Dir? ==> StatVersion(d, alias) == Some(v)
    ensures alias in d && d[alias] == Link(v) && v !in d ==> StatVersion(d, alias) == None
    ensures alias !in d || !d[alias].Link? ==> StatVersion(d, alias) == None
  {
  }

  lemma VersionIsNotCurrent(src: Entries)
    requires StatVersion(src, CURRENT).Some?
    ensures NewVersion(src) != CURRENT && NewVersion(src) in src
  {
    if src[CURRENT] == Link(CURRENT) {
      SelfLinkIsLost(src, CURRENT, MAX_LINKS);
    }
  }

  /** `current` names a version of its own, and the old version or the new one is called `previous` and is empty. */
  ghost predicate AtRisk(d: Entries, temp: string, version: string, node: Node)
  {
    Pinned(d) && d[CURRENT].target != temp && !(SafeBase(d) && SafeName(version, node))
  }

  /** In state `s`, `current` names the version it named in `d`, untouched, or the new version, complete. */
  ghost predicate Good(d: Entries, s: Entries, version: string, node: Node)
    requires Pinned(d)
  {
    KeepsCurrent(d, s) || Installed(s, version, node)
  }

  ghost predicate AllGood(d: Entries, log: seq<Entries>, from: nat, version: string, node: Node)
    requires Pinned(d)
  {
    forall i :: from <= i < |log| ==> Good(d, log[i], version, node)
  }

  /** What a call leaves behind, whatever `current` was before: everything outside the names it works
      with, and `current` itself until the last rename. */
  ghost predicate EndState(d: Entries, s: Entries, r: Report, temp: string, version: string, node: Node)
  {
    && (!r.stage.Done? ==> SameEntry(d, s, CURRENT))
    && (r.stage.Done? ==> CURRENT in s && s[CURRENT] == Link(version))
    && (CURRENT_TMP in s || !r.stage.Done? ==> SameEntry(d, s, CURRENT_TMP))
    && (LinkOrAbsent(d, CURRENT) ==> Agree(d, s, {temp, version, version + OLD_SUFFIX, PREVIOUS, CURRENT, CURRENT_TMP}))
    && (LinkOrAbsent(d, CURRENT) && r.stage.Done? ==> temp !in s && CURRENT_TMP !in s)
    && (LinkOrAbsent(d, CURRENT) && version != PREVIOUS ==>
          RotatedInTime(d, s, r) && (r.stage.Done? ==> version in s && s[version] == node))
  }

  lemma EndStateFrom(d: Entries, e: Entries, s: Entries, r: Report, temp: string, version: string, node: Node)
    requires EndState(e, s, r, temp, version, node)
    requires Agree(d, e, {version, version + OLD_SUFFIX}) && version != CURRENT
    requires SameEntry(d, e, CURRENT_TMP)
    ensures EndState(d, s, r, temp, version, node)
  {
    assert (version + OLD_SUFFIX)[|version + OLD_SUFFIX| - 1] == 'd' && CURRENT[|CURRENT| - 1] == 't';
  }

  /** Renaming the version aside and back restores the directory unless something was in the way. */
  lemma ThereAndBack(d: Entries, e: Entries, s: Entries, temp: string, version: string)
    requires NamesDir(d, version) && CanRename(d, version, version + OLD_SUFFIX)
    requires e == (d - {version})[version + OLD_SUFFIX := d[version]]
    requires s == (e - {version + OLD_SUFFIX})[version := e[version + OLD_SUFFIX]]
    requires temp !in {version, version + OLD_SUFFIX}
    ensures Agree(d, s, {temp}) <==> Restorable(d, version)
  {
    assert version != version + OLD_SUFFIX;
    assert version + OLD_SUFFIX !in s;
  }

  /** What the steps from some point on guarantee. `apart`: names that the version `current` started
      from must not have for the crash guarantee to make sense. */
  ghost predicate Steps(d: Entries, s: Entries, log: seq<Entries>, from: nat, r: Report, apart: set<string>,
                        temp: string, version: string, node: Node)
  {
    && (SafeBase(d) && d[CURRENT].target !in apart && SafeName(version, node) ==>
          Protocol(d, log, from, s, r.stage.Done?, version, node))
    && (r.stage.Done? && !r.spared && AtRisk(d, temp, version, node) ==> !AllGood(d, log, from, version, node))
    && EndState(d, s, r, temp, version, node)
  }

  /** What one call does to the directory, up to and including its deferred steps. */
  ghost predicate Outcome(d: Entries, s: Entries, log: seq<Entries>, from: nat, r: Report,
                          digits: string, version: string, node: Node)
  {
    && CallContract(version, node, d, s, r)
    // A crash at any point.
    && (SafeBase(d) && SafeName(version, node) && !r.stage.Refused? ==>
          Protocol(d, log, from, s, r.stage.Done?, version, node))
    // Of the calls that completed without a fault in removing `previous`, exactly these are safe at every point.
    && (r.stage.Done? && !r.spared && Pinned(d) ==>
          (AllGood(d, log, from, version, node) <==> SafeBase(d) && SafeName(version, node)))
    // An error at or before the rename-in, undone.
    && (r.stage in {Staged, RenameIn} && r.tidy ==>
          (s == d <==> r.stage.Staged? || Restorable(Staging(d, version, digits), version)))
  }

  /** The same between the creation of the temporary link and its removal. */
  ghost predicate Inner(d: Entries, s: Entries, log: seq<Entries>, from: nat, r: Report,
                        temp: string, version: string, node: Node)
  {
    && r.stage in {Staged, RenameIn, Swap, Done}
    && (r.stage.Staged? && r.tidy ==> s == d)
    && (r.stage.RenameIn? && r.tidy ==> (s == d <==> Restorable(d[temp := Dir(map[])], version)))
    && (SafeBase(d) && SafeName(version, node) ==> Protocol(d, log, from, s, r.stage.Done?, version, node))
    && (r.stage.Done? && !r.spared && AtRisk(d, temp, version, node) ==> !AllGood(d, log, from, version, node))
    && (r.stage.Done? ==> node.Dir? && temp !in d)
    && EndState(d, s, r, temp, version, node) && Replaced(d, s, r, version)
    && (r.tidy ==> SameEntry(d, s, temp))
  }

  lemma EndStateAround(d: Entries, e: Entries, left: Entries, s: Entries, r: Report, gone: bool,
                       temp: string, version: string, node: Node)
    requires IsTempName(temp, version) && temp !in d && e == d[temp := Dir(map[])]
    requires Agree(left, s, {temp}) && (temp !in left ==> s == left)
    requires EndState(e, left, r, temp, version, node)
    ensures EndState(d, s, r.(tidy := r.tidy && gone), temp, version, node)
  {
    TempNameIsApart(temp, version);
  }

  /** The temporary directory is made before the inner steps and removed after them. */
  lemma InnerAround(d: Entries, e: Entries, left: Entries, installed: seq<Entries>, s: Entries, log: seq<Entries>,
                    from: nat, r: Report, gone: bool, temp: string, version: string, node: Node)
    requires IsTempName(temp, version) && version != CURRENT && temp !in d && e == d[temp := Dir(map[])]
    requires CURRENT_TMP in d && d[CURRENT_TMP] == Link(version)
    requires Pinned(d) ==> d[CURRENT].target != version
    requires from < |installed| && installed[from] == e && installed <= log
    requires forall i :: |installed| <= i < |log| ==> Agree(left, log[i], {temp})
    requires Agree(left, s, {temp}) && (gone ==> temp !in s) && (temp !in left ==> s == left && log == installed)
    requires r.stage in {Staged, RenameIn, Swap, Done}
    requires r.stage.Staged? ==> Agree(e, left, {temp})
    requires r.stage.RenameIn? && r.tidy ==> (Agree(e, left, {temp}) <==> Restorable(e, version))
    requires r.stage.Done? ==> node.Dir?
    requires Steps(e, left, installed, from + 1, r, {temp}, temp, version, node) && Replaced(e, left, r, version)
    ensures Inner(d, s, log, from, r.(tidy := r.tidy && gone), temp, version, node)
  {
    TempNameIsApart(temp, version);
    EndStateAround(d, e, left, s, r, gone, temp, version, node);
    assert Pinned(d) ==> KeepsCurrent(d, e) && e[CURRENT].target != temp;
    if r.stage.Done? && !r.spared && AtRisk(d, temp, version, node) {
      BadStateStays(d, e, installed, from + 1, log, from, version, node);
    }
  }

  /** What the directory must allow, seen from before the temporary link. */
  lemma ProgressAround(d: Entries, e: Entries, r: Report, digits: string, version: string, node: Node)
    requires digits != [] && forall c :: c in digits ==> '0' <= c <= '9'
    requires CURRENT_TMP !in d && e == d[CURRENT_TMP := Link(version)]
    requires Progress(r, version + digits !in e && node.Dir? && CanInstall(e[version + digits := Dir(map[])], version))
    ensures Progress(r, version + digits !in d && node.Dir? && CanInstall(Staging(d, version, digits), version))
    ensures d == e - {CURRENT_TMP}
  {
    DrawnName(version, digits);
    assert Staging(d, version, digits) == e[version + digits := Dir(map[])];
  }

  /** What the inner steps say about every state, seen from before the temporary link. */
  lemma StatesAround(d: Entries, e: Entries, inner: seq<Entries>, left: Entries, log: seq<Entries>, from: nat,
                     s: Entries, r: Report, temp: string, version: string, node: Node)
    requires IsTempName(temp, version) && temp != CURRENT_TMP
    requires d == e - {CURRENT_TMP} && CURRENT_TMP in e && e[CURRENT_TMP] == Link(version)
    requires from < |inner| && inner[from] == e
    requires Inner(e, left, inner, from + 1, r, temp, version, node)
    requires (s == left - {CURRENT_TMP} && log == inner + [s]) || (s == left && log == inner)
    requires r.stage.Done? && Pinned(e) ==> s == left && log == inner
    ensures SafeBase(d) && SafeName(version, node) ==> Protocol(d, log, from, s, r.stage.Done?, version, node)
    ensures r.stage.Done? && !r.spared && AtRisk(d, temp, version, node) ==> !AllGood(d, log, from, version, node)
  {
    if SafeBase(d) && SafeName(version, node) {
      assert Pinned(e) ==> Protocol(e, inner, from + 1, left, r.stage.Done?, version, node);
      ProtocolAround(d, e, inner, from + 1, left, log, from, s, r.stage.Done?, version, node);
    }
    if r.stage.Done? && !r.spared && AtRisk(d, temp, version, node) {
      BadStateStays(d, e, inner, from + 1, log, from, version, node);
    }
  }

  lemma OutcomeAround(d: Entries, e: Entries, inner: seq<Entries>, left: Entries, log: seq<Entries>, from: nat,
                      s: Entries, r: Report, gone: bool, digits: string, version: string, node: Node)
    requires digits != [] && forall c :: c in digits ==> '0' <= c <= '9'
    requires d == e - {CURRENT_TMP} && CURRENT_TMP in e && e[CURRENT_TMP] == Link(version)
    requires from < |inner| && inner[from] == e
    requires Inner(e, left, inner, from + 1, r, version + digits, version, node)
    requires (s == left - {CURRENT_TMP} && log == inner + [s] && CURRENT_TMP in left)
             || (s == left && log == inner && (gone ==> CURRENT_TMP !in s))
    requires r.stage.Done? && Pinned(e) ==> s == left
    ensures Outcome(d, s, log, from, r.(tidy := r.tidy && gone), digits, version, node)
  {
    var temp := version + digits;
    DrawnName(version, digits);
    ContractAround(d, e, left, s, r, gone, temp, version, node);
    StatesAround(d, e, inner, left, log, from, s, r, temp, version, node);
    if !r.stage.Done? && gone {
      LinkTakenBack(d, e, left, s);
    }
    assert Staging(d, version, digits) == e[temp := Dir(map[])];
  }

  lemma LinkTakenBack(d: Entries, e: Entries, left: Entries, s: Entries)
    requires CURRENT_TMP !in d && e - {CURRENT_TMP} == d && s == left - {CURRENT_TMP}
    requires CURRENT_TMP in e && SameEntry(e, left, CURRENT_TMP)
    ensures s == d <==> left == e
  {
    assert forall n :: n in left && n != CURRENT_TMP ==> n in s && s[n] == left[n];
    assert forall n :: n in e && n != CURRENT_TMP ==> n in d && d[n] == e[n];
  }

  lemma ContractAround(d: Entries, e: Entries, left: Entries, s: Entries, r: Report, gone: bool,
                       temp: string, version: string, node: Node)
    requires r.stage in {Staged, RenameIn, Swap, Done} && IsTempName(temp, version)
    requires EndState(e, left, r, temp, version, node) && (r.tidy ==> SameEntry(e, left, temp))
    requires Replaced(e, left, r, version) && (r.stage.Staged? && r.tidy ==> left == e)
    requires r.stage.Done? ==> node.Dir?
    requires CURRENT_TMP !in d && e - {CURRENT_TMP} == d && CURRENT_TMP in e && e[CURRENT_TMP].Link?
    requires s == left - {CURRENT_TMP} || (s == left && (gone ==> CURRENT_TMP !in s))
    ensures CallContract(version, node, d, s, r.(tidy := r.tidy && gone))
  {
    WithoutLink(d, e);
    if s != left {
      WithoutLink(s, left);
    }
    ContractBeside(d, e, left, s, r, gone, temp, version, node);
  }

  lemma WithoutLink(d: Entries, e: Entries)
    requires e - {CURRENT_TMP} == d
    ensures Agree(d, e, {CURRENT_TMP})
  {
    assert forall n :: n in e && n != CURRENT_TMP ==> n in d && d[n] == e[n];
  }

  /** The temporary link makes no difference to the other names. */
  lemma ContractBeside(d: Entries, e: Entries, left: Entries, s: Entries, r: Report, gone: bool,
                       temp: string, version: string, node: Node)
    requires r.stage in {Staged, RenameIn, Swap, Done} && IsTempName(temp, version)
    requires EndState(e, left, r, temp, version, node) && (r.tidy ==> SameEntry(e, left, temp))
    requires Replaced(e, left, r, version) && (r.stage.Staged? && r.tidy && gone ==> s == d)
    requires r.stage.Done? ==> node.Dir?
    requires Agree(d, e, {CURRENT_TMP}) && Agree(left, s, {CURRENT_TMP})
    requires CURRENT_TMP !in d && CURRENT_TMP in e && e[CURRENT_TMP].Link? && (gone ==> CURRENT_TMP !in s)
    ensures CallContract(version, node, d, s, r.(tidy := r.tidy && gone))
  {
    TempNameIsApart(temp, version);
    ReplacedBeside(d, e, left, s, r, version);
    if LinkOrAbsent(e, CURRENT) && version != PREVIOUS {
      RotatedAround(d, e, left, s, r);
    }
  }

  lemma ReplacedBeside(d: Entries, e: Entries, left: Entries, s: Entries, r: Report, version: string)
    requires Agree(d, e, {CURRENT_TMP}) && Agree(left, s, {CURRENT_TMP}) && CURRENT_TMP !in d
    requires Replaced(e, left, r, version)
    ensures Replaced(d, s, r, version)
  {
    OldNameIsApart(version);
  }

  lemma RotatedAround(d: Entries, e: Entries, left: Entries, s: Entries, r: Report)
    requires SameEntry(d, e, PREVIOUS) && SameEntry(d, e, CURRENT) && SameEntry(left, s, PREVIOUS)
    requires RotatedInTime(e, left, r)
    ensures RotatedInTime(d, s, r)
  {
  }

  /** The protocol of the inner steps, seen from outside: the temporary link is made before, removed after. */
  lemma ProtocolAround(d: Entries, e: Entries, inner: seq<Entries>, at: nat, left: Entries,
                       log: seq<Entries>, from: nat, now: Entries, switched: bool, version: string, node: Node)
    requires SafeBase(d) && e - {CURRENT_TMP} == d && CURRENT_TMP !in d && CURRENT_TMP in e && e[CURRENT_TMP].Link?
    requires from <= at <= |inner| && forall i :: from <= i < at ==> inner[i] == e
    requires Pinned(e) ==> Protocol(e, inner, at, left, switched, version, node)
    requires (now == left - {CURRENT_TMP} && log == inner + [now]) || (now == left && log == inner)
    requires switched ==> now == left && log == inner
    ensures Protocol(d, log, from, now, switched, version, node)
  {
    assert forall n :: n in d ==> n in e && e[n] == d[n];
    assert CURRENT in e && d[CURRENT].target != CURRENT_TMP;
  }

  /** Making way keeps `current`, so what follows it keeps its guarantees. */
  lemma WayMade(d: Entries, e: Entries, s: Entries, log: seq<Entries>, from: nat, at: nat, r: Report, moved: bool,
                temp: string, version: string)
    requires Ready(d, temp, version) && Ready(e, temp, version)
    requires moved ==> NamesDir(d, version) && CanRename(d, version, version + OLD_SUFFIX)
                       && e == (d - {version})[version + OLD_SUFFIX := d[version]]
    requires !moved ==> e == d || (e == d - {version} && version != CURRENT_TMP)
    requires !moved && version in d ==> !d[version].Dir?
    requires at == from || (at == from + 1 && at <= |log| && log[from] == e)
    requires Steps(e, s, log, at, r, if moved then {temp, version + OLD_SUFFIX} else {temp}, temp, version, e[temp])
    ensures Steps(d, s, log, from, r, {temp}, temp, version, d[temp])
  {
    TempNameIsApart(temp, version);
    if moved && version == CURRENT_TMP {
      SelfLinkIsLost(d, version, MAX_LINKS);
    }
    assert Agree(d, e, {version, version + OLD_SUFFIX});
    EndStateFrom(d, e, s, r, temp, version, d[temp]);
    if Pinned(d) {
      assert KeepsCurrent(d, e);
      if r.stage.Done? && !r.spared && AtRisk(d, temp, version, d[temp]) {
        BadStateStays(d, e, log, at, log, from, version, d[temp]);
      }
    }
  }

  lemma BadStateStays(d: Entries, e: Entries, log: seq<Entries>, at: nat, more: seq<Entries>, from: nat,
                      version: string, node: Node)
    requires Pinned(d) && KeepsCurrent(d, e) && Pinned(e)
    requires log <= more && from <= at && !AllGood(e, log, at, version, node)
    ensures !AllGood(d, more, from, version, node)
  {
    var i :| at <= i < |log| && !Good(e, log[i], version, node);
    assert !Good(d, more[i], version, node);
  }

  /** Every state keeps the old version current, except the last one of a call that switched. */
  ghost predicate Protocol(d: Entries, log: seq<Entries>, from: nat, now: Entries, switched: bool,
                           version: string, node: Node)
    requires Pinned(d)
  {
    && (forall i :: from <= i < |log| && !(switched && i == |log| - 1) ==> KeepsCurrent(d, log[i]))
    && (if switched then from < |log| && log[|log| - 1] == now && node.Dir? && Installed(now, version, node)
        else KeepsCurrent(d, now))
  }

  ghost predicate LinkOrAbsent(d: Entries, name: string)
  {
    name in d ==> d[name].Link?
  }

  /** The copy is complete in `temp` and the new link waits in `current.tmp`. */
  ghost predicate Ready(d: Entries, temp: string, version: string)
  {
    && IsTempName(temp, version) && version != CURRENT
    && temp in d && d[temp].Dir?
    && CURRENT_TMP in d && d[CURRENT_TMP] == Link(version)
    && (Pinned(d) ==> d[CURRENT].target != version)
  }

  lemma DrawnName(version: string, digits: string)
    requires digits != [] && forall c :: c in digits ==> '0' <= c <= '9'
    ensures IsTempName(version + digits, version)
    ensures version + digits != CURRENT_TMP
  {
    var temp := version + digits;
    assert temp[|temp| - 1] == digits[|digits| - 1] && digits[|digits| - 1] in digits;
    TempNameIsApart(temp, version);
  }

  lemma TempNameIsApart(temp: string, version: string)
    requires IsTempName(temp, version)
    ensures temp !in {CURRENT, PREVIOUS, CURRENT_TMP, version, version + OLD_SUFFIX}
    ensures version + OLD_SUFFIX !in {CURRENT, PREVIOUS, CURRENT_TMP, version}
  {
    OldNameIsApart(version);
    assert CURRENT[|CURRENT| - 1] == 't' && PREVIOUS[|PREVIOUS| - 1] == 's' && CURRENT_TMP[|CURRENT_TMP| - 1] == 'p';
  }

  lemma OldNameIsApart(version: string)
    ensures version + OLD_SUFFIX !in {CURRENT, PREVIOUS, CURRENT_TMP, version}
    ensures (version + OLD_SUFFIX)[|version + OLD_SUFFIX| - 1] == 'd'
  {
    assert (version + OLD_SUFFIX)[|version + OLD_SUFFIX| - 1] == 'd';
    assert CURRENT[|CURRENT| - 1] == 't' && PREVIOUS[|PREVIOUS| - 1] == 's' && CURRENT_TMP[|CURRENT_TMP| - 1] == 'p';
  }

  lemma {:induction false} SelfLinkIsLost(d: Entries, name: string, hops: nat)
    requires name in d && d[name] == Link(name)
    ensures Resolve(d, name, hops).None?
    decreases hops
  {
    if hops > 0 {
      SelfLinkIsLost(d, name, hops - 1);
    }
  }

  /** Following links does not depend on what is inside a directory. */
  lemma {:induction false} ResolveIgnoresContents(a: Entries, b: Entries, temp: string, name: string, hops: nat)
    requires Agree(a, b, {temp}) && temp in a && temp in b && a[temp].Dir? && b[temp].Dir?
    ensures Resolve(a, name, hops).Some? <==> Resolve(b, name, hops).Some?
    ensures Resolve(a, name, hops).Some? ==> (Resolve(a, name, hops).value.Dir? <==> Resolve(b, name, hops).value.Dir?)
    decreases hops
  {
    if name in a && a[name].Link? && hops > 0 {
      ResolveIgnoresContents(a, b, temp, a[name].target, hops - 1);
    }
  }

  /** A version at risk goes with the removal of `previous`. */
  lemma EmptyIsRemoved(d: Entries, e: Entries, temp: string, version: string)
    requires Ready(d, temp, version) && version !in d && e == (d - {temp})[version := d[temp]]
    requires AtRisk(d, temp, version, d[temp])
    ensures CanRemove(e, PREVIOUS)
    ensures version != PREVIOUS ==> !Good(d, e - {PREVIOUS}, version, d[temp])
  {
    TempNameIsApart(temp, version);
  }

  /** What making way does: a directory is moved aside, and anything else removed unless that meets a fault. */
  ghost predicate WayOpened(d: Entries, e: Entries, moved: bool, fault: bool, version: string)
  {
    if moved then
      && NamesDir(d, version) && CanRename(d, version, version + OLD_SUFFIX) && !fault
      && e == (d - {version})[version + OLD_SUFFIX := d[version]]
    else
      && !NamesDir(d, version)
      && (if Resolve(d, version).Some? && !fault then version in d && e == d - {version} else e == d)
      && (fault ==> Resolve(d, version).Some?)
  }

  /** It leaves the copy and the temporary link alone. */
  lemma StillReady(d: Entries, e: Entries, moved: bool, fault: bool, temp: string, version: string)
    requires Ready(d, temp, version) && WayOpened(d, e, moved, fault, version)
    ensures Ready(e, temp, version)
    ensures !moved ==> e == d || version != CURRENT_TMP
    ensures e[temp] == d[temp]
  {
    TempNameIsApart(temp, version);
    if version == CURRENT_TMP {
      SelfLinkIsLost(d, version, MAX_LINKS);
    }
  }

  /** And decides, with the state of `current`, whether the call can get to its end. */
  lemma WayDecides(d: Entries, e: Entries, s: Entries, r: Report, moved: bool, fault: bool, temp: string,
                   version: string)
    requires Ready(d, temp, version) && WayOpened(d, e, moved, fault, version)
    requires Progress(r, version !in e && (CURRENT in e ==> !e[CURRENT].Dir?))
    requires moved && r.stage.Done? && LinkOrAbsent(e, CURRENT) && version != PREVIOUS ==>
               SameEntry(e, s, version + OLD_SUFFIX)
    ensures Progress(r.(faulted := r.faulted || fault), CanInstall(d, version))
    ensures Replaced(d, s, r, version)
  {
    TempNameIsApart(temp, version);
  }

  lemma NothingDone(d: Entries, log: seq<Entries>, r: Report, temp: string, version: string, node: Node)
    requires r.stage in {Staged, RenameIn}
    ensures Steps(d, d, log, |log|, r, {temp}, temp, version, node)
  {
  }

  /** The end of the steps after the copy: renamed in, `previous` rotated, and swapped unless that failed. */
  lemma SwapEnds(d: Entries, e: Entries, m: Entries, s: Entries, r: Report, temp: string, version: string)
    requires Ready(d, temp, version) && version !in d && e == (d - {temp})[version := d[temp]]
    requires SameEntry(e, m, CURRENT) && SameEntry(e, m, CURRENT_TMP)
    requires LinkOrAbsent(e, CURRENT) ==> Agree(e, m, {PREVIOUS}) && Rotated(e, m, r.spared, r.uncopied)
    requires r.stage in {Swap, Done}
    requires s == if r.stage.Done? then (m - {CURRENT_TMP})[CURRENT := m[CURRENT_TMP]] else m
    requires r.stage.Swap? && !r.faulted ==> !CanRename(m, CURRENT_TMP, CURRENT)
    ensures EndState(d, s, r, temp, version, d[temp])
  {
    TempNameIsApart(temp, version);
  }

  /** What they do on the way, `mid` being the log before the swap. */
  lemma SwapSteps(d: Entries, e: Entries, m: Entries, s: Entries, mid: seq<Entries>, log: seq<Entries>, from: nat,
                  removed: bool, r: Report, temp: string, version: string)
    requires Ready(d, temp, version) && version !in d && e == (d - {temp})[version := d[temp]]
    requires SameEntry(e, m, CURRENT) && SameEntry(e, m, CURRENT_TMP)
    requires LinkOrAbsent(e, CURRENT) ==> Agree(e, m, {PREVIOUS}) && Rotated(e, m, r.spared, r.uncopied)
    requires from < |mid| && mid[from] == e
    requires LinkOrAbsent(e, CURRENT) ==> forall i :: from < i < |mid| ==> Agree(e, mid[i], {PREVIOUS})
    requires LinkOrAbsent(e, CURRENT) && PREVIOUS in e && !removed ==> m == e && |mid| == from + 1
    requires removed ==> CanRemove(e, PREVIOUS) && from + 1 < |mid| && mid[from + 1] == e - {PREVIOUS}
    requires r.spared <==> !removed && CanRemove(e, PREVIOUS)
    requires r.stage in {Swap, Done}
    requires s == if r.stage.Done? then (m - {CURRENT_TMP})[CURRENT := m[CURRENT_TMP]] else m
    requires log == if r.stage.Done? then mid + [s] else mid
    requires EndState(d, s, r, temp, version, d[temp])
    ensures Steps(d, s, log, from, r, {temp}, temp, version, d[temp])
  {
    TempNameIsApart(temp, version);
    if r.stage.Done? && !r.spared && AtRisk(d, temp, version, d[temp]) {
      EmptyIsRemoved(d, e, temp, version);
      if version == PREVIOUS {
        assert !Good(d, log[|log| - 1], version, d[temp]);
      } else {
        assert !Good(d, log[from + 1], version, d[temp]);
      }
    }
  }

  /** The copy into the temporary directory comes before the other steps. */
  lemma CopiedFirst(d: Entries, e: Entries, s: Entries, first: seq<Entries>, log: seq<Entries>, from: nat, r: Report,
                    temp: string, version: string, node: Node)
    requires Ready(d, temp, version) && Agree(d, e, {temp}) && temp in e && e[temp] == node && node.Dir?
    requires from <= |first| && first <= log && forall i :: from <= i < |first| ==> Agree(d, first[i], {temp})
    requires Steps(e, s, log, |first|, r, {temp}, temp, version, node)
    ensures Steps(d, s, log, from, r, {temp}, temp, version, node)
  {
    TempNameIsApart(temp, version);
    if r.stage.Done? && !r.spared && AtRisk(d, temp, version, node) {
      BadStateStays(d, e, log, |first|, log, from, version, node);
    }
  }

  // The code, step by step.

  /** The directory of one component on the destination volume. `log` lists every state it goes
      through after each operation, so a crash leaves the state before the call or one of the log. */
  class ComponentDir {
    var entries: Entries
    ghost var log: seq<Entries>

    constructor (initial: Entries)
      ensures entries == initial && log == []
    {
      entries, log := initial, [];
    }

    method Symlink(target: string, name: string, works: bool) returns (ok: bool)
      modifies this
      ensures ok ==> name !in old(entries) && entries == old(entries)[name := Link(target)]
                     && log == old(log) + [entries]
      ensures !ok ==> entries == old(entries) && log == old(log)
      ensures works && name !in old(entries) ==> ok
    {
      ok := *;
      ok := (ok || works) && name !in entries;
      if ok {
        entries := entries[name := Link(target)];
        log := log + [entries];
      }
    }

    /** os.MkdirTemp, which gives up when every name it tries is taken. */
    method MkdirTemp(temp: string, works: bool) returns (ok: bool)
      modifies this
      ensures ok ==> temp !in old(entries) && entries == old(entries)[temp := Dir(map[])] && log == old(log) + [entries]
      ensures !ok ==> entries == old(entries) && log == old(log)
      ensures works && temp !in old(entries) ==> ok
    {
      ok := *;
      ok := (ok || works) && temp !in entries;
      if ok {
        entries := entries[temp := Dir(map[])];
        log := log + [entries];
      }
    }

    /** os.Remove. `fault`: it failed although the directory allowed it. */
    method Remove(name: string, works: bool) returns (ok: bool, fault: bool)
      modifies this
      ensures ok ==> CanRemove(old(entries), name) && entries == old(entries) - {name}
                     && log == old(log) + [entries]
      ensures !ok ==> entries == old(entries) && log == old(log)
      ensures fault <==> !ok && CanRemove(old(entries), name)
      ensures works ==> !fault
    {
      ok := *;
      ok := (ok || works) && CanRemove(entries, name);
      fault := !ok && CanRemove(entries, name);
      if ok {
        entries := entries - {name};
        log := log + [entries];
      }
    }

    method Rename(from: string, to: string, works: bool) returns (ok: bool, fault: bool)
      modifies this
      ensures ok ==> CanRename(old(entries), from, to)
                     && entries == (old(entries) - {from})[to := old(entries)[from]]
                     && log == old(log) + [entries]
      ensures !ok ==> entries == old(entries) && log == old(log)
      ensures fault <==> !ok && CanRename(old(entries), from, to)
      ensures works ==> !fault
    {
      ok := *;
      ok := (ok || works) && CanRename(entries, from, to);
      fault := !ok && CanRename(entries, from, to);
      if ok {
        entries := (entries - {from})[to := entries[from]];
        log := log + [entries];
      }
    }

    /** os.RemoveAll on a directory: entries go one by one, and a fault leaves what is left. */
    method RemoveAll(name: string, works: bool) returns (fault: bool)
      modifies this
      ensures old(log) <= log
      ensures forall i :: |old(log)| <= i < |log| ==> Agree(old(entries), log[i], {name})
      ensures Agree(old(entries), entries, {name})
      ensures !fault ==> name !in entries
      ensures name !in old(entries) ==> entries == old(entries) && log == old(log)
      ensures works ==> !fault
    {
      fault := false;
      if name in entries {
        var steps: nat := *;
        while steps > 0
          invariant old(log) <= log
          invariant forall i :: |old(log)| <= i < |log| ==> Agree(old(entries), log[i], {name})
          invariant Agree(old(entries), entries, {name})
        {
          var rest: Entries := *;
          entries := entries[name := Dir(rest)];
          log := log + [entries];
          steps := steps - 1;
        }
        fault := *;
        fault := fault && !works;
        if !fault {
          entries := entries - {name};
          log := log + [entries];
        }
      }
    }

    /** copy.Copy into the fresh directory `dst`: contents appear piece by piece. A link cannot be
        copied over the directory that is already there. */
    method CopyTree(node: Node, dst: string, works: bool) returns (ok: bool)
      requires dst in entries && entries[dst].Dir?
      modifies this
      ensures old(log) <= log
      ensures forall i :: |old(log)| <= i < |log| ==> Agree(old(entries), log[i], {dst})
      ensures Agree(old(entries), entries, {dst})
      ensures dst in entries && entries[dst].Dir?
      ensures ok ==> node.Dir? && entries == old(entries)[dst := node]
      ensures works && node.Dir? ==> ok
    {
      ok := false;
      if node.Dir? {
        var steps: nat := *;
        while steps > 0
          invariant old(log) <= log
          invariant forall i :: |old(log)| <= i < |log| ==> Agree(old(entries), log[i], {dst})
          invariant Agree(old(entries), entries, {dst})
          invariant dst in entries && entries[dst].Dir?
        {
          var part: Entries := *;
          entries := entries[dst := Dir(part)];
          log := log + [entries];
          steps := steps - 1;
        }
        ok := *;
        ok := ok || works;
        if ok {
          entries := entries[dst := node];
          log := log + [entries];
          assert entries == old(entries)[dst := node];
        }
      }
    }

    /** copy.Copy(current, previous): a link is copied as a link and needs a free name. A `current`
        that is no link is never written by this program; copying it may change anything but
        `current` and the temporary link. */
    method CopyCurrent(works: bool) returns (fault: bool)
      modifies this
      ensures old(log) <= log
      ensures CURRENT in old(entries) && old(entries)[CURRENT].Link? ==>
                if PREVIOUS !in old(entries) && !fault then
                  && entries == old(entries)[PREVIOUS := old(entries)[CURRENT]]
                  && log == old(log) + [entries]
                else entries == old(entries) && log == old(log)
      ensures CURRENT !in old(entries) ==> entries == old(entries) && log == old(log)
      ensures CURRENT in entries <==> CURRENT in old(entries)
      ensures CURRENT in entries ==> entries[CURRENT] == old(entries)[CURRENT]
      ensures CURRENT_TMP in entries <==> CURRENT_TMP in old(entries)
      ensures CURRENT_TMP in entries ==> entries[CURRENT_TMP] == old(entries)[CURRENT_TMP]
      ensures works ==> !fault
    {
      fault := false;
      if CURRENT !in entries {
        return;
      }
      if entries[CURRENT].Link? {
        if PREVIOUS !in entries {
          fault := *;
          fault := fault && !works;
          if !fault {
            entries := entries[PREVIOUS := entries[CURRENT]];
            log := log + [entries];
          }
        }
      } else {
        var any: Entries := *;
        var kept := map n | n in entries && n in {CURRENT, CURRENT_TMP} :: entries[n];
        entries := any - {CURRENT, CURRENT_TMP} + kept;
        log := log + [entries];
      }
    }

    /** Lines 115-123: drop `previous`, then copy `current` over it. Both are best effort. */
    method Rotate(works: bool) returns (removed: bool, spared: bool, uncopied: bool)
      modifies this
      ensures spared <==> !removed && CanRemove(old(entries), PREVIOUS)
      ensures works ==> !spared && !uncopied
      ensures old(log) <= log
      ensures SameEntry(old(entries), entries, CURRENT) && SameEntry(old(entries), entries, CURRENT_TMP)
      ensures removed ==> CanRemove(old(entries), PREVIOUS)
                          && old(log) + [old(entries) - {PREVIOUS}] <= log
      ensures LinkOrAbsent(old(entries), CURRENT) ==>
                && Agree(old(entries), entries, {PREVIOUS})
                && (forall i :: |old(log)| <= i < |log| ==> Agree(old(entries), log[i], {PREVIOUS}))
                && (PREVIOUS in old(entries) && !removed ==> entries == old(entries) && log == old(log))
                && Rotated(old(entries), entries, spared, uncopied)
    {
      removed, spared := Remove(PREVIOUS, works);
      uncopied := CopyCurrent(works);
    }

    /** Lines 105-130: rename the copy in, rotate `previous`, swap `current`. */
    method SwapIn(temp: string, version: string, works: bool) returns (r: Report)
      requires Ready(entries, temp, version)
      modifies this
      ensures works ==> r.Faultless()
      ensures old(log) <= log
      ensures r.stage in {RenameIn, Swap, Done} && r.tidy
      ensures r.stage.RenameIn? ==> entries == old(entries) && log == old(log)
      ensures !r.stage.RenameIn? ==> version !in old(entries)
      ensures r.stage.RenameIn? <== version in old(entries)
      ensures Progress(r, version !in old(entries) && (CURRENT in old(entries) ==> !old(entries)[CURRENT].Dir?))
      ensures LinkOrAbsent(old(entries), CURRENT) && version != PREVIOUS ==>
                SameEntry(old(entries), entries, version + OLD_SUFFIX)
      // Safety of every state.
      ensures Steps(old(entries), entries, log, |old(log)|, r, {temp}, temp, version, old(entries)[temp])
    {
      ghost var d, from := entries, |log|;
      TempNameIsApart(temp, version);
      var moved, stuck := Rename(temp, version, works);
      if !moved {
        r := Report(RenameIn, true, false, false, stuck);
        NothingDone(d, log, r, temp, version, d[temp]);
        return;
      }
      ghost var e := entries;
      var removed, spared, uncopied := Rotate(works);
      ghost var m, mid := entries, log;
      var swapped, lost := Rename(CURRENT_TMP, CURRENT, works);
      ghost var s, states := entries, log;
      r := Report(if swapped then Done else Swap, true, spared, uncopied, lost);
      SwapEnds(d, e, m, s, r, temp, version);
      SwapSteps(d, e, m, s, mid, states, from, removed, r, temp, version);
    }

    /** Lines 90-103: move a directory at the version path aside, or remove anything else that is there. */
    method MakeWay(version: string, works: bool) returns (go: bool, moved: bool, fault: bool)
      modifies this
      ensures works ==> !fault
      ensures !go ==>
                && NamesDir(old(entries), version) && entries == old(entries) && !moved
                && (!fault ==> !CanRename(old(entries), version, version + OLD_SUFFIX))
      ensures go ==> WayOpened(old(entries), entries, moved, fault, version)
      ensures log == if entries == old(entries) then old(log) else old(log) + [entries]
    {
      go, moved, fault := true, false, false;
      if Resolve(entries, version).Some? {
        if NamesDir(entries, version) {
          moved, fault := Rename(version, version + OLD_SUFFIX, works);
          go := moved;
        } else {
          var removed: bool;
          removed, fault := Remove(version, works);
        }
      }
    }

    /** Lines 105-130, then the deferred rename of line 98 when `moved` says it was registered. */
    method SwapOrGoBack(temp: string, version: string, moved: bool, works: bool) returns (r: Report)
      requires Ready(entries, temp, version)
      requires moved ==> version !in entries && version + OLD_SUFFIX in entries
      modifies this
      ensures works ==> r.Faultless()
      ensures old(log) <= log
      ensures r.stage in {RenameIn, Swap, Done}
      ensures r.stage.RenameIn? && (!moved || !r.tidy) ==> entries == old(entries)
      ensures r.stage.RenameIn? && moved && r.tidy ==>
                entries == (old(entries) - {version + OLD_SUFFIX})[version := old(entries)[version + OLD_SUFFIX]]
      ensures !moved ==> r.tidy
      ensures moved && r.stage.Done? && LinkOrAbsent(old(entries), CURRENT) && version != PREVIOUS ==>
                SameEntry(old(entries), entries, version + OLD_SUFFIX)
      ensures Progress(r, version !in old(entries) && (CURRENT in old(entries) ==> !old(entries)[CURRENT].Dir?))
      ensures Steps(old(entries), entries, log, |old(log)|, r,
                    if moved then {temp, version + OLD_SUFFIX} else {temp}, temp, version, old(entries)[temp])
    {
      TempNameIsApart(temp, version);
      r := SwapIn(temp, version, works);
      ghost var swapped := log;
      if moved {
        var back, fault := Rename(version + OLD_SUFFIX, version, works);
        r := r.(tidy := !fault);
      }
      if r.stage.Done? && !r.spared && AtRisk(old(entries), temp, version, old(entries)[temp]) {
        BadStateStays(old(entries), old(entries), swapped, |old(log)|, log, |old(log)|, version, old(entries)[temp]);
      }
    }

    /** Lines 90-130 and the deferred rename of line 98. */
    method Install(temp: string, version: string, works: bool) returns (r: Report)
      requires Ready(entries, temp, version)
      modifies this
      ensures works ==> r.Faultless()
      ensures old(log) <= log
      ensures r.stage in {Staged, RenameIn, Swap, Done}
      ensures r.stage.Staged? ==> entries == old(entries)
      ensures Progress(r, CanInstall(old(entries), version))
      ensures r.stage.RenameIn? && r.tidy ==>
                (Agree(old(entries), entries, {temp}) <==> Restorable(old(entries), version))
      ensures Replaced(old(entries), entries, r, version)
      ensures Steps(old(entries), entries, log, |old(log)|, r, {temp}, temp, version, old(entries)[temp])
    {
      ghost var d, from := entries, |log|;
      var go, moved, fault := MakeWay(version, works);
      if !go {
        r := Report(Staged, true, false, false, fault);
        NothingDone(d, log, r, temp, version, d[temp]);
        return;
      }
      ghost var e, at := entries, |log|;
      StillReady(d, e, moved, fault, temp, version);
      r := SwapOrGoBack(temp, version, moved, works);
      ghost var s, states := entries, log;
      WayMade(d, e, s, states, from, at, r, moved, temp, version);
      WayDecides(d, e, s, r, moved, fault, temp, version);
      r := r.(tidy := r.tidy && !fault, faulted := r.faulted || fault);
      if r.stage.RenameIn? && r.tidy && moved {
        TempNameIsApart(temp, version);
        ThereAndBack(d, e, s, temp, version);
      }
    }

    /** Lines 85-130. */
    method CopyAndInstall(node: Node, temp: string, version: string, works: bool) returns (r: Report)
      requires Ready(entries, temp, version)
      modifies this
      ensures works ==> r.Faultless()
      ensures old(log) <= log
      ensures r.stage in {Staged, RenameIn, Swap, Done}
      ensures r.stage.Staged? ==> Agree(old(entries), entries, {temp})
      ensures Progress(r, node.Dir? && CanInstall(old(entries), version))
      ensures r.stage.RenameIn? && r.tidy ==>
                (Agree(old(entries), entries, {temp}) <==> Restorable(old(entries), version))
      ensures Steps(old(entries), entries, log, |old(log)|, r, {temp}, temp, version, node)
      ensures r.stage.Done? ==> node.Dir?
      ensures Replaced(old(entries), entries, r, version)
    {
      ghost var d, from := entries, |log|;
      TempNameIsApart(temp, version);
      var copied := CopyTree(node, temp, works);
      if !copied {
        return Report(Staged, true, false, false, node.Dir?);
      }
      ResolveIgnoresContents(old(entries), entries, temp, version, MAX_LINKS);
      ghost var e, first := entries, log;
      r := Install(temp, version, works);
      ghost var s, states := entries, log;
      CopiedFirst(d, e, s, first, states, from, r, temp, version, node);
    }

    /** Lines 78-130 and the deferred clean-up of line 83. */
    method InTempDir(node: Node, temp: string, version: string, works: bool) returns (r: Report)
      requires IsTempName(temp, version) && version != CURRENT
      requires CURRENT_TMP in entries && entries[CURRENT_TMP] == Link(version)
      requires Pinned(entries) ==> entries[CURRENT].target != version
      modifies this
      ensures works ==> r.Faultless()
      ensures old(log) <= log
      ensures Inner(old(entries), entries, log, |old(log)|, r, temp, version, node)
      ensures Progress(r, temp !in old(entries) && node.Dir? && CanInstall(old(entries)[temp := Dir(map[])], version))
    {
      TempNameIsApart(temp, version);
      var made := MkdirTemp(temp, works);
      if !made {
        return Report(Staged, true, false, false, temp !in entries);
      }
      ghost var e := entries;
      r := CopyAndInstall(node, temp, version, works);
      ghost var left, installed := entries, log;
      var fault := RemoveAll(temp, works);
      InnerAround(old(entries), e, left, installed, entries, log, |old(log)|, r, !fault, temp, version, node);
      r := r.(tidy := r.tidy && !fault);
    }

    /** Lines 76-130, `d` being the directory before the temporary link. */
    method BehindTempLink(node: Node, version: string, digits: string, ghost d: Entries, works: bool)
      returns (r: Report)
      requires version != CURRENT && digits != [] && forall c :: c in digits ==> '0' <= c <= '9'
      requires CURRENT_TMP !in d && entries == d[CURRENT_TMP := Link(version)]
      requires log != [] && log[|log| - 1] == entries && (Pinned(d) ==> d[CURRENT].target != version)
      modifies this
      ensures works ==> r.Faultless()
      ensures old(log) <= log && r.stage in {Staged, RenameIn, Swap, Done}
      ensures Outcome(d, entries, log, |old(log)| - 1, r, digits, version, node)
      ensures Progress(r, version + digits !in d && node.Dir? && CanInstall(Staging(d, version, digits), version))
    {
      ghost var e, from := entries, |log| - 1;
      assert IsTempName(version + digits, version) by { DrawnName(version, digits); }
      r := InTempDir(node, version + digits, version, works);
      ProgressAround(d, e, r, digits, version, node);
      ghost var inner, left := log, entries;
      var gone, fault := Remove(CURRENT_TMP, works);
      ghost var s, states := entries, log;
      OutcomeAround(d, e, inner, left, states, from, s, r, !fault, digits, version, node);
      r := r.(tidy := r.tidy && !fault);
    }

    /** Lines 71-130 and the deferred removal of line 76. */
    method WithTempLink(node: Node, version: string, digits: string, works: bool) returns (r: Report)
      requires version != CURRENT && digits != [] && forall c :: c in digits ==> '0' <= c <= '9'
      requires Pinned(entries) ==> entries[CURRENT].target != version
      modifies this
      ensures works ==> r.Faultless()
      ensures old(log) <= log
      ensures r.stage in {Refused, Staged, RenameIn, Swap, Done}
      ensures CURRENT_TMP in old(entries) ==> r.stage.Refused?
      ensures r.stage.Refused? ==> log == old(log)
      ensures Outcome(old(entries), entries, log, |old(log)|, r, digits, version, node)
      ensures Progress(r, CURRENT_TMP !in old(entries) && version + digits !in old(entries) && node.Dir?
                          && CanInstall(Staging(old(entries), version, digits), version))
    {
      var linked := Symlink(version, CURRENT_TMP, works);
      if !linked {
        return Report(Refused, true, false, false, CURRENT_TMP !in entries);
      }
      r := BehindTempLink(node, version, digits, old(entries), works);
    }

    /** CopyComponent. `digits` is the suffix os.MkdirTemp draws. `works`: no operation fails that the directory
        allows. */
    method CopyComponent(src: Entries, remount: bool, digits: string, works: bool) returns (r: Report)
      requires digits != [] && forall c :: c in digits ==> '0' <= c <= '9'
      modifies this
      ensures works ==> r.Faultless()
      ensures old(log) <= log
      ensures r.stage.Skipped? <==> SameVersion(src, old(entries))
      ensures r.stage in {Skipped, Refused} ==> log == old(log)
      ensures StatVersion(src, CURRENT).None? ==> r.stage.Refused?
      ensures CURRENT_TMP in old(entries) ==> r.stage in {Skipped, Refused}
      ensures Progress(r, CanUpgrade(src, old(entries), digits))
      ensures if SameVersion(src, old(entries)) then entries == old(entries) && r.tidy
              else Outcome(old(entries), entries, log, |old(log)|, r, digits, NewVersion(src), NewTree(src))
    {
      var name := StatVersion(src, CURRENT);
      if name.None? {
        return Report(Refused, true, false, false);
      }
      VersionIsNotCurrent(src);
      if StatVersion(entries, CURRENT) == name {
        return Report(Skipped, true, false, false);
      }
      if remount {
        var mounted: bool := *;
        if !mounted && !works {
          return Report(Refused, true, false, false, true);
        }
      }
      r := WithTempLink(src[name.value], name.value, digits, works);
    }
  }

  /** A version kept in an empty directory called `previous`, old or new: the state behind the removal of
      `previous`, or the last one, has no complete version. */
  lemma EmptyPreviousIsLost(v: string, node: Node)
    requires v !in {PREVIOUS, CURRENT, CURRENT_TMP} && node.Dir?
    ensures var d := map[CURRENT := Link(PREVIOUS), PREVIOUS := Dir(map[])];
            && Pinned(d) && !SafeBase(d)
            && !Good(d, map[CURRENT := Link(PREVIOUS), CURRENT_TMP := Link(v), v := node], v, node)
    ensures var d := map[CURRENT := Link(v), v := node];
            && SafeBase(d) && !SafeName(PREVIOUS, Dir(map[]))
            && !Good(d, map[CURRENT := Link(PREVIOUS), PREVIOUS := Link(v), v := node], PREVIOUS, Dir(map[]))
  {
    assert CURRENT != PREVIOUS;
  }

  // Runs of several calls.

  /** One call of CopyComponent: where it started, the states it went through, and how many of them
      were reached before power was lost (all of them when it was not). */
  datatype Call = Call(src: Entries, before: Entries, states: seq<Entries>, switched: bool, cut: nat)
  {
    function After(): Entries
    {
      if cut == 0 || |states| < cut then before else states[cut - 1]
    }

    /** What CopyComponent ensures of its log. */
    ghost predicate Valid()
    {
      && (SameVersion(src, before) || StatVersion(src, CURRENT).None? ==> states == [])
      && (SafeCall(src, before) && !SameVersion(src, before) ==>
            exists now :: Protocol(before, states, 0, now, switched, NewVersion(src), NewTree(src)))
    }
  }

  /** The log of a call is a valid call, wherever it is cut. */
  lemma LogIsACall(src: Entries, before: Entries, log: seq<Entries>, from: nat, now: Entries, switched: bool, cut: nat)
    requires from <= |log|
    requires SameVersion(src, before) || StatVersion(src, CURRENT).None? ==> from == |log|
    requires SafeCall(src, before) && !SameVersion(src, before) ==>
               Protocol(before, log, from, now, switched, NewVersion(src), NewTree(src))
    ensures Call(src, before, log[from..], switched, cut).Valid()
  {
    var states := log[from..];
    if SafeCall(src, before) && !SameVersion(src, before) {
      assert forall i :: 0 <= i < |states| ==> states[i] == log[from + i];
      assert Protocol(before, states, 0, now, switched, NewVersion(src), NewTree(src));
    }
  }

  function End(start: Entries, calls: seq<Call>): Entries
  {
    if calls == [] then start else calls[|calls| - 1].After()
  }

  /** Calls that follow one another, none bringing an empty version called `previous`. */
  ghost predicate Chain(start: Entries, calls: seq<Call>)
  {
    calls != [] ==>
      var n := |calls| - 1;
      && Chain(start, calls[..n])
      && calls[n].before == End(start, calls[..n])
      && calls[n].Valid()
      && SafeName(NewVersion(calls[n].src), NewTree(calls[n].src))
  }

  /** `current` names either what it named at the start, untouched, or the complete copy made by one of the calls. */
  ghost predicate CurrentIsComplete(start: Entries, calls: seq<Call>, now: Entries)
    requires Pinned(start)
  {
    KeepsCurrent(start, now) || exists c <- calls :: Installed(now, NewVersion(c.src), NewTree(c.src))
  }

  /** However many upgrades are started, and wherever each of them is cut off, `current` always names
      a complete version. */
  lemma {:induction false} CurrentAlwaysComplete(start: Entries, calls: seq<Call>)
    requires SafeBase(start) && Chain(start, calls)
    ensures SafeBase(End(start, calls)) && CurrentIsComplete(start, calls, End(start, calls))
  {
    if calls != [] {
      var n := |calls| - 1;
      var c := calls[n];
      CurrentAlwaysComplete(start, calls[..n]);
      if !KeepsCurrent(c.before, c.After()) {
        assert c in calls && Installed(c.After(), NewVersion(c.src), NewTree(c.src));
      } else if !KeepsCurrent(start, c.before) {
        var b :| b in calls[..n] && Installed(c.before, NewVersion(b.src), NewTree(b.src));
        assert b in calls && Installed(c.After(), NewVersion(b.src), NewTree(b.src));
      }
    }
  }

  /** A call that returned. */
  datatype Return = Return(src: Entries, digits: string, before: Entries, after: Entries, report: Report)
  {
    ghost predicate Valid()
    {
      && CallContract(NewVersion(src), NewTree(src), before, after, report)
      && (CURRENT_TMP in before ==> report.stage in {Skipped, Refused})
    }
  }

  function Final(start: Entries, done: seq<Return>): Entries
  {
    if done == [] then start else done[|done| - 1].after
  }

  ghost predicate ReturnChain(start: Entries, done: seq<Return>)
  {
    done != [] ==>
      var n := |done| - 1;
      ReturnChain(start, done[..n]) && done[n].before == Final(start, done[..n]) && done[n].Valid()
  }

  /** The version of the last call that answered true. */
  function LastInstalled(done: seq<Return>): Option<string>
  {
    if done == [] then None
    else
      var last := done[|done| - 1];
      if last.report.stage.Done? then Some(NewVersion(last.src)) else LastInstalled(done[..|done| - 1])
  }

  /** Over any sequence of returning calls `current` names the version of the last call that answered
      true, and when the deferred clean-up worked no other name has appeared in the directory. */
  lemma {:induction false} LastInstalledIsCurrent(start: Entries, done: seq<Return>)
    requires ReturnChain(start, done)
    ensures match LastInstalled(done)
            case Some(v) => CURRENT in Final(start, done) && Final(start, done)[CURRENT] == Link(v)
            case None => SameEntry(start, Final(start, done), CURRENT)
    ensures LinkOrAbsent(start, CURRENT) && (forall r <- done :: r.report.tidy) ==>
              forall name :: name in Final(start, done) ==>
                || name in start || name in {CURRENT, PREVIOUS}
                || exists r <- done :: name in {NewVersion(r.src), NewVersion(r.src) + OLD_SUFFIX}
  {
    if done != [] {
      var n := |done| - 1;
      var last := done[n];
      LastInstalledIsCurrent(start, done[..n]);
      forall name | LinkOrAbsent(start, CURRENT) && (forall r <- done :: r.report.tidy) && name in last.after
                    && name !in start && name !in {CURRENT, PREVIOUS}
        ensures exists r <- done :: name in {NewVersion(r.src), NewVersion(r.src) + OLD_SUFFIX}
      {
        if name in last.before {
          var r :| r in done[..n] && name in {NewVersion(r.src), NewVersion(r.src) + OLD_SUFFIX};
          assert r in done;
        } else {
          assert last in done;
        }
      }
    }
  }

  lemma {:induction false} CurrentStaysLink(start: Entries, done: seq<Return>)
    requires ReturnChain(start, done) && LinkOrAbsent(start, CURRENT)
    ensures LinkOrAbsent(Final(start, done), CURRENT)
  {
    LastInstalledIsCurrent(start, done);
  }

  /** The version that was installed before the last one. */
  function InstalledBefore(done: seq<Return>): Option<string>
  {
    if done == [] then None
    else
      var n := |done| - 1;
      if done[n].report.stage.Done? then LastInstalled(done[..n]) else InstalledBefore(done[..n])
  }

  /** No fault kept a call from the rotation or, after it, from its end. */
  ghost predicate AllRotated(done: seq<Return>)
  {
    forall r <- done ::
      !r.report.spared && !r.report.uncopied && !r.report.stage.Swap? && NewVersion(r.src) != PREVIOUS
  }

  /** Over any sequence of returning calls `previous` names the version that `current` named before the last one
      that answered true. */
  lemma {:induction false} PreviousIsTheOneBefore(start: Entries, done: seq<Return>)
    requires ReturnChain(start, done) && AllRotated(done)
    requires LinkOrAbsent(start, CURRENT) && LinkOrAbsent(start, PREVIOUS)
    ensures LinkOrAbsent(Final(start, done), PREVIOUS)
    ensures var now := Final(start, done);
            match InstalledBefore(done)
            case Some(v) => PREVIOUS in now && now[PREVIOUS] == Link(v)
            case None =>
              if LastInstalled(done).None? then SameEntry(start, now, PREVIOUS)
              else if CURRENT in start then PREVIOUS in now && now[PREVIOUS] == start[CURRENT]
              else PREVIOUS !in now
  {
    if done != [] {
      var n := |done| - 1;
      CurrentStaysLink(start, done[..n]);
      LastInstalledIsCurrent(start, done[..n]);
      PreviousIsTheOneBefore(start, done[..n]);
      assert done[n] in done;
    }
  }

  /** A directory that an upgrade to `v` would have to move aside, and no free name for it. */
  ghost predicate Blocked(d: Entries, v: string)
  {
    v in d && d[v].Dir? && v + OLD_SUFFIX in d
  }

  /** Whatever is left at `.old`, by a crash or not, stops every upgrade to that version while its directory is
      there. */
  lemma LeftoverOldBlocks(src: Entries, d: Entries, digits: string)
    requires Blocked(d, NewVersion(src))
    requires digits != [] && forall c :: c in digits ==> '0' <= c <= '9'
    ensures !CanUpgrade(src, d, digits)
  {
    DrawnName(NewVersion(src), digits);
    TempNameIsApart(NewVersion(src) + digits, NewVersion(src));
  }

  /** The call is for `v`, or for a version whose names have nothing to do with it. */
  predicate Apart(r: Return, v: string)
  {
    var w := NewVersion(r.src);
    w == v || (w != v + OLD_SUFFIX && w + OLD_SUFFIX != v)
  }

  lemma StaysBlocked(r: Return, v: string)
    requires r.Valid() && r.report.tidy && LinkOrAbsent(r.before, CURRENT) && v != PREVIOUS && Apart(r, v)
    requires Blocked(r.before, v)
    ensures Blocked(r.after, v) && r.after[v + OLD_SUFFIX] == r.before[v + OLD_SUFFIX]
    ensures NewVersion(r.src) == v ==> !r.report.stage.Done?
  {
    var w := NewVersion(r.src);
    if w != v {
      OldNameIsApart(v);
      assert w == (w + OLD_SUFFIX)[..|w|] && v == (v + OLD_SUFFIX)[..|v|];
    }
  }

  /** A call completed over a directory of that name. */
  predicate Replaces(r: Return, v: string)
  {
    NewVersion(r.src) == v && r.report.stage.Done? && v in r.before && r.before[v].Dir?
  }

  lemma NowBlocked(r: Return, v: string)
    requires r.Valid() && LinkOrAbsent(r.before, CURRENT) && v != PREVIOUS && Replaces(r, v)
    ensures Blocked(r.after, v) && r.after[v + OLD_SUFFIX] == r.before[v]
  {
  }

  /** Each version can be replaced only once: without any crash, the old directory stays at `.old`, and no later call
      for that version completes. */
  lemma {:induction false} ReplacedOnce(start: Entries, done: seq<Return>, v: string, i: nat)
    requires ReturnChain(start, done) && LinkOrAbsent(start, CURRENT)
    requires v != PREVIOUS && forall r <- done :: r.report.tidy && Apart(r, v)
    requires i < |done| && Replaces(done[i], v)
    ensures Blocked(Final(start, done), v) && Final(start, done)[v + OLD_SUFFIX] == done[i].before[v]
    ensures forall j | i < j < |done| && NewVersion(done[j].src) == v :: !done[j].report.stage.Done?
  {
    var n := |done| - 1;
    CurrentStaysLink(start, done[..n]);
    if i < n {
      ReplacedOnce(start, done[..n], v, i);
      StaysBlocked(done[n], v);
    } else {
      NowBlocked(done[n], v);
    }
  }

  /** A temporary link left behind by a crash stops every later upgrade, which changes nothing. */
  lemma {:induction false} StaleLinkBlocks(start: Entries, done: seq<Return>)
    requires ReturnChain(start, done) && CURRENT_TMP in start
    ensures Final(start, done) == start
    ensures forall r <- done :: !r.report.stage.Done?
  {
    if done != [] {
      StaleLinkBlocks(start, done[..|done| - 1]);
      assert done == done[..|done| - 1] + [done[|done| - 1]];
    }
  }
}
