/** Moving the root filesystem to a fresh tmpfs, file by file: internal/transferroot/transferroot.go, copyFS. */
module RootRelocation {
  import opened FileTree

  type Path = seq<string>

  /** The tree under "/" when the walks start. `dev` is the filesystem a directory lives on. */
  datatype Source =
    | Directory(dev: nat, kids: map<string, Source>)
    | Regular(data: string)
    | Symlink(target: string)
    | DeviceNode(rdev: nat)
    | Pipe
    | Socket
    | Other

  /** What a path of the new root names. */
  datatype Item =
    | DirItem
    | FileItem(data: string)
    | LinkItem(target: string)
    | DeviceItem(rdev: nat)
    | PipeItem
    | NoItem

  function ItemOf(n: Source): Item
  {
    match n
    case Directory(_, _) => DirItem
    case Regular(data) => FileItem(data)
    case Symlink(target) => LinkItem(target)
    case DeviceNode(rdev) => DeviceItem(rdev)
    case Pipe => PipeItem
    case Socket => NoItem
    case Other => NoItem
  }

  /** An item is a faithful copy: of the same kind, with all that the original holds. */
  predicate IsCopy(i: Item, n: Source)
  {
    || (n.Directory? && i.DirItem?)
    || (n.Regular? && i.FileItem? && i.data == n.data)
    || (n.Symlink? && i.LinkItem? && i.target == n.target)
    || (n.DeviceNode? && i.DeviceItem? && i.rdev == n.rdev)
    || (n.Pipe? && i.PipeItem?)
  }

  function Lookup(n: Source, p: Path): Option<Source>
    decreases |p|
  {
    if p == [] then Some(n)
    else if n.Directory? && p[0] in n.kids then Lookup(n.kids[p[0]], p[1..])
    else None
  }

  /** The tree with every directory of another filesystem emptied. */
  function Image(n: Source, dev: nat): Source
  {
    match n
    case Directory(d, kids) => Directory(d, if d == dev then map k | k in kids :: Image(kids[k], dev) else map[])
    case _ => n
  }

  /** Every directory above `p` is on the filesystem `dev`. */
  ghost predicate SameFilesystem(n: Source, dev: nat, p: Path)
  {
    forall i :: 0 <= i < |p| ==> DirOn(Lookup(n, p[..i]), dev)
  }

  predicate DirOn(n: Option<Source>, dev: nat)
  {
    n.Some? && n.value.Directory? && n.value.dev == dev
  }

  /** It holds exactly what can be reached without leaving the filesystem, and all of that as it was. */
  lemma {:induction false} ImageIs(n: Source, dev: nat, p: Path)
    ensures match Lookup(Image(n, dev), p)
            case Some(m) =>
              && SameFilesystem(n, dev, p) && Lookup(n, p).Some?
              && (if m.Directory? then Lookup(n, p).value.Directory? else Lookup(n, p) == Some(m))
            case None => !(SameFilesystem(n, dev, p) && Lookup(n, p).Some?)
    decreases |p|
  {
    if p != [] {
      assert p[..0] == [] && Lookup(n, p[..0]) == Some(n);
      if DirOn(Some(n), dev) && p[0] in n.kids {
        ImageIs(n.kids[p[0]], dev, p[1..]);
        OneStepDown(n, dev, p);
      }
    }
  }

  lemma OneStepDown(n: Source, dev: nat, p: Path)
    requires p != [] && DirOn(Some(n), dev) && p[0] in n.kids
    ensures SameFilesystem(n, dev, p) <==> SameFilesystem(n.kids[p[0]], dev, p[1..])
  {
    var kid, q := n.kids[p[0]], p[1..];
    forall i | 0 <= i < |q|
      ensures DirOn(Lookup(n, p[..i + 1]), dev) == DirOn(Lookup(kid, q[..i]), dev)
    {
      assert p[..i + 1][0] == p[0] && p[..i + 1][1..] == q[..i];
    }
    if SameFilesystem(kid, dev, q) {
      forall i | 0 <= i < |p|
        ensures DirOn(Lookup(n, p[..i]), dev)
      {
        if i > 0 {
          assert DirOn(Lookup(kid, q[..i - 1]), dev) && i - 1 + 1 == i;
        }
      }
    }
  }

  /** The same, path by path; `dirs` leaves out everything but directories. */
  function ItemAt(n: Source, dev: nat, dirs: bool, p: Path): Option<Item>
    decreases |p|
  {
    if !n.Directory? then if p == [] && !dirs then Some(ItemOf(n)) else None
    else if p == [] then Some(DirItem)
    else if n.dev == dev && p[0] in n.kids then ItemAt(n.kids[p[0]], dev, dirs, p[1..])
    else None
  }

  lemma {:induction false} ItemAtIsImage(n: Source, dev: nat, p: Path)
    ensures match Lookup(Image(n, dev), p)
            case Some(m) => ItemAt(n, dev, false, p) == Some(ItemOf(m))
            case None => ItemAt(n, dev, false, p) == None
    decreases |p|
  {
    if p != [] && n.Directory? && n.dev == dev && p[0] in n.kids {
      ItemAtIsImage(n.kids[p[0]], dev, p[1..]);
    }
  }

  /** Under `prefix`, the new root holds exactly the items of `n`. */
  ghost predicate Holds(made: map<Path, Item>, prefix: Path, n: Source, dev: nat, dirs: bool)
  {
    forall p | prefix <= p :: At(made, prefix, n, dev, dirs, p)
  }

  ghost predicate At(made: map<Path, Item>, prefix: Path, n: Source, dev: nat, dirs: bool, p: Path)
    requires prefix <= p
  {
    var item := ItemAt(n, dev, dirs, p[|prefix|..]);
    (p in made <==> item.Some?) && (p in made ==> made[p] == item.value)
  }

  ghost predicate SameAt(a: map<Path, Item>, b: map<Path, Item>, p: Path)
  {
    (p in a <==> p in b) && (p in a ==> a[p] == b[p])
  }

  ghost predicate Empty(made: map<Path, Item>, prefix: Path)
  {
    forall p | prefix <= p :: p !in made
  }

  /** Outside `prefix`, nothing has changed. */
  ghost predicate Outside(a: map<Path, Item>, b: map<Path, Item>, prefix: Path)
  {
    forall p | !(prefix <= p) :: SameAt(a, b, p)
  }

  ghost predicate SameUnder(a: map<Path, Item>, b: map<Path, Item>, prefix: Path)
  {
    forall p | prefix <= p :: SameAt(a, b, p)
  }

  predicate ParentIsDir(made: map<Path, Item>, p: Path)
  {
    p != [] && p[..|p| - 1] in made && made[p[..|p| - 1]].DirItem?
  }

  /** A file that copyFS refuses to move. */
  ghost predicate Unsupported(n: Source, dev: nat)
  {
    exists p :: ItemAt(n, dev, false, p) == Some(NoItem)
  }

  /** Every file removed from the old tree is complete in the new one; a file that is not in `gone` is
      still in the old tree, untouched. So every file is complete in one of the two. */
  ghost predicate Safe(root: Source, made: map<Path, Item>, gone: set<Path>)
  {
    forall p <- gone ::
      && Lookup(root, p).Some? && Lookup(root, p).value.Regular?
      && p in made && made[p] == FileItem(Lookup(root, p).value.data)
  }

  datatype State = State(made: map<Path, Item>, gone: set<Path>)

  ghost predicate AllSafe(root: Source, log: seq<State>)
  {
    forall s <- log :: Safe(root, s.made, s.gone)
  }

  /** More is gone now, but only under `prefix`. */
  ghost predicate Within(before: set<Path>, gone: set<Path>, prefix: Path)
  {
    before <= gone && forall p <- gone :: p in before || prefix <= p
  }

  ghost predicate NoneGone(gone: set<Path>, prefix: Path)
  {
    forall p <- gone :: !(prefix <= p)
  }

  /** What is there before a walk reaches the child `k`: nothing, or its directories. */
  ghost predicate KidWaits(made: map<Path, Item>, prefix: Path, n: Source, dev: nat, dirs: bool, k: string)
    requires n.Directory?
  {
    if dirs || k !in n.kids then Empty(made, prefix + [k]) else Holds(made, prefix + [k], n.kids[k], dev, true)
  }

  /** The children in `done` have their items, the others wait. */
  ghost predicate KidsHold(made: map<Path, Item>, prefix: Path, n: Source, dev: nat, dirs: bool, done: set<string>)
    requires n.Directory?
  {
    && prefix in made && made[prefix] == DirItem
    && (forall k <- done :: k in n.kids && Holds(made, prefix + [k], n.kids[k], dev, dirs))
    && (forall k :: k !in done ==> KidWaits(made, prefix, n, dev, dirs, k))
  }

  /** A directory just made, with nothing in it. */
  lemma ForeignDir(before: map<Path, Item>, made: map<Path, Item>, prefix: Path, n: Source, dev: nat)
    requires n.Directory? && (made == before || made == before[prefix := DirItem])
    requires Empty(before, prefix) || (before == made == map[[] := DirItem] && prefix == [])
    ensures Outside(before, made, prefix)
    ensures n.dev != dev && prefix in made ==> Holds(made, prefix, n, dev, true)
  {
    assert forall p | prefix <= p :: p[|prefix|..] == [] <==> p == prefix;
  }

  lemma OutsideTwice(a: map<Path, Item>, b: map<Path, Item>, c: map<Path, Item>, prefix: Path)
    requires Outside(a, b, prefix) && Outside(b, c, prefix)
    ensures Outside(a, c, prefix)
  {
    forall p | !(prefix <= p)
      ensures SameAt(a, c, p)
    {
      assert SameAt(a, b, p) && SameAt(b, c, p);
    }
  }

  lemma StartKids(made: map<Path, Item>, prefix: Path, n: Source)
    requires n.Directory? && prefix in made && made[prefix] == DirItem
    requires forall p | prefix <= p :: p in made ==> p == prefix
    ensures forall dev :: KidsHold(made, prefix, n, dev, true, {})
  {
    forall k, p | prefix + [k] <= p
      ensures p !in made
    {
      KidApart(prefix, k);
    }
  }

  lemma KidApart(prefix: Path, k: string)
    ensures forall p :: prefix + [k] <= p <==> prefix <= p && |prefix| < |p| && p[|prefix|] == k
  {
    forall p
      ensures prefix + [k] <= p <==> prefix <= p && |prefix| < |p| && p[|prefix|] == k
    {
      if prefix <= p && |prefix| < |p| && p[|prefix|] == k {
        assert p[..|prefix| + 1] == prefix + [k];
      }
      if prefix + [k] <= p {
        assert p[..|prefix| + 1] == prefix + [k];
        assert p[..|prefix|] == prefix;
      }
    }
  }

  lemma OutsideKid(start: map<Path, Item>, before: map<Path, Item>, made: map<Path, Item>, prefix: Path, k: string)
    requires Outside(start, before, prefix) && Outside(before, made, prefix + [k])
    ensures Outside(start, made, prefix)
  {
    KidApart(prefix, k);
    forall p | !(prefix <= p)
      ensures SameAt(start, made, p)
    {
      assert SameAt(start, before, p) && SameAt(before, made, p);
    }
  }

  /** Equal entries under a path hold, or lack, the same items. */
  lemma HoldsFrame(a: map<Path, Item>, b: map<Path, Item>, prefix: Path)
    requires SameUnder(a, b, prefix)
    ensures Empty(a, prefix) ==> Empty(b, prefix)
    ensures forall n, dev, dirs :: Holds(a, prefix, n, dev, dirs) ==> Holds(b, prefix, n, dev, dirs)
  {
    forall p | prefix <= p
      ensures p in b <==> p in a
    {
      assert SameAt(a, b, p);
    }
    forall n, dev, dirs, p | prefix <= p && Holds(a, prefix, n, dev, dirs)
      ensures At(b, prefix, n, dev, dirs, p)
    {
      assert At(a, prefix, n, dev, dirs, p) && SameAt(a, b, p);
    }
  }

  lemma KidDone(before: map<Path, Item>, made: map<Path, Item>, prefix: Path, n: Source, dev: nat, dirs: bool,
                done: set<string>, k: string)
    requires n.Directory? && k in n.kids && k !in done
    requires KidsHold(before, prefix, n, dev, dirs, done)
    requires Outside(before, made, prefix + [k]) && Holds(made, prefix + [k], n.kids[k], dev, dirs)
    ensures KidsHold(made, prefix, n, dev, dirs, done + {k})
  {
    KidApart(prefix, k);
    forall j | j != k
      ensures SameUnder(before, made, prefix + [j])
      ensures Empty(before, prefix + [j]) ==> Empty(made, prefix + [j])
      ensures forall m, d :: Holds(before, prefix + [j], m, dev, d) ==> Holds(made, prefix + [j], m, dev, d)
    {
      KidApart(prefix, j);
      forall p | prefix + [j] <= p
        ensures SameAt(before, made, p)
      {
      }
      HoldsFrame(before, made, prefix + [j]);
    }
    forall j | j !in done + {k}
      ensures KidWaits(made, prefix, n, dev, dirs, j)
    {
      assert KidWaits(before, prefix, n, dev, dirs, j);
    }
    assert !(prefix + [k] <= prefix) && SameAt(before, made, prefix);
  }

  lemma AllKidsDone(made: map<Path, Item>, prefix: Path, n: Source, dev: nat, dirs: bool)
    requires n.Directory? && n.dev == dev && KidsHold(made, prefix, n, dev, dirs, n.kids.Keys)
    ensures Holds(made, prefix, n, dev, dirs)
  {
    forall p | prefix <= p
      ensures At(made, prefix, n, dev, dirs, p)
    {
      if |p| == |prefix| {
        assert p == prefix;
      } else {
        var k := p[|prefix|];
        KidApart(prefix, k);
        assert p[|prefix|..][1..] == p[|prefix + [k]|..];
        if k in n.kids {
          assert Holds(made, prefix + [k], n.kids[k], dev, dirs);
          assert At(made, prefix + [k], n.kids[k], dev, dirs, p);
        } else {
          assert KidWaits(made, prefix, n, dev, dirs, k) && Empty(made, prefix + [k]);
        }
      }
    }
  }

  lemma {:induction false} LookupKid(n: Source, prefix: Path, k: string)
    ensures Lookup(n, prefix + [k]) ==
            match Lookup(n, prefix)
            case Some(m) => if m.Directory? && k in m.kids then Some(m.kids[k]) else None
            case None => None
    decreases |prefix|
  {
    if prefix != [] && n.Directory? && prefix[0] in n.kids {
      assert (prefix + [k])[1..] == prefix[1..] + [k];
      LookupKid(n.kids[prefix[0]], prefix[1..], k);
    }
  }

  lemma WithinKid(start: set<Path>, before: set<Path>, gone: set<Path>, prefix: Path, k: string)
    requires Within(start, before, prefix) && Within(before, gone, prefix + [k])
    ensures Within(start, gone, prefix)
  {
    KidApart(prefix, k);
  }

  /** Moving the child `k` removes nothing under its siblings. */
  lemma StillThere(before: set<Path>, gone: set<Path>, prefix: Path, k: string, todo: set<string>)
    requires Within(before, gone, prefix + [k])
    requires forall j <- todo :: NoneGone(before, prefix + [j])
    ensures forall j <- todo - {k} :: NoneGone(gone, prefix + [j])
  {
    KidApart(prefix, k);
    forall j | j in todo - {k}
      ensures NoneGone(gone, prefix + [j])
    {
      KidApart(prefix, j);
    }
  }

  lemma NoneGoneBelow(gone: set<Path>, prefix: Path)
    requires NoneGone(gone, prefix)
    ensures forall k :: NoneGone(gone, prefix + [k])
  {
    forall k
      ensures NoneGone(gone, prefix + [k])
    {
      KidApart(prefix, k);
    }
  }

  // The old files go.

  predicate FileAt(n: Source, dev: nat, p: Path)
  {
    var item := ItemAt(n, dev, false, p);
    item.Some? && item.value.FileItem?
  }

  /** All files of `n` have been removed from the old tree. */
  ghost predicate Emptied(gone: set<Path>, prefix: Path, n: Source, dev: nat)
  {
    forall p | prefix <= p && FileAt(n, dev, p[|prefix|..]) :: p in gone
  }

  ghost predicate KidsEmptied(gone: set<Path>, prefix: Path, n: Source, dev: nat, done: set<string>)
    requires n.Directory?
  {
    forall k <- done | k in n.kids :: Emptied(gone, prefix + [k], n.kids[k], dev)
  }

  lemma KidEmptied(before: set<Path>, gone: set<Path>, prefix: Path, n: Source, dev: nat, done: set<string>, k: string)
    requires n.Directory? && KidsEmptied(before, prefix, n, dev, done) && before <= gone
    requires k in n.kids ==> Emptied(gone, prefix + [k], n.kids[k], dev)
    ensures KidsEmptied(gone, prefix, n, dev, done + {k})
  {
    forall j | j in done && j in n.kids
      ensures Emptied(gone, prefix + [j], n.kids[j], dev)
    {
      assert Emptied(before, prefix + [j], n.kids[j], dev);
    }
  }

  lemma AllEmptied(gone: set<Path>, prefix: Path, n: Source, dev: nat)
    requires n.Directory? && n.dev == dev && KidsEmptied(gone, prefix, n, dev, n.kids.Keys)
    ensures Emptied(gone, prefix, n, dev)
  {
    forall p | prefix <= p && FileAt(n, dev, p[|prefix|..])
      ensures p in gone
    {
      var q := p[|prefix|..];
      var k := q[0];
      KidApart(prefix, k);
      assert Emptied(gone, prefix + [k], n.kids[k], dev);
      assert q[1..] == p[|prefix + [k]|..];
    }
  }

  lemma OneEmptied(gone: set<Path>, prefix: Path, n: Source, dev: nat)
    requires !n.Directory? || n.dev != dev
    requires n.Regular? ==> prefix in gone
    ensures Emptied(gone, prefix, n, dev)
  {
    forall p | prefix <= p && FileAt(n, dev, p[|prefix|..])
      ensures p == prefix
    {
      assert p == prefix + p[|prefix|..];
    }
  }

  /** The moving walk in the middle of a directory: the children in `done` are moved, those in `todo` are not. */
  ghost predicate Midway(made0: map<Path, Item>, gone0: set<Path>, made: map<Path, Item>, gone: set<Path>,
                         prefix: Path, n: Source, dev: nat, todo: set<string>, done: set<string>, works: bool)
    requires n.Directory?
  {
    && Outside(made0, made, prefix) && Within(gone0, gone, prefix)
    && (works ==> KidsEmptied(gone, prefix, n, dev, done))
    && KidsHold(made, prefix, n, dev, false, done)
    && (forall k <- todo :: NoneGone(gone, prefix + [k]))
    && (forall k <- done :: k in n.kids && !Unsupported(n.kids[k], dev))
  }

  lemma KidMoved(made0: map<Path, Item>, gone0: set<Path>, before: map<Path, Item>, goneBefore: set<Path>,
                 made: map<Path, Item>, gone: set<Path>, prefix: Path, n: Source, dev: nat,
                 todo: set<string>, done: set<string>, k: string, ok: bool, works: bool)
    requires n.Directory? && k in n.kids && k in todo && k !in done
    requires Midway(made0, gone0, before, goneBefore, prefix, n, dev, todo, done, works)
    requires Outside(before, made, prefix + [k]) && Within(goneBefore, gone, prefix + [k])
    requires ok ==> Holds(made, prefix + [k], n.kids[k], dev, false) && !Unsupported(n.kids[k], dev)
    requires ok && works ==> Emptied(gone, prefix + [k], n.kids[k], dev)
    ensures Outside(made0, made, prefix) && Within(gone0, gone, prefix)
    ensures ok ==> Midway(made0, gone0, made, gone, prefix, n, dev, todo - {k}, done + {k}, works)
  {
    OutsideKid(made0, before, made, prefix, k);
    WithinKid(gone0, goneBefore, gone, prefix, k);
    StillThere(goneBefore, gone, prefix, k, todo);
    if ok {
      KidDone(before, made, prefix, n, dev, false, done, k);
      if works {
        KidEmptied(goneBefore, gone, prefix, n, dev, done, k);
      }
    }
  }

  /** A file, or a directory of another filesystem, is one item. */
  lemma OneItem(before: map<Path, Item>, made: map<Path, Item>, prefix: Path, n: Source, dev: nat)
    requires Holds(before, prefix, n, dev, true)
    ensures n.Directory? && n.dev != dev ==> Holds(before, prefix, n, dev, false)
    ensures !n.Directory? && made == before[prefix := ItemOf(n)] ==> Holds(made, prefix, n, dev, false)
    ensures !n.Directory? || n.dev != dev ==> (Unsupported(n, dev) <==> n.Socket? || n.Other?)
    ensures made == before || (prefix in made && made == before[prefix := made[prefix]]) ==>
              Outside(before, made, prefix)
  {
    forall p | prefix <= p
      ensures At(before, prefix, n, dev, true, p) && (p[|prefix|..] == [] <==> p == prefix)
    {
    }
    assert ItemAt(n, dev, false, []) == Some(ItemOf(n));
    if n.Directory? && n.dev != dev {
      assert forall p | prefix <= p :: At(before, prefix, n, dev, false, p);
    }
  }

  lemma SupportedKids(n: Source, dev: nat)
    requires n.Directory? && forall k <- n.kids :: !Unsupported(n.kids[k], dev)
    ensures !Unsupported(n, dev)
  {
    forall p
      ensures ItemAt(n, dev, false, p) != Some(NoItem)
    {
      if p != [] && p[0] in n.kids {
        assert ItemAt(n.kids[p[0]], dev, false, p[1..]) != Some(NoItem);
      }
    }
  }

  lemma UnsupportedKid(n: Source, dev: nat, k: string)
    requires n.Directory? && n.dev == dev && k in n.kids && Unsupported(n.kids[k], dev)
    ensures Unsupported(n, dev)
  {
    var p :| ItemAt(n.kids[k], dev, false, p) == Some(NoItem);
    assert ([k] + p)[1..] == p;
    assert ItemAt(n, dev, false, [k] + p) == Some(NoItem);
  }

  /** The directories made by the first walk are where the second expects them. */
  lemma KidsWait(made: map<Path, Item>, prefix: Path, n: Source, dev: nat)
    requires n.Directory? && n.dev == dev && Holds(made, prefix, n, dev, true)
    ensures KidsHold(made, prefix, n, dev, false, {})
  {
    assert prefix <= prefix && prefix[|prefix|..] == [] && At(made, prefix, n, dev, true, prefix);
    forall k
      ensures KidWaits(made, prefix, n, dev, false, k)
    {
      KidApart(prefix, k);
      forall p | prefix + [k] <= p
        ensures if k in n.kids then At(made, prefix + [k], n.kids[k], dev, true, p) else p !in made
      {
        assert At(made, prefix, n, dev, true, p) && p[|prefix|..][1..] == p[|prefix + [k]|..];
      }
    }
  }

  lemma AllMoved(made0: map<Path, Item>, gone0: set<Path>, made: map<Path, Item>, gone: set<Path>,
                 prefix: Path, n: Source, dev: nat, done: set<string>, works: bool)
    requires n.Directory? && n.dev == dev && done == n.kids.Keys
    requires Midway(made0, gone0, made, gone, prefix, n, dev, {}, done, works)
    ensures Holds(made, prefix, n, dev, false) && !Unsupported(n, dev)
    ensures works ==> Emptied(gone, prefix, n, dev)
  {
    AllKidsDone(made, prefix, n, dev, false);
    SupportedKids(n, dev);
    if works {
      AllEmptied(gone, prefix, n, dev);
    }
  }

  lemma CopyIsImage(root: Source, dev: nat, made: map<Path, Item>)
    requires Holds(made, [], root, dev, false) && !Unsupported(root, dev)
    ensures forall p :: match Lookup(Image(root, dev), p)
                        case Some(m) => p in made && IsCopy(made[p], m)
                        case None => p !in made
  {
    forall p
      ensures match Lookup(Image(root, dev), p)
              case Some(m) => p in made && IsCopy(made[p], m)
              case None => p !in made
    {
      assert [] <= p && p[0..] == p && At(made, [], root, dev, false, p);
      ItemAtIsImage(root, dev, p);
      assert ItemAt(root, dev, false, p) != Some(NoItem);
    }
  }

  lemma GoneIsFiles(root: Source, dev: nat, made: map<Path, Item>, gone: set<Path>)
    requires Holds(made, [], root, dev, false) && Emptied(gone, [], root, dev) && Safe(root, made, gone)
    ensures forall p :: p in gone <==> p in made && made[p].FileItem?
  {
    forall p
      ensures p in gone <==> p in made && made[p].FileItem?
    {
      assert [] <= p && p[0..] == p && At(made, [], root, dev, false, p);
    }
  }

  // The walks.

  /** `works`: no system call fails that could succeed, the removals included. */
  class Relocation {
    const works: bool
    const root: Source
    const dev: nat
    var made: map<Path, Item>
    var gone: set<Path>
    ghost var log: seq<State>

    /** The new root has just been mounted: only its mount point exists. */
    constructor (root: Source, dev: nat, works: bool)
      ensures this.root == root && this.dev == dev && this.works == works
      ensures made == map[[] := DirItem] && gone == {} && log == []
    {
      this.root, this.dev, this.works := root, dev, works;
      made, gone, log := map[[] := DirItem], {}, [];
    }

    /** Mkdir, Symlink, Mknod, Mkfifo and the creating OpenFile: all need a directory to create in. */
    method Create(p: Path, item: Item) returns (ok: bool, fault: bool)
      requires p !in gone && AllSafe(root, log) && Safe(root, made, gone)
      modifies this`made, this`log
      ensures AllSafe(root, log) && Safe(root, made, gone)
      ensures ok ==> made == old(made)[p := item] && log == old(log) + [State(made, gone)]
      ensures !ok ==> made == old(made) && log == old(log)
      ensures !ok && !fault ==> p in made || !ParentIsDir(made, p)
      ensures works ==> !fault
    {
      fault := *;
      fault := fault && !works;
      ok := !fault && p !in made && ParentIsDir(made, p);
      if ok {
        made := made[p := item];
        log := log + [State(made, gone)];
      }
    }

    /** The directory walk, lines 67-96. */
    method MakeDirs(prefix: Path, n: Source) returns (ok: bool, fault: bool)
      requires if prefix == [] then made == map[[] := DirItem] && n.Directory?
               else Empty(made, prefix) && ParentIsDir(made, prefix)
      requires gone == {} && AllSafe(root, log)
      modifies this`made, this`log
      ensures AllSafe(root, log) && Outside(old(made), made, prefix)
      ensures ok ==> Holds(made, prefix, n, dev, true)
      ensures (!ok ==> fault) && (works ==> !fault)
      decreases n, 1
    {
      ok, fault := true, false;
      if !n.Directory? {
        return;
      }
      if prefix == [] {
        fault := *;
        fault := fault && !works;
        ok := !fault;
      } else {
        ok, fault := Create(prefix, DirItem);
      }
      if !ok || n.dev != dev {
        ForeignDir(old(made), made, prefix, n, dev);
        return;
      }
      ghost var own := made;
      ForeignDir(old(made), made, prefix, n, dev);
      StartKids(made, prefix, n);
      ok, fault := MakeKids(prefix, n);
      OutsideTwice(old(made), own, made, prefix);
    }

    method MakeKids(prefix: Path, n: Source) returns (ok: bool, fault: bool)
      requires n.Directory? && n.dev == dev && KidsHold(made, prefix, n, dev, true, {})
      requires gone == {} && AllSafe(root, log)
      modifies this`made, this`log
      ensures AllSafe(root, log) && Outside(old(made), made, prefix)
      ensures ok ==> Holds(made, prefix, n, dev, true)
      ensures (!ok ==> fault) && (works ==> !fault)
      decreases n, 0
    {
      ok, fault := true, false;
      var todo := n.kids.Keys;
      ghost var done: set<string> := {};
      while todo != {}
        decreases |todo|
        invariant todo + done == n.kids.Keys && todo !! done && gone == {} && (works ==> !fault)
        invariant AllSafe(root, log) && Outside(old(made), made, prefix)
        invariant KidsHold(made, prefix, n, dev, true, done)
      {
        var k :| k in todo;
        ghost var before := made;
        assert (prefix + [k])[..|prefix|] == prefix;
        ok, fault := MakeDirs(prefix + [k], n.kids[k]);
        OutsideKid(old(made), before, made, prefix, k);
        if !ok {
          return;
        }
        KidDone(before, made, prefix, n, dev, true, done, k);
        todo, done := todo - {k}, done + {k};
      }
      AllKidsDone(made, prefix, n, dev, true);
    }

    /** The file at `p` of the new root now has these contents. */
    method Write(p: Path, data: string)
      requires p in made && p !in gone && AllSafe(root, log) && Safe(root, made, gone)
      modifies this`made, this`log
      ensures AllSafe(root, log) && Safe(root, made, gone)
      ensures made == old(made)[p := FileItem(data)] && log == old(log) + [State(made, gone)]
    {
      made := made[p := FileItem(data)];
      log := log + [State(made, gone)];
    }

    /** os.Remove of the old file, whose error is ignored: safe once the new file is complete. */
    method RemoveOld(p: Path)
      requires Lookup(root, p).Some? && Lookup(root, p).value.Regular?
      requires p in made && made[p] == FileItem(Lookup(root, p).value.data)
      requires AllSafe(root, log) && Safe(root, made, gone)
      modifies this`gone, this`log
      ensures AllSafe(root, log) && Safe(root, made, gone)
      ensures || (gone == old(gone) && log == old(log))
              || (gone == old(gone) + {p} && log == old(log) + [State(made, gone)])
      ensures works ==> p in gone
    {
      var removed: bool := *;
      if removed || works {
        gone := gone + {p};
        log := log + [State(made, gone)];
      }
    }

    /** Lines 118-138: create the file, copy it piece by piece, and only then remove the old one. */
    method MoveRegular(p: Path, n: Source) returns (ok: bool, fault: bool)
      requires n.Regular? && Lookup(root, p) == Some(n) && p !in gone
      requires Safe(root, made, gone) && AllSafe(root, log)
      modifies this`made, this`gone, this`log
      ensures Safe(root, made, gone) && AllSafe(root, log)
      ensures gone == old(gone) || gone == old(gone) + {p}
      ensures ok ==> made == old(made)[p := FileItem(n.data)]
      ensures made == old(made) || (p in made && made == old(made)[p := made[p]])
      ensures !ok && !fault ==> p in old(made) || !ParentIsDir(old(made), p)
      ensures works ==> !fault && (ok ==> p in gone)
    {
      ok, fault := Create(p, FileItem(""));
      if !ok {
        return;
      }
      var pieces: nat := *;
      while pieces > 0
        invariant Safe(root, made, gone) && AllSafe(root, log) && gone == old(gone)
        invariant p in made && made == old(made)[p := made[p]]
      {
        var part: string := *;
        Write(p, part);
        pieces := pieces - 1;
      }
      fault := *;
      if fault && !works {
        return false, true;
      }
      fault := false;
      Write(p, n.data);
      RemoveOld(p);
    }

    /** The file-moving walk, lines 103-168. Without a fault it fails only on a file it cannot move. */
    method MoveFiles(prefix: Path, n: Source) returns (ok: bool, fault: bool)
      requires Lookup(root, prefix) == Some(n) && Holds(made, prefix, n, dev, true)
      requires n.Directory? || ParentIsDir(made, prefix)
      requires NoneGone(gone, prefix) && Safe(root, made, gone) && AllSafe(root, log)
      modifies this`made, this`gone, this`log
      ensures Safe(root, made, gone) && AllSafe(root, log)
      ensures Within(old(gone), gone, prefix)
      ensures Outside(old(made), made, prefix)
      ensures ok ==> Holds(made, prefix, n, dev, false)
      ensures if ok then !Unsupported(n, dev) else fault || Unsupported(n, dev)
      ensures works ==> !fault && (ok ==> Emptied(gone, prefix, n, dev))
      decreases n, 3
    {
      ok, fault := true, false;
      assert prefix <= prefix && At(made, prefix, n, dev, true, prefix);
      match n {
        case Directory(d, _) =>
          if d == dev {
            ok, fault := MoveKids(prefix, n);
          }
        case Regular(_) =>
          ok, fault := MoveRegular(prefix, n);
        case Socket =>
          assert ItemAt(n, dev, false, []) == Some(NoItem);
          ok := false;
        case Other =>
          assert ItemAt(n, dev, false, []) == Some(NoItem);
          ok := false;
        case _ =>
          ok, fault := Create(prefix, ItemOf(n));
      }
      OneItem(old(made), made, prefix, n, dev);
      if works && ok && (!n.Directory? || n.dev != dev) {
        OneEmptied(gone, prefix, n, dev);
      }
    }

    method MoveKids(prefix: Path, n: Source) returns (ok: bool, fault: bool)
      requires n.Directory? && n.dev == dev && Lookup(root, prefix) == Some(n) && Holds(made, prefix, n, dev, true)
      requires NoneGone(gone, prefix) && Safe(root, made, gone) && AllSafe(root, log)
      modifies this`made, this`gone, this`log
      ensures Safe(root, made, gone) && AllSafe(root, log)
      ensures Within(old(gone), gone, prefix) && Outside(old(made), made, prefix)
      ensures ok ==> Holds(made, prefix, n, dev, false)
      ensures if ok then !Unsupported(n, dev) else fault || Unsupported(n, dev)
      ensures works ==> !fault && (ok ==> Emptied(gone, prefix, n, dev))
      decreases n, 2
    {
      ghost var made0, gone0 := made, gone;
      ok, fault := true, false;
      var todo := n.kids.Keys;
      ghost var done: set<string> := {};
      KidsWait(made, prefix, n, dev);
      NoneGoneBelow(gone, prefix);
      while todo != {}
        decreases |todo|
        invariant todo + done == n.kids.Keys && todo !! done
        invariant Safe(root, made, gone) && AllSafe(root, log)
        invariant Midway(made0, gone0, made, gone, prefix, n, dev, todo, done, works) && (works ==> !fault)
      {
        var k :| k in todo;
        ok, fault := MoveKid(prefix, n, k, made0, gone0, todo, done);
        if !ok {
          return;
        }
        todo, done := todo - {k}, done + {k};
      }
      AllMoved(made0, gone0, made, gone, prefix, n, dev, done, works);
    }

    method MoveKid(prefix: Path, n: Source, k: string, ghost made0: map<Path, Item>, ghost gone0: set<Path>,
                   ghost todo: set<string>, ghost done: set<string>)
      returns (ok: bool, fault: bool)
      requires n.Directory? && n.dev == dev && Lookup(root, prefix) == Some(n)
      requires k in n.kids && k in todo && k !in done
      requires Midway(made0, gone0, made, gone, prefix, n, dev, todo, done, works)
      requires Safe(root, made, gone) && AllSafe(root, log)
      modifies this`made, this`gone, this`log
      ensures Safe(root, made, gone) && AllSafe(root, log)
      ensures Outside(made0, made, prefix) && Within(gone0, gone, prefix)
      ensures ok ==> Midway(made0, gone0, made, gone, prefix, n, dev, todo - {k}, done + {k}, works)
      ensures !ok ==> fault || Unsupported(n, dev)
      ensures works ==> !fault
      decreases n, 0
    {
      ghost var before, goneBefore := made, gone;
      assert (prefix + [k])[..|prefix|] == prefix;
      LookupKid(root, prefix, k);
      assert KidWaits(made, prefix, n, dev, false, k);
      ok, fault := MoveFiles(prefix + [k], n.kids[k]);
      ghost var after, goneAfter := made, gone;
      KidMoved(made0, gone0, before, goneBefore, after, goneAfter, prefix, n, dev, todo, done, k, ok, works);
      if !ok && !fault {
        UnsupportedKid(n, dev, k);
      }
    }

    /** copyFS up to the end of the file-moving walk. */
    method CopyTree() returns (ok: bool, fault: bool)
      requires made == map[[] := DirItem] && gone == {} && log == [] && root.Directory? && root.dev == dev
      modifies this`made, this`gone, this`log
      // Every state on the way.
      ensures AllSafe(root, log) && Safe(root, made, gone)
      // The result.
      ensures ok ==> forall p :: match Lookup(Image(root, dev), p)
                                 case Some(m) => p in made && IsCopy(made[p], m)
                                 case None => p !in made
      ensures if ok then !Unsupported(root, dev) else fault || Unsupported(root, dev)
      ensures works ==> !fault
      // Every file is in the new tree, and in the new tree only.
      ensures works && ok ==> forall p :: p in gone <==> p in made && made[p].FileItem?
    {
      ok, fault := MakeDirs([], root);
      if !ok {
        return;
      }
      ok, fault := MoveFiles([], root);
      if ok {
        CopyIsImage(root, dev, made);
        if works {
          GoneIsFiles(root, dev, made, gone);
        }
      }
    }
  }
}
