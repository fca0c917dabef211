/** Files, links and directories, as the filesystem code of the repository sees them. */
module FileTree {

  datatype Option<+T> = None | Some(value: T) {
    function GetOr(default: T): T
    {
      if Some? then value else default
    }
  }

  datatype Node =
    | File(data: string)
    | Link(target: string)
    | Dir(entries: Entries)

  type Entries = map<string, Node>

  /** The kernel gives up on a path after this many links. */
  const MAX_LINKS: nat := 40

  /** What a name means once links are followed. A link target is the name of an entry beside it. */
  function Resolve(d: Entries, name: string, hops: nat := MAX_LINKS): Option<Node>
    decreases hops
  {
    if name !in d then None
    else if !d[name].Link? then Some(d[name])
    else if hops == 0 then None
    else Resolve(d, d[name].target, hops - 1)
  }

  predicate NamesDir(d: Entries, name: string)
  {
    Resolve(d, name).Some? && Resolve(d, name).value.Dir?
  }

  /** Two directories agree on every name outside `except`. */
  ghost predicate Agree(a: Entries, b: Entries, except: set<string>)
  {
    forall n :: n !in except ==> (n in a <==> n in b) && (n in a ==> a[n] == b[n])
  }

  predicate SameEntry(a: Entries, b: Entries, name: string)
  {
    (name in a <==> name in b) && (name in a ==> a[name] == b[name])
  }
}
