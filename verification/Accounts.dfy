/** The files of accounts on disk: SetupUsers (internal/boot/bootstrap/bootstrap.go), SetPassword
    (internal/shadow/shadow.go) and writeFileAtomic (internal/ssh/ssh.go), which replaces a file in the same way. */
module Accounts {
  import opened FileTree
  import opened Text
  import opened PasswdFiles

  const PASSWD := "/etc/passwd"
  const GROUP := "/etc/group"
  const SHADOW := "/etc/shadow"
  const SUDO_GROUP_LINE := "sudo:x:101:rancher"
  const RANCHER_GROUP_LINE := "rancher:x:1000:"

  type Files = map<string, string>

  /** Every file of `before` is as it was, but `path` may hold `content` instead. No other text is ever in it. */
  ghost predicate Whole(before: Files, now: Files, path: string, content: string)
  {
    && (forall p <- before | p != path :: p in now && now[p] == before[p])
    && (path in before ==> path in now)
    && (path in now ==> now[path] == content || (path in before && now[path] == before[path]))
  }

  /** The same in every state that a crash could leave. */
  ghost predicate AllWhole(before: Files, log: seq<Files>, from: nat, path: string, content: string)
  {
    forall i :: from <= i < |log| ==> Whole(before, log[i], path, content)
  }

  /** Nothing that was there has changed. */
  ghost predicate Keeps(before: Files, now: Files)
  {
    forall p <- before :: p in now && now[p] == before[p]
  }

  /** There is a hash to set, and a line to set it in. */
  predicate CanSet(before: Files, user: string, password: string, hashed: Option<string>)
  {
    && password != "" && (password[0] == '$' || hashed.Some?)
    && SHADOW in before && WithHash(before[SHADOW], user, HashFor(password, hashed)).Some?
  }

  function HashFor(password: string, hashed: Option<string>): string
  {
    if password != "" && password[0] == '$' then password else hashed.GetOr("")
  }

  /** The only other text that the shadow file can have. */
  function NewShadow(before: Files, user: string, hash: string): string
  {
    if SHADOW !in before then "" else WithHash(before[SHADOW], user, hash).GetOr(before[SHADOW])
  }

  function Extend(files: Files, path: string, line: string): Files
  {
    files[path := Appended(TextOf(files, path), line)]
  }

  function AfterSetup(before: Files): Files
    requires PASSWD in before
  {
    var replaced := before[PASSWD := ReplaceAll(before[PASSWD], ASH, BASH)];
    var grouped := Extend(Extend(replaced, GROUP, SUDO_GROUP_LINE), GROUP, RANCHER_GROUP_LINE);
    Extend(Extend(grouped, PASSWD, PASSWD_LINE), SHADOW, SHADOW_LINE)
  }

  /** What was in a file; a missing one is as good as an empty one. */
  function TextOf(files: Files, path: string): string
  {
    if path in files then files[path] else ""
  }

  /** The appends do not get in each other's way, and no other file changes. */
  lemma AfterSetupIs(before: Files, other: string)
    requires "/etc/passwd" in before
    ensures var after := AfterSetup(before);
            && {"/etc/passwd", "/etc/shadow", "/etc/group"} <= after.Keys
            && after["/etc/passwd"] ==
               Appended(ReplaceAll(before["/etc/passwd"], "/bin/ash", "/bin/bash"),
                        Join(["rancher", "x", "1000", "1000", "", "/home/rancher", "/bin/bash"], ':'))
            && after["/etc/shadow"] ==
               Appended(TextOf(before, "/etc/shadow"), Join(["rancher", "*", "", "", "", "", "", "", ""], ':'))
            && after["/etc/group"] ==
               Appended(Appended(TextOf(before, "/etc/group"), "sudo:x:101:rancher"), "rancher:x:1000:")
            && (other !in {"/etc/passwd", "/etc/shadow", "/etc/group"} ==> SameFile(before, after, other))
  {
    assert PASSWD[5] != SHADOW[5] && PASSWD[5] != GROUP[5] && SHADOW[5] != GROUP[5];
    FilesAfterSetup(before, PASSWD, GROUP, SHADOW, ReplaceAll(before[PASSWD], ASH, BASH), other);
  }

  /** The same for any three names. */
  lemma FilesAfterSetup(before: Files, p: string, g: string, h: string, replaced: string, other: string)
    requires p != g && p != h && g != h
    ensures var after := Extend(Extend(Extend(Extend(before[p := replaced], g, SUDO_GROUP_LINE), g, RANCHER_GROUP_LINE),
                                       p, PASSWD_LINE), h, SHADOW_LINE);
            && {p, g, h} <= after.Keys
            && after[p] == Appended(replaced, PASSWD_LINE)
            && after[h] == Appended(TextOf(before, h), SHADOW_LINE)
            && after[g] == Appended(Appended(TextOf(before, g), SUDO_GROUP_LINE), RANCHER_GROUP_LINE)
            && (other !in {p, g, h} ==> SameFile(before, after, other))
  {
  }

  predicate SameFile(a: Files, b: Files, path: string)
  {
    (path in a <==> path in b) && (path in a ==> a[path] == b[path])
  }

  /** The groups are those from before, and these two. */
  lemma GroupsAfterSetup(before: Files)
    requires PASSWD in before
    ensures GROUP in AfterSetup(before)
    ensures FullLines(AfterSetup(before)[GROUP]) ==
            FullLines(TextOf(before, GROUP)) + ["sudo:x:101:rancher", "rancher:x:1000:"]
  {
    AfterSetupIs(before, "");
    TwoMoreLines(TextOf(before, GROUP), "sudo:x:101:rancher", "rancher:x:1000:");
  }

  lemma TwoMoreLines(content: string, a: string, b: string)
    requires '\n' !in a && '\n' !in b
    ensures FullLines(Appended(Appended(content, a), b)) == FullLines(content) + [a, b]
  {
    AppendedLines(content, a);
    AppendedLines(Appended(content, a), b);
  }

  lemma {:induction false} IndexIs(lines: seq<string>, user: string, i: nat)
    requires i <= |lines| && (i < |lines| ==> Names(lines[i], user))
    requires forall j :: 0 <= j < i ==> !Names(lines[j], user)
    ensures Index(lines, user) == i
  {
  }

  lemma {:induction false} LongName(names: set<string>) returns (name: string)
    ensures forall n <- names :: |n| < |name|
    decreases names
  {
    name := "";
    if names != {} {
      var n :| n in names;
      var rest := LongName(names - {n});
      name := rest + n + "0";
    }
  }

  /** `works`: no system call fails that could succeed. `cleans`: no removal does. */
  class Disk {
    const works: bool
    const cleans: bool
    var files: Files
    ghost var log: seq<Files>
    ghost var faulted: bool

    constructor (files: Files, works: bool, cleans: bool)
      ensures this.files == files && log == [] && !faulted && this.works == works && this.cleans == cleans
    {
      this.files, log, faulted := files, [], false;
      this.works, this.cleans := works, cleans;
    }

    // System calls. Each may fail for reasons of its own; `faulted` says that one has.

    method ReadFile(path: string) returns (content: Option<string>)
      modifies this`faulted
      ensures works ==> faulted == old(faulted)
      ensures content.Some? ==> path in files && content.value == files[path]
      ensures faulted <==> old(faulted) || (content.None? && path in files)
    {
      var ok := *;
      ok := ok || works;
      faulted := faulted || (!ok && path in files);
      content := if ok && path in files then Some(files[path]) else None;
    }

    /** os.WriteFile truncates first, so a failure or a crash can leave part of the text. */
    method WriteFile(path: string, content: string) returns (ok: bool)
      modifies this
      ensures works ==> faulted == old(faulted)
      ensures faulted <==> old(faulted) || !ok
      ensures ok ==> files == old(files)[path := content]
      ensures forall p | p != path :: (p in files <==> p in old(files)) && (p in files ==> files[p] == old(files)[p])
    {
      ok := *;
      ok := ok || works;
      faulted := faulted || !ok;
      var truncated := *;
      if ok || truncated {
        var part := *;
        files := files[path := part];
        log := log + [files];
      }
      if ok {
        files := files[path := content];
        log := log + [files];
      }
    }

    /** The name is never `beside`: it is longer. */
    method CreateTemp(beside: string) returns (name: Option<string>)
      modifies this
      ensures works ==> faulted == old(faulted)
      ensures faulted <==> old(faulted) || name.None?
      ensures name.None? ==> files == old(files) && log == old(log)
      ensures name.Some? ==> name.value != beside && name.value !in old(files)
      ensures name.Some? ==> files == old(files)[name.value := ""] && log == old(log) + [files]
    {
      var tried := *;
      if works {
        ghost var free := LongName(files.Keys + {beside});
        assert free !in files && free != beside;
        tried :| tried !in files && tried != beside;
      }
      if tried in files || tried == beside {
        faulted := true;
        return None;
      }
      files := files[tried := ""];
      log := log + [files];
      name := Some(tried);
    }

    method WriteTemp(name: string, content: string) returns (ok: bool, ghost text: string)
      modifies this
      ensures works ==> faulted == old(faulted)
      ensures log == old(log) + [files] && files == old(files)[name := text]
      ensures ok ==> text == content
      ensures faulted <==> old(faulted) || !ok
    {
      ok := *;
      ok := ok || works;
      faulted := faulted || !ok;
      var part := *;
      part := if ok then content else part;
      files, text := files[name := part], part;
      log := log + [files];
    }

    method Remove(name: string)
      modifies this
      ensures cleans ==> name !in files
      ensures works ==> faulted == old(faulted)
      ensures (files == old(files) && log == old(log)) || (files == old(files) - {name} && log == old(log) + [files])
      ensures name !in old(files) ==> files == old(files) && log == old(log)
      ensures faulted <==> old(faulted) || name in files
    {
      var ok := *;
      ok := ok || cleans || works;
      faulted := faulted || (!ok && name in files);
      if ok && name in files {
        files := files - {name};
        log := log + [files];
      }
    }

    method Rename(from: string, to: string) returns (ok: bool)
      requires from in files && from != to
      modifies this
      ensures works ==> faulted == old(faulted)
      ensures ok ==> files == (old(files) - {from})[to := old(files)[from]] && log == old(log) + [files]
      ensures !ok ==> files == old(files) && log == old(log)
      ensures faulted <==> old(faulted) || !ok
    {
      ok := *;
      ok := ok || works;
      faulted := faulted || !ok;
      if ok {
        files := (files - {from})[to := files[from]];
        log := log + [files];
      }
    }

    // SetupUsers.

    method ReplaceInFile(path: string, pattern: string, replacement: string) returns (ok: bool)
      requires pattern != ""
      modifies this
      ensures forall p | p != path :: (p in files <==> p in old(files)) && (p in files ==> files[p] == old(files)[p])
      ensures works ==> faulted == old(faulted)
      ensures ok ==> path in old(files)
      ensures ok ==> files == old(files)[path := ReplaceAll(old(files)[path], pattern, replacement)]
      ensures (old(faulted) ==> faulted) && (!faulted ==> (ok <==> path in old(files)))
    {
      var data := ReadFile(path);
      if data == None {
        return false;
      }
      ok := WriteFile(path, ReplaceAll(data.value, pattern, replacement));
    }

    /** Any error of the read counts as a missing file: then the old text is `lost`. */
    method AppendLine(path: string, line: string) returns (ok: bool, ghost lost: bool)
      modifies this
      ensures forall p | p != path :: (p in files <==> p in old(files)) && (p in files ==> files[p] == old(files)[p])
      ensures works ==> faulted == old(faulted)
      ensures lost ==> path in old(files)
      ensures ok && !lost ==> files == Extend(old(files), path, line)
      ensures ok && lost ==> files == old(files)[path := Appended("", line)]
      ensures (old(faulted) ==> faulted) && (!ok || lost ==> faulted)
    {
      var data := ReadFile(path);
      lost := data == None && path in files;
      var content := data.GetOr("");
      if |content| > 0 && content[|content| - 1] != '\n' {
        content := content + "\n";
      }
      content := content + (line + "\n");
      assert content == Appended(data.GetOr(""), line);
      ok := WriteFile(path, content);
    }

    /** SetupUsers. If every read of an existing file succeeded, the three files are extended and no other file
        has changed. */
    method SetupUsers() returns (ok: bool, ghost lost: bool)
      modifies this
      ensures forall p | p !in {PASSWD, GROUP, SHADOW} ::
                (p in files <==> p in old(files)) && (p in files ==> files[p] == old(files)[p])
      ensures works ==> faulted == old(faulted)
      ensures ok && !lost ==> PASSWD in old(files) && files == AfterSetup(old(files))
      ensures !faulted ==> !lost && (ok <==> PASSWD in old(files))
    {
      lost := false;
      ok := ReplaceInFile(PASSWD, ASH, BASH);
      if !ok {
        return;
      }
      ok := MkdirAll();
      if !ok {
        return;
      }
      ghost var l;
      ok, l := AppendLine(GROUP, SUDO_GROUP_LINE);
      lost := lost || l;
      if !ok {
        return;
      }
      ok, l := AppendLine(GROUP, RANCHER_GROUP_LINE);
      lost := lost || l;
      if !ok {
        return;
      }
      ok, l := AppendLine(PASSWD, PASSWD_LINE);
      lost := lost || l;
      if !ok {
        return;
      }
      ok, l := AppendLine(SHADOW, SHADOW_LINE);
      lost := lost || l;
      if !ok {
        return;
      }
      ok := MkdirAll();
    }

    /** Directories are not part of this model. */
    method MkdirAll() returns (ok: bool)
      modifies this`faulted
      ensures works ==> faulted == old(faulted)
      ensures faulted <==> old(faulted) || !ok
    {
      ok := *;
      ok := ok || works;
      faulted := faulted || !ok;
    }

    // Replacing a file.

    /** SetPassword. `hashed` is what HashPassword answers for a password in plain text. */
    method SetPassword(user: string, password: string, hashed: Option<string>) returns (ok: bool)
      modifies this
      ensures cleans && !ok ==> files == old(files)
      ensures works ==> faulted == old(faulted)
      ensures password == "" ==> ok && files == old(files) && log == old(log)
      ensures password != "" && ok ==>
                && CanSet(old(files), user, password, hashed)
                && (password[0] != '$' ==> hashed.Some?)
                && files == old(files)[SHADOW := WithHash(old(files)[SHADOW], user,
                                                          if password[0] == '$' then password else hashed.value).value]
      ensures !ok ==> Keeps(old(files), files)
      ensures !faulted ==> (ok <==> password == "" || CanSet(old(files), user, password, hashed))
      ensures old(log) <= log
      ensures AllWhole(old(files), log, |old(log)|, SHADOW, NewShadow(old(files), user, HashFor(password, hashed)))
    {
      if password == "" {
        return true;
      }
      if password[0] != '$' && hashed == None {
        return false;
      }
      var hash := if password[0] == '$' then password else hashed.value;
      var data := ReadFile(SHADOW);
      if data == None {
        return false;
      }
      var lines := Split(data.value, '\n');
      var found := false;
      for i := 0 to |lines|
        invariant !found && lines == Lines(data.value)
        invariant forall j :: 0 <= j < i ==> !Names(lines[j], user)
      {
        var (name, second) := Cut(lines[i], ':');
        if second != [] && name == user {
          IndexIs(lines, user, i);
          var (_, third) := Cut(second[0], ':');
          var rest := if third == [] then "" else ":" + third[0];
          assert name + ":" + hash + rest == Rehash(lines[i], hash);
          lines := lines[i := name + ":" + hash + rest];
          found := true;
          break;
        }
      }
      if !found {
        IndexIs(lines, user, |lines|);
        return false;
      }
      ok := Commit(SHADOW, Join(lines, '\n'));
    }

    /** The second half of SetPassword: a temporary file in the same directory that takes the place of `path`. */
    method Commit(path: string, content: string) returns (ok: bool)
      requires path in files
      modifies this
      ensures cleans && !ok ==> files == old(files)
      ensures works ==> faulted == old(faulted)
      ensures ok ==> files == old(files)[path := content]
      ensures !ok ==> Keeps(old(files), files)
      ensures (old(faulted) ==> faulted) && (!faulted ==> ok)
      ensures old(log) <= log && AllWhole(old(files), log, |old(log)|, path, content)
    {
      var tmp := CreateTemp(path);
      if tmp == None {
        return false;
      }
      ok := FillAndRename(tmp.value, path, content);
      if !ok {
        Remove(tmp.value);
      }
    }

    /** writeFileAtomic: the removal of the temporary file is deferred, and finds nothing after a rename. */
    method WriteFileAtomic(path: string, content: string) returns (ok: bool)
      modifies this
      ensures cleans && !ok ==> files == old(files)
      ensures works ==> faulted == old(faulted)
      ensures ok ==> files == old(files)[path := content]
      ensures !ok ==> Keeps(old(files), files)
      ensures (old(faulted) ==> faulted) && (!faulted ==> ok)
      ensures old(log) <= log && AllWhole(old(files), log, |old(log)|, path, content)
    {
      var tmp := CreateTemp(path);
      if tmp == None {
        return false;
      }
      ok := FillAndRename(tmp.value, path, content);
      Remove(tmp.value);
    }

    /** What both do with the temporary file. */
    method FillAndRename(tmp: string, path: string, content: string) returns (ok: bool)
      requires tmp in files && tmp != path
      modifies this
      ensures works ==> faulted == old(faulted)
      ensures ok ==> files == (old(files) - {tmp})[path := content]
      ensures (old(faulted) ==> faulted) && (!faulted ==> ok)
      ensures !ok ==> files.Keys == old(files).Keys && Keeps(old(files) - {tmp}, files)
      ensures old(log) <= log && AllWhole(old(files) - {tmp}, log, |old(log)|, path, content)
    {
      ghost var text;
      ok, text := WriteTemp(tmp, content);
      if !ok {
        return;
      }
      var closed := *;
      if !closed && !works {
        faulted := true;
        return false;
      }
      var moded := *;
      if !moded && !works {
        faulted := true;
        return false;
      }
      ok := Rename(tmp, path);
    }
  }

  /** SetupUsers and then SetPassword: the user is found, whatever the files were, and a hash without colons and
      newlines is what a reader of the new shadow file gets. */
  lemma PasswordAfterSetup(before: Files, hash: string)
    requires PASSWD in before && ':' !in hash && '\n' !in hash
    ensures var after := AfterSetup(before);
            && SHADOW in after
            && WithHash(after[SHADOW], RANCHER, hash).Some?
            && HashOf(NewShadow(after, RANCHER, hash), RANCHER) == Some(hash)
  {
    AfterSetupIs(before, "");
    ShadowAfterSetup(TextOf(before, SHADOW), hash);
    HashAfterSet(AfterSetup(before)[SHADOW], RANCHER, hash, RANCHER);
  }
}
