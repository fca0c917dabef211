/** The text of /etc/passwd and /etc/shadow: what SetupUsers (internal/boot/bootstrap/bootstrap.go),
    findUserHomeDir (internal/ssh/ssh.go) and SetPassword (internal/shadow/shadow.go) make of it. */
module PasswdFiles {
  import opened FileTree
  import opened Text

  const RANCHER := "rancher"
  const ASH := "/bin/ash"
  const BASH := "/bin/bash"

  /** The line rancher:x:1000:1000::/home/rancher:/bin/bash. */
  const PASSWD_FIELDS := [RANCHER, "x", "1000", "1000", "", "/home/rancher", "/bin/bash"]
  const PASSWD_LINE := Join(PASSWD_FIELDS, ':')

  /** The line rancher:*::::::: for a locked password. */
  const SHADOW_FIELDS := [RANCHER, "*", "", "", "", "", "", "", ""]
  const SHADOW_LINE := Join(SHADOW_FIELDS, ':')

  function Lines(content: string): seq<string>
  {
    Split(content, '\n')
  }

  // Replacing and appending.

  /** strings.ReplaceAll for a pattern that is not empty. */
  function ReplaceAll(s: string, pattern: string, text: string): string
    requires pattern != ""
    decreases |s|
  {
    if s == "" then ""
    else if pattern <= s then text + ReplaceAll(s[|pattern|..], pattern, text)
    else [s[0]] + ReplaceAll(s[1..], pattern, text)
  }

  function ReplaceEach(fields: seq<string>, pattern: string, text: string): seq<string>
    requires pattern != ""
  {
    seq(|fields|, i requires 0 <= i < |fields| => ReplaceAll(fields[i], pattern, text))
  }

  /** What appendLine writes. */
  function Appended(content: string, line: string): string
  {
    (if content != "" && content[|content| - 1] != '\n' then content + "\n" else content) + line + "\n"
  }

  /** The lines of a file, without the empty one that its last newline makes. */
  function FullLines(content: string): seq<string>
  {
    if content == "" then []
    else if content[|content| - 1] == '\n' then Lines(content[..|content| - 1])
    else Lines(content)
  }

  lemma {:induction false} SplitEnd(a: string, b: string, sep: char)
    ensures Split(a + [sep] + b, sep) == Split(a, sep) + Split(b, sep)
    decreases |a|
  {
    var s := a + [sep] + b;
    if a == "" {
      assert s[1..] == b;
    } else {
      assert s[1..] == a[1..] + [sep] + b;
      SplitEnd(a[1..], b, sep);
    }
  }

  lemma OneLine(line: string)
    requires '\n' !in line
    ensures Lines(line + "\n") == [line, ""] && Lines(line) == [line]
  {
    SplitAt(line, "", '\n');
    assert line + "\n" == line + ['\n'] + "";
  }

  /** With or without a newline at its end, the file gets one more line. */
  lemma AppendedLines(content: string, line: string)
    requires '\n' !in line
    ensures Lines(Appended(content, line)) == FullLines(content) + [line, ""]
    ensures FullLines(Appended(content, line)) == FullLines(content) + [line]
  {
    OneLine(line);
    if content == "" {
      AppendedToNothing(line);
    } else {
      var n := |content| - 1;
      AppendedTo(if content[n] == '\n' then content[..n] else content, content, line);
    }
  }

  lemma AppendedToNothing(line: string)
    requires Lines(line + "\n") == [line, ""] && Lines(line) == [line]
    ensures Appended("", line) == line + "\n" && FullLines(line + "\n") == [line]
  {
    assert (line + "\n")[..|line|] == line;
  }

  lemma AppendedTo(full: string, content: string, line: string)
    requires content != "" && Lines(line + "\n") == [line, ""] && Lines(line) == [line]
    requires content == full + "\n" || (content == full && content[|content| - 1] != '\n')
    ensures Lines(Appended(content, line)) == Lines(full) + [line, ""]
    ensures FullLines(Appended(content, line)) == Lines(full) + [line]
  {
    var s := Appended(content, line);
    assert s == full + ['\n'] + (line + "\n");
    assert s[..|s| - 1] == full + ['\n'] + line;
    SplitEnd(full, line + "\n", '\n');
    SplitEnd(full, line, '\n');
  }

  /** A replacement that neither takes nor adds a separator works on each field by itself. */
  lemma {:induction false} SplitReplaced(s: string, sep: char, pattern: string, text: string)
    requires pattern != "" && sep !in pattern && sep !in text
    ensures Split(ReplaceAll(s, pattern, text), sep) == ReplaceEach(Split(s, sep), pattern, text)
    decreases |s|
  {
    if s != "" {
      if pattern <= s {
        var t := s[|pattern|..];
        assert s == pattern + t;
        SplitReplaced(t, sep, pattern, text);
        SplitGlue(pattern, t, sep);
        SplitGlue(text, ReplaceAll(t, pattern, text), sep);
        ReplaceHead(pattern, Split(t, sep)[0], text);
      } else {
        var t := s[1..];
        SplitReplaced(t, sep, pattern, text);
        if s[0] != sep {
          SplitHeadPrefix(s, sep, pattern);
          SplitGlue([s[0]], ReplaceAll(t, pattern, text), sep);
          assert [s[0]] + Split(t, sep)[0] == Split(s, sep)[0];
        }
      }
    }
  }

  /** Text without a separator in front goes into the first field. */
  lemma {:induction false} SplitGlue(a: string, s: string, sep: char)
    requires sep !in a
    ensures Split(a + s, sep) == [a + Split(s, sep)[0]] + Split(s, sep)[1..]
    decreases |a|
  {
    if a == "" {
      assert a + s == s && a + Split(s, sep)[0] == Split(s, sep)[0];
    } else {
      assert (a + s)[1..] == a[1..] + s;
      SplitGlue(a[1..], s, sep);
      assert [a[0]] + (a[1..] + Split(s, sep)[0]) == a + Split(s, sep)[0];
    }
  }

  lemma ReplaceHead(pattern: string, rest: string, text: string)
    requires pattern != ""
    ensures ReplaceAll(pattern + rest, pattern, text) == text + ReplaceAll(rest, pattern, text)
  {
    assert (pattern + rest)[|pattern|..] == rest;
  }

  /** The first field starts with the pattern exactly when the whole text does. */
  lemma SplitHeadPrefix(s: string, sep: char, pattern: string)
    requires sep !in pattern
    ensures pattern <= Split(s, sep)[0] ==> pattern <= s
  {
    HeadIsPrefix(s, sep);
  }

  lemma {:induction false} HeadIsPrefix(s: string, sep: char)
    ensures Split(s, sep)[0] <= s
  {
    if s != "" {
      HeadIsPrefix(s[1..], sep);
    }
  }

  lemma {:induction false} ReplaceKeepsPrefix(s: string, user: string, pattern: string, text: string)
    requires pattern != "" && text != "" && pattern[0] !in user && text[0] !in user
    ensures user <= ReplaceAll(s, pattern, text) <==> user <= s
    decreases |s|
  {
    if s != "" && user != "" {
      var r := ReplaceAll(s, pattern, text);
      if pattern <= s {
        assert s[0] == pattern[0] && r[0] == text[0];
        assert user[0] in user;
      } else {
        ReplaceKeepsPrefix(s[1..], user[1..], pattern, text);
        assert r[1..] == ReplaceAll(s[1..], pattern, text);
        assert user <= s <==> user[0] == s[0] && user[1..] <= s[1..];
        assert user <= r <==> user[0] == r[0] && user[1..] <= r[1..];
      }
    }
  }

  // Reading /etc/passwd.

  const MAX_INT := 0x7fff_ffff_ffff_ffff

  function Digits(s: string): Option<nat>
  {
    if s == "" then Some(0)
    else
      var c, before := s[|s| - 1], Digits(s[..|s| - 1]);
      if before.Some? && IsDigit(c) then Some(10 * before.value + (c as int - '0' as int)) else None
  }

  /** strconv.Atoi for 64 bits. */
  function Atoi(s: string): Option<int>
  {
    var signed := s != "" && s[0] in {'+', '-'};
    var digits := if signed then s[1..] else s;
    if digits == "" || Digits(digits) == None then None
    else
      var n: int := if signed && s[0] == '-' then -(Digits(digits).value as int) else Digits(digits).value;
      if -MAX_INT - 1 <= n <= MAX_INT then Some(n) else None
  }

  /** The user and group numbers and the home directory. Without an entry they are 0, 0 and "". */
  datatype Entry = Entry(uid: int, gid: int, home: string)

  const NO_ENTRY := Entry(0, 0, "")

  /** A line with enough fields and numbers where they belong. */
  predicate WellFormed(line: string)
  {
    var f := Split(line, ':');
    |f| >= 6 && Atoi(f[2]).Some? && Atoi(f[3]).Some?
  }

  function EntryOf(line: string): Entry
    requires WellFormed(line)
  {
    var f := Split(line, ':');
    Entry(Atoi(f[2]).value, Atoi(f[3]).value, f[5])
  }

  /** The search: a later line beats an earlier one, a short line ends it, a bad number is an error (None). */
  function Search(lines: seq<string>, user: string, sofar: Entry): Option<Entry>
  {
    if lines == [] then Some(sofar)
    else if !(user <= lines[0]) then Search(lines[1..], user, sofar)
    else if |Split(lines[0], ':')| < 6 then Some(sofar)
    else if WellFormed(lines[0]) then Search(lines[1..], user, EntryOf(lines[0]))
    else None
  }

  /** findUserHomeDir. */
  method FindUserHomeDir(content: string, user: string) returns (entry: Option<Entry>)
    ensures entry == Search(Lines(content), user, NO_ENTRY)
  {
    var uid, gid, home := 0, 0, "";
    var lines := Lines(content);
    for i := 0 to |lines|
      invariant Search(lines, user, NO_ENTRY) == Search(lines[i..], user, Entry(uid, gid, home))
    {
      assert lines[i..][1..] == lines[i + 1..];
      if user <= lines[i] {
        var fields := Split(lines[i], ':');
        if |fields| < 6 {
          break;
        }
        var n := Atoi(fields[2]);
        if n == None {
          return None;
        }
        uid := n.value;
        n := Atoi(fields[3]);
        if n == None {
          return None;
        }
        gid := n.value;
        home := fields[5];
      }
    }
    entry := Some(Entry(uid, gid, home));
  }

  /** strconv.Itoa. */
  function Itoa(n: int): string
    decreases if n < 0 then 1 - n else n
  {
    if n < 0 then "-" + Itoa(-n)
    else if n < 10 then ["0123456789"[n]]
    else Itoa(n / 10) + ["0123456789"[n % 10]]
  }

  lemma {:induction false} DigitsOfItoa(n: nat)
    ensures Itoa(n) != "" && Digits(Itoa(n)) == Some(n) && forall c <- Itoa(n) :: c in "0123456789"
  {
    if n >= 10 {
      DigitsOfItoa(n / 10);
      OneMoreDigit(Itoa(n / 10), n / 10, n % 10);
    } else {
      OneMoreDigit("", 0, n);
      assert "" + ["0123456789"[n]] == ["0123456789"[n]];
    }
  }

  lemma OneMoreDigit(t: string, n: nat, d: nat)
    requires d < 10 && Digits(t) == Some(n)
    ensures Digits(t + ["0123456789"[d]]) == Some(10 * n + d)
  {
    assert (t + ["0123456789"[d]])[..|t|] == t;
  }

  lemma ItoaOfNegative(n: int)
    requires n < 0
    ensures Itoa(n) == "-" + Itoa(-n)
  {
  }

  lemma AtoiOfDigits(t: string, n: nat)
    requires t != "" && t[0] !in {'+', '-'} && Digits(t) == Some(n)
    ensures Atoi(t) == if n <= 0x7fff_ffff_ffff_ffff then Some(n) else None
    ensures Atoi("-" + t) == if n <= 0x8000_0000_0000_0000 then Some(-(n as int)) else None
  {
    assert ("-" + t)[1..] == t;
  }

  /** Numbers are read back, if they fit in 64 bits. */
  lemma AtoiOfItoa(n: int)
    ensures Atoi(Itoa(n)) == if -0x8000_0000_0000_0000 <= n <= 0x7fff_ffff_ffff_ffff then Some(n) else None
  {
    var m := if n < 0 then -n else n;
    DigitsOfItoa(m);
    assert Itoa(m)[0] in Itoa(m);
    AtoiOfDigits(Itoa(m), m);
    if n < 0 {
      ItoaOfNegative(n);
    }
  }

  lemma ItoaHasNo(n: int, c: char)
    requires c !in "-0123456789"
    ensures c !in Itoa(n)
  {
    if n < 0 {
      DigitsOfItoa(-n);
      ItoaOfNegative(n);
    } else {
      DigitsOfItoa(n);
    }
  }

  /** The line that spells out an entry. */
  function UserFields(user: string, password: string, e: Entry, name: string, shell: string): seq<string>
  {
    [user, password, Itoa(e.uid), Itoa(e.gid), name, e.home, shell]
  }

  /** It is read back as that entry. */
  lemma EntryReadsBack(user: string, password: string, e: Entry, name: string, shell: string)
    requires ':' !in user && ':' !in password && ':' !in name && ':' !in e.home && ':' !in shell
    requires forall n <- [e.uid, e.gid] :: -0x8000_0000_0000_0000 <= n <= 0x7fff_ffff_ffff_ffff
    ensures var line := Join(UserFields(user, password, e, name, shell), ':');
            user <= line && WellFormed(line) && EntryOf(line) == e
  {
    var fields := UserFields(user, password, e, name, shell);
    ItoaHasNo(e.uid, ':');
    ItoaHasNo(e.gid, ':');
    SplitJoin(fields, ':');
    JoinFirst(user, fields[1..], ':');
    assert [user] + fields[1..] == fields;
    assert e.uid in [e.uid, e.gid] && e.gid in [e.uid, e.gid];
    AtoiOfItoa(e.uid);
    AtoiOfItoa(e.gid);
  }

  lemma JoinFirst(a: string, rest: seq<string>, sep: char)
    requires rest != []
    ensures Join([a] + rest, sep) == a + [sep] + Join(rest, sep) && a <= Join([a] + rest, sep)
  {
    assert ([a] + rest)[1..] == rest;
  }

  /** A line that ends the search before its end. */
  predicate Stops(line: string, user: string)
  {
    user <= line && !WellFormed(line)
  }

  predicate AnyStops(lines: seq<string>, user: string)
  {
    exists l <- lines :: Stops(l, user)
  }

  /** A search through more lines is a search through the first ones, continued unless one of them stops it. */
  lemma {:induction false} SearchConcat(a: seq<string>, b: seq<string>, user: string, sofar: Entry)
    ensures AnyStops(a, user) ==> Search(a + b, user, sofar) == Search(a, user, sofar)
    ensures !AnyStops(a, user) ==>
              var first := Search(a, user, sofar);
              first.Some? && Search(a + b, user, sofar) == Search(b, user, first.value)
    decreases |a|
  {
    if a == [] {
      assert a + b == b;
    } else {
      assert (a + b)[1..] == a[1..] + b && a == [a[0]] + a[1..];
      assert a[0] in a && forall l <- a[1..] :: l in a;
      assert AnyStops(a, user) <==> Stops(a[0], user) || AnyStops(a[1..], user);
      SearchConcat(a[1..], b, user, if user <= a[0] && WellFormed(a[0]) then EntryOf(a[0]) else sofar);
    }
  }

  /** Without a line for the user the answer is that of the zero values. */
  lemma {:induction false} NoSuchUser(lines: seq<string>, user: string, sofar: Entry)
    requires forall l <- lines :: !(user <= l)
    ensures Search(lines, user, sofar) == Some(sofar) && NO_ENTRY == Entry(0, 0, "")
  {
    if lines != [] {
      assert lines[0] in lines && forall l <- lines[1..] :: l in lines;
      NoSuchUser(lines[1..], user, sofar);
    }
  }

  /** A short line ends the search with what was found before it; one with bad numbers makes it fail. */
  lemma SearchStops(a: seq<string>, line: string, b: seq<string>, user: string, sofar: Entry)
    requires !AnyStops(a, user) && Stops(line, user)
    ensures Search(a + ([line] + b), user, sofar) ==
            if |Split(line, ':')| < 6 then Search(a, user, sofar) else None
  {
    SearchConcat(a, [line] + b, user, sofar);
  }

  lemma {:induction false} JoinLacks(fields: seq<string>, sep: char, c: char)
    requires c != sep && forall f <- fields :: c !in f
    ensures c !in Join(fields, sep)
  {
    if |fields| > 1 {
      JoinLacks(fields[1..], sep, c);
    }
  }

  lemma Thousand()
    ensures Atoi("1000") == Some(1000)
  {
    var s := "1000";
    assert s[..1] == "1" && s[..2] == "10" && s[..3] == "100";
    assert s[..2][..1] == s[..1] && s[..3][..2] == s[..2];
    assert s[..1][..0] == "";
    assert Digits(s[..1]) == Some(1);
    assert Digits(s[..2]) == Some(10);
    assert Digits(s[..3]) == Some(100);
  }

  lemma RancherLine()
    ensures WellFormed(PASSWD_LINE) && EntryOf(PASSWD_LINE) == Entry(1000, 1000, "/home/rancher")
    ensures RANCHER <= PASSWD_LINE && '\n' !in PASSWD_LINE
  {
    SplitJoin(PASSWD_FIELDS, ':');
    JoinLacks(PASSWD_FIELDS, ':', '\n');
    Thousand();
  }

  /** What SetupUsers makes of /etc/passwd. */
  function PasswdAfter(content: string): string
  {
    Appended(ReplaceAll(content, ASH, BASH), PASSWD_LINE)
  }

  lemma SearchAfterAppend(content: string)
    ensures Search(Lines(Appended(content, PASSWD_LINE)), RANCHER, NO_ENTRY) ==
            if AnyStops(FullLines(content), RANCHER) then Search(FullLines(content), RANCHER, NO_ENTRY)
            else Some(Entry(1000, 1000, "/home/rancher"))
  {
    RancherLine();
    AppendedLines(content, PASSWD_LINE);
    SearchConcat(FullLines(content), [PASSWD_LINE, ""], RANCHER, NO_ENTRY);
    assert [PASSWD_LINE, ""][1..] == [""] && [""][1..] == [];
  }

  // The replacement changes no name, no number and no count of fields.

  lemma FullLinesAre(content: string)
    ensures var l := Lines(content); FullLines(content) == if l[|l| - 1] == "" then l[..|l| - 1] else l
  {
    if content != "" {
      var n := |content| - 1;
      if content[n] == '\n' {
        assert content == content[..n] + ['\n'] + "";
        SplitEnd(content[..n], "", '\n');
      } else {
        LastField(content, '\n');
      }
    }
  }

  lemma {:induction false} LastField(s: string, sep: char)
    requires s != "" && s[|s| - 1] != sep
    ensures Split(s, sep)[|Split(s, sep)| - 1] != ""
  {
    if |s| > 1 {
      var rest := Split(s[1..], sep);
      LastField(s[1..], sep);
      if s[0] == sep {
        assert Split(s, sep) == [""] + rest;
      } else {
        assert Split(s, sep) == [[s[0]] + rest[0]] + rest[1..];
      }
    }
  }

  lemma FullLinesReplaced(content: string, pattern: string, text: string)
    requires pattern != "" && text != "" && '\n' !in pattern && '\n' !in text
    ensures FullLines(ReplaceAll(content, pattern, text)) == ReplaceEach(FullLines(content), pattern, text)
  {
    SplitReplaced(content, '\n', pattern, text);
    FullLinesAre(content);
    FullLinesAre(ReplaceAll(content, pattern, text));
    ReplacedEnd(Lines(content), pattern, text);
  }

  lemma ReplacedEnd(lines: seq<string>, pattern: string, text: string)
    requires lines != [] && pattern != "" && text != ""
    ensures var n, replaced := |lines| - 1, ReplaceEach(lines, pattern, text);
            (replaced[n] == "" <==> lines[n] == "") && replaced[..n] == ReplaceEach(lines[..n], pattern, text)
  {
  }

  lemma {:induction false} ReplaceNothing(s: string, pattern: string, text: string)
    requires pattern != "" && text != "" && pattern[0] == text[0]
    ensures pattern[0] in ReplaceAll(s, pattern, text) <==> pattern[0] in s
    ensures pattern[0] !in s ==> ReplaceAll(s, pattern, text) == s
    decreases |s|
  {
    if s != "" && !(pattern <= s) {
      ReplaceNothing(s[1..], pattern, text);
      assert s == [s[0]] + s[1..];
    }
  }

  lemma {:induction false} DigitsAreDigits(s: string)
    requires Digits(s).Some?
    ensures forall c <- s :: IsDigit(c)
  {
    if s != "" {
      DigitsAreDigits(s[..|s| - 1]);
    }
  }

  lemma AtoiReplaced(f: string, pattern: string, text: string)
    requires pattern != "" && text != "" && pattern[0] == text[0] == '/'
    ensures Atoi(ReplaceAll(f, pattern, text)) == Atoi(f)
  {
    ReplaceNothing(f, pattern, text);
    if Atoi(f).Some? {
      NoSlashInNumber(f);
    }
    if Atoi(ReplaceAll(f, pattern, text)).Some? {
      NoSlashInNumber(ReplaceAll(f, pattern, text));
    }
  }

  lemma NoSlashInNumber(f: string)
    requires Atoi(f).Some?
    ensures '/' !in f
  {
    DigitsAreDigits(if f[0] in {'+', '-'} then f[1..] else f);
    assert f == [f[0]] + f[1..];
  }

  lemma StopsReplaced(line: string, user: string, pattern: string, text: string)
    requires pattern != "" && text != "" && pattern[0] == text[0] == '/' && '/' !in user
    requires ':' !in pattern && ':' !in text
    ensures Stops(ReplaceAll(line, pattern, text), user) <==> Stops(line, user)
  {
    ReplaceKeepsPrefix(line, user, pattern, text);
    SplitReplaced(line, ':', pattern, text);
    var f := Split(line, ':');
    if |f| >= 6 {
      AtoiReplaced(f[2], pattern, text);
      AtoiReplaced(f[3], pattern, text);
    }
  }

  lemma AnyStopsReplaced(lines: seq<string>, user: string, pattern: string, text: string)
    requires pattern != "" && text != "" && pattern[0] == text[0] == '/' && '/' !in user
    requires ':' !in pattern && ':' !in text
    ensures AnyStops(ReplaceEach(lines, pattern, text), user) <==> AnyStops(lines, user)
  {
    var replaced := ReplaceEach(lines, pattern, text);
    forall i | 0 <= i < |lines|
      ensures Stops(replaced[i], user) <==> Stops(lines[i], user)
    {
      StopsReplaced(lines[i], user, pattern, text);
    }
    if l :| l in lines && Stops(l, user) {
      var i :| 0 <= i < |lines| && lines[i] == l;
      assert replaced[i] in replaced;
    }
  }

  /** After SetupUsers, the search for rancher gives the new entry, unless some line of the old file that starts
      with "rancher" is short or has no numbers: then it never gets past that line. */
  lemma SearchAfterSetup(content: string)
    ensures Search(Lines(PasswdAfter(content)), RANCHER, NO_ENTRY) ==
            if AnyStops(FullLines(content), RANCHER)
            then Search(ReplaceEach(FullLines(content), ASH, BASH), RANCHER, NO_ENTRY)
            else Some(Entry(1000, 1000, "/home/rancher"))
  {
    FullLinesReplaced(content, ASH, BASH);
    AnyStopsReplaced(FullLines(content), RANCHER, ASH, BASH);
    SearchAfterAppend(ReplaceAll(content, ASH, BASH));
  }

  lemma NoEarlierRancher(content: string)
    requires forall l <- FullLines(content) :: !(RANCHER <= l)
    ensures Search(Lines(PasswdAfter(content)), RANCHER, NO_ENTRY) == Some(Entry(1000, 1000, "/home/rancher"))
  {
    SearchAfterSetup(content);
  }

  lemma StopsAfterSetup(content: string)
    ensures AnyStops(FullLines(PasswdAfter(content)), RANCHER) <==> AnyStops(FullLines(content), RANCHER)
  {
    RancherLine();
    FullLinesReplaced(content, ASH, BASH);
    AnyStopsReplaced(FullLines(content), RANCHER, ASH, BASH);
    StopsAfterAppend(ReplaceAll(content, ASH, BASH), PASSWD_LINE, RANCHER);
  }

  lemma StopsAfterAppend(content: string, line: string, user: string)
    requires '\n' !in line && !Stops(line, user)
    ensures AnyStops(FullLines(Appended(content, line)), user) <==> AnyStops(FullLines(content), user)
  {
    AppendedLines(content, line);
    OneMoreLine(FullLines(content), line, user, FullLines(Appended(content, line)));
  }

  lemma OneMoreLine(lines: seq<string>, line: string, user: string, more: seq<string>)
    requires !Stops(line, user) && more == lines + [line]
    ensures AnyStops(more, user) <==> AnyStops(lines, user)
  {
    assert forall l <- lines :: l in more;
  }

  lemma OneSetup(content: string)
    requires !AnyStops(FullLines(content), RANCHER)
    ensures !AnyStops(FullLines(PasswdAfter(content)), RANCHER)
    ensures Search(Lines(PasswdAfter(content)), RANCHER, NO_ENTRY) == Some(Entry(1000, 1000, "/home/rancher"))
  {
    SearchAfterSetup(content);
    StopsAfterSetup(content);
  }

  /** Each boot may run SetupUsers again on what the last one left. */
  lemma {:induction false} SearchAfterManySetups(contents: seq<string>, n: nat)
    requires 0 < n < |contents| && forall i :: 0 <= i < |contents| - 1 ==> contents[i + 1] == PasswdAfter(contents[i])
    requires !AnyStops(FullLines(contents[0]), RANCHER)
    ensures !AnyStops(FullLines(contents[n]), RANCHER)
    ensures Search(Lines(contents[n]), RANCHER, NO_ENTRY) == Some(Entry(1000, 1000, "/home/rancher"))
  {
    if n > 1 {
      SearchAfterManySetups(contents, n - 1);
    }
    assert contents[n - 1 + 1] == PasswdAfter(contents[n - 1]);
    OneSetup(contents[n - 1]);
  }

  // Rewriting /etc/shadow.

  /** A line for `user`: its name is the whole first field, and there is a second one. */
  predicate Names(line: string, user: string)
  {
    Cut(line, ':').0 == user && Cut(line, ':').1 != []
  }

  /** What follows the first two fields, if anything does. */
  function Tail(line: string): seq<string>
    requires Cut(line, ':').1 != []
  {
    Cut(Cut(line, ':').1[0], ':').1
  }

  function Behind(hash: string, tail: seq<string>): string
  {
    hash + if tail == [] then "" else ":" + tail[0]
  }

  /** The line with another second field. */
  function Rehash(line: string, hash: string): string
    requires Cut(line, ':').1 != []
  {
    Cut(line, ':').0 + [':'] + Behind(hash, Tail(line))
  }

  /** Where the first line for `user` is, or the number of lines. */
  function Index(lines: seq<string>, user: string): (i: nat)
    ensures i <= |lines| && (i < |lines| ==> Names(lines[i], user))
    ensures forall j :: 0 <= j < i ==> !Names(lines[j], user)
  {
    if lines == [] || Names(lines[0], user) then 0 else 1 + Index(lines[1..], user)
  }

  /** What SetPassword writes, if there is a line for the user. */
  function WithHash(content: string, user: string, hash: string): Option<string>
  {
    var i := Index(Lines(content), user);
    if i == |Lines(content)| then None
    else Some(Join(Lines(content)[i := Rehash(Lines(content)[i], hash)], '\n'))
  }

  /** The hash that a reader of the file finds. */
  function HashOf(content: string, user: string): Option<string>
  {
    HashIn(Lines(content), user)
  }

  function HashIn(lines: seq<string>, user: string): Option<string>
  {
    var i := Index(lines, user);
    if i == |lines| then None else Some(Cut(Cut(lines[i], ':').1[0], ':').0)
  }

  /** A line is the user's if its first field is the name and there is a second one. */
  lemma NamesIff(line: string, user: string)
    ensures Names(line, user) <==> |Split(line, ':')| >= 2 && Split(line, ':')[0] == user
  {
    SplitCut(line, ':');
  }

  lemma {:induction false} CutIs(s: string, sep: char)
    ensures var (a, rest) := Cut(s, sep);
            sep !in a && if rest == [] then s == a else |rest| == 1 && s == a + [sep] + rest[0]
  {
    if s != "" && s[0] != sep {
      CutIs(s[1..], sep);
    }
  }

  lemma SplitCut(s: string, sep: char)
    ensures Cut(s, sep).1 == [] ==> Split(s, sep) == [Cut(s, sep).0]
    ensures Cut(s, sep).1 != [] ==> Split(s, sep) == [Cut(s, sep).0] + Split(Cut(s, sep).1[0], sep)
  {
    CutIs(s, sep);
    var (a, rest) := Cut(s, sep);
    SplitAt(a, if rest == [] then "" else rest[0], sep);
  }

  lemma OneFieldIff(s: string, sep: char)
    ensures |Split(s, sep)| == 1 <==> sep !in s
  {
    SplitCut(s, sep);
    CutIs(s, sep);
  }

  /** The fields behind the second. */
  function Rest(line: string): seq<string>
    requires Cut(line, ':').1 != []
  {
    if Tail(line) == [] then [] else Split(Tail(line)[0], ':')
  }

  lemma TwoFields(line: string)
    requires Cut(line, ':').1 != []
    ensures ':' !in Cut(line, ':').0 && |Tail(line)| <= 1
    ensures Split(line, ':') == [Cut(line, ':').0, Cut(Cut(line, ':').1[0], ':').0] + Rest(line)
  {
    CutIs(line, ':');
    CutIs(Cut(line, ':').1[0], ':');
    SplitCut(line, ':');
    OneField(line);
    Regroup(Cut(line, ':').0, Cut(Cut(line, ':').1[0], ':').0, Rest(line));
  }

  lemma OneField(line: string)
    requires Cut(line, ':').1 != []
    ensures Split(Cut(line, ':').1[0], ':') == [Cut(Cut(line, ':').1[0], ':').0] + Rest(line)
  {
    SplitCut(Cut(line, ':').1[0], ':');
  }

  lemma Regroup(a: string, b: string, rest: seq<string>)
    ensures [a] + ([b] + rest) == [a, b] + rest
  {
  }

  lemma RehashSplit(line: string, hash: string)
    requires Cut(line, ':').1 != []
    ensures Split(Rehash(line, hash), ':') == [Cut(line, ':').0] + (Split(hash, ':') + Rest(line))
    ensures Cut(Rehash(line, hash), ':').0 == Cut(line, ':').0 && Cut(Rehash(line, hash), ':').1 != []
    ensures ':' !in hash ==> Cut(Cut(Rehash(line, hash), ':').1[0], ':').0 == hash
  {
    TwoFields(line);
    RehashValue(hash, Tail(line));
    CutAt(Cut(line, ':').0, Behind(hash, Tail(line)), ':');
    SplitAt(Cut(line, ':').0, Behind(hash, Tail(line)), ':');
  }

  /** The new line differs in its second field, and in nothing else, exactly when the hash has no colon. */
  lemma RehashFields(line: string, hash: string)
    requires Cut(line, ':').1 != []
    ensures |Split(line, ':')| >= 2
    ensures Split(Rehash(line, hash), ':') == Split(line, ':')[1 := hash] <==> ':' !in hash
  {
    TwoFields(line);
    RehashSplit(line, hash);
    OneFieldIff(hash, ':');
    if ':' !in hash {
      SplitAt(hash, "", ':');
    }
    ReplaceSecond(Cut(line, ':').0, Cut(Cut(line, ':').1[0], ':').0, Rest(line), hash, Split(hash, ':'));
  }

  lemma ReplaceSecond(name: string, second: string, rest: seq<string>, hash: string, fields: seq<string>)
    requires |fields| == 1 ==> fields == [hash]
    ensures [name] + (fields + rest) == ([name, second] + rest)[1 := hash] <==> |fields| == 1
  {
    assert |[name] + (fields + rest)| == 1 + |fields| + |rest|;
  }

  lemma RehashValue(hash: string, tail: seq<string>)
    requires |tail| <= 1
    ensures Split(Behind(hash, tail), ':') == Split(hash, ':') + if tail == [] then [] else Split(tail[0], ':')
    ensures ':' !in hash ==> Cut(Behind(hash, tail), ':').0 == hash
  {
    if tail == [] {
      assert Behind(hash, tail) == hash;
      if ':' !in hash {
        CutAt(hash, "", ':');
      }
    } else {
      assert Behind(hash, tail) == hash + [':'] + tail[0];
      SplitEnd(hash, tail[0], ':');
      if ':' !in hash {
        CutAt(hash, tail[0], ':');
      }
    }
  }

  lemma {:induction false} IndexUpdated(lines: seq<string>, user: string, line: string, other: string)
    requires Index(lines, user) < |lines| && Names(line, user)
    ensures var l := lines[Index(lines, user) := line];
            && Index(l, user) == Index(lines, user)
            && (other != user ==> Index(l, other) == Index(lines, other))
  {
    if !Names(lines[0], user) {
      IndexUpdated(lines[1..], user, line, other);
      assert lines[Index(lines, user) := line][1..] == lines[1..][Index(lines[1..], user) := line];
    }
  }

  /** SetPassword changes one line and keeps every other byte for byte, exactly when the hash has no newline. */
  lemma OnlyOneLine(content: string, user: string, hash: string)
    requires WithHash(content, user, hash).Some?
    ensures var i := Index(Lines(content), user);
            Lines(WithHash(content, user, hash).value) == Lines(content)[i := Rehash(Lines(content)[i], hash)] <==>
            '\n' !in hash
  {
    var lines, i := Lines(content), Index(Lines(content), user);
    var line := Rehash(lines[i], hash);
    FieldsHaveNoSep(content, '\n');
    CutIs(lines[i], ':');
    assert lines[i] in lines;
    assert '\n' in line <==> '\n' in hash by {
      RehashNewline(lines[i], hash);
    }
    var changed := lines[i := line];
    if '\n' !in hash {
      forall f | f in changed
        ensures '\n' !in f
      {
      }
      SplitJoin(changed, '\n');
    } else {
      FieldsHaveNoSep(Join(changed, '\n'), '\n');
      assert changed[i] in changed;
    }
  }

  lemma RehashNewline(line: string, hash: string)
    requires Cut(line, ':').1 != [] && '\n' !in line
    ensures '\n' in Rehash(line, hash) <==> '\n' in hash
  {
    CutIs(line, ':');
    CutIs(Cut(line, ':').1[0], ':');
  }

  /** For a hash without colons and newlines: the user's hash is the new one, and every other user's stays. */
  lemma HashAfterSet(content: string, user: string, hash: string, other: string)
    requires ':' !in hash && '\n' !in hash && WithHash(content, user, hash).Some?
    ensures HashOf(WithHash(content, user, hash).value, user) == Some(hash)
    ensures other != user ==> HashOf(WithHash(content, user, hash).value, other) == HashOf(content, other)
  {
    var lines, i := Lines(content), Index(Lines(content), user);
    OnlyOneLine(content, user, hash);
    RehashSplit(lines[i], hash);
    IndexUpdated(lines, user, Rehash(lines[i], hash), other);
  }

  /** A reader gets the hash that was set exactly if it has no colon and no newline: no hash that can be read back
      has either. */
  lemma HashIsReadIff(content: string, user: string, hash: string)
    requires WithHash(content, user, hash).Some?
    ensures HashOf(WithHash(content, user, hash).value, user) == Some(hash) <==> ':' !in hash && '\n' !in hash
  {
    if ':' !in hash && '\n' !in hash {
      HashAfterSet(content, user, hash, user);
    } else {
      HashLacks(WithHash(content, user, hash).value, user);
    }
  }

  lemma HashLacks(content: string, user: string)
    ensures HashOf(content, user).Some? ==> ':' !in HashOf(content, user).value && '\n' !in HashOf(content, user).value
  {
    var lines, i := Lines(content), Index(Lines(content), user);
    FieldsHaveNoSep(content, '\n');
    if i < |lines| {
      assert lines[i] in lines;
      CutIs(lines[i], ':');
      CutIs(Cut(lines[i], ':').1[0], ':');
    }
  }

  /** An appended line counts only for a user who had none. */
  lemma HashAfterAppend(content: string, line: string, user: string)
    requires '\n' !in line
    ensures HashOf(Appended(content, line), user) ==
            if HashOf(content, user).Some? then HashOf(content, user) else HashOf(line, user)
  {
    var lines := FullLines(content);
    OneLine(line);
    AppendedLines(content, line);
    HashInConcat(lines, [line, ""], user);
    HashInConcat([line], [""], user);
    assert [line] + [""] == [line, ""];
    FullLinesAre(content);
    HashInConcat(lines, [""], user);
    assert Lines(content) == lines || Lines(content) == lines + [""];
  }

  lemma HashInConcat(a: seq<string>, b: seq<string>, user: string)
    ensures HashIn(a + b, user) == if HashIn(a, user).Some? then HashIn(a, user) else HashIn(b, user)
    ensures HashIn([""], user) == None
  {
    IndexConcat(a, b, user);
  }

  lemma NewRancher()
    ensures '\n' !in SHADOW_LINE && HashOf(SHADOW_LINE, RANCHER) == Some("*")
  {
    SplitJoin(SHADOW_FIELDS, ':');
    JoinLacks(SHADOW_FIELDS, ':', '\n');
    SplitCut(SHADOW_LINE, ':');
    SplitCut(Cut(SHADOW_LINE, ':').1[0], ':');
    OneLine(SHADOW_LINE);
  }

  /** The file that SetupUsers leaves has a line for rancher: the hash is the one from before, or none that unlocks. */
  lemma ShadowAfterSetup(content: string, hash: string)
    ensures var after := Appended(content, SHADOW_LINE);
            && WithHash(after, RANCHER, hash).Some?
            && HashOf(after, RANCHER) == Some(HashOf(content, RANCHER).GetOr("*"))
  {
    NewRancher();
    HashAfterAppend(content, SHADOW_LINE, RANCHER);
  }

  /** A password that was set is still the one that counts after any number of boots that run SetupUsers again. */
  lemma {:induction false} HashAfterManySetups(contents: seq<string>, hash: string, n: nat)
    requires n < |contents| && ':' !in hash && '\n' !in hash
    requires forall i :: 0 <= i < |contents| - 1 ==> contents[i + 1] == Appended(contents[i], SHADOW_LINE)
    requires exists before :: WithHash(before, RANCHER, hash) == Some(contents[0])
    ensures HashOf(contents[n], RANCHER) == Some(hash)
  {
    if n == 0 {
      var before :| WithHash(before, RANCHER, hash) == Some(contents[0]);
      HashAfterSet(before, RANCHER, hash, RANCHER);
    } else {
      HashAfterManySetups(contents, hash, n - 1);
      assert contents[n - 1 + 1] == Appended(contents[n - 1], SHADOW_LINE);
      ShadowAfterSetup(contents[n - 1], hash);
    }
  }

  lemma {:induction false} IndexConcat(a: seq<string>, b: seq<string>, user: string)
    ensures Index(a + b, user) == if Index(a, user) < |a| then Index(a, user) else |a| + Index(b, user)
    decreases |a|
  {
    if a == [] {
      assert a + b == b;
    } else {
      assert (a + b)[1..] == a[1..] + b;
      IndexConcat(a[1..], b, user);
    }
  }
}