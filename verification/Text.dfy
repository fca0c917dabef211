/** The few functions of Go's strings package that the repository leans on. */
module Text {

  predicate IsDigit(c: char)
  {
    '0' <= c <= '9'
  }

  /** strings.Split for a one-character separator: always at least one field. */
  function Split(s: string, sep: char): (fields: seq<string>)
    ensures fields != []
  {
    if s == "" then [""]
    else
      var rest := Split(s[1..], sep);
      if s[0] == sep then [""] + rest else [[s[0]] + rest[0]] + rest[1..]
  }

  /** strings.Join. */
  function Join(fields: seq<string>, sep: char): string
  {
    if fields == [] then ""
    else if |fields| == 1 then fields[0]
    else fields[0] + [sep] + Join(fields[1..], sep)
  }

  lemma {:induction false} FieldsHaveNoSep(s: string, sep: char)
    ensures forall f <- Split(s, sep) :: sep !in f
  {
    if s != "" {
      FieldsHaveNoSep(s[1..], sep);
      var rest := Split(s[1..], sep);
      assert rest[0] in rest;
    }
  }

  /** The first separator ends the first field. */
  lemma {:induction false} SplitAt(a: string, b: string, sep: char)
    requires sep !in a
    ensures Split(a, sep) == [a]
    ensures Split(a + [sep] + b, sep) == [a] + Split(b, sep)
  {
    if a == "" {
      assert (a + [sep] + b)[1..] == b;
    } else {
      assert (a + [sep] + b)[1..] == a[1..] + [sep] + b;
      assert a == [a[0]] + a[1..];
      SplitAt(a[1..], b, sep);
    }
  }

  lemma {:induction false} SplitJoin(fields: seq<string>, sep: char)
    requires fields != [] && forall f <- fields :: sep !in f
    ensures Split(Join(fields, sep), sep) == fields
  {
    if |fields| == 1 {
      SplitAt(fields[0], "", sep);
    } else {
      SplitJoin(fields[1..], sep);
      SplitAt(fields[0], Join(fields[1..], sep), sep);
    }
  }

  /** strings.SplitN(s, sep, 2): the text before the first separator, and what follows it if there is one. */
  function Cut(s: string, sep: char): (string, seq<string>)
  {
    if s == "" then ("", [])
    else if s[0] == sep then ("", [s[1..]])
    else var (head, tail) := Cut(s[1..], sep); ([s[0]] + head, tail)
  }

  lemma {:induction false} CutAt(a: string, b: string, sep: char)
    requires sep !in a
    ensures Cut(a, sep) == (a, [])
    ensures Cut(a + [sep] + b, sep) == (a, [b])
  {
    if a == "" {
      assert (a + [sep] + b)[1..] == b;
    } else {
      assert (a + [sep] + b)[1..] == a[1..] + [sep] + b;
      CutAt(a[1..], b, sep);
      assert a == [a[0]] + a[1..];
    }
  }

  function TrimLeft(s: string, c: char): string
  {
    if s != "" && s[0] == c then TrimLeft(s[1..], c) else s
  }

  function TrimRight(s: string, c: char): string
  {
    if s != "" && s[|s| - 1] == c then TrimRight(s[..|s| - 1], c) else s
  }

  /** strings.Trim for a one-character cutset. */
  function Trim(s: string, c: char): string
  {
    TrimRight(TrimLeft(s, c), c)
  }

  lemma TrimNothing(s: string, c: char)
    requires c !in s
    ensures Trim(s, c) == s
  {
  }

  lemma TrimOne(s: string, c: char)
    requires c !in s
    ensures Trim([c] + s, c) == s && Trim(s + [c], c) == s
  {
    assert ([c] + s)[1..] == s && (s + [c])[..|s|] == s;
    assert TrimLeft([c] + s, c) == TrimLeft(s, c) == s;
    if s == "" {
      assert s + [c] == [c] && [c][1..] == "";
      assert TrimLeft([c], c) == TrimLeft("", c) == "";
    } else {
      assert TrimLeft(s + [c], c) == s + [c];
      assert TrimRight(s + [c], c) == TrimRight(s, c) == s;
    }
  }

  /** Enclosing marks are what Trim takes off. */
  lemma TrimEnclosed(s: string, c: char)
    requires c !in s
    ensures Trim([c] + s + [c], c) == s
  {
    var t := [c] + s + [c];
    assert t[1..] == s + [c];
    if s == "" {
      assert TrimLeft(t[1..], c) == "";
    } else {
      assert TrimLeft(t[1..], c) == s + [c];
      assert (s + [c])[..|s|] == s;
      assert TrimRight(s + [c], c) == TrimRight(s, c) == s;
    }
  }
}
