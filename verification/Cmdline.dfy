/** Reading the kernel command line and the flags file into the configuration tree:
    internal/config/cmdline_reader.go and internal/config/flags_reader.go. */
module Cmdline {
  import opened FileTree
  import opened Text
  import opened ConfigTree
  import opened ConfigStore

  const QUOTE := '\"'

  predicate IsBlank(c: char)
  {
    c in {' ', '\t', '\n', '\r'}
  }

  predicate IsSpace(c: char)
  {
    IsBlank(c) || c in {'\U{0B}', '\U{0C}'}
  }

  // Tokens.

  /** Tokens end at blanks outside quotes; `open` says whether a quote is open, `cur` is the token so far. */
  function Tokens(s: string, open: bool := false, cur: string := ""): seq<string>
    decreases |s|
  {
    if s == "" then if cur == "" then [] else [cur]
    else if s[0] == QUOTE then Tokens(s[1..], !open, cur + [s[0]])
    else if !open && IsBlank(s[0]) then (if cur == "" then [] else [cur]) + Tokens(s[1..], false, "")
    else Tokens(s[1..], open, cur + [s[0]])
  }

  /** splitCmdlineTokens, carrying `lastQuote` from character to character. */
  method SplitTokens(raw: string) returns (tokens: seq<string>)
    ensures tokens == Tokens(raw)
  {
    tokens := [];
    var lastQuote, cur := '\0', "";
    for i := 0 to |raw|
      invariant lastQuote in {'\0', QUOTE}
      invariant Tokens(raw) == tokens + Tokens(raw[i..], lastQuote == QUOTE, cur)
    {
      var c, rest := raw[i], raw[i + 1..];
      assert raw[i..] == [c] + rest;
      var blank := false;
      if c == lastQuote {
        lastQuote := '\0';
      } else if lastQuote != '\0' {
      } else if c == QUOTE {
        lastQuote := c;
      } else {
        blank := IsBlank(c);
      }
      if !blank {
        cur := cur + [c];
      } else if cur != "" {
        assert tokens + ([cur] + Tokens(rest)) == tokens + [cur] + Tokens(rest);
        tokens, cur := tokens + [cur], "";
      }
    }
    if cur != "" {
      tokens := tokens + [cur];
    }
  }

  /** No blank of `t` is outside quotes. */
  predicate Unbroken(t: string, open: bool)
  {
    t != "" ==>
      (open || !IsBlank(t[0])) && Unbroken(t[1..], if t[0] == QUOTE then !open else open)
  }

  function OpenAfter(t: string, open: bool): bool
  {
    if t == "" then open else OpenAfter(t[1..], if t[0] == QUOTE then !open else open)
  }

  predicate IsToken(t: string)
  {
    t != "" && Unbroken(t, false) && !OpenAfter(t, false)
  }

  lemma {:induction false} Absorb(t: string, rest: string, open: bool, cur: string)
    requires Unbroken(t, open)
    ensures Tokens(t + rest, open, cur) == Tokens(rest, OpenAfter(t, open), cur + t)
    decreases |t|
  {
    if t == "" {
      assert t + rest == rest && cur + t == cur;
    } else {
      var next := if t[0] == QUOTE then !open else open;
      assert (t + rest)[1..] == t[1..] + rest;
      assert cur + [t[0]] + t[1..] == cur + t;
      Absorb(t[1..], rest, next, cur + [t[0]]);
    }
  }

  /** Splitting undoes joining with blanks. */
  lemma {:induction false} TokensOfJoined(tokens: seq<string>)
    requires forall t <- tokens :: IsToken(t)
    ensures Tokens(Join(tokens, ' ')) == tokens
  {
    if |tokens| == 1 {
      assert tokens[0] in tokens;
      Absorb(tokens[0], "", false, "");
      assert tokens[0] + "" == tokens[0] && "" + tokens[0] == tokens[0];
    } else if tokens != [] {
      assert tokens == [tokens[0]] + tokens[1..] && tokens[0] in tokens;
      var rest := Join(tokens[1..], ' ');
      Absorb(tokens[0], " " + rest, false, "");
      assert tokens[0] + [' '] + rest == tokens[0] + (" " + rest) && "" + tokens[0] == tokens[0];
      assert (" " + rest)[1..] == rest;
      TokensOfJoined(tokens[1..]);
    }
  }

  lemma {:induction false} UnbrokenPlain(t: string, open: bool)
    requires QUOTE !in t && (open || forall c <- t :: !IsBlank(c))
    ensures Unbroken(t, open) && OpenAfter(t, open) == open
  {
    if t != "" {
      UnbrokenPlain(t[1..], open);
    }
  }

  lemma {:induction false} UnbrokenConcat(a: string, b: string, open: bool)
    requires Unbroken(a, open) && Unbroken(b, OpenAfter(a, open))
    ensures Unbroken(a + b, open) && OpenAfter(a + b, open) == OpenAfter(b, OpenAfter(a, open))
    decreases |a|
  {
    if a == "" {
      assert a + b == b;
    } else {
      assert (a + b)[1..] == a[1..] + b;
      UnbrokenConcat(a[1..], b, if a[0] == QUOTE then !open else open);
    }
  }

  lemma LoneQuote()
    ensures Unbroken([QUOTE], false) && OpenAfter([QUOTE], false)
    ensures Unbroken([QUOTE], true) && !OpenAfter([QUOTE], true)
  {
    assert [QUOTE][1..] == "" && OpenAfter("", false) == false && OpenAfter("", true) == true;
  }

  lemma QuotedIsToken(t: string)
    requires QUOTE !in t
    ensures IsToken([QUOTE] + t + [QUOTE])
  {
    UnbrokenPlain(t, true);
    LoneQuote();
    UnbrokenConcat([QUOTE], t, false);
    UnbrokenConcat([QUOTE] + t, [QUOTE], false);
  }

  /** Any blank outside quotes separates. */
  lemma {:induction false} BlankSeparates(a: string, c: char, b: string, open: bool, cur: string)
    requires c in {' ', '\t', '\n', '\r'} && !OpenAfter(a, open)
    ensures Tokens(a + [c] + b, open, cur) == Tokens(a, open, cur) + Tokens(b)
    decreases |a|
  {
    if a == "" {
      assert (a + [c] + b)[1..] == b;
    } else {
      assert (a + [c] + b)[1..] == a[1..] + [c] + b;
      BlankSeparates(a[1..], c, b, if a[0] == QUOTE then !open else open,
                     if a[0] != QUOTE && !open && IsBlank(a[0]) then "" else cur + [a[0]]);
    }
  }

  /** And nothing else does. */
  lemma OneToken(t: string)
    requires t != "" && forall c <- t :: c !in {QUOTE, ' ', '\t', '\n', '\r'}
    ensures Tokens(t) == [t]
  {
    UnbrokenPlain(t, false);
    Absorb(t, "", false, "");
    assert t + "" == t && "" + t == t;
  }

  /** Nor does anything between quotes. */
  lemma OneQuotedToken(t: string)
    requires QUOTE !in t
    ensures Tokens([QUOTE] + t + [QUOTE]) == [[QUOTE] + t + [QUOTE]]
  {
    var q := [QUOTE] + t + [QUOTE];
    QuotedIsToken(t);
    Absorb(q, "", false, "");
    assert q + "" == q && "" + q == q;
  }

  lemma {:induction false} UnbrokenGrows(t: string, c: char, open: bool)
    requires Unbroken(t, open) && (OpenAfter(t, open) || !IsBlank(c))
    ensures Unbroken(t + [c], open)
    ensures OpenAfter(t + [c], open) == if c == QUOTE then !OpenAfter(t, open) else OpenAfter(t, open)
    decreases |t|
  {
    if t == "" {
      assert t + [c] == [c];
    } else {
      assert (t + [c])[1..] == t[1..] + [c];
      UnbrokenGrows(t[1..], c, if t[0] == QUOTE then !open else open);
    }
  }

  /** Every token is a non-empty run without a blank outside quotes. */
  lemma {:induction false} TokensAreUnbroken(s: string, open: bool, cur: string)
    requires Unbroken(cur, false) && OpenAfter(cur, false) == open
    ensures forall t <- Tokens(s, open, cur) :: t != "" && Unbroken(t, false)
    decreases |s|
  {
    if s != "" {
      if s[0] == QUOTE {
        UnbrokenGrows(cur, s[0], false);
        TokensAreUnbroken(s[1..], !open, cur + [s[0]]);
      } else if !open && IsBlank(s[0]) {
        TokensAreUnbroken(s[1..], false, "");
      } else {
        UnbrokenGrows(cur, s[0], false);
        TokensAreUnbroken(s[1..], open, cur + [s[0]]);
      }
    }
  }

  // From tokens to the tree.

  /** splitKeyValue. */
  function KeyValue(token: string): (string, string)
  {
    var (head, tail) := Cut(token, '=');
    if tail == [] then (head, "true") else (head, Trim(tail[0], QUOTE))
  }

  function PairOf(token: string): Pair
  {
    var (key, value) := KeyValue(token);
    Pair(Split(Trim(key, QUOTE), '.'), value)
  }

  function PairsOf(tokens: seq<string>): seq<Pair>
  {
    seq(|tokens|, i requires 0 <= i < |tokens| => PairOf(tokens[i]))
  }

  lemma FoldOneMore(pairs: seq<Pair>, n: nat)
    requires n < |pairs|
    ensures Fold(pairs[..n + 1]) == Accumulate(Fold(pairs[..n]), pairs[n])
  {
    assert pairs[..n + 1][..n] == pairs[..n];
  }

  /** parseCmdlineArgs. */
  method ParseCmdlineArgs(raw: string) returns (data: Store)
    ensures fresh(data) && data.Valid() && data.Config() == Fold(PairsOf(Tokens(raw)))
  {
    data := new Store();
    var tokens := SplitTokens(raw);
    ghost var pairs := PairsOf(tokens);
    TokensAreUnbroken(raw, false, "");
    for i := 0 to |tokens|
      invariant fresh(data) && data.Valid() && data.Config() == Fold(pairs[..i])
    {
      var token := tokens[i];
      assert token in tokens && token != "";
      var (key, value) := KeyValue(token);
      var keys := Split(Trim(key, QUOTE), '.');
      data.Accumulate(keys, value);
      FoldOneMore(pairs, i);
    }
    assert pairs[..|tokens|] == pairs;
  }

  // The command line that spells out given pairs.

  predicate PlainSegment(s: string)
  {
    forall c <- s :: c !in {'.', '=', QUOTE} && !IsSpace(c)
  }

  predicate PlainKey(key: Path)
  {
    key != [] && forall s <- key :: PlainSegment(s)
  }

  /** `key`, `key=value`, `key="value"` or `"key=value"`. */
  datatype Spelling = Bare | Plain | Quoted | Whole

  predicate Spells(how: Spelling, pair: Pair)
  {
    && PlainKey(pair.key) && QUOTE !in pair.value
    && (how.Bare? ==> pair.value == "true" && Join(pair.key, '.') != "")
    && (how.Plain? ==> forall c <- pair.value :: c !in {' ', '\t', '\n', '\r'})
  }

  predicate AllSpelled(pairs: seq<Pair>, hows: seq<Spelling>)
  {
    |hows| == |pairs| && forall i :: 0 <= i < |pairs| ==> Spells(hows[i], pairs[i])
  }

  function Render(pair: Pair, how: Spelling): string
  {
    var key := Join(pair.key, '.');
    match how
    case Bare => key
    case Plain => key + ['='] + pair.value
    case Quoted => key + ['='] + ([QUOTE] + pair.value + [QUOTE])
    case Whole => [QUOTE] + (key + ['='] + pair.value) + [QUOTE]
  }

  function RenderAll(pairs: seq<Pair>, hows: seq<Spelling>): seq<string>
    requires |hows| == |pairs|
  {
    seq(|pairs|, i requires 0 <= i < |pairs| => Render(pairs[i], hows[i]))
  }

  lemma {:induction false} JoinedKey(key: Path)
    requires PlainKey(key)
    ensures forall c <- Join(key, '.') :: c !in {'=', QUOTE} && !IsSpace(c)
  {
    assert key[0] in key;
    if |key| > 1 {
      JoinedKey(key[1..]);
    }
  }

  /** A token without a value is a flag that is set. */
  lemma BareKey(t: string)
    requires '=' !in t && QUOTE !in t
    ensures PairOf(t) == Pair(Split(t, '.'), "true")
  {
    CutAt(t, "", '=');
    TrimNothing(t, QUOTE);
  }

  lemma RenderIsToken(pair: Pair, how: Spelling)
    requires Spells(how, pair)
    ensures IsToken(Render(pair, how))
  {
    var key, quoted := Join(pair.key, '.'), [QUOTE] + pair.value + [QUOTE];
    JoinedKey(pair.key);
    match how {
      case Bare =>
        UnbrokenPlain(key, false);
      case Plain =>
        UnbrokenPlain(key + ['='] + pair.value, false);
      case Quoted =>
        UnbrokenPlain(key + ['='], false);
        QuotedIsToken(pair.value);
        UnbrokenConcat(key + ['='], quoted, false);
      case Whole =>
        QuotedIsToken(key + ['='] + pair.value);
    }
  }

  lemma RenderReadsBack(pair: Pair, how: Spelling)
    requires Spells(how, pair)
    ensures PairOf(Render(pair, how)) == pair
  {
    var key, value, q := Join(pair.key, '.'), pair.value, [QUOTE];
    JoinedKey(pair.key);
    SplitJoin(pair.key, '.');
    TrimNothing(key, QUOTE);
    match how {
      case Bare =>
        BareKey(key);
      case Plain =>
        CutAt(key, value, '=');
        TrimNothing(value, QUOTE);
      case Quoted =>
        CutAt(key, q + value + q, '=');
        TrimEnclosed(value, QUOTE);
      case Whole =>
        assert Render(pair, how) == (q + key) + ['='] + (value + q);
        CutAt(q + key, value + q, '=');
        TrimOne(key, QUOTE);
        TrimOne(value, QUOTE);
    }
  }

  /** Reading back a command line that spells out pairs, each in any of the four ways, gives these pairs. */
  lemma CmdlineRoundTrip(pairs: seq<Pair>, hows: seq<Spelling>)
    requires AllSpelled(pairs, hows)
    ensures PairsOf(Tokens(Join(RenderAll(pairs, hows), ' '))) == pairs
  {
    forall i | 0 <= i < |pairs|
      ensures IsToken(Render(pairs[i], hows[i])) && PairOf(Render(pairs[i], hows[i])) == pairs[i]
    {
      RenderIsToken(pairs[i], hows[i]);
      RenderReadsBack(pairs[i], hows[i]);
    }
    TokensOfJoined(RenderAll(pairs, hows));
  }

  // The flags file.

  function TrimSpace(s: string): string
    decreases |s|
  {
    if s == "" then ""
    else if IsSpace(s[0]) then TrimSpace(s[1..])
    else if IsSpace(s[|s| - 1]) then TrimSpace(s[..|s| - 1])
    else s
  }

  /** splitFlagLine; `unquote` is strconv.Unquote. */
  function FlagLine(line: string, unquote: string -> Option<string>): (string, string)
  {
    var (head, tail) := Cut(line, '=');
    if tail == [] then (TrimSpace(head), "true")
    else
      var value := TrimSpace(tail[0]);
      (TrimSpace(head), unquote(value).GetOr(value))
  }

  /** Blank lines, comments and lines without a key are skipped. */
  function LinePairs(raw: string, unquote: string -> Option<string>): seq<Pair>
  {
    var line := TrimSpace(raw);
    if line == "" || line[0] == '#' || FlagLine(line, unquote).0 == "" then []
    else [Pair(Split(FlagLine(line, unquote).0, '.'), FlagLine(line, unquote).1)]
  }

  function FlagPairs(lines: seq<string>, unquote: string -> Option<string>): seq<Pair>
  {
    if lines == [] then []
    else FlagPairs(lines[..|lines| - 1], unquote) + LinePairs(lines[|lines| - 1], unquote)
  }

  lemma FlagFoldOneMore(lines: seq<string>, n: nat, unquote: string -> Option<string>)
    requires n < |lines|
    ensures Fold(FlagPairs(lines[..n + 1], unquote)) ==
            var before, pairs := Fold(FlagPairs(lines[..n], unquote)), LinePairs(lines[n], unquote);
            if pairs == [] then before else Accumulate(before, pairs[0])
  {
    assert lines[..n + 1][..n] == lines[..n];
    var before, pairs := FlagPairs(lines[..n], unquote), LinePairs(lines[n], unquote);
    if pairs == [] {
      assert before + pairs == before;
    } else {
      assert before + pairs == before + [pairs[0]];
      FoldOneMore(before + [pairs[0]], |before|);
      assert (before + [pairs[0]])[..|before|] == before;
      assert (before + [pairs[0]])[..|before| + 1] == before + [pairs[0]];
    }
  }

  /** The loop of readFlagsFile over the lines the scanner yields. */
  method ReadFlags(lines: seq<string>, unquote: string -> Option<string>) returns (data: Store)
    ensures fresh(data) && data.Valid() && data.Config() == Fold(FlagPairs(lines, unquote))
  {
    data := new Store();
    for i := 0 to |lines|
      invariant fresh(data) && data.Valid() && data.Config() == Fold(FlagPairs(lines[..i], unquote))
    {
      FlagFoldOneMore(lines, i, unquote);
      var line := TrimSpace(lines[i]);
      if line == "" || line[0] == '#' {
        continue;
      }
      var (key, value) := FlagLine(line, unquote);
      if key == "" {
        continue;
      }
      data.Accumulate(Split(key, '.'), value);
    }
    assert lines[..|lines|] == lines;
  }

  // The flags file that spells out given pairs.

  predicate AllSpace(s: string)
  {
    forall i :: 0 <= i < |s| ==> s[i] in {' ', '\t', '\n', '\r', '\U{0B}', '\U{0C}'}
  }

  /** The space around the parts of a line, and whether it is a key alone. */
  datatype Layout = Layout(indent: string, before: string, after: string, end: string, bare: bool)
  {
    predicate Valid()
    {
      AllSpace(indent) && AllSpace(before) && AllSpace(after) && AllSpace(end)
    }
  }

  /** A flags file line, with the value written out by `spell` (as it is, or quoted the Go way). */
  function RenderFlag(pair: Pair, layout: Layout, spell: string -> string): string
  {
    var key := Join(pair.key, '.');
    layout.indent
    + (if layout.bare then key else key + layout.before + ['='] + (layout.after + spell(pair.value)))
    + layout.end
  }

  function RenderFlags(pairs: seq<Pair>, layouts: seq<Layout>, spell: string -> string): seq<string>
    requires |layouts| == |pairs|
  {
    seq(|pairs|, i requires 0 <= i < |pairs| => RenderFlag(pairs[i], layouts[i], spell))
  }

  /** A key that the flags file can spell: not empty, and no comment. */
  predicate FlagKey(key: Path)
  {
    PlainKey(key) && Join(key, '.') != "" && Join(key, '.')[0] != '#'
  }

  /** The spelling of a value survives trimming and reads back as the value. */
  predicate ReadsBack(value: string, spell: string -> string, unquote: string -> Option<string>)
  {
    TrimSpace(spell(value)) == spell(value) && unquote(spell(value)).GetOr(spell(value)) == value
  }

  predicate SpellsFlag(pair: Pair, layout: Layout, spell: string -> string, unquote: string -> Option<string>)
  {
    && FlagKey(pair.key) && layout.Valid()
    && if layout.bare then pair.value == "true" else ReadsBack(pair.value, spell, unquote)
  }

  predicate AllFlagsSpelled(pairs: seq<Pair>, layouts: seq<Layout>, spell: string -> string,
                            unquote: string -> Option<string>)
  {
    |layouts| == |pairs| && forall i :: 0 <= i < |pairs| ==> SpellsFlag(pairs[i], layouts[i], spell, unquote)
  }

  lemma FlagLineReadsBack(pair: Pair, layout: Layout, spell: string -> string, unquote: string -> Option<string>)
    requires SpellsFlag(pair, layout, spell, unquote)
    ensures LinePairs(RenderFlag(pair, layout, spell), unquote) == [pair]
  {
    var key := Join(pair.key, '.');
    JoinedKey(pair.key);
    assert key[0] in key && key[|key| - 1] in key;
    SplitJoin(pair.key, '.');
    if layout.bare {
      TrimPadded(layout.indent, key, layout.end);
      CutAt(key, "", '=');
    } else {
      var value := spell(pair.value);
      var core := key + layout.before + ['='] + (layout.after + value);
      var tail := if value == "" then "" else layout.after + value;
      TrimPadded(layout.indent, core, layout.end);
      TrimmedLine(key + layout.before, layout.after, value);
      CutAt(key + layout.before, tail, '=');
      TrimBehind(key, layout.before);
      TrimInFront(layout.after, value);
    }
  }

  lemma TrimmedLine(head: string, after: string, value: string)
    requires head != "" && !IsSpace(head[0]) && AllSpace(after) && TrimSpace(value) == value
    ensures TrimSpace(head + ['='] + (after + value)) == head + ['='] + if value == "" then "" else after + value
  {
    TrimShortens(value);
    if value == "" {
      var t := head + ['='];
      TrimBehind(t, after);
      assert t + after == t + (after + value) && t + "" == t;
    }
  }

  /** Reading back a flags file that spells out pairs gives these pairs, whatever the layout. */
  lemma {:induction false} FlagsRoundTrip(pairs: seq<Pair>, layouts: seq<Layout>, spell: string -> string,
                                          unquote: string -> Option<string>)
    requires AllFlagsSpelled(pairs, layouts, spell, unquote)
    ensures FlagPairs(RenderFlags(pairs, layouts, spell), unquote) == pairs
  {
    if pairs != [] {
      var n := |pairs| - 1;
      assert pairs == pairs[..n] + [pairs[n]];
      assert RenderFlags(pairs, layouts, spell)[..n] == RenderFlags(pairs[..n], layouts[..n], spell);
      FlagsRoundTrip(pairs[..n], layouts[..n], spell, unquote);
      FlagLineReadsBack(pairs[n], layouts[n], spell, unquote);
    }
  }

  /** A blank line says nothing, nor does a comment or a line without a key. */
  lemma BlankLine(indent: string, unquote: string -> Option<string>)
    requires AllSpace(indent)
    ensures LinePairs(indent, unquote) == []
  {
    TrimInFront(indent, "");
    assert indent + "" == indent;
  }

  lemma SkippedLine(indent: string, line: string, unquote: string -> Option<string>)
    requires AllSpace(indent) && line != "" && line[0] in {'#', '='}
    ensures LinePairs(indent + line, unquote) == []
  {
    TrimInFront(indent, line);
    TrimKeepsFirst(line);
  }

  lemma {:induction false} TrimPadded(a: string, s: string, b: string)
    requires AllSpace(a) && AllSpace(b)
    ensures TrimSpace(a + s + b) == TrimSpace(s)
    decreases |a| + |b|
  {
    var t := a + s + b;
    if a != "" {
      assert t[1..] == a[1..] + s + b && t[0] == a[0];
      TrimPadded(a[1..], s, b);
    } else if b != "" {
      var n := |b| - 1;
      assert t[..|t| - 1] == a + s + b[..n] && t[|t| - 1] == b[n];
      TrimPadded(a, s, b[..n]);
      TrimEnd(t);
    } else {
      assert t == s;
    }
  }

  lemma TrimInFront(a: string, s: string)
    requires AllSpace(a)
    ensures TrimSpace(a + s) == TrimSpace(s)
  {
    TrimPadded(a, s, "");
    assert a + s + "" == a + s;
  }

  lemma TrimBehind(s: string, b: string)
    requires AllSpace(b)
    ensures TrimSpace(s + b) == TrimSpace(s)
  {
    TrimPadded("", s, b);
    assert "" + s + b == s + b;
  }

  /** A space at the end makes no difference. */
  lemma {:induction false} TrimEnd(t: string)
    requires t != "" && IsSpace(t[|t| - 1])
    ensures TrimSpace(t) == TrimSpace(t[..|t| - 1])
    decreases |t|
  {
    if IsSpace(t[0]) && |t| > 1 {
      TrimEnd(t[1..]);
      assert t[1..][..|t| - 2] == t[..|t| - 1][1..];
    }
  }

  lemma {:induction false} TrimKeepsFirst(s: string)
    requires s != "" && !IsSpace(s[0])
    ensures TrimSpace(s) != "" && TrimSpace(s)[0] == s[0]
    decreases |s|
  {
    if IsSpace(s[|s| - 1]) {
      TrimKeepsFirst(s[..|s| - 1]);
    }
  }

  lemma {:induction false} TrimShortens(s: string)
    ensures |TrimSpace(s)| <= |s|
    ensures TrimSpace(s) == s && s != "" ==> !IsSpace(s[0]) && !IsSpace(s[|s| - 1])
    decreases |s|
  {
    if s != "" {
      if IsSpace(s[0]) {
        TrimShortens(s[1..]);
      } else if IsSpace(s[|s| - 1]) {
        TrimShortens(s[..|s| - 1]);
      }
    }
  }

  /** Both readers build the same tree from the same pairs. */
  lemma ReadersAgree(pairs: seq<Pair>, hows: seq<Spelling>, layouts: seq<Layout>, spell: string -> string,
                     unquote: string -> Option<string>)
    requires AllSpelled(pairs, hows) && AllFlagsSpelled(pairs, layouts, spell, unquote)
    ensures Fold(PairsOf(Tokens(Join(RenderAll(pairs, hows), ' ')))) ==
            Fold(FlagPairs(RenderFlags(pairs, layouts, spell), unquote))
  {
    CmdlineRoundTrip(pairs, hows);
    FlagsRoundTrip(pairs, layouts, spell, unquote);
  }

  /** For every command line: the parsed tree has exactly one leaf per key, holding all its values in
      order, if and only if no key is a proper prefix of another. */
  lemma ParsedExactlyWhenPrefixFree(raw: string)
    ensures Faithful(PairsOf(Tokens(raw)), Fold(PairsOf(Tokens(raw)))) <==> PrefixFree(PairsOf(Tokens(raw)))
  {
    FaithfulIffPrefixFree(PairsOf(Tokens(raw)));
  }

  /** And for every flags file. */
  lemma FlagsExactlyWhenPrefixFree(lines: seq<string>, unquote: string -> Option<string>)
    ensures var pairs := FlagPairs(lines, unquote); Faithful(pairs, Fold(pairs)) <==> PrefixFree(pairs)
  {
    FlagKeysNonEmpty(lines, unquote);
    FaithfulIffPrefixFree(FlagPairs(lines, unquote));
  }

  lemma {:induction false} FlagKeysNonEmpty(lines: seq<string>, unquote: string -> Option<string>)
    ensures NonEmptyKeys(FlagPairs(lines, unquote))
  {
    if lines != [] {
      FlagKeysNonEmpty(lines[..|lines| - 1], unquote);
    }
  }
}
