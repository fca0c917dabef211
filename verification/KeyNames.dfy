/** Spelling of configuration keys: camelToSnake (internal/config/helpers.go) and matchName
    (internal/config/decode.go). */
module KeyNames {
  import opened Text

  predicate IsUpper(c: char)
  {
    'A' <= c <= 'Z'
  }

  predicate IsLower(c: char)
  {
    'a' <= c <= 'z'
  }

  function Lower(c: char): char
  {
    if IsUpper(c) then (c as int + 32) as char else c
  }

  function ToLower(s: string): string
  {
    seq(|s|, i requires 0 <= i < |s| => Lower(s[i]))
  }

  /** A word starts at `i`: an upper-case letter after a lower-case one or a digit, or the last
      upper-case letter of a run that a lower-case letter follows. */
  predicate WordStart(s: string, i: nat)
    requires i < |s|
  {
    && 0 < i && IsUpper(s[i])
    && (IsLower(s[i - 1]) || IsDigit(s[i - 1]) || (IsUpper(s[i - 1]) && i + 1 < |s| && IsLower(s[i + 1])))
  }

  function SnakeUpTo(s: string, n: nat): string
    requires n <= |s|
  {
    if n == 0 then ""
    else SnakeUpTo(s, n - 1) + (if WordStart(s, n - 1) then "_" else "") + [Lower(s[n - 1])]
  }

  function Snake(s: string): string
  {
    SnakeUpTo(s, |s|)
  }

  /** The key under which normalizeData stores an entry. */
  function Norm(key: string): string
  {
    ToLower(Snake(key))
  }

  method CamelToSnake(s: string) returns (result: string)
    ensures result == Snake(s)
  {
    if s == "" {
      return "";
    }
    result := "";
    for i := 0 to |s|
      invariant result == SnakeUpTo(s, i)
    {
      if i > 0 && IsUpper(s[i]) {
        var prev := s[i - 1];
        if IsLower(prev) || IsDigit(prev) {
          result := result + "_";
        } else if IsUpper(prev) && i + 1 < |s| && IsLower(s[i + 1]) {
          result := result + "_";
        }
      }
      result := result + [Lower(s[i])];
    }
  }

  const CAPITALS := "ABCDEFGHIJKLMNOPQRSTUVWXYZ"
  const SMALL := "abcdefghijklmnopqrstuvwxyz"

  /** The letters and digits of ASCII. */
  lemma Ascii(c: char)
    ensures (IsUpper(c) <==> c in CAPITALS) && (IsLower(c) <==> c in SMALL) && (IsDigit(c) <==> c in "0123456789")
  {
  }

  lemma LowerAscii(i: nat)
    requires i < 26
    ensures Lower(CAPITALS[i]) == SMALL[i]
  {
  }

  // Where the underscores are, wherever a key is cut in two.

  /** The last letter of `a` is a capital that a small letter in front of `b` makes the first of a word. */
  predicate CutsWord(a: string, b: string)
  {
    && |a| >= 2 && IsUpper(a[|a| - 1]) && IsUpper(a[|a| - 2])
    && b != "" && IsLower(b[0])
  }

  lemma {:induction false} SnakeOfFirst(a: string, b: string, n: nat)
    requires n <= |a| && !CutsWord(a, b)
    ensures SnakeUpTo(a + b, n) == SnakeUpTo(a, n)
  {
    if n > 0 {
      SnakeOfFirst(a, b, n - 1);
      assert WordStart(a + b, n - 1) == WordStart(a, n - 1);
    }
  }

  lemma {:induction false} SnakeOfSecond(a: string, b: string, n: nat)
    requires a != "" && 0 < n <= |b|
    ensures SnakeUpTo(a + b, |a| + n) ==
            SnakeUpTo(a + b, |a|) + (if WordStart(a + b, |a|) then "_" else "") + SnakeUpTo(b, n)
  {
    assert SnakeUpTo(b, 0) == "";
    if n > 1 {
      SnakeOfSecond(a, b, n - 1);
      assert WordStart(a + b, |a| + n - 1) == WordStart(b, n - 1);
    }
  }

  lemma SnakeOfBoth(a: string, b: string)
    requires a != "" && b != "" && !CutsWord(a, b)
    ensures Snake(a + b) == Snake(a) + (if WordStart(a + b, |a|) then "_" else "") + Snake(b)
  {
    SnakeOfFirst(a, b, |a|);
    SnakeOfSecond(a, b, |b|);
  }

  /** An underscore before a capital that follows a small letter or a digit. */
  lemma BreakAfterSmall(a: string, b: string)
    requires a != "" && (IsLower(a[|a| - 1]) || IsDigit(a[|a| - 1])) && b != "" && IsUpper(b[0])
    ensures Snake(a + b) == Snake(a) + "_" + Snake(b)
  {
    SnakeOfBoth(a, b);
  }

  /** And before the last capital of several when a small letter follows. */
  lemma BreakAfterCapitals(a: string, b: string)
    requires a != "" && IsUpper(a[|a| - 1]) && |b| >= 2 && IsUpper(b[0]) && IsLower(b[1])
    ensures Snake(a + b) == Snake(a) + "_" + Snake(b)
  {
    SnakeOfBoth(a, b);
  }

  /** And nowhere else. */
  lemma NoOtherBreak(a: string, b: string)
    requires a != "" && b != "" && !CutsWord(a, b)
    requires IsUpper(b[0]) ==>
               && !IsLower(a[|a| - 1]) && !IsDigit(a[|a| - 1])
               && (IsUpper(a[|a| - 1]) ==> |b| == 1 || !IsLower(b[1]))
    ensures Snake(a + b) == Snake(a) + Snake(b)
  {
    SnakeOfBoth(a, b);
    assert Snake(a) + "" == Snake(a);
  }

  lemma {:induction false} OnlyCapitals(a: string)
    requires forall c <- a :: IsUpper(c)
    ensures Snake(a) == ToLower(a)
  {
    if |a| > 1 {
      var n := |a| - 1;
      assert a == a[..n] + [a[n]] && a[n] in a && a[n - 1] in a;
      OnlyCapitals(a[..n]);
      NoOtherBreak(a[..n], [a[n]]);
      assert SnakeUpTo([a[n]], 0) == "";
    } else if |a| == 1 {
      assert SnakeUpTo(a, 0) == "";
    }
  }

  /** An acronym in front of a word. */
  lemma AcronymBreaks(a: string, b: string)
    requires a != "" && (forall c <- a :: IsUpper(c)) && |b| >= 2 && IsUpper(b[0]) && IsLower(b[1])
    ensures Snake(a + b) == ToLower(a) + "_" + Snake(b)
  {
    assert a[|a| - 1] in a;
    BreakAfterCapitals(a, b);
    OnlyCapitals(a);
  }

  // Names of the configuration's fields.

  lemma AcronymInFront()
    ensures Snake("DNSNameservers") == "dns_nameservers"
  {
    CapitalizedWord("Nameservers");
    AcronymBreaks("DNS", "Nameservers");
    assert "DNS" + "Nameservers" == "DNSNameservers";
    assert ToLower("DNS") == "dns" && ToLower("Nameservers") == "nameservers";
    assert "dns" + "_" + "nameservers" == "dns_nameservers";
  }

  lemma AcronymBehind()
    ensures Snake("isoURL") == "iso_url"
  {
    SnakeKeepsLower("iso", 3);
    OnlyCapitals("URL");
    BreakAfterSmall("iso", "URL");
    assert "iso" + "URL" == "isoURL" && ToLower("URL") == "url" && "iso"[..3] == "iso";
    assert "iso" + "_" + "url" == "iso_url";
  }

  lemma CapitalizedWord(w: string)
    requires |w| >= 2 && IsUpper(w[0]) && forall c <- w[1..] :: IsLower(c)
    ensures Snake(w) == ToLower(w)
  {
    var a, b := [w[0]], w[1..];
    assert a + b == w && b[0] in b;
    NoOtherBreak(a, b);
    OnlyCapitals(a);
    OnlySmall(b);
    LowerBoth(a, b);
  }

  lemma OnlySmall(w: string)
    requires forall c <- w :: IsLower(c)
    ensures Snake(w) == w == ToLower(w)
  {
    SnakeKeepsLower(w, |w|);
    assert w[..|w|] == w;
    assert forall i :: 0 <= i < |w| ==> w[i] in w;
  }

  lemma LowerBoth(a: string, b: string)
    ensures ToLower(a + b) == ToLower(a) + ToLower(b)
  {
  }

  predicate NoUpper(s: string)
  {
    forall c <- s :: !IsUpper(c)
  }

  lemma {:induction false} SnakeHasNoUpper(s: string, n: nat)
    requires n <= |s|
    ensures NoUpper(SnakeUpTo(s, n))
  {
    if n > 0 {
      SnakeHasNoUpper(s, n - 1);
    }
  }

  lemma {:induction false} SnakeKeepsLower(s: string, n: nat)
    requires n <= |s| && NoUpper(s)
    ensures SnakeUpTo(s, n) == s[..n]
  {
    if n > 0 {
      SnakeKeepsLower(s, n - 1);
      assert s[n - 1] in s;
    }
  }

  /** A key is left alone exactly when it has no upper-case letter. */
  lemma NormFixesExactlyLower(s: string)
    ensures Norm(s) == s <==> NoUpper(s)
    ensures Norm(s) == Snake(s)
  {
    SnakeHasNoUpper(s, |s|);
    assert forall i | 0 <= i < |Snake(s)| :: Snake(s)[i] in Snake(s);
    assert ToLower(Snake(s)) == Snake(s);
    if NoUpper(s) {
      SnakeKeepsLower(s, |s|);
      assert s[..|s|] == s;
    }
  }

  lemma NormTwice(s: string)
    ensures Norm(Norm(s)) == Norm(s)
  {
    NormFixesExactlyLower(s);
    SnakeHasNoUpper(s, |s|);
    NormFixesExactlyLower(Norm(s));
  }

  /** strings.ReplaceAll(s, "_", ""). */
  function Squeeze(s: string): string
  {
    if s == "" then "" else Squeeze(s[..|s| - 1]) + if s[|s| - 1] == '_' then "" else [s[|s| - 1]]
  }

  lemma SqueezeSnoc(s: string, c: char)
    ensures c == '_' ==> Squeeze(s + [c]) == Squeeze(s)
    ensures c != '_' ==> Squeeze(s + [c]) == Squeeze(s) + [c]
  {
    assert (s + [c])[..|s|] == s;
  }

  lemma SqueezeSame(a: string, b: string, c: char, mark: string)
    requires Squeeze(a) == Squeeze(b) && mark in {"", "_"}
    ensures Squeeze(a + mark + [c]) == Squeeze(b + [c])
  {
    SqueezeSnoc(b, c);
    SqueezeSnoc(a + mark, c);
    assert Squeeze(a + mark) == Squeeze(a) by {
      if mark == "" {
        assert a + mark == a;
      } else {
        SqueezeSnoc(a, '_');
      }
    }
  }

  lemma SqueezeSuffixed(s: string)
    ensures Squeeze(s + "s") == Squeeze(s) + "s"
    ensures Squeeze(s + "es") == Squeeze(s) + "es"
  {
    SqueezeSnoc(s, 's');
    SqueezeSnoc(s, 'e');
    SqueezeSnoc(s + "e", 's');
    assert s + "es" == s + "e" + "s" && Squeeze(s) + "es" == Squeeze(s) + "e" + "s";
  }

  lemma SqueezedNorm(key: string)
    ensures Squeeze(Norm(key)) == Squeeze(ToLower(key))
  {
    NormFixesExactlyLower(key);
    SnakeKeepsLetters(key, |key|);
    assert key[..|key|] == key;
  }

  /** Apart from underscores, the letters stay as they are, in order. */
  lemma {:induction false} SnakeKeepsLetters(s: string, n: nat)
    requires n <= |s|
    ensures Squeeze(SnakeUpTo(s, n)) == Squeeze(ToLower(s[..n]))
  {
    if n > 0 {
      SnakeKeepsLetters(s, n - 1);
      var before, c := SnakeUpTo(s, n - 1), Lower(s[n - 1]);
      assert ToLower(s[..n]) == ToLower(s[..n - 1]) + [c];
      SqueezeSame(before, ToLower(s[..n - 1]), c, if WordStart(s, n - 1) then "_" else "");
    }
  }

  /** matchName: does a key of a map name a field of a struct? */
  predicate Matches(key: string, field: string)
  {
    var k, f := Norm(key), Norm(field);
    var k1, f1 := Squeeze(k), Squeeze(f);
    || k == f
    || k + "s" == f
    || k + "es" == f
    || (k in {"pass", "password"} && f in {"passphrase", "passphrases"})
    || k1 == f1
    || k1 + "s" == f1
    || k1 + "es" == f1
  }

  /** The letters and digits of a key, all small. */
  function Bare(s: string): string
  {
    Squeeze(ToLower(s))
  }

  /** All the rules together: but for the two aliases, a key matches the fields with the same letters, or with those
      and a plural ending. */
  lemma MatchesIff(key: string, field: string)
    ensures Matches(key, field) <==>
            || Bare(field) in {Bare(key), Bare(key) + "s", Bare(key) + "es"}
            || (Norm(key) in {"pass", "password"} && Norm(field) in {"passphrase", "passphrases"})
  {
    SqueezedNorm(key);
    SqueezedNorm(field);
    SqueezeSuffixed(Norm(key));
  }

  /** Normalising keys never changes which fields they match. */
  lemma MatchesAfterNorm(key: string, field: string)
    ensures Matches(Norm(key), field) <==> Matches(key, field)
    ensures Matches(key, Norm(field)) <==> Matches(key, field)
  {
    NormTwice(key);
    NormTwice(field);
  }

  /** Keys that differ only in case and underscores match the same fields, but for the two aliases. */
  lemma SpellingHardlyMatters(key: string, other: string, field: string)
    requires Squeeze(ToLower(key)) == Squeeze(ToLower(other))
    requires Matches(key, field) && !Matches(other, field)
    ensures Norm(key) in {"pass", "password"} && Norm(field) in {"passphrase", "passphrases"}
  {
    SqueezedNorm(key);
    SqueezedNorm(other);
    SqueezeSuffixed(Norm(key));
  }
}
