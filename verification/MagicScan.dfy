/** Looking for the image appended to a binary: inFile (internal/enterchroot/enter.go), which reads the file in
    chunks and compares byte by byte with a marker. */
module MagicScan {
  import opened FileTree
  import opened KeyNames

  newtype byte = x: int | 0 <= x < 256

  const MAGIC := "_SQMAGIC_"

  function Bytes(s: string): seq<byte>
    requires forall c <- s :: c as int < 256
  {
    seq(|s|, i requires 0 <= i < |s| => assert s[i] in s; s[i] as int as byte)
  }

  function Flatten(chunks: seq<seq<byte>>): seq<byte>
  {
    if chunks == [] then [] else Flatten(chunks[..|chunks| - 1]) + chunks[|chunks| - 1]
  }

  // What the scan looks at: one attempt after another.

  /** How many bytes of `test` stand at `s`, at least `k`. */
  function Agreeing(data: seq<byte>, test: seq<byte>, s: nat, k: nat): (n: nat)
    requires s + k <= |data| && k <= |test|
    ensures k <= n <= |test| && s + n <= |data|
    decreases |test| - k
  {
    if k < |test| && s + k < |data| && data[s + k] == test[k] then Agreeing(data, test, s, k + 1) else k
  }

  /** The end of the marker, as the attempts from `s` on find it. An attempt that fails costs the byte at which
      it fails: the next one starts behind that byte. */
  function Find(data: seq<byte>, test: seq<byte>, s: nat): Option<nat>
    requires s <= |data|
    decreases |data| - s
  {
    var n := Agreeing(data, test, s, 0);
    if n == |test| then Some(s + n)
    else if s + n == |data| then None
    else Find(data, test, s + n + 1)
  }

  /** The first `n` bytes of `test` stand at `s`. */
  predicate Stands(data: seq<byte>, test: seq<byte>, s: nat, n: nat)
  {
    n <= |test| && s + n <= |data| && forall i :: 0 <= i < n ==> data[s + i] == test[i]
  }

  predicate StandsAt(data: seq<byte>, test: seq<byte>, s: nat)
  {
    Stands(data, test, s, |test|)
  }

  /** Agreeing is the length of the longest common prefix. */
  lemma {:induction false} AgreeingIs(data: seq<byte>, test: seq<byte>, s: nat, k: nat, n: nat)
    requires k <= n <= |test| && Stands(data, test, s, n)
    requires n == |test| || s + n == |data| || data[s + n] != test[n]
    ensures Agreeing(data, test, s, k) == n
    decreases n - k
  {
    if k < n {
      AgreeingIs(data, test, s, k + 1, n);
    }
  }

  lemma {:induction false} AgreeingStands(data: seq<byte>, test: seq<byte>, s: nat, k: nat)
    requires s + k <= |data| && k <= |test| && Stands(data, test, s, k)
    ensures var n := Agreeing(data, test, s, k);
            Stands(data, test, s, n) && (n == |test| || s + n == |data| || data[s + n] != test[n])
    decreases |test| - k
  {
    if k < |test| && s + k < |data| && data[s + k] == test[k] {
      AgreeingStands(data, test, s, k + 1);
    }
  }

  lemma {:induction false} FindFrom(data: seq<byte>, test: seq<byte>, s: nat, n: nat)
    requires n <= |test| && Stands(data, test, s, n)
    requires n == |test| || s + n == |data| || data[s + n] != test[n]
    ensures Find(data, test, s) ==
            if n == |test| then Some(s + n) else if s + n == |data| then None else Find(data, test, s + n + 1)
  {
    AgreeingIs(data, test, s, 0, n);
  }

  // The code.

  datatype Answer = At(offset: nat) | NoImage | ReadError

  /** `found` bytes of the marker have been seen just before `offset`, and what is left is the scan from there. */
  ghost predicate OnTrack(data: seq<byte>, test: seq<byte>, offset: nat, found: nat)
  {
    && found < |test| && found <= offset <= |data|
    && Stands(data, test, offset - found, found)
    && Find(data, test, 0) == Find(data, test, offset - found)
  }

  lemma OneByte(data: seq<byte>, test: seq<byte>, offset: nat, found: nat)
    requires OnTrack(data, test, offset, found) && offset < |data|
    ensures data[offset] != test[found] ==> OnTrack(data, test, offset + 1, 0)
    ensures data[offset] == test[found] && found + 1 < |test| ==> OnTrack(data, test, offset + 1, found + 1)
    ensures data[offset] == test[found] && found + 1 == |test| ==> Find(data, test, 0) == Some(offset + 1)
  {
    var s := offset - found;
    if data[offset] == test[found] {
      if found + 1 == |test| {
        FindFrom(data, test, s, found + 1);
      }
    } else {
      FindFrom(data, test, s, found);
    }
  }

  /** inFile. `chunks` is what the reads return until the end of the file or, if `failed`, an error. How the bytes
      are cut into reads makes no difference. */
  method InFile(chunks: seq<seq<byte>>, failed: bool, test: seq<byte>) returns (answer: Answer)
    requires test != []
    ensures answer == match Find(Flatten(chunks), test, 0)
                      case Some(end) => At(end)
                      case None => if failed then ReadError else NoImage
  {
    var offset, found := 0, 0;
    ghost var data := Flatten(chunks);
    for c := 0 to |chunks|
      invariant offset == |Flatten(chunks[..c])| && OnTrack(data, test, offset, found)
    {
      var buf := chunks[c];
      PrefixOfFlatten(chunks, c);
      for i := 0 to |buf|
        invariant offset == |Flatten(chunks[..c])| + i && OnTrack(data, test, offset, found)
      {
        var b := buf[i];
        assert b == data[offset];
        OneByte(data, test, offset, found);
        if b == test[found] {
          found := found + 1;
          if found == |test| {
            return At(offset + 1);
          }
        } else {
          found := 0;
        }
        offset := offset + 1;
      }
    }
    assert chunks[..|chunks|] == chunks;
    FindFrom(data, test, offset - found, found);
    answer := if failed then ReadError else NoImage;
  }

  lemma {:induction false} PrefixOfFlatten(chunks: seq<seq<byte>>, c: nat)
    requires c < |chunks|
    ensures Flatten(chunks[..c + 1]) == Flatten(chunks[..c]) + chunks[c] && Flatten(chunks[..c + 1]) <= Flatten(chunks)
    decreases |chunks|
  {
    assert chunks[..c + 1][..c] == chunks[..c];
    var n := |chunks| - 1;
    if c < n {
      PrefixOfFlatten(chunks[..n], c);
      assert chunks[..n][..c + 1] == chunks[..c + 1] && chunks[..n][..c] == chunks[..c];
    } else {
      assert chunks[..c + 1] == chunks;
    }
  }

  // What it finds.

  /** What it finds is the marker. */
  lemma {:induction false} FoundIsMarker(data: seq<byte>, test: seq<byte>, s: nat)
    requires s <= |data| && Find(data, test, s).Some?
    ensures var end := Find(data, test, s).value; s + |test| <= end && StandsAt(data, test, end - |test|)
    decreases |data| - s
  {
    AgreeingStands(data, test, s, 0);
    var n := Agreeing(data, test, s, 0);
    if n < |test| {
      FoundIsMarker(data, test, s + n + 1);
    }
  }

  /** A proper prefix of the marker, not empty, ends at `p`. */
  predicate PrefixEnds(data: seq<byte>, test: seq<byte>, p: nat, j: nat)
  {
    1 <= j < |test| && j <= p && Stands(data, test, p - j, j)
  }

  /** How many proper prefixes of the marker stand back to back in front of `p`. */
  ghost function Chain(data: seq<byte>, test: seq<byte>, p: nat): nat
  {
    if exists j: nat :: PrefixEnds(data, test, p, j) then
      var j: nat :| PrefixEnds(data, test, p, j);
      1 + Chain(data, test, p - j)
    else 0
  }

  /** The first byte of the marker comes again at most as its last byte. */
  predicate FirstIsRare(test: seq<byte>)
  {
    forall i :: 1 <= i < |test| - 1 ==> test[i] != test[0]
  }

  lemma PrefixByte(data: seq<byte>, test: seq<byte>, p: nat, j: nat, i: nat)
    requires PrefixEnds(data, test, p, j) && i < j
    ensures data[p - j + i] == test[i]
  {
    assert test[i] == data[p - j + i];
  }

  lemma OnePrefix(data: seq<byte>, test: seq<byte>, p: nat, j: nat, k: nat)
    requires FirstIsRare(test) && PrefixEnds(data, test, p, j) && PrefixEnds(data, test, p, k)
    ensures k <= j
  {
    if j < k {
      PrefixByte(data, test, p, j, 0);
      PrefixByte(data, test, p, k, k - j);
    }
  }

  /** At most one prefix ends at a place, so the chain can be walked one link at a time. */
  lemma ChainLink(data: seq<byte>, test: seq<byte>, p: nat, j: nat)
    requires FirstIsRare(test) && PrefixEnds(data, test, p, j)
    ensures Chain(data, test, p) == 1 + Chain(data, test, p - j)
  {
    forall k: nat | PrefixEnds(data, test, p, k)
      ensures k == j
    {
      OnePrefix(data, test, p, j, k);
      OnePrefix(data, test, p, k, j);
    }
  }

  predicate Even(n: nat)
  {
    n % 2 == 0
  }

  /** A prefix that ends just behind a failed attempt starts at its last byte, or before the attempt. */
  lemma PrefixStart(data: seq<byte>, test: seq<byte>, s: nat, n: nat, j: nat)
    requires FirstIsRare(test) && n < |test| && s + n < |data|
    requires Stands(data, test, s, n) && data[s + n] != test[n] && PrefixEnds(data, test, s + n + 1, j)
    ensures j == 1 || j > n + 1
  {
    if j == n + 1 {
      PrefixByte(data, test, s + n + 1, j, n);
    } else if 1 < j <= n {
      PrefixByte(data, test, s + n + 1, j, 0);
      PartByte(data, test, s, n, n + 1 - j);
    }
  }

  lemma PartByte(data: seq<byte>, test: seq<byte>, s: nat, n: nat, i: nat)
    requires Stands(data, test, s, n) && i < n
    ensures data[s + i] == test[i]
  {
    assert test[i] == data[s + i];
  }

  /** An attempt that starts behind an even chain and fails leaves the next one behind an even chain. */
  lemma NextStartIsEven(data: seq<byte>, test: seq<byte>, s: nat, n: nat)
    requires FirstIsRare(test) && n < |test| && s + n < |data|
    requires Stands(data, test, s, n) && data[s + n] != test[n] && Even(Chain(data, test, s))
    ensures Even(Chain(data, test, s + n + 1))
  {
    var t := s + n + 1;
    if j: nat :| PrefixEnds(data, test, t, j) {
      ChainLink(data, test, t, j);
      PrefixStart(data, test, s, n, j);
      PrefixByte(data, test, t, j, 0);
      var u := t - j;
      if u == s + n {
        PrefixEndsInside(data, test, s, n, n);
      } else {
        ChainLink(data, test, s, s - u);
      }
    }
  }

  /** Inside a partial match, every place is behind one more link. */
  lemma PrefixEndsInside(data: seq<byte>, test: seq<byte>, s: nat, n: nat, k: nat)
    requires FirstIsRare(test) && 1 <= k <= n < |test| && Stands(data, test, s, n)
    ensures Chain(data, test, s + k) == 1 + Chain(data, test, s)
  {
    ChainLink(data, test, s + k, k);
  }

  /** An occurrence that the scan can see. */
  ghost predicate Seen(data: seq<byte>, test: seq<byte>, p: nat)
  {
    StandsAt(data, test, p) && Even(Chain(data, test, p))
  }

  /** `found` is the end of the first occurrence from `s` on that can be seen. */
  ghost predicate FirstSeen(data: seq<byte>, test: seq<byte>, s: nat, found: Option<nat>)
  {
    match found
    case Some(end) => s + |test| <= end && Seen(data, test, end - |test|) && NoneSeen(data, test, s, end - |test|)
    case None => NoneSeen(data, test, s, |data| + 1)
  }

  ghost predicate NoneSeen(data: seq<byte>, test: seq<byte>, from: nat, to: nat)
  {
    forall p | from <= p < to :: !Seen(data, test, p)
  }

  /** A failed attempt has passed over nothing that could be seen. */
  lemma FailedAttempt(data: seq<byte>, test: seq<byte>, s: nat, n: nat)
    requires FirstIsRare(test) && n < |test| && Stands(data, test, s, n) && Even(Chain(data, test, s))
    requires s + n == |data| || data[s + n] != test[n]
    ensures NoneSeen(data, test, s, s + n + 1)
  {
    forall p | s <= p < s + n + 1
      ensures !Seen(data, test, p)
    {
      if p > s {
        PrefixEndsInside(data, test, s, n, p - s);
      }
    }
  }

  /** From behind an even chain, the scan stops at the first occurrence behind an even chain. */
  lemma {:induction false} FindIsFirstSeen(data: seq<byte>, test: seq<byte>, s: nat)
    requires test != [] && FirstIsRare(test) && s <= |data| && Even(Chain(data, test, s))
    ensures FirstSeen(data, test, s, Find(data, test, s))
    decreases |data| - s
  {
    AgreeingStands(data, test, s, 0);
    var n := Agreeing(data, test, s, 0);
    if n == |test| {
    } else {
      FailedAttempt(data, test, s, n);
      if s + n < |data| {
        NextStartIsEven(data, test, s, n);
        FindIsFirstSeen(data, test, s + n + 1);
      }
    }
  }

  // The marker of the repository.

  function Marker(): seq<byte>
  {
    Bytes(ToLower(MAGIC))
  }

  lemma MarkerIs()
    ensures ToLower(MAGIC) == "_sqmagic_"
    ensures |Marker()| == 9 && FirstIsRare(Marker())
  {
  }

  /** For every file: the scan succeeds exactly when some occurrence of the marker stands behind an even number
      of back-to-back proper prefixes of it, and it returns the end of the first of these. */
  lemma ScanFindsExactlyTheSeen(data: seq<byte>)
    ensures FirstSeen(data, Marker(), 0, Find(data, Marker(), 0))
    ensures Find(data, Marker(), 0).Some? <==> exists p :: Seen(data, Marker(), p)
  {
    MarkerIs();
    NoPrefixEndsAtZero(data, Marker());
    FindIsFirstSeen(data, Marker(), 0);
  }

  lemma NoPrefixEndsAtZero(data: seq<byte>, test: seq<byte>)
    ensures Chain(data, test, 0) == 0
  {
  }

  /** In particular a first occurrence in front of which no proper prefix ends is found. */
  lemma CleanOccurrenceIsFound(data: seq<byte>, p: nat)
    requires StandsAt(data, Marker(), p) && forall q: nat | q < p :: !StandsAt(data, Marker(), q)
    requires forall j: nat :: !PrefixEnds(data, Marker(), p, j)
    ensures Find(data, Marker(), 0) == Some(p + 9)
  {
    ScanFindsExactlyTheSeen(data);
    MarkerIs();
    assert Seen(data, Marker(), p);
  }

  /** One underscore in front of the only marker hides it. */
  lemma UnderscoreHidesMarker()
    ensures Find([Marker()[0]] + Marker(), Marker(), 0) == None
  {
    MarkerIs();
    var test := Marker();
    var data := [test[0]] + test;
    FindFrom(data, test, 0, 1);
    forall s | 2 <= s <= 10
      ensures Find(data, test, s) == None
    {
      if Find(data, test, s).Some? {
        FoundIsMarker(data, test, s);
      }
    }
  }
}
