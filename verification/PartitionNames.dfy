/** Names of disks and partitions: splitPartition (internal/boot/finalize/grow.go), stripPartitionNumber and
    extractPartitionNumber (internal/boot/modes/disk.go), isPartition (internal/devpopulate/devpopulate.go). */
module PartitionNames {
  import opened Text

  predicate AllDigits(s: string)
  {
    forall c <- s :: IsDigit(c)
  }

  predicate EndsInDigit(s: string)
  {
    s != "" && IsDigit(s[|s| - 1])
  }

  /** A digit and then 'p'. */
  predicate EndsInDigitP(s: string)
  {
    |s| >= 2 && s[|s| - 1] == 'p' && IsDigit(s[|s| - 2])
  }

  /** Where the digits at the end of `s` start. */
  function Digits(s: string): (t: nat)
    ensures t <= |s| && AllDigits(s[t..]) && !EndsInDigit(s[..t])
  {
    if EndsInDigit(s) then
      var t := Digits(s[..|s| - 1]);
      assert s[..t] == s[..|s| - 1][..t] && s[t..] == s[..|s| - 1][t..] + [s[|s| - 1]];
      t
    else
      assert s[..|s|] == s;
      |s|
  }

  /** A disk and a partition number. */
  datatype Parts = Parts(disk: string, num: string)

  function Unmarked(s: string): string
  {
    if EndsInDigitP(s) then s[..|s| - 1] else s
  }

  function PartsOf(s: string): Parts
  {
    Parts(Unmarked(s[..Digits(s)]), s[Digits(s)..])
  }

  /** The kernel's rule: a 'p' keeps the number apart from a disk name that ends in a digit. */
  function Build(parts: Parts): string
  {
    parts.disk + (if EndsInDigit(parts.disk) then "p" else "") + parts.num
  }

  predicate DigitsFrom(s: string, t: nat)
  {
    t <= |s| && forall j :: t <= j < |s| ==> IsDigit(s[j])
  }

  lemma {:induction false} DigitsOfDigits(a: string, n: string)
    requires AllDigits(n) && !EndsInDigit(a)
    ensures Digits(a + n) == |a|
    decreases |n|
  {
    if n == "" {
      assert a + n == a;
    } else {
      assert n[|n| - 1] in n;
      assert (a + n)[..|a + n| - 1] == a + n[..|n| - 1];
      DigitsOfDigits(a, n[..|n| - 1]);
    }
  }

  lemma DigitsAre(s: string, t: nat)
    requires DigitsFrom(s, t) && !EndsInDigit(s[..t])
    ensures Digits(s) == t && (AllDigits(s) <==> t == 0)
  {
    DigitsOfDigits(s[..t], s[t..]);
    assert s == s[..t] + s[t..];
    if t > 0 {
      assert s[t - 1] in s;
    }
  }

  method SplitPartition(part: string) returns (dev: string, num: string)
    ensures Parts(dev, num) == PartsOf(part)
  {
    var i := |part| - 1;
    while i >= 0 && '0' <= part[i] <= '9'
      invariant -1 <= i < |part| && DigitsFrom(part, i + 1)
    {
      i := i - 1;
    }
    DigitsAre(part, i + 1);
    num, dev := part[i + 1..], part[..i + 1];
    if |dev| > 0 && dev[|dev| - 1] == 'p' && i > 0 && '0' <= dev[i - 1] <= '9' {
      dev := dev[..|dev| - 1];
    }
  }

  /** stripPartitionNumber gives up on a name of digits only, and then takes nothing off. */
  method StripPartitionNumber(device: string) returns (disk: string)
    ensures disk == if AllDigits(device) then device else PartsOf(device).disk
  {
    for i := |device| downto 0
      invariant DigitsFrom(device, i)
    {
      if device[i] < '0' || device[i] > '9' {
        DigitsAre(device, i + 1);
        if device[i] == 'p' && i > 0 && device[i - 1] >= '0' && device[i - 1] <= '9' {
          assert device[..i + 1][..i] == device[..i];
          return device[..i];
        }
        return device[..i + 1];
      }
    }
    DigitsAre(device, 0);
    disk := device;
  }

  /** extractPartitionNumber finds no number then. */
  method ExtractPartitionNumber(device: string) returns (num: string)
    ensures num == if AllDigits(device) then "" else PartsOf(device).num
  {
    for i := |device| downto 0
      invariant DigitsFrom(device, i)
    {
      if device[i] < '0' || device[i] > '9' {
        DigitsAre(device, i + 1);
        return device[i + 1..];
      }
    }
    DigitsAre(device, 0);
    num := "";
  }

  /** What the other pair of functions makes of a name. */
  function StripAndExtract(s: string): Parts
  {
    if AllDigits(s) then Parts(s, "") else PartsOf(s)
  }

  /** The two implementations agree exactly on the names with a character that is no digit, and on "". */
  lemma TheyAgreeIff(s: string)
    ensures StripAndExtract(s) == PartsOf(s) <==> s == "" || !AllDigits(s)
  {
    if AllDigits(s) {
      DigitsOfDigits("", s);
      assert "" + s == s;
    }
  }

  /** Building from the parts of any name gives the name back. */
  lemma BuildSplit(s: string)
    ensures Build(PartsOf(s)) == s
  {
    var t := Digits(s);
    assert s == s[..t] + s[t..];
    if EndsInDigitP(s[..t]) {
      assert s[..t] == s[..t][..t - 1] + "p";
    }
  }

  /** Splitting a built name gives the parts back exactly when the disk does not end in a digit and a 'p'. */
  lemma SplitBuildIff(parts: Parts)
    requires AllDigits(parts.num)
    ensures PartsOf(Build(parts)) == parts <==> !EndsInDigitP(parts.disk)
  {
    var marked := parts.disk + if EndsInDigit(parts.disk) then "p" else "";
    DigitsOfDigits(marked, parts.num);
    assert Build(parts)[..|marked|] == marked && Build(parts)[|marked|..] == parts.num;
    if EndsInDigit(parts.disk) {
      assert marked[..|marked| - 1] == parts.disk;
    }
  }

  /** isPartition. */
  predicate IsPartition(parent: string, child: string)
  {
    && |child| > |parent|
    && child[..|parent|] == parent
    && (IsDigit(child[|parent|])
        || (child[|parent|] == 'p' && |child| > |parent| + 1 && IsDigit(child[|parent| + 1])))
  }

  /** Every partition that can be built on a disk is recognised. */
  lemma BuiltIsPartition(parts: Parts)
    requires AllDigits(parts.num) && parts.num != ""
    ensures IsPartition(parts.disk, Build(parts))
  {
    assert parts.num[0] in parts.num;
  }

  /** A name is recognised as a partition of the disk it is split into exactly when a number was split off. */
  lemma SplitIsPartitionIff(s: string)
    ensures IsPartition(PartsOf(s).disk, s) <==> PartsOf(s).num != ""
  {
    BuildSplit(s);
    if PartsOf(s).num != "" {
      BuiltIsPartition(PartsOf(s));
    }
  }

  /** The kernel's names for the first kinds of disks. */
  lemma NamesThatWork()
    ensures PartsOf("sda12") == Parts("sda", "12") && PartsOf("nvme0n1p2") == Parts("nvme0n1", "2")
  {
    assert Build(Parts("sda", "12")) == "sda12" && Build(Parts("nvme0n1", "2")) == "nvme0n1p2";
    SplitBuildIff(Parts("sda", "12"));
    SplitBuildIff(Parts("nvme0n1", "2"));
  }

  /** A disk whose name ends in a digit and a 'p' loses the 'p', and a name of digits only is split in two ways. */
  lemma NamesThatFail()
    ensures PartsOf(Build(Parts("md0p", "1"))) == Parts("md0", "1")
    ensures PartsOf("12") == Parts("", "12") && StripAndExtract("12") == Parts("12", "")
  {
    DigitsOfDigits("md0p", "1");
    assert Build(Parts("md0p", "1")) == "md0p" + "1";
    DigitsOfDigits("", "12");
    assert "" + "12" == "12";
  }
}
