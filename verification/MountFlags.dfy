/** Mount options: parseOptions and its table (internal/mount/flags.go, internal/mount/flags_linux.go). */
module MountFlags {
  import opened Text

  /** A word, as the set of the numbers of its bits: `a | b` is union and `a & ^b` is difference. */
  type Word = set<nat>

  /** What an option does. Unknown options, and those without a flag, are passed on as data. */
  datatype Effect = Sets(mask: Word) | Clears(mask: Word) | Passes

  const RDONLY_BIT: nat := 0
  const REC_BIT: nat := 14

  const RDONLY: Word := {RDONLY_BIT}
  const NOSUID: Word := {1}
  const NODEV: Word := {2}
  const NOEXEC: Word := {3}
  const SYNCHRONOUS: Word := {4}
  const REMOUNT: Word := {5}
  const MANDLOCK: Word := {6}
  const DIRSYNC: Word := {7}
  const NOATIME: Word := {10}
  const NODIRATIME: Word := {11}
  const BIND: Word := {12}
  const REC: Word := {REC_BIT}
  const UNBINDABLE: Word := {17}
  const PRIVATE: Word := {18}
  const SLAVE: Word := {19}
  const SHARED: Word := {20}
  const RELATIME: Word := {21}
  const STRICTATIME: Word := {24}

  function EffectOf(option: string): Effect
  {
    if option == "defaults" then Passes
    else if option == "ro" then Sets(RDONLY)
    else if option == "rw" then Clears(RDONLY)
    else if option == "suid" then Clears(NOSUID)
    else if option == "nosuid" then Sets(NOSUID)
    else if option == "dev" then Clears(NODEV)
    else if option == "nodev" then Sets(NODEV)
    else if option == "exec" then Clears(NOEXEC)
    else if option == "noexec" then Sets(NOEXEC)
    else if option == "sync" then Sets(SYNCHRONOUS)
    else if option == "async" then Clears(SYNCHRONOUS)
    else if option == "dirsync" then Sets(DIRSYNC)
    else if option == "remount" then Sets(REMOUNT)
    else if option == "mand" then Sets(MANDLOCK)
    else if option == "nomand" then Clears(MANDLOCK)
    else if option == "atime" then Clears(NOATIME)
    else if option == "noatime" then Sets(NOATIME)
    else if option == "diratime" then Clears(NODIRATIME)
    else if option == "nodiratime" then Sets(NODIRATIME)
    else if option == "bind" then Sets(BIND)
    else if option == "rbind" then Sets(BIND + REC)
    else if option == "unbindable" then Sets(UNBINDABLE)
    else if option == "runbindable" then Sets(UNBINDABLE + REC)
    else if option == "private" then Sets(PRIVATE)
    else if option == "rprivate" then Sets(PRIVATE + REC)
    else if option == "shared" then Sets(SHARED)
    else if option == "rshared" then Sets(SHARED + REC)
    else if option == "slave" then Sets(SLAVE)
    else if option == "rslave" then Sets(SLAVE + REC)
    else if option == "relatime" then Sets(RELATIME)
    else if option == "norelatime" then Clears(RELATIME)
    else if option == "strictatime" then Sets(STRICTATIME)
    else if option == "nostrictatime" then Clears(STRICTATIME)
    else Passes
  }

  function Apply(flag: Word, e: Effect): Word
  {
    match e
    case Sets(mask) => flag + mask
    case Clears(mask) => flag - mask
    case Passes => flag
  }

  function FlagOf(options: seq<string>, effect: string -> Effect): Word
  {
    if options == [] then {}
    else Apply(FlagOf(options[..|options| - 1], effect), effect(options[|options| - 1]))
  }

  function DataOf(options: seq<string>, effect: string -> Effect): seq<string>
  {
    if options == [] then []
    else
      var last := options[|options| - 1];
      DataOf(options[..|options| - 1], effect) + if effect(last).Passes? then [last] else []
  }

  lemma OneMoreOption(options: seq<string>, n: nat, effect: string -> Effect)
    requires n < |options|
    ensures FlagOf(options[..n + 1], effect) == Apply(FlagOf(options[..n], effect), effect(options[n]))
    ensures DataOf(options[..n + 1], effect) ==
            DataOf(options[..n], effect) + if effect(options[n]).Passes? then [options[n]] else []
  {
    assert options[..n + 1][..n] == options[..n];
  }

  /** parseOptions, for any table of effects. */
  method ParseOptions(options: string, effect: string -> Effect) returns (flag: Word, data: string)
    ensures flag == FlagOf(Split(options, ','), effect)
    ensures data == Join(DataOf(Split(options, ','), effect), ',')
  {
    flag := {};
    var rest: seq<string> := [];
    var list := Split(options, ',');
    for i := 0 to |list|
      invariant flag == FlagOf(list[..i], effect)
      invariant rest == DataOf(list[..i], effect)
    {
      OneMoreOption(list, i, effect);
      var f := effect(list[i]);
      if f.Passes? {
        rest := rest + [list[i]];
      } else if f.Clears? {
        flag := flag - f.mask;
      } else {
        flag := flag + f.mask;
      }
    }
    assert list[..|list|] == list;
    data := Join(rest, ',');
  }

  // What the result means.

  predicate Touches(e: Effect, bit: nat)
  {
    !e.Passes? && bit in e.mask
  }

  /** The last option that touches the bit sets it. */
  predicate LastSets(options: seq<string>, effect: string -> Effect, bit: nat)
  {
    exists i :: 0 <= i < |options| && Touches(effect(options[i]), bit) && effect(options[i]).Sets? &&
      forall j :: i < j < |options| ==> !Touches(effect(options[j]), bit)
  }

  /** Each bit, also of a mask with several, is set exactly when the last option that touches it sets it. */
  lemma {:induction false} BitIffLastSets(options: seq<string>, effect: string -> Effect, bit: nat)
    ensures bit in FlagOf(options, effect) <==> LastSets(options, effect, bit)
  {
    if options != [] {
      var n := |options| - 1;
      BitIffLastSets(options[..n], effect, bit);
      if Touches(effect(options[n]), bit) {
        assert LastSets(options, effect, bit) <==> effect(options[n]).Sets?;
      } else {
        LastSetsShorter(options, effect, bit);
      }
    }
  }

  lemma LastSetsShorter(options: seq<string>, effect: string -> Effect, bit: nat)
    requires options != [] && !Touches(effect(options[|options| - 1]), bit)
    ensures LastSets(options, effect, bit) <==> LastSets(options[..|options| - 1], effect, bit)
  {
    var n := |options| - 1;
    if i :| 0 <= i < n && Touches(effect(options[..n][i]), bit) && effect(options[..n][i]).Sets? &&
            forall j :: i < j < n ==> !Touches(effect(options[..n][j]), bit) {
      assert forall j :: i < j < n ==> options[..n][j] == options[j];
      assert Touches(effect(options[i]), bit);
    }
    if i :| 0 <= i < |options| && Touches(effect(options[i]), bit) && effect(options[i]).Sets? &&
            forall j :: i < j < |options| ==> !Touches(effect(options[j]), bit) {
      assert options[..n][i] == options[i];
    }
  }

  /** Every option without a flag is kept, as often as it is given, and no other. */
  lemma {:induction false} DataPasses(options: seq<string>, effect: string -> Effect)
    ensures forall o :: multiset(DataOf(options, effect))[o] == if effect(o).Passes? then multiset(options)[o] else 0
  {
    if options != [] {
      var n := |options| - 1;
      DataPasses(options[..n], effect);
      assert options == options[..n] + [options[n]];
    }
  }

  /** And in their order: the data of two lists in a row is that of the one and then that of the other. */
  lemma {:induction false} DataInOrder(a: seq<string>, b: seq<string>, effect: string -> Effect)
    ensures DataOf(a + b, effect) == DataOf(a, effect) + DataOf(b, effect)
    decreases |b|
  {
    if b == [] {
      assert a + b == a;
    } else {
      var n := |b| - 1;
      assert (a + b)[..|a| + n] == a + b[..n];
      DataInOrder(a, b[..n], effect);
    }
  }

  lemma {:induction false} DataIsGiven(options: seq<string>, effect: string -> Effect)
    ensures forall o <- DataOf(options, effect) :: o in options && effect(o).Passes?
  {
    if options != [] {
      var n := |options| - 1;
      DataIsGiven(options[..n], effect);
      forall o | o in DataOf(options, effect)
        ensures o in options && effect(o).Passes?
      {
        if o in DataOf(options[..n], effect) {
          assert o in options[..n];
        }
      }
    }
  }

  lemma {:induction false} AllIsData(options: seq<string>, effect: string -> Effect)
    requires forall o <- options :: effect(o).Passes?
    ensures DataOf(options, effect) == options && FlagOf(options, effect) == {}
  {
    if options != [] {
      var n := |options| - 1;
      assert options == options[..n] + [options[n]] && options[n] in options;
      assert forall o <- options[..n] :: o in options;
      AllIsData(options[..n], effect);
    }
  }

  /** The data string holds nothing but data: parsing it again gives no flags and the same string. */
  lemma DataIsOnlyData(options: string, effect: string -> Effect)
    requires effect("").Passes?
    ensures var data := Join(DataOf(Split(options, ','), effect), ',');
            && FlagOf(Split(data, ','), effect) == {}
            && Join(DataOf(Split(data, ','), effect), ',') == data
  {
    var list := DataOf(Split(options, ','), effect);
    DataIsGiven(Split(options, ','), effect);
    FieldsHaveNoSep(options, ',');
    var again := if list == [] then [""] else list;
    if list != [] {
      SplitJoin(list, ',');
    }
    assert Split(Join(list, ','), ',') == again;
    AllIsData(again, effect);
  }

  // The table, read the other way round.

  /** The options that set a bit of the word that mount(2) takes. */
  function Setters(bit: nat): set<string>
  {
    match bit
    case 0 => {"ro"}
    case 1 => {"nosuid"}
    case 2 => {"nodev"}
    case 3 => {"noexec"}
    case 4 => {"sync"}
    case 5 => {"remount"}
    case 6 => {"mand"}
    case 7 => {"dirsync"}
    case 10 => {"noatime"}
    case 11 => {"nodiratime"}
    case 12 => {"bind", "rbind"}
    case 14 => {"rbind", "runbindable", "rprivate", "rshared", "rslave"}
    case 17 => {"unbindable", "runbindable"}
    case 18 => {"private", "rprivate"}
    case 19 => {"slave", "rslave"}
    case 20 => {"shared", "rshared"}
    case 21 => {"relatime"}
    case 24 => {"strictatime"}
    case _ => {}
  }

  /** The options that clear it. */
  function Clearers(bit: nat): set<string>
  {
    match bit
    case 0 => {"rw"}
    case 1 => {"suid"}
    case 2 => {"dev"}
    case 3 => {"exec"}
    case 4 => {"async"}
    case 6 => {"nomand"}
    case 10 => {"atime"}
    case 11 => {"diratime"}
    case 21 => {"norelatime"}
    case 24 => {"nostrictatime"}
    case _ => {}
  }

  predicate TableAt(option: string, bit: nat)
  {
    && (Touches(EffectOf(option), bit) && EffectOf(option).Sets? <==> option in Setters(bit))
    && (Touches(EffectOf(option), bit) && EffectOf(option).Clears? <==> option in Clearers(bit))
  }

  const ACCESS := {"ro", "rw", "suid", "nosuid", "dev", "nodev", "exec", "noexec"}
  const UPDATES := {"sync", "async", "dirsync", "remount", "mand", "nomand"}
  const TIMES := {"atime", "noatime", "diratime", "nodiratime"}
  const STRICT_TIMES := {"relatime", "norelatime", "strictatime", "nostrictatime"}
  const BINDS := {"bind", "rbind", "unbindable", "runbindable"}
  const PRIVACY := {"private", "rprivate"}
  const SHARING := {"shared", "rshared", "slave", "rslave"}

  lemma AccessOptions(option: string, bit: nat)
    requires option in ACCESS
    ensures TableAt(option, bit)
  {
  }

  lemma UpdateOptions(option: string, bit: nat)
    requires option in UPDATES
    ensures TableAt(option, bit)
  {
  }

  lemma TimeOptions(option: string, bit: nat)
    requires option in TIMES
    ensures TableAt(option, bit)
  {
  }

  lemma StrictTimeOptions(option: string, bit: nat)
    requires option in STRICT_TIMES
    ensures TableAt(option, bit)
  {
  }

  lemma BindOptions(option: string, bit: nat)
    requires option in BINDS
    ensures TableAt(option, bit)
  {
  }

  lemma PrivacyOptions(option: string, bit: nat)
    requires option in PRIVACY
    ensures TableAt(option, bit)
  {
  }

  lemma SharingOptions(option: string, bit: nat)
    requires option in SHARING
    ensures TableAt(option, bit)
  {
  }

  predicate Known(option: string)
  {
    || option in ACCESS || option in UPDATES || option in TIMES || option in STRICT_TIMES || option in BINDS
    || option in PRIVACY || option in SHARING
  }

  lemma OtherOptionsPass(option: string)
    requires !Known(option)
    ensures EffectOf(option).Passes?
  {
  }

  lemma OnlyKnownSet(option: string, bit: nat)
    requires option in Setters(bit)
    ensures Known(option)
  {
  }

  lemma OnlyKnownClear(option: string, bit: nat)
    requires option in Clearers(bit)
    ensures Known(option)
  {
  }

  lemma TableIs(option: string, bit: nat)
    ensures TableAt(option, bit)
  {
    if option in ACCESS {
      AccessOptions(option, bit);
    } else if option in UPDATES {
      UpdateOptions(option, bit);
    } else if option in TIMES {
      TimeOptions(option, bit);
    } else if option in STRICT_TIMES {
      StrictTimeOptions(option, bit);
    } else if option in BINDS {
      BindOptions(option, bit);
    } else if option in PRIVACY {
      PrivacyOptions(option, bit);
    } else if option in SHARING {
      SharingOptions(option, bit);
    } else {
      OtherOptionsPass(option);
      if option in Setters(bit) {
        OnlyKnownSet(option, bit);
      } else if option in Clearers(bit) {
        OnlyKnownClear(option, bit);
      }
    }
  }

  /** A bit is set exactly when the last option that sets or clears it is one that sets it. */
  lemma BitIff(options: seq<string>, bit: nat)
    ensures bit in FlagOf(options, EffectOf) <==>
            exists i :: 0 <= i < |options| && options[i] in Setters(bit) &&
              forall j :: i < j < |options| ==> options[j] !in Setters(bit) + Clearers(bit)
  {
    BitIffLastSets(options, EffectOf, bit);
    forall i | 0 <= i < |options|
      ensures Touches(EffectOf(options[i]), bit) && EffectOf(options[i]).Sets? <==> options[i] in Setters(bit)
      ensures Touches(EffectOf(options[i]), bit) <==> options[i] in Setters(bit) + Clearers(bit)
    {
      TableIs(options[i], bit);
    }
  }

  /** Read-only, exactly when the last of "ro" and "rw" is "ro". */
  lemma ReadOnlyIff(options: seq<string>)
    ensures RDONLY_BIT in FlagOf(options, EffectOf) <==>
            exists i :: 0 <= i < |options| && options[i] == "ro" &&
              forall j :: i < j < |options| ==> options[j] !in {"ro", "rw"}
  {
    BitIff(options, 0);
    assert Setters(0) + Clearers(0) == {"ro", "rw"};
  }

  predicate AsksForRecursion(option: string)
  {
    option in {"rbind", "runbindable", "rprivate", "rshared", "rslave"}
  }

  /** Nothing takes back the recursive bit. */
  lemma NothingClearsRec(option: string)
    ensures Touches(EffectOf(option), REC_BIT) ==> EffectOf(option).Sets?
    ensures Touches(EffectOf(option), REC_BIT) <==> AsksForRecursion(option)
  {
  }

  lemma {:induction false} AnyTouch(options: seq<string>, effect: string -> Effect, bit: nat)
    requires forall o <- options :: Touches(effect(o), bit) ==> effect(o).Sets?
    ensures bit in FlagOf(options, effect) <==> exists o <- options :: Touches(effect(o), bit)
  {
    if options != [] {
      var n := |options| - 1;
      assert options == options[..n] + [options[n]] && options[n] in options;
      AnyTouch(options[..n], effect, bit);
    }
  }

  /** A later "bind" does not undo the recursion of "rbind": once asked for, it stays. */
  lemma RecursionStays(options: seq<string>)
    ensures REC_BIT in FlagOf(options, EffectOf) <==> exists o <- options :: AsksForRecursion(o)
  {
    forall o | o in options
      ensures Touches(EffectOf(o), REC_BIT) ==> EffectOf(o).Sets?
      ensures Touches(EffectOf(o), REC_BIT) <==> AsksForRecursion(o)
    {
      NothingClearsRec(o);
    }
    AnyTouch(options, EffectOf, REC_BIT);
  }
}
