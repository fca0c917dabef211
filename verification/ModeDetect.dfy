/** Choosing the boot mode (internal/mode/detect.go), and the environment that the disk mode hands to the init
    it executes after its pivot (internal/boot/modes/disk.go, PivotAndExec). */
module ModeDetect {
  import opened FileTree
  import opened Text

  const K3OS_MODE := "K3OS_MODE"

  const VALID_MODES: set<string> := {"disk", "local", "live", "install", "shell"}

  /** The constructors of NewRegistry. */
  datatype Handler = DiskHandler | LocalHandler | LiveHandler | InstallHandler | ShellHandler

  const HANDLERS: map<string, Handler> :=
    map["disk" := DiskHandler, "local" := LocalHandler, "live" := LiveHandler,
        "install" := InstallHandler, "shell" := ShellHandler]

  // The environment: entries "key=value".

  type Env = seq<string>

  function Entry(key: string, value: string): string
  {
    key + ['='] + value
  }

  predicate Gives(entry: string, key: string)
  {
    Cut(entry, '=').0 == key && Cut(entry, '=').1 != []
  }

  /** os.Getenv: of several entries for a key, the Go runtime keeps the first; "" if there is none. */
  function Getenv(env: Env, key: string): string
  {
    if env == [] then ""
    else if Gives(env[0], key) then Cut(env[0], '=').1[0]
    else Getenv(env[1..], key)
  }

  predicate Defines(env: Env, key: string)
  {
    exists e <- env :: Gives(e, key)
  }

  /** os.Environ: entries for a key that was already given are gone. */
  function Environ(env: Env): Env
  {
    if env == [] then []
    else
      var n := |env| - 1;
      var before := Environ(env[..n]);
      if Cut(env[n], '=').1 != [] && Defines(env[..n], Cut(env[n], '=').0) then before else before + [env[n]]
  }

  lemma {:induction false} GetenvAppend(env: Env, entry: string, key: string)
    ensures Getenv(env + [entry], key) ==
            if Defines(env, key) then Getenv(env, key) else if Gives(entry, key) then Cut(entry, '=').1[0] else ""
    ensures Defines(env + [entry], key) <==> Defines(env, key) || Gives(entry, key)
    ensures !Defines(env, key) ==> Getenv(env, key) == ""
  {
    assert (env + [entry])[|env|] == entry;
    if env == [] {
      assert env + [entry] == [entry];
    } else {
      assert env[0] in env && env == [env[0]] + env[1..];
      assert (env + [entry])[1..] == env[1..] + [entry];
      GetenvAppend(env[1..], entry, key);
    }
  }

  lemma {:induction false} EnvironKeeps(env: Env, key: string)
    ensures Getenv(Environ(env), key) == Getenv(env, key)
    ensures Defines(Environ(env), key) <==> Defines(env, key)
  {
    if env != [] {
      var n := |env| - 1;
      assert env == env[..n] + [env[n]];
      EnvironKeeps(env[..n], key);
      GetenvAppend(env[..n], env[n], key);
      GetenvAppend(Environ(env[..n]), env[n], key);
    }
  }

  /** What PivotAndExec passes on. */
  function NextEnv(env: Env): Env
  {
    Environ(env) + [Entry(K3OS_MODE, "local")]
  }

  lemma AppendedMode(env: Env, key: string, value: string)
    requires '=' !in key
    ensures Getenv(env + [Entry(key, value)], key) == if Defines(env, key) then Getenv(env, key) else value
    ensures Defines(env + [Entry(key, value)], key)
  {
    CutAt(key, value, '=');
    GetenvAppend(env, Entry(key, value), key);
  }

  /** The appended entry counts exactly when there was none before. */
  lemma NextMode(env: Env)
    ensures Getenv(NextEnv(env), K3OS_MODE) == if Defines(env, K3OS_MODE) then Getenv(env, K3OS_MODE) else "local"
    ensures Defines(NextEnv(env), K3OS_MODE)
  {
    EnvironKeeps(env, K3OS_MODE);
    AppendedMode(Environ(env), K3OS_MODE, "local");
  }

  // Detection.

  /** The kernel command line: the values of `k3os.mode` and `k3os.fallback_mode` ("" if not given), and
      whether `rescue` is there. */
  datatype Cmdline = Cmdline(mode: string, rescue: bool, fallback: string)
  {
    function Explicit(): string
    {
      if rescue then "shell" else mode
    }
  }

  /** What one pass sees: the device labelled K3OS_STATE and the type of the root filesystem, or errors. */
  datatype Probe = Probe(device: Option<string>, rootFs: Option<string>)

  predicate StateFound(p: Probe)
  {
    p.device.Some? && p.device.value != ""
  }

  predicate RealRoot(p: Probe)
  {
    p.rootFs.Some? && p.rootFs.value != "tmpfs"
  }

  /** The first of these that is there: the environment's mode, "disk", the fallback, "local". */
  function Choice(p: Probe, env: string, fallback: string): string
  {
    if env != "" then env
    else if StateFound(p) then "disk"
    else if fallback != "" then fallback
    else if RealRoot(p) then "local"
    else ""
  }

  /** detectOnce. */
  method DetectOnce(p: Probe, env: Env, fallback: string) returns (mode: string)
    ensures mode == Choice(p, Getenv(env, K3OS_MODE), fallback)
  {
    mode := "";
    if p.device.Some? && p.device.value != "" {
      mode := "disk";
    }
    var envMode := Getenv(env, K3OS_MODE);
    if envMode != "" {
      mode := envMode;
    }
    if mode == "" {
      mode := fallback;
    }
    if mode == "" {
      if p.rootFs.Some? && p.rootFs.value != "tmpfs" {
        mode := "local";
      }
    }
  }

  /** What the passes come to: the choice of the first that makes one. */
  function FirstChoice(passes: seq<Probe>, env: string, fallback: string): string
  {
    if passes == [] then ""
    else
      var choice := Choice(passes[0], env, fallback);
      if choice != "" then choice else FirstChoice(passes[1..], env, fallback)
  }

  function Chosen(cmdline: Cmdline, env: Env, passes: seq<Probe>): string
  {
    if cmdline.Explicit() != "" then cmdline.Explicit()
    else FirstChoice(passes, Getenv(env, K3OS_MODE), cmdline.fallback)
  }

  /** Neither a labelled device nor a root filesystem of its own. */
  predicate Silent(p: Probe)
  {
    p.device.GetOr("") == "" && p.rootFs.GetOr("tmpfs") == "tmpfs"
  }

  /** Who decides. What the kernel command line asks for comes first, then the environment; neither waits. A fallback
      mode makes the first pass decide, and the root filesystem is then never asked. */
  lemma WhoDecides(cmdline: Cmdline, env: Env, passes: seq<Probe>)
    requires passes != []
    ensures var mode := Chosen(cmdline, env, passes);
            if cmdline.rescue then mode == "shell"
            else if cmdline.mode != "" then mode == cmdline.mode
            else if Getenv(env, "K3OS_MODE") != "" then mode == Getenv(env, "K3OS_MODE")
            else if cmdline.fallback != "" then
              mode == if passes[0].device.GetOr("") == "" then cmdline.fallback else "disk"
            else mode in {"disk", "local", ""}
  {
    assert Choice(passes[0], Getenv(env, K3OS_MODE), cmdline.fallback) == "" ==> cmdline.fallback == "";
    if cmdline.Explicit() == "" && Getenv(env, K3OS_MODE) == "" && cmdline.fallback == "" {
      ProbesDecide(passes, 0);
    }
  }

  /** If none of them decides, the first pass does that sees anything; a labelled device counts more. */
  lemma {:induction false} ProbesDecide(passes: seq<Probe>, i: nat)
    requires i <= |passes| && forall j :: 0 <= j < i ==> Silent(passes[j])
    ensures i == |passes| ==> FirstChoice(passes, "", "") == ""
    ensures i < |passes| && !Silent(passes[i]) ==>
              FirstChoice(passes, "", "") == if passes[i].device.GetOr("") == "" then "local" else "disk"
    ensures FirstChoice(passes, "", "") in {"disk", "local", ""}
    decreases |passes|
  {
    if passes != [] {
      if i > 0 {
        assert Silent(passes[0]) && (i < |passes| ==> passes[1..][i - 1] == passes[i]);
        ProbesDecide(passes[1..], i - 1);
      } else {
        assert Choice(passes[0], "", "") == "" <==> Silent(passes[0]);
        ProbesDecide(passes[1..], 0);
      }
    }
  }

  /** Whether the state directory could be made, and the mode file written. */
  datatype Calls = Calls(madeDir: bool, wrote: bool)
  {
    predicate Succeed()
    {
      madeDir && wrote
    }
  }

  class Detector {
    const cmdline: Cmdline
    const env: Env

    /** The mode file in the state directory. */
    var modeFile: Option<string>

    constructor (cmdline: Cmdline, env: Env, modeFile: Option<string>)
      ensures this.cmdline == cmdline && this.env == env && this.modeFile == modeFile
    {
      this.cmdline, this.env, this.modeFile := cmdline, env, modeFile;
    }

    /** Detect. `passes` is what the probes answer until the deadline has passed or the context is done; there
        is always one pass. None is an error. */
    method Detect(passes: seq<Probe>, calls: Calls) returns (mode: Option<string>)
      requires passes != []
      modifies this
      ensures mode == if Chosen(cmdline, env, passes) in VALID_MODES && calls.Succeed()
                      then Some(Chosen(cmdline, env, passes)) else None
      ensures mode.Some? ==> modeFile == mode
      ensures Chosen(cmdline, env, passes) !in VALID_MODES || !calls.madeDir ==> modeFile == old(modeFile)
    {
      var explicit := cmdline.mode;
      if cmdline.rescue {
        explicit := "shell";
      }
      if explicit != "" {
        mode := Finalize(explicit, calls);
        return;
      }
      for i := 0 to |passes|
        invariant modeFile == old(modeFile)
        invariant Chosen(cmdline, env, passes) == FirstChoice(passes[i..], Getenv(env, K3OS_MODE), cmdline.fallback)
      {
        var detected := DetectOnce(passes[i], env, cmdline.fallback);
        if detected != "" {
          mode := Finalize(detected, calls);
          return;
        }
        assert passes[i..][1..] == passes[i + 1..];
      }
      mode := None;
    }

    /** finalize. A write that fails may leave anything. */
    method Finalize(wanted: string, calls: Calls) returns (mode: Option<string>)
      modifies this
      ensures mode == if wanted in VALID_MODES && calls.Succeed() then Some(wanted) else None
      ensures mode.Some? ==> modeFile == mode
      ensures wanted !in VALID_MODES || !calls.madeDir ==> modeFile == old(modeFile)
    {
      if wanted !in VALID_MODES {
        return None;
      }
      if !calls.madeDir {
        return None;
      }
      if !calls.wrote {
        modeFile := *;
        return None;
      }
      modeFile := Some(wanted);
      mode := Some(wanted);
    }
  }

  /** Registry.Get knows exactly the valid modes. */
  lemma ValidModesHaveHandlers(mode: string)
    ensures mode in VALID_MODES <==> mode in HANDLERS
    ensures mode in HANDLERS <==> mode in {"disk", "local", "live", "install", "shell"}
  {
    assert HANDLERS.Keys == VALID_MODES;
  }

  // One run: an init, and those that follow its pivots.

  /** What one init sees, and whether its disk handler gets as far as the pivot. */
  datatype Init = Init(passes: seq<Probe>, pivots: bool)

  function EnvAt(env: Env, i: nat): Env
  {
    if i == 0 then env else NextEnv(EnvAt(env, i - 1))
  }

  /** Every init but the first is executed by the pivot before it, and only the disk mode pivots. */
  ghost predicate Run(cmdline: Cmdline, env: Env, inits: seq<Init>)
  {
    && (forall i :: 0 <= i < |inits| - 1 ==> inits[i].pivots)
    && (forall i :: 0 <= i < |inits| ==> inits[i].passes != [])
    && (forall i :: 0 <= i < |inits| && inits[i].pivots ==> Chosen(cmdline, EnvAt(env, i), inits[i].passes) == "disk")
  }

  /** Whatever the probes answer, the re-executed init does not pivot again. */
  ghost predicate OnePivot(cmdline: Cmdline, env: Env)
  {
    forall inits: seq<Init> | Run(cmdline, env, inits) :: forall i :: 1 <= i < |inits| ==> !inits[i].pivots
  }

  /** What the caller of the first init can check. */
  predicate PivotsOnce(cmdline: Cmdline, env: Env)
  {
    && cmdline.Explicit() != "disk"
    && (cmdline.Explicit() != "" || !Defines(env, K3OS_MODE) || Getenv(env, K3OS_MODE) !in {"", "disk"})
  }

  lemma {:induction false} ModeAt(env: Env, i: nat)
    ensures Defines(env, K3OS_MODE) ==> Defines(EnvAt(env, i), K3OS_MODE)
    ensures Defines(env, K3OS_MODE) ==> Getenv(EnvAt(env, i), K3OS_MODE) == Getenv(env, K3OS_MODE)
    ensures !Defines(env, K3OS_MODE) && i > 0 ==> Getenv(EnvAt(env, i), K3OS_MODE) == "local"
    ensures !Defines(env, K3OS_MODE) && i > 0 ==> Defines(EnvAt(env, i), K3OS_MODE)
  {
    if i > 0 {
      ModeAt(env, i - 1);
      NextMode(EnvAt(env, i - 1));
    }
  }

  /** Without a mode on the command line and in the environment, every re-executed init is in local mode,
      even while the labelled device is still found. */
  lemma ReexecutedIsLocal(cmdline: Cmdline, env: Env, i: nat, passes: seq<Probe>)
    requires cmdline.Explicit() == "" && !Defines(env, K3OS_MODE) && i > 0 && passes != []
    ensures Chosen(cmdline, EnvAt(env, i), passes) == "local"
  {
    ModeAt(env, i);
  }

  /** A run that pivots as often as one likes. */
  lemma PivotsAgain(cmdline: Cmdline, env: Env, n: nat) returns (inits: seq<Init>)
    requires !PivotsOnce(cmdline, env)
    ensures |inits| == n && Run(cmdline, env, inits) && forall i <- inits :: i.pivots
  {
    var init := Init([Probe(Some("/dev/sda1"), None)], true);
    inits := seq(n, _ => init);
    forall i | 0 <= i < n
      ensures Chosen(cmdline, EnvAt(env, i), inits[i].passes) == "disk"
    {
      ModeAt(env, i);
    }
  }

  /** The disk mode pivots at most once in a run exactly when the caller's check holds. Note the environment
      with an empty K3OS_MODE: it hides the entry that PivotAndExec appends. */
  lemma OnePivotIff(cmdline: Cmdline, env: Env)
    ensures OnePivot(cmdline, env) <==> PivotsOnce(cmdline, env)
  {
    if PivotsOnce(cmdline, env) {
      forall inits: seq<Init>, i: nat | Run(cmdline, env, inits) && 1 <= i < |inits|
        ensures !inits[i].pivots
      {
        ModeAt(env, i);
      }
    } else {
      var inits := PivotsAgain(cmdline, env, 2);
      assert inits[1] in inits;
    }
  }

  lemma EmptyModeHidesLocal()
    ensures !OnePivot(Cmdline("", false, ""), [Entry(K3OS_MODE, "")])
  {
    AppendedMode([], K3OS_MODE, "");
    assert [] + [Entry(K3OS_MODE, "")] == [Entry(K3OS_MODE, "")];
    OnePivotIff(Cmdline("", false, ""), [Entry(K3OS_MODE, "")]);
  }
}
