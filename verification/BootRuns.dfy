/** Several boots in disk mode, each cut off anywhere: internal/boot/modes/disk.go, Execute. */
module BootRuns {
  import opened FileTree
  import opened StateVolume
  import opened VolumeSetup
  import opened DiskBoot

  function Last(before: Entries, states: seq<Entries>, cut: nat): Entries
  {
    if cut == 0 || |states| < cut then before else states[cut - 1]
  }

  /** One boot, cut off after `cut` of its states unless it ran to its end. */
  datatype DiskRun = DiskRun(before: Entries, states: seq<Entries>, cut: nat, report: BootReport)
  {
    function After(): Entries
    {
      Last(before, states, cut)
    }

    /** What Execute ensures; a boot that pivots was not cut before that. */
    ghost predicate Valid(behind: Option<Path>)
    {
      && (report.pivoted ==> cut == |states|)
      && exists now :: WholeBoot(before, now, states, 0, report, behind)
    }
  }

  /** The report of a boot that is cut: it pivots in the last of its states. */
  function CutReport(r: BootReport, cut: nat, states: nat): BootReport
  {
    if cut == states then r else r.(pivoted := false, execed := false)
  }

  /** The log of Execute is a valid run, wherever it is cut. */
  lemma LogIsARun(before: Entries, now: Entries, log: seq<Entries>, from: nat, r: BootReport, cut: nat,
                  behind: Option<Path>)
    requires from <= |log| && WholeBoot(before, now, log, from, r, behind)
    ensures DiskRun(before, log[from..], cut, CutReport(r, cut, |log| - from)).Valid(behind)
  {
    assert forall i :: 0 <= i < |log| - from ==> log[from..][i] == log[from + i];
    assert WholeBoot(before, now, log[from..], 0, CutReport(r, cut, |log| - from), behind);
  }

  function End(start: Entries, runs: seq<DiskRun>): Entries
  {
    if runs == [] then start else runs[|runs| - 1].After()
  }

  /** Boots that follow one another with nothing else touching the volume: none but the last hands over to the new
      root. */
  ghost predicate Chain(start: Entries, runs: seq<DiskRun>, behind: Option<Path>)
  {
    runs != [] ==>
      var n := |runs| - 1;
      && Chain(start, runs[..n], behind) && (forall r <- runs[..n] :: !r.report.execed)
      && runs[n].before == End(start, runs[..n]) && runs[n].Valid(behind) && !runs[n].report.fault
  }

  /** Once a boot has found the takeover marker, every later pivot_root happens with k3os/data gone, also one whose
      exec then fails, however many boots it takes and wherever they are cut. */
  lemma {:induction false} NoPivotOntoOldData(start: Entries, runs: seq<DiskRun>, behind: Option<Path>)
    requires Guarded(start) && Chain(start, runs, behind)
    ensures Guarded(End(start, runs))
    ensures forall r <- runs :: r.report.pivoted ==> !HasData(r.After())
  {
    if runs != [] {
      var n := |runs| - 1;
      NoPivotOntoOldData(start, runs[..n], behind);
      assert runs == runs[..n] + [runs[n]];
      RunIsGuarded(runs[n], behind);
    }
  }

  lemma RunIsGuarded(r: DiskRun, behind: Option<Path>)
    requires r.Valid(behind) && Guarded(r.before) && !r.report.fault
    ensures Guarded(r.After()) && (r.report.pivoted ==> !HasData(r.After()))
  {
    var now :| WholeBoot(r.before, now, r.states, 0, r.report, behind);
  }

  // What becomes of the data.

  /** Boots of a volume without a marker, cut anywhere, never touch the data. */
  lemma {:induction false} UnmarkedStays(start: Entries, runs: seq<DiskRun>, behind: Option<Path>)
    requires Unmarked(start) && Chain(start, runs, behind)
    ensures LeavesData(start, End(start, runs), behind)
    ensures forall r <- runs :: LeavesData(start, r.After(), behind)
  {
    if runs != [] {
      var n := |runs| - 1;
      var before := End(start, runs[..n]);
      UnmarkedStays(start, runs[..n], behind);
      assert runs == runs[..n] + [runs[n]];
      var now :| WholeBoot(before, now, runs[n].states, 0, runs[n].report, behind);
      assert LeavesData(before, runs[n].After(), behind);
      LeavesTwice(start, before, runs[n].After(), behind);
    }
  }

  /** A pivot that has removed the factory-reset marker ends the reset: whatever data the running system then writes
      is the same in every later boot, however many there are and wherever they are cut, until a marker is set
      again. `used` is the volume as that system leaves it. */
  lemma DataSurvives(start: Entries, runs: seq<DiskRun>, used: Entries, later: seq<DiskRun>, behind: Option<Path>)
    requires runs != [] && Chain(start, runs, behind)
    requires var r := runs[|runs| - 1]; r.report.pivoted && !r.report.kept && !HasMarker(r.before, EPHEMERAL)
    requires SameMarkers(End(start, runs), used) && Chain(used, later, behind)
    ensures Unmarked(used) && LeavesData(used, End(used, later), behind)
    ensures forall r <- later :: LeavesData(used, r.After(), behind)
  {
    var r := runs[|runs| - 1];
    var now :| WholeBoot(r.before, now, r.states, 0, r.report, behind);
    assert r.After() == now;
    UnmarkedStays(used, later, behind);
  }

  /** The system has set no marker, and taken none away. */
  predicate SameMarkers(t: Entries, u: Entries)
  {
    forall m <- {TAKEOVER, FACTORY_RESET, EPHEMERAL} :: HasMarker(t, m) == HasMarker(u, m)
  }

  // Takeovers that are interrupted.

  /** A boot that was asked for a takeover, cut off while the marker for it was still there. */
  datatype Attempt = Attempt(before: Entries, states: seq<Entries>, cut: nat)
  {
    function After(): Entries
    {
      Last(before, states, cut)
    }

    ghost predicate Valid(behind: Option<Path>)
    {
      AllBoot(before, states, 0, behind) && HasMarker(After(), TAKEOVER)
    }
  }

  /** The log of Execute is an attempt, wherever it is cut, unless a link at `sbin` could not be removed. */
  lemma LogIsAnAttempt(before: Entries, now: Entries, log: seq<Entries>, from: nat, r: BootReport, cut: nat,
                       behind: Option<Path>)
    requires from <= |log| && WholeBoot(before, now, log, from, r, behind) && HasMarker(before, TAKEOVER) && !r.stuck
    requires HasMarker(Last(before, log[from..], cut), TAKEOVER)
    ensures Attempt(before, log[from..], cut).Valid(behind)
  {
    assert forall i :: 0 <= i < |log| - from ==> log[from..][i] == log[from + i];
  }

  ghost predicate Attempts(start: Entries, attempts: seq<Attempt>, behind: Option<Path>)
    decreases |attempts|
  {
    attempts != [] ==>
      && attempts[0].before == start && attempts[0].Valid(behind)
      && Attempts(attempts[0].After(), attempts[1..], behind)
  }

  function Left(start: Entries, attempts: seq<Attempt>): Entries
    decreases |attempts|
  {
    if attempts == [] then start else Left(attempts[0].After(), attempts[1..])
  }

  /** However often it is interrupted, a takeover that could get to its end still can, and leads to the same volume
      once the next setup has run. */
  lemma {:induction false} AttemptsKeepGoal(start: Entries, attempts: seq<Attempt>, behind: Option<Path>)
    requires HasMarker(start, TAKEOVER) && Attempts(start, attempts, behind)
    ensures var left := Left(start, attempts);
            && HasMarker(left, TAKEOVER) && Goal(left, behind) == Goal(start, behind)
            && (SbinLink(left) ==> SbinLink(start)) && (Completable(start, behind) ==> Completable(left, behind))
    decreases |attempts|
  {
    if attempts != [] {
      var a := attempts[0];
      if a.After() != start {
        BootKeepsGoal(start, a.After(), behind);
      }
      AttemptsKeepGoal(a.After(), attempts[1..], behind);
    }
  }

  /** From any volume: one boot that is not interrupted leaves `whole`. The boots that are cut off, and then one that
      gets to its end, leave `final`. After the setup of the next boot the two are the same, apart from what the setup
      steps install. Even before that they are, exactly if no attempt got so far as to remove a link at `sbin`: the
      next setup gives the volume an `sbin/init` in its place, which the takeover then keeps. */
  lemma InterruptedTakeover(start: Entries, attempts: seq<Attempt>, whole: Entries, final: Entries,
                            behind: Option<Path>)
    requires Attempts(start, attempts, behind)
    requires CompleteBoot(start, whole, behind) && CompleteBoot(Left(start, attempts), final, behind)
    ensures GiveInit(Strip(final)) == GiveInit(Strip(whole))
    ensures Strip(final) == Strip(whole) <==> (SbinLink(start) ==> SbinLink(Left(start, attempts)))
  {
    var first := CompleteIsGoal(start, whole, behind);
    DoneKeepsMarker(start, first, behind);
    AttemptsKeepGoal(start, attempts, behind);
    var last := CompleteIsGoal(Left(start, attempts), final, behind);
    AgreeOnSbin(first, last);
  }

  /** The last step of the proof, without the runs. */
  lemma AgreeOnSbin(first: Entries, last: Entries)
    requires HasSystem(first) && HasSystem(last) && Later(first) == Later(last)
    requires HasSbin(first) && HasSbin(last)
    ensures Core(first) == Core(last) <==> (SbinLink(first) <==> SbinLink(last))
  {
    SetUpSbin(first);
    SetUpSbin(last);
    SameLater(Core(first), Core(last));
  }

  /** Two volumes that get the same `sbin` from setup are equal exactly if both have one, or neither. */
  lemma SameLater(a: Entries, b: Entries)
    requires GiveInit(a) == GiveInit(b)
    requires "sbin" in a ==> a["sbin"].Dir? && "init" in a["sbin"].entries
    requires "sbin" in b ==> b["sbin"].Dir? && "init" in b["sbin"].entries
    ensures a == b <==> ("sbin" in a <==> "sbin" in b)
  {
    if "sbin" !in a && "sbin" !in b {
      assert a == GiveInit(a) - {"sbin"} && b == GiveInit(b) - {"sbin"};
    }
  }

  /** The volumes agree in every run: whatever the attempts were. */
  ghost predicate AlwaysAgree(start: Entries, behind: Option<Path>)
  {
    forall attempts, whole, final |
      && Attempts(start, attempts, behind)
      && CompleteBoot(start, whole, behind) && CompleteBoot(Left(start, attempts), final, behind) ::
      Strip(final) == Strip(whole)
  }

  /** An attempt that is cut off just behind the removal of the link. */
  lemma LinkIsLost(start: Entries, behind: Option<Path>)
    returns (attempts: seq<Attempt>, whole: Entries, final: Entries)
    requires Completable(start, behind) && SbinLink(start)
    ensures Attempts(start, attempts, behind)
    ensures CompleteBoot(start, whole, behind) && CompleteBoot(Left(start, attempts), final, behind)
    ensures !SbinLink(Left(start, attempts))
  {
    CompletableIff(start, behind);
    whole :| CompleteBoot(start, whole, behind);
    var ready := CompleteIsGoal(start, whole, behind);
    var marked, left := FirstStates(start, ready, behind);
    attempts := OneAttempt(start, marked, left, behind);
    CompletableIff(left, behind);
    final :| CompleteBoot(left, final, behind);
  }

  lemma OneAttempt(start: Entries, s: Entries, left: Entries, behind: Option<Path>) returns (attempts: seq<Attempt>)
    requires BootState(start, s, behind) && BootState(start, left, behind) && HasMarker(left, TAKEOVER)
    ensures Attempts(start, attempts, behind) && Left(start, attempts) == left
  {
    var a := Attempt(start, [s, left], 2);
    attempts := [a];
    assert attempts[1..] == [] && a.After() == left && a.Valid(behind);
  }

  /** The first two states of a takeover. */
  lemma FirstStates(start: Entries, ready: Entries, behind: Option<Path>) returns (marked: Entries, left: Entries)
    requires SetupDone(start, ready, behind) && TakeoverReady(ready) && SbinLink(ready)
    ensures BootState(start, marked, behind) && BootState(start, left, behind)
    ensures !SbinLink(left) && HasMarker(left, TAKEOVER) && Completable(left, behind)
  {
    marked := Marked(ready);
    left := marked - {"sbin"};
    MarkedAndUnlinked(ready, marked, left);
  }

  lemma MarkedAndUnlinked(ready: Entries, marked: Entries, left: Entries)
    requires TakeoverReady(ready) && SbinLink(ready) && marked == Marked(ready) && left == marked - {"sbin"}
    ensures TakeoverState(ready, marked) && TakeoverState(ready, left) && TakeoverReady(left) && !SbinLink(left)
  {
    ChangeInK3os(ready, marked);
    SbinLinkGone(marked);
    assert System(left) == System(marked) == System(ready)[FACTORY_RESET := File("")];
  }

  /** They do so exactly if there is no link at `sbin`, or no takeover of the volume can get to its end. */
  lemma AlwaysAgreeIff(start: Entries, behind: Option<Path>)
    ensures AlwaysAgree(start, behind) <==> !(SbinLink(start) && Completable(start, behind))
  {
    CompletableIff(start, behind);
    if SbinLink(start) && Completable(start, behind) {
      var attempts, whole, final := LinkIsLost(start, behind);
      InterruptedTakeover(start, attempts, whole, final, behind);
      assert !AlwaysAgree(start, behind);
    } else {
      forall attempts, whole, final |
        && Attempts(start, attempts, behind)
        && CompleteBoot(start, whole, behind) && CompleteBoot(Left(start, attempts), final, behind)
        ensures Strip(final) == Strip(whole)
      {
        InterruptedTakeover(start, attempts, whole, final, behind);
      }
    }
  }
}
