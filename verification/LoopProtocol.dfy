/** Concurrent Detach and SetAutoclear on one loop device: internal/loopdev/loopdev.go, lines 177-219. */
module LoopProtocol {

  /** Where a caller is. A Detach caller goes Start, Won, then Failed or Cleared; a SetAutoclear caller
      goes Start, Loaded, Got. Between two program points it performs one atomic step. */
  datatype Caller =
    | DetachStart
    | Won        // the compare-and-swap succeeded, LOOP_CLR_FD comes next
    | Failed     // LOOP_CLR_FD failed, the flag is to be reverted
    | Cleared    // LOOP_CLR_FD succeeded, the close comes next
    | AutoStart
    | Loaded     // the flag was read as false, LOOP_GET_STATUS64 comes next
    | Got        // the status was read, LOOP_SET_STATUS64 comes next
    | Returned

  /** Which system call a step issued, if any. */
  datatype Call = NoCall | ClearFd(ok: bool) | CloseFd | GetStatus | SetStatus

  /** `closed` is the flag of the device; `open` says whether its file descriptor is still open.
      `calls` lists the system calls issued so far, each with the caller that issued it. */
  datatype State = State(
    closed: bool,
    open: bool,
    callers: map<nat, Caller>,
    calls: seq<(nat, Call)>)

  predicate Init(s: State)
  {
    !s.closed && s.open && s.callers == map[] && s.calls == []
  }

  /** A new caller enters Detach or SetAutoclear. */
  predicate Enter(s: State, t: State, id: nat)
  {
    && id !in s.callers
    && (t == s.(callers := s.callers[id := DetachStart]) || t == s.(callers := s.callers[id := AutoStart]))
  }

  predicate Moves(s: State, t: State, id: nat, next: Caller, call: Call)
  {
    && t.callers == s.callers[id := next]
    && t.calls == if call.NoCall? then s.calls else s.calls + [(id, call)]
  }

  /** One atomic step of the caller `id`, whatever the system call answers. */
  predicate Step(s: State, t: State, id: nat)
  {
    && id in s.callers
    && match s.callers[id]
       case DetachStart =>  // compare-and-swap
         && t.closed && t.open == s.open
         && Moves(s, t, id, if s.closed then Returned else Won, NoCall)
       case Won =>
         && t.closed == s.closed && t.open == s.open
         && (Moves(s, t, id, Cleared, ClearFd(true)) || Moves(s, t, id, Failed, ClearFd(false)))
       case Failed =>
         && !t.closed && t.open == s.open && Moves(s, t, id, Returned, NoCall)
       case Cleared =>  // close(2) releases the descriptor even when it reports an error
         && t.closed == s.closed && !t.open && Moves(s, t, id, Returned, CloseFd)
       case AutoStart =>
         && t.closed == s.closed && t.open == s.open
         && Moves(s, t, id, if s.closed then Returned else Loaded, NoCall)
       case Loaded =>
         && t.closed == s.closed && t.open == s.open
         && (Moves(s, t, id, Got, GetStatus) || Moves(s, t, id, Returned, GetStatus))
       case Got =>
         && t.closed == s.closed && t.open == s.open && Moves(s, t, id, Returned, SetStatus)
       case Returned => false
  }

  ghost predicate Next(s: State, t: State)
  {
    exists id :: Enter(s, t, id) || Step(s, t, id)
  }

  /** Any number of callers, interleaved in any way, with any answers. */
  ghost predicate Run(run: seq<State>)
  {
    && run != [] && Init(run[0])
    && forall i :: 0 <= i < |run| - 1 ==> Next(run[i], run[i + 1])
  }

  // What holds in every reachable state.

  predicate Owns(c: Caller)
  {
    c in {Won, Failed, Cleared}
  }

  predicate Issued(calls: seq<(nat, Call)>, call: Call)
  {
    exists c <- calls :: c.1 == call
  }

  ghost predicate SomeOwner(s: State)
  {
    exists a <- s.callers :: Owns(s.callers[a])
  }

  ghost predicate SomeCleared(s: State)
  {
    exists a <- s.callers :: s.callers[a].Cleared?
  }

  /** Nobody clears again after a successful clear, and nobody clears or closes after a close. */
  ghost predicate Ordered(calls: seq<(nat, Call)>)
  {
    forall i, j :: 0 <= i < j < |calls| ==>
      && (calls[i].1 == ClearFd(true) ==> !calls[j].1.ClearFd?)
      && (calls[i].1.CloseFd? ==> !calls[j].1.ClearFd? && !calls[j].1.CloseFd?)
  }

  ghost predicate Inv(s: State)
  {
    && (forall a, b :: a in s.callers && b in s.callers && Owns(s.callers[a]) && Owns(s.callers[b]) ==> a == b)
    && (s.closed <==> !s.open || SomeOwner(s))
    && (!s.open ==> !SomeOwner(s))
    && (Issued(s.calls, ClearFd(true)) <==> !s.open || SomeCleared(s))
    && (Issued(s.calls, CloseFd) <==> !s.open)
    && Ordered(s.calls)
    && (forall c <- s.calls :: c.0 in s.callers)
  }

  lemma Appended(calls: seq<(nat, Call)>, entry: (nat, Call))
    ensures forall c :: Issued(calls + [entry], c) <==> Issued(calls, c) || entry.1 == c
    ensures Ordered(calls)
            && (entry.1.ClearFd? ==> !Issued(calls, ClearFd(true)) && !Issued(calls, CloseFd))
            && (entry.1.CloseFd? ==> !Issued(calls, CloseFd)) ==>
              Ordered(calls + [entry])
  {
    forall c
      ensures Issued(calls + [entry], c) <==> Issued(calls, c) || entry.1 == c
    {
      if entry.1 == c {
        assert (calls + [entry])[|calls|] == entry;
      }
      if Issued(calls, c) {
        var x :| x in calls && x.1 == c;
        assert x in calls + [entry];
      }
    }
  }

  /** What the step of `id` does to the callers, as the invariant sees it. */
  lemma OwnersAfter(s: State, t: State, id: nat)
    requires id in s.callers && t.callers.Keys == s.callers.Keys
    requires forall a <- s.callers :: a != id ==> t.callers[a] == s.callers[a]
    requires forall a, b :: a in s.callers && b in s.callers && Owns(s.callers[a]) && Owns(s.callers[b]) ==> a == b
    ensures SomeOwner(t) <==> Owns(t.callers[id]) || (SomeOwner(s) && !Owns(s.callers[id]))
    ensures SomeCleared(t) <==> t.callers[id].Cleared? || (SomeCleared(s) && !s.callers[id].Cleared?)
  {
    if SomeOwner(s) && !Owns(s.callers[id]) {
      var a :| a in s.callers && Owns(s.callers[a]);
      assert a in t.callers && Owns(t.callers[a]);
    }
    if SomeCleared(s) && !s.callers[id].Cleared? {
      var a :| a in s.callers && s.callers[a].Cleared?;
      assert a in t.callers && t.callers[a].Cleared?;
    }
    if SomeOwner(t) && !Owns(t.callers[id]) {
      var a :| a in t.callers && Owns(t.callers[a]);
      assert a in s.callers && Owns(s.callers[a]);
    }
  }

  lemma StepKeepsInv(s: State, t: State, id: nat)
    requires Inv(s) && Step(s, t, id)
    ensures Inv(t)
  {
    OwnersAfter(s, t, id);
    assert Owns(s.callers[id]) ==> SomeOwner(s);
    assert s.callers[id].Cleared? ==> SomeCleared(s);
    assert SomeCleared(s) ==> SomeOwner(s);
    if t.calls != s.calls {
      Appended(s.calls, t.calls[|s.calls|]);
    }
  }

  lemma EnterKeepsInv(s: State, t: State, id: nat)
    requires Inv(s) && Enter(s, t, id)
    ensures Inv(t)
  {
    assert forall a <- s.callers :: t.callers[a] == s.callers[a];
    assert SomeOwner(t) ==> SomeOwner(s) by {
      if a :| a in t.callers && Owns(t.callers[a]) {
        assert a in s.callers;
      }
    }
    assert SomeOwner(s) ==> SomeOwner(t) by {
      if a :| a in s.callers && Owns(s.callers[a]) {
        assert a in t.callers && Owns(t.callers[a]);
      }
    }
    assert SomeCleared(t) <==> SomeCleared(s) by {
      if a :| a in s.callers && s.callers[a].Cleared? {
        assert a in t.callers && t.callers[a].Cleared?;
      }
    }
  }

  lemma {:induction false} InvHolds(run: seq<State>, i: nat)
    requires Run(run) && i < |run|
    ensures Inv(run[i])
  {
    if i > 0 {
      InvHolds(run, i - 1);
      var id :| Enter(run[i - 1], run[i], id) || Step(run[i - 1], run[i], id);
      if Enter(run[i - 1], run[i], id) {
        EnterKeepsInv(run[i - 1], run[i], id);
      } else {
        StepKeepsInv(run[i - 1], run[i], id);
      }
    }
  }

  // The properties.

  /** In every reachable state at most one caller is between winning the compare-and-swap and its
      return, LOOP_CLR_FD has succeeded at most once, the descriptor has been closed at most once and
      only after that, and it is never cleared after being closed. */
  lemma DetachIsExclusive(run: seq<State>, i: nat)
    requires Run(run) && i < |run|
    ensures var s := run[i];
            && (forall a, b :: a in s.callers && b in s.callers && Owns(s.callers[a]) && Owns(s.callers[b]) ==> a == b)
            && (forall m, n :: 0 <= m < n < |s.calls| ==>
                  && !(s.calls[m].1 == ClearFd(true) && s.calls[n].1 == ClearFd(true))
                  && !(s.calls[m].1.CloseFd? && s.calls[n].1.CloseFd?)
                  && !(s.calls[m].1.CloseFd? && s.calls[n].1.ClearFd?))
            && (!s.open <==> Issued(s.calls, CloseFd))
            && (!s.open ==> Issued(s.calls, ClearFd(true)) && s.closed)
  {
    InvHolds(run, i);
  }

  /** The flag is set exactly while somebody is detaching or once the descriptor is closed: a failed
      LOOP_CLR_FD leaves the device free for another attempt. */
  lemma FlagMeansDetaching(run: seq<State>, i: nat)
    requires Run(run) && i < |run|
    ensures run[i].closed <==> !run[i].open || exists a <- run[i].callers :: Owns(run[i].callers[a])
  {
    InvHolds(run, i);
  }

  predicate Silent(s: State, id: nat)
  {
    && (id in s.callers ==> s.callers[id] in {DetachStart, AutoStart, Returned})
    && forall c <- s.calls :: c.0 != id
  }

  lemma StaysSilent(s: State, t: State, mover: nat, id: nat)
    requires s.closed && (Enter(s, t, mover) || Step(s, t, mover))
    requires Issued(s.calls, ClearFd(true)) && Silent(s, id)
    ensures Silent(t, id) && Issued(t.calls, ClearFd(true))
  {
    if t.calls != s.calls {
      Appended(s.calls, t.calls[|s.calls|]);
      assert mover != id && t.calls[|s.calls|].0 == mover;
    }
  }

  lemma SilentNext(run: seq<State>, k: nat, id: nat)
    requires Run(run) && k + 1 < |run|
    requires Issued(run[k].calls, ClearFd(true)) && Silent(run[k], id)
    ensures Silent(run[k + 1], id) && Issued(run[k + 1].calls, ClearFd(true))
  {
    InvHolds(run, k);
    var mover :| Enter(run[k], run[k + 1], mover) || Step(run[k], run[k + 1], mover);
    StaysSilent(run[k], run[k + 1], mover, id);
  }

  lemma NewcomerIsSilent(run: seq<State>, i: nat, id: nat)
    requires Run(run) && i < |run| && id !in run[i].callers
    ensures Silent(run[i], id)
  {
    InvHolds(run, i);
  }

  /** A Detach or SetAutoclear that starts after LOOP_CLR_FD has succeeded issues no system call. */
  lemma {:induction false} LateCallersAreSilent(run: seq<State>, i: nat, j: nat, id: nat)
    requires Run(run) && i <= j < |run|
    requires Issued(run[i].calls, ClearFd(true)) && id !in run[i].callers
    ensures Silent(run[j], id) && Issued(run[j].calls, ClearFd(true))
  {
    if i < j {
      LateCallersAreSilent(run, i, j - 1, id);
      SilentNext(run, j - 1, id);
    } else {
      NewcomerIsSilent(run, i, id);
    }
  }

  /** The callers that read the flag in time. */
  predicate Reading(s: State, id: nat)
  {
    id in s.callers && s.callers[id] in {Loaded, Got}
  }

  predicate AnyReader(s: State)
  {
    exists id <- s.callers :: Reading(s, id)
  }

  lemma ReadersAfterClose(s: State, t: State, mover: nat)
    requires Inv(s) && !s.open && (Enter(s, t, mover) || Step(s, t, mover))
    ensures !t.open && forall id :: Reading(t, id) ==> Reading(s, id)
    ensures t.calls != s.calls ==>
              Reading(s, mover) && exists call <- {GetStatus, SetStatus} :: t.calls == s.calls + [(mover, call)]
  {
    assert mover in s.callers && Owns(s.callers[mover]) ==> SomeOwner(s);
    if t.calls != s.calls {
      assert t.calls == s.calls + [(mover, GetStatus)] || t.calls == s.calls + [(mover, SetStatus)];
    }
  }

  lemma LateCall(run: seq<State>, k: nat)
    requires Run(run) && k + 1 < |run| && !run[k].open
    ensures !run[k + 1].open && forall id :: Reading(run[k + 1], id) ==> Reading(run[k], id)
    ensures run[k + 1].calls == run[k].calls || Late(run[k], run[k + 1])
  {
    InvHolds(run, k);
    var mover :| Enter(run[k], run[k + 1], mover) || Step(run[k], run[k + 1], mover);
    ReadersAfterClose(run[k], run[k + 1], mover);
  }

  /** A status call of a reader. */
  ghost predicate Late(s: State, t: State)
  {
    exists id, call <- {GetStatus, SetStatus} :: Reading(s, id) && t.calls == s.calls + [(id, call)]
  }

  /** Once the descriptor is closed, the only calls still issued on it are status calls of SetAutoclear
      callers that had read the flag before the winning Detach set it. */
  lemma {:induction false} OnlyEarlyReadersCallLate(run: seq<State>, i: nat, j: nat)
    requires Run(run) && i <= j < |run| && !run[i].open
    ensures !run[j].open && run[i].calls <= run[j].calls
    ensures forall id :: Reading(run[j], id) ==> Reading(run[i], id)
    ensures forall k :: |run[i].calls| <= k < |run[j].calls| ==>
              run[j].calls[k].1 in {GetStatus, SetStatus} && Reading(run[i], run[j].calls[k].0)
  {
    if i < j {
      OnlyEarlyReadersCallLate(run, i, j - 1);
      LateCall(run, j - 1);
    }
  }

  /** Such a late call is possible: SetAutoclear reads the flag, Detach runs to its end, and only then
      LOOP_GET_STATUS64 is issued. */
  lemma StatusCallAfterClose() returns (run: seq<State>)
    ensures Run(run) && var s := run[|run| - 1];
            |s.calls| == 3 && s.calls[1] == (1, CloseFd) && s.calls[2] == (0, GetStatus)
  {
    var s0 := State(false, true, map[], []);
    var s1 := s0.(callers := map[0 := AutoStart]);
    var s2 := s0.(callers := map[0 := Loaded]);
    var s3 := s0.(callers := map[0 := Loaded, 1 := DetachStart]);
    var s4 := State(true, true, map[0 := Loaded, 1 := Won], []);
    var s5 := State(true, true, map[0 := Loaded, 1 := Cleared], [(1, ClearFd(true))]);
    var s6 := State(true, false, map[0 := Loaded, 1 := Returned], [(1, ClearFd(true)), (1, CloseFd)]);
    var s7 := State(true, false, map[0 := Got, 1 := Returned], [(1, ClearFd(true)), (1, CloseFd), (0, GetStatus)]);
    assert Enter(s0, s1, 0) && Step(s1, s2, 0) && Enter(s2, s3, 1) && Step(s3, s4, 1);
    assert Step(s4, s5, 1) && Step(s5, s6, 1) && Step(s6, s7, 0);
    run := [s0, s1, s2, s3, s4, s5, s6, s7];
  }

  /** Whatever happens next, no call is issued any more. */
  ghost predicate NoMoreCalls(run: seq<State>)
    requires run != []
  {
    forall more: seq<State> | Run(run + more) :: (run + more)[|run + more| - 1].calls == run[|run| - 1].calls
  }

  /** A caller that has read the flag in time can still issue its next status call. */
  lemma ReaderCanCall(run: seq<State>, id: nat) returns (next: State)
    requires Run(run) && Reading(run[|run| - 1], id)
    ensures Run(run + [next]) && next.calls != run[|run| - 1].calls
  {
    var s := run[|run| - 1];
    var call := if s.callers[id].Loaded? then GetStatus else SetStatus;
    next := s.(callers := s.callers[id := Returned], calls := s.calls + [(id, call)]);
    assert Step(s, next, id);
    forall i | 0 <= i < |run|
      ensures Next((run + [next])[i], (run + [next])[i + 1])
    {
      if i + 1 < |run| {
        assert Next(run[i], run[i + 1]);
      }
    }
  }

  lemma NoCallsWithoutReader(s: State, t: State)
    requires s.calls <= t.calls && !AnyReader(s)
    requires forall k :: |s.calls| <= k < |t.calls| ==> Reading(s, t.calls[k].0)
    ensures t.calls == s.calls
  {
    assert |s.calls| < |t.calls| ==> Reading(s, t.calls[|s.calls|].0);
    assert t.calls[..|s.calls|] == s.calls;
  }

  /** Once the descriptor is closed, no call is issued on it any more exactly if no caller had read the flag
      before the winning Detach set it and has not returned yet. */
  lemma QuietIffNoReader(run: seq<State>)
    requires Run(run) && !run[|run| - 1].open
    ensures NoMoreCalls(run) <==> !AnyReader(run[|run| - 1])
  {
    var n := |run| - 1;
    if AnyReader(run[n]) {
      var id :| id in run[n].callers && Reading(run[n], id);
      var next := ReaderCanCall(run, id);
      assert (run + [next])[|run + [next]| - 1] == next;
    } else {
      forall more: seq<State> | Run(run + more)
        ensures (run + more)[|run + more| - 1].calls == run[n].calls
      {
        OnlyEarlyReadersCallLate(run + more, n, |run + more| - 1);
        NoCallsWithoutReader(run[n], (run + more)[|run + more| - 1]);
      }
    }
  }
}
