/** Attaching, marking and detaching one loop device, one call at a time: internal/loopdev/loopdev.go. */
module LoopDevice {
  import opened FileTree

  const FLAG_READ_ONLY: bv32 := 1
  const FLAG_AUTOCLEAR: bv32 := 4
  const PREFIX := "/dev/loop"

  /** What a loop device is bound to. */
  datatype Binding = Binding(backing: string, offset: nat, flags: bv32)

  /** The autoclear bit is set and every other bit is as it was. */
  predicate OnlyAutoclearAdded(was: bv32, now: bv32)
  {
    now & FLAG_AUTOCLEAR != 0 && now & !FLAG_AUTOCLEAR == was & !FLAG_AUTOCLEAR
  }

  lemma WithAutoclear(flags: bv32)
    ensures OnlyAutoclearAdded(flags, flags | FLAG_AUTOCLEAR)
  {
  }

  /** The process's open descriptors, and the bindings of the loop devices. Every call may fail for
      reasons of its own, unless the kernel `works`; `faulted` says that one has. `closes` lists the
      descriptors passed to close(2). */
  class Kernel {
    const works: bool
    var open: map<nat, string>
    var bound: map<string, Binding>
    ghost var closes: seq<nat>
    ghost var faulted: bool

    constructor (works: bool)
      ensures this.works == works && open == map[] && bound == map[] && closes == [] && !faulted
    {
      this.works, open, bound, closes, faulted := works, map[], map[], [], false;
    }

    method Open(path: string) returns (ok: bool, fd: nat)
      modifies this`open, this`faulted
      ensures works ==> faulted == old(faulted)
      ensures faulted <==> old(faulted) || !ok
      ensures ok ==> fd !in old(open) && open == old(open)[fd := path]
      ensures !ok ==> open == old(open)
    {
      ok, fd := *, *;
      if works {
        ghost var free := FreeDescriptor(open.Keys);
        assert free !in open;
        fd :| fd !in open;
      }
      ok := (ok || works) && fd !in open;
      faulted := faulted || !ok;
      if ok {
        open := open[fd := path];
      }
    }

    /** The descriptor is released even when close(2) reports an error. */
    method Close(fd: nat) returns (ok: bool)
      requires fd in open
      modifies this`open, this`closes, this`faulted
      ensures works ==> faulted == old(faulted)
      ensures faulted <==> old(faulted) || !ok
      ensures open == old(open) - {fd} && closes == old(closes) + [fd]
    {
      open := open - {fd};
      closes := closes + [fd];
      ok := *;
      ok := ok || works;
      faulted := faulted || !ok;
    }

    /** LOOP_SET_FD: refused for a device that is already bound. */
    method SetFd(loopFd: nat, backingFd: nat) returns (ok: bool)
      requires loopFd in open && backingFd in open
      modifies this`bound, this`faulted
      ensures works ==> faulted == old(faulted)
      ensures faulted <==> old(faulted) || (!ok && old(open[loopFd] !in bound))
      ensures ok ==> open[loopFd] !in old(bound) && bound == old(bound)[open[loopFd] := Binding(open[backingFd], 0, 0)]
      ensures !ok ==> bound == old(bound)
    {
      ok := *;
      ok := ok || works;
      faulted := faulted || (!ok && open[loopFd] !in bound);
      ok := ok && open[loopFd] !in bound;
      if ok {
        bound := bound[open[loopFd] := Binding(open[backingFd], 0, 0)];
      }
    }

    /** LOOP_CLR_FD. */
    method ClearFd(loopFd: nat) returns (ok: bool)
      requires loopFd in open
      modifies this`bound, this`faulted
      ensures works ==> faulted == old(faulted)
      ensures faulted <==> old(faulted) || (!ok && old(open[loopFd] in bound))
      ensures ok ==> open[loopFd] in old(bound) && bound == old(bound) - {open[loopFd]}
      ensures !ok ==> bound == old(bound)
    {
      ok := *;
      ok := ok || works;
      faulted := faulted || (!ok && open[loopFd] in bound);
      ok := ok && open[loopFd] in bound;
      if ok {
        bound := bound - {open[loopFd]};
      }
    }

    /** LOOP_GET_STATUS64. */
    method GetStatus(loopFd: nat) returns (ok: bool, offset: nat, flags: bv32)
      requires loopFd in open
      modifies this`faulted
      ensures works ==> faulted == old(faulted)
      ensures faulted <==> old(faulted) || (!ok && open[loopFd] in bound)
      ensures ok ==> open[loopFd] in bound && bound[open[loopFd]].offset == offset && bound[open[loopFd]].flags == flags
    {
      ok, offset, flags := *, 0, 0;
      ok := ok || works;
      faulted := faulted || (!ok && open[loopFd] in bound);
      ok := ok && open[loopFd] in bound;
      if ok {
        offset, flags := bound[open[loopFd]].offset, bound[open[loopFd]].flags;
      }
    }

    /** LOOP_SET_STATUS64. */
    method SetStatus(loopFd: nat, offset: nat, flags: bv32) returns (ok: bool)
      requires loopFd in open
      modifies this`bound, this`faulted
      ensures works ==> faulted == old(faulted)
      ensures faulted <==> old(faulted) || (!ok && old(open[loopFd] in bound))
      ensures ok ==> open[loopFd] in old(bound)
                     && bound == old(bound)[open[loopFd] := Binding(old(bound)[open[loopFd]].backing, offset, flags)]
      ensures !ok ==> bound == old(bound)
    {
      ok := *;
      ok := ok || works;
      faulted := faulted || (!ok && open[loopFd] in bound);
      ok := ok && open[loopFd] in bound;
      if ok {
        bound := bound[open[loopFd] := Binding(bound[open[loopFd]].backing, offset, flags)];
      }
    }
  }

  lemma {:induction false} FreeDescriptor(taken: set<nat>) returns (fd: nat)
    ensures forall n <- taken :: n < fd
    decreases taken
  {
    fd := 0;
    if taken != {} {
      var n :| n in taken;
      var rest := FreeDescriptor(taken - {n});
      fd := rest + n + 1;
      assert forall m <- taken :: m == n || m in taken - {n};
    }
  }

  /** Device, without the concurrency: see LoopProtocol for that. */
  class Device {
    const kernel: Kernel
    const path: string
    const fd: nat
    var closed: bool

    constructor (kernel: Kernel, path: string, fd: nat)
      ensures this.kernel == kernel && this.path == path && this.fd == fd && !closed
    {
      this.kernel, this.path, this.fd, this.closed := kernel, path, fd, false;
    }

    /** While the device is in use its descriptor is open. */
    ghost predicate Valid()
      reads this, kernel`open
    {
      !closed ==> fd in kernel.open && kernel.open[fd] == path
    }

    method Detach() returns (ok: bool)
      requires Valid()
      modifies this, kernel
      ensures kernel.works ==> kernel.faulted == old(kernel.faulted)
      ensures Valid() && (old(kernel.faulted) ==> kernel.faulted)
      ensures !kernel.faulted ==> (closed <==> old(closed) || path in old(kernel.bound)) && (ok <==> closed)
      ensures old(closed) ==> ok && closed && kernel.open == old(kernel.open) && kernel.bound == old(kernel.bound)
                              && kernel.closes == old(kernel.closes)
      ensures !old(closed) && closed ==>
                && path in old(kernel.bound) && kernel.bound == old(kernel.bound) - {path}
                && kernel.open == old(kernel.open) - {fd} && kernel.closes == old(kernel.closes) + [fd]
      ensures !closed ==>
                && !ok && kernel.open == old(kernel.open) && kernel.bound == old(kernel.bound)
                && kernel.closes == old(kernel.closes)
    {
      if closed {
        return true;
      }
      closed := true;
      var cleared := kernel.ClearFd(fd);
      if !cleared {
        closed := false;
        return false;
      }
      ok := kernel.Close(fd);
    }

    method SetAutoclear() returns (ok: bool)
      requires Valid()
      modifies kernel`bound, kernel`faulted
      ensures kernel.works ==> kernel.faulted == old(kernel.faulted)
      ensures Valid() && (old(kernel.faulted) ==> kernel.faulted)
      ensures !kernel.faulted ==> (ok <==> closed || path in old(kernel.bound))
      ensures closed ==> ok && kernel.bound == old(kernel.bound)
      ensures !ok ==> kernel.bound == old(kernel.bound)
      ensures ok && !closed ==> path in old(kernel.bound) && kernel.bound.Keys == old(kernel.bound).Keys
      ensures ok && !closed ==>
                var was, now := old(kernel.bound)[path], kernel.bound[path];
                && kernel.bound == old(kernel.bound)[path := now]
                && now.backing == was.backing && now.offset == was.offset
                && OnlyAutoclearAdded(was.flags, now.flags)
    {
      if closed {
        return true;
      }
      var got, offset, flags := kernel.GetStatus(fd);
      if !got {
        return false;
      }
      WithAutoclear(flags);
      ok := kernel.SetStatus(fd, offset, flags | FLAG_AUTOCLEAR);
    }
  }

  datatype AttachError =
    | NoError | NoBacking | NoDevice | NotALoop | NoLoopFd | SetFdFailed | SetStatusFailed(cleared: bool)

  predicate CanBind(bound: map<string, Binding>, found: Option<string>)
  {
    found.Some? && PREFIX <= found.value && found.value !in bound
  }

  /** Lines 132-173: everything between the opening of the backing file and its deferred close. `found` is
      what the device finder answered. */
  method BindLoop(kernel: Kernel, backingFd: nat, offset: nat, readOnly: bool, found: Option<string>)
    returns (device: Device?, error: AttachError)
    requires backingFd in kernel.open
    modifies kernel
    ensures kernel.works ==> kernel.faulted == old(kernel.faulted)
    ensures !error.NoBacking? && (device == null <==> !error.NoError?)
    ensures old(kernel.faulted) ==> kernel.faulted
    ensures !kernel.faulted ==> (device != null <==> CanBind(old(kernel.bound), found))
    ensures old(kernel.closes) <= kernel.closes && backingFd !in kernel.closes[|old(kernel.closes)|..]
    ensures device == null ==> kernel.open == old(kernel.open)
    ensures device != null ==>
              && fresh(device) && device.kernel == kernel && !device.closed && device.fd != backingFd
              && device.fd !in old(kernel.open) && kernel.open == old(kernel.open)[device.fd := device.path]
              && found == Some(device.path) && "/dev/loop" <= device.path && device.path !in old(kernel.bound)
              && kernel.bound == old(kernel.bound)[device.path :=
                                   Binding(kernel.open[backingFd], offset, if readOnly then 1 else 0)]
    ensures device == null && error != SetStatusFailed(false) ==> kernel.bound == old(kernel.bound)
    ensures error == SetStatusFailed(false) ==>
              && found.Some? && found.value !in old(kernel.bound)
              && kernel.bound == old(kernel.bound)[found.value := Binding(old(kernel.open)[backingFd], 0, 0)]
  {
    device, error := null, NoError;
    if found.None? {
      return null, NoDevice;
    }
    var path := found.value;
    if !(PREFIX <= path) {
      return null, NotALoop;
    }
    var isOpen, fd := kernel.Open(path);
    if !isOpen {
      return null, NoLoopFd;
    }
    var isSet := kernel.SetFd(fd, backingFd);
    if !isSet {
      var closed := kernel.Close(fd);
      return null, SetFdFailed;
    }
    var flags := if readOnly then FLAG_READ_ONLY else 0;
    var done := kernel.SetStatus(fd, offset, flags);
    if !done {
      var cleared := kernel.ClearFd(fd);
      var closed := kernel.Close(fd);
      return null, SetStatusFailed(cleared);
    }
    device := new Device(kernel, path, fd);
  }

  /** Attacher.Attach. The backing descriptor is closed exactly once however the call ends, an error
      leaves no descriptor behind, and success leaves exactly the loop descriptor. The one error that
      leaves a binding behind is a failed LOOP_SET_STATUS64 whose clean-up fails too. */
  method Attach(kernel: Kernel, backingFile: string, offset: nat, readOnly: bool, found: Option<string>)
    returns (device: Device?, error: AttachError, ghost backingFd: nat)
    modifies kernel
    ensures kernel.works ==> kernel.faulted == old(kernel.faulted)
    ensures device == null <==> !error.NoError?
    ensures old(kernel.faulted) ==> kernel.faulted
    ensures !kernel.faulted ==> (device != null <==> CanBind(old(kernel.bound), found))
    ensures device == null ==> kernel.open == old(kernel.open)
    ensures device != null ==>
              && fresh(device) && device.kernel == kernel && device.Valid() && !device.closed
              && device.fd !in old(kernel.open) && kernel.open == old(kernel.open)[device.fd := device.path]
              && found == Some(device.path) && "/dev/loop" <= device.path && device.path !in old(kernel.bound)
              && kernel.bound == old(kernel.bound)[device.path :=
                                   Binding(backingFile, offset, if readOnly then 1 else 0)]
    ensures old(kernel.closes) <= kernel.closes
    ensures if error.NoBacking? then kernel.closes == old(kernel.closes)
            else backingFd !in old(kernel.open)
                 && multiset(kernel.closes[|old(kernel.closes)|..])[backingFd] == 1
    ensures device == null && error != SetStatusFailed(false) ==> kernel.bound == old(kernel.bound)
    ensures error == SetStatusFailed(false) ==>
              && found.Some? && found.value !in old(kernel.bound)
              && kernel.bound == old(kernel.bound)[found.value := Binding(backingFile, 0, 0)]
  {
    device, error := null, NoBacking;
    var isOpen, fd := kernel.Open(backingFile);
    backingFd := fd;
    if !isOpen {
      return;
    }
    device, error := BindLoop(kernel, fd, offset, readOnly, found);
    ghost var before := kernel.closes[|old(kernel.closes)|..];
    var closed := kernel.Close(fd);
    assert kernel.closes[|old(kernel.closes)|..] == before + [fd];
  }

  lemma FlagsInUse(readOnly: bool, flags: bv32)
    requires OnlyAutoclearAdded(if readOnly then 1 else 0, flags)
    ensures flags == if readOnly then 5 else 4
  {
  }

  /** Attach, SetAutoclear and a successful Detach leave the descriptors and the bindings as they were;
      in between, `during`, the device is bound as asked with only the autoclear bit added. */
  method Lifecycle(kernel: Kernel, backingFile: string, offset: nat, readOnly: bool, found: Option<string>)
    returns (marked: bool, detached: bool, ghost during: Option<Binding>)
    modifies kernel
    ensures kernel.works ==> kernel.faulted == old(kernel.faulted)
    ensures !kernel.faulted ==> (marked <==> CanBind(old(kernel.bound), found)) && (detached <==> marked)
    ensures detached ==> kernel.open == old(kernel.open) && kernel.bound == old(kernel.bound)
    ensures marked ==>
              && during.Some? && during.value.backing == backingFile && during.value.offset == offset
              && during.value.flags == if readOnly then 5 else 4
  {
    marked, detached, during := false, false, None;
    var device, error, _ := Attach(kernel, backingFile, offset, readOnly, found);
    if device == null {
      return;
    }
    marked := device.SetAutoclear();
    if device.path in kernel.bound {
      during := Some(kernel.bound[device.path]);
    }
    if marked {
      FlagsInUse(readOnly, during.value.flags);
    }
    var ok := device.Detach();
    detached := device.closed;
  }
}
