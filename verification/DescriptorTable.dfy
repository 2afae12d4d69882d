/** The file descriptor pool: open, close, and the exclusive lock on a device. */
module DescriptorTable {

  const MAX_FD := 32
  const EXCL: bv32 := 0x8000_0000
  const DEV: bv32 := 0x4000_0000

  datatype Errno = EACCES | ENODEV | EMFILE | EBADFD | FromDriver(code: int)

  /** A non-negative result, or -1 (for the lock: a negative code) and what went wrong. */
  datatype Result = Ok(value: nat) | Err(errno: Errno)

  /** What a descriptor refers to; nothing when it is free. */
  datatype Target = None | Device(id: nat) | FileSystem(id: nat)

  datatype Slot = Slot(dev: Target, flags: bv32)

  const FREE := Slot(None, 0)

  /** The pool and the highest descriptor ever handed out. */
  datatype Table = Table(slots: seq<Slot>, maxFd: int)

  predicate Exclusive(flags: bv32) { flags & EXCL != 0 }

  function Plain(flags: bv32): (f: bv32) { flags & 0x3FFF_FFFF }

  function Marked(flags: bv32): (f: bv32) { flags | DEV }

  function Locked(flags: bv32): (f: bv32) { flags | EXCL }

  function Unlocked(flags: bv32): (f: bv32) { flags & 0x7FFF_FFFF }

  lemma FlagFacts(flags: bv32)
    ensures !Exclusive(Plain(flags)) && Exclusive(Locked(flags)) && !Exclusive(Unlocked(flags))
    ensures Exclusive(Marked(flags)) == Exclusive(flags)
    ensures !Exclusive(0)
  {
  }

  predicate Valid(t: Table) {
    && |t.slots| == MAX_FD && -1 <= t.maxFd < MAX_FD
    && (forall i :: 0 <= i <= 2 ==> t.slots[i].dev != None)
    && (forall i :: 2 < i < MAX_FD && t.slots[i].dev != None ==> i <= t.maxFd)
    && (forall i :: 2 < i < MAX_FD && t.slots[i].dev == None ==> t.slots[i] == FREE)
  }

  /** At start the three standard descriptors refer to the null device. */
  function Initial(nullDevice: nat): (t: Table) {
    Table(seq(MAX_FD, i => if i <= 2 then Slot(Device(nullDevice), 0) else FREE), -1)
  }

  lemma InitialIsValid(nullDevice: nat)
    ensures Valid(Initial(nullDevice))
  {
  }

  // ---- what the operations do ----------------------------------------------------------

  /** The first free descriptor from i on, or the size of the pool. */
  function FirstFree(slots: seq<Slot>, i: nat): (n: nat)
    requires i <= |slots|
    ensures i <= n <= |slots|
    ensures forall k :: i <= k < n ==> slots[k].dev != None
    ensures n < |slots| ==> slots[n].dev == None
    decreases |slots| - i
  {
    if i < |slots| && slots[i].dev != None then FirstFree(slots, i + 1) else i
  }

  /** Some descriptor up to the mark, other than fd, holds a lock on the device of fd. */
  predicate LockedElsewhere(t: Table, fd: nat)
    requires fd < |t.slots|
  {
    exists i :: 0 <= i <= t.maxFd && i < |t.slots| && i != fd
      && t.slots[i].dev == t.slots[fd].dev && Exclusive(t.slots[i].flags)
  }

  /** The table once a descriptor has been claimed and its flags set. */
  function Claimed(t: Table, fd: nat, dev: Target, flags: bv32): (u: Table)
    requires fd < |t.slots|
  {
    var f := if dev.Device? then Marked(Plain(flags)) else Plain(flags);
    Table(t.slots[fd := Slot(dev, f)], if fd > t.maxFd then fd else t.maxFd)
  }

  function Released(t: Table, fd: int): (u: Table)
    requires fd < |t.slots|
  {
    if fd > 2 then t.(slots := t.slots[fd := FREE]) else t
  }

  /** answer is what the open() callback of the device or file system returns; zero when it has
      none. */
  function OpenTable(t: Table, dev: Target, flags: bv32, answer: int): (r: (Table, Result)) {
    var fd := FirstFree(t.slots, 0);
    if dev == None then (t, Err(ENODEV))
    else if fd == |t.slots| then (t, Err(EMFILE))
    else
      var u := Claimed(t, fd, dev, flags);
      if dev.Device? && LockedElsewhere(u, fd) then (Released(u, fd), Err(EACCES))
      else if answer < 0 then (Released(u, fd), Err(FromDriver(-answer)))
      else (u, Ok(fd))
  }

  function CloseTable(t: Table, fd: int, answer: int): (r: (Table, Result))
    requires fd < |t.slots|
  {
    if fd < 0 then (t, Err(EBADFD))
    else (Released(t, fd), if answer < 0 then Err(FromDriver(-answer)) else Ok(0))
  }

  /** The scan for other users of the device stops before the highest descriptor. */
  predicate SeenElsewhere(t: Table, fd: nat)
    requires fd < |t.slots|
  {
    exists i :: 0 <= i < t.maxFd && i < |t.slots| && i != fd && t.slots[i].dev == t.slots[fd].dev
  }

  function LockTable(t: Table, fd: nat): (r: (Table, Result))
    requires fd < |t.slots|
  {
    if SeenElsewhere(t, fd) then (t, Err(EACCES))
    else (t.(slots := t.slots[fd := t.slots[fd].(flags := Locked(t.slots[fd].flags))]), Ok(0))
  }

  function UnlockTable(t: Table, fd: nat): (r: (Table, Result))
    requires fd < |t.slots|
  {
    (t.(slots := t.slots[fd := t.slots[fd].(flags := Unlocked(t.slots[fd].flags))]), Ok(0))
  }

  // ---- single calls --------------------------------------------------------------------

  /** A failed open changes no descriptor. */
  lemma FailedOpenChangesNothing(t: Table, dev: Target, flags: bv32, answer: int)
    requires Valid(t) && OpenTable(t, dev, flags, answer).1.Err?
    ensures OpenTable(t, dev, flags, answer).0.slots == t.slots
  {
    var fd := FirstFree(t.slots, 0);
    if dev != None && fd < |t.slots| {
      assert t.slots[fd] == FREE;
      assert t.slots[fd := Slot(dev, 0)][fd := FREE] == t.slots;
    }
  }

  /** The device is open, and locked, through this descriptor. */
  predicate Holds(t: Table, fd: nat, dev: Target) {
    fd < |t.slots| && dev != None && t.slots[fd].dev == dev && Exclusive(t.slots[fd].flags)
  }

  /** While a descriptor holds a lock on a device, opening the device fails. */
  lemma LockedDeviceStaysShut(t: Table, holder: nat, dev: Target, flags: bv32, answer: int)
    requires Valid(t) && Holds(t, holder, dev) && dev.Device?
    ensures OpenTable(t, dev, flags, answer).1.Err?
  {
    var fd := FirstFree(t.slots, 0);
    if fd < |t.slots| {
      var u := Claimed(t, fd, dev, flags);
      assert holder != fd && u.slots[holder] == t.slots[holder];
      assert holder <= u.maxFd;
      assert LockedElsewhere(u, fd);
    }
  }

  /** A successful open takes the lowest free descriptor; no lock on the device is held, the new
      descriptor has none, and no other descriptor changes. */
  lemma SuccessfulOpen(t: Table, dev: Target, flags: bv32, answer: int)
    requires Valid(t) && OpenTable(t, dev, flags, answer).1.Ok?
    ensures var (u, r) := OpenTable(t, dev, flags, answer);
      && r.value < MAX_FD && t.slots[r.value].dev == None
      && (forall k :: 0 <= k < r.value ==> t.slots[k].dev != None)
      && u.slots == t.slots[r.value := u.slots[r.value]]
      && u.slots[r.value].dev == dev && !Exclusive(u.slots[r.value].flags)
      && (dev.Device? ==> forall k :: 0 <= k < MAX_FD ==> !Holds(t, k, dev))
  {
    var (u, r) := OpenTable(t, dev, flags, answer);
    FlagFacts(flags);
    FlagFacts(Plain(flags));
    if dev.Device? {
      forall k | 0 <= k < MAX_FD ensures !Holds(t, k, dev) {
        if Holds(t, k, dev) {
          LockedDeviceStaysShut(t, k, dev, flags, answer);
        }
      }
    }
  }

  /** An open succeeds exactly when something was found, a descriptor is free, the device is not
      locked, and its driver does not object. */
  lemma OpenSucceedsExactlyWhen(t: Table, dev: Target, flags: bv32, answer: int)
    requires Valid(t)
    ensures OpenTable(t, dev, flags, answer).1.Ok?
       <==> dev != None && FirstFree(t.slots, 0) < MAX_FD && answer >= 0
            && (dev.Device? ==> forall k :: 0 <= k < MAX_FD ==> !Holds(t, k, dev))
  {
    var fd := FirstFree(t.slots, 0);
    if OpenTable(t, dev, flags, answer).1.Ok? {
      SuccessfulOpen(t, dev, flags, answer);
    } else if dev.Device? && fd < MAX_FD && answer >= 0 {
      var u := Claimed(t, fd, dev, flags);
      var i :| 0 <= i <= u.maxFd && i < |u.slots| && i != fd
               && u.slots[i].dev == u.slots[fd].dev && Exclusive(u.slots[i].flags);
      assert u.slots[i] == t.slots[i] && Holds(t, i, dev);
    }
  }

  /** Closing a descriptor undoes its opening. */
  lemma CloseUndoesOpen(t: Table, dev: Target, flags: bv32, answer: int, closing: int)
    requires Valid(t) && OpenTable(t, dev, flags, answer).1.Ok?
    ensures var (u, r) := OpenTable(t, dev, flags, answer);
      r.value < |u.slots| && CloseTable(u, r.value, closing).0.slots == t.slots
  {
    SuccessfulOpen(t, dev, flags, answer);
    var (u, r) := OpenTable(t, dev, flags, answer);
    assert t.slots[r.value] == FREE;
    assert u.slots[r.value := FREE] == t.slots;
  }

  lemma UnlockedLocked(flags: bv32)
    requires !Exclusive(flags)
    ensures Unlocked(Locked(flags)) == flags
  {
  }

  /** A granted lock is held, and unlocking undoes it. */
  lemma UnlockUndoesLock(t: Table, fd: nat)
    requires fd < |t.slots| && t.slots[fd].dev != None && !Exclusive(t.slots[fd].flags)
    requires LockTable(t, fd).1.Ok?
    ensures var u := LockTable(t, fd).0;
      && Holds(u, fd, t.slots[fd].dev)
      && UnlockTable(u, fd).0.slots == t.slots
  {
    FlagFacts(t.slots[fd].flags);
    UnlockedLocked(t.slots[fd].flags);
    var u := LockTable(t, fd).0;
    assert u.slots[fd := t.slots[fd]] == t.slots;
  }

  // ---- runs ----------------------------------------------------------------------------

  datatype Op =
    | Open(dev: Target, flags: bv32, answer: int)
    | Close(fd: int, answer: int)
    | Lock(fd: int)
    | Unlock(fd: int)

  /** The operations follow the descriptor's device pointer: it must be in use.  Only close looks
      for a negative descriptor first. */
  predicate Allowed(t: Table, op: Op) {
    match op
    case Open(_, _, _) => true
    case Close(fd, _) => fd < 0 || (fd < |t.slots| && t.slots[fd].dev != None)
    case Lock(fd) => 0 <= fd < |t.slots| && t.slots[fd].dev != None
    case Unlock(fd) => 0 <= fd < |t.slots| && t.slots[fd].dev != None
  }

  function Apply(t: Table, op: Op): (r: (Table, Result))
    requires Allowed(t, op)
  {
    match op
    case Open(dev, flags, answer) => OpenTable(t, dev, flags, answer)
    case Close(fd, answer) => CloseTable(t, fd, answer)
    case Lock(fd) => LockTable(t, fd)
    case Unlock(fd) => UnlockTable(t, fd)
  }

  lemma ApplyKeepsValid(t: Table, op: Op)
    requires Valid(t) && Allowed(t, op)
    ensures Valid(Apply(t, op).0)
  {
  }

  /** This operation gives up what the descriptor holds. */
  predicate GivesUp(op: Op, fd: nat) {
    op == Unlock(fd) || (op.Close? && op.fd == fd && fd > 2)
  }

  lemma LockSurvives(t: Table, op: Op, holder: nat, dev: Target)
    requires Valid(t) && Allowed(t, op) && Holds(t, holder, dev) && dev.Device? && !GivesUp(op, holder)
    ensures Holds(Apply(t, op).0, holder, dev)
    ensures forall i :: 0 <= i < MAX_FD && Apply(t, op).0.slots[i].dev == dev ==> t.slots[i].dev == dev
    ensures op.Open? && op.dev == dev ==> Apply(t, op).1.Err?
  {
    FlagFacts(t.slots[holder].flags);
    match op
    case Open(target, flags, answer) =>
      if Apply(t, op).1.Err? {
        FailedOpenChangesNothing(t, target, flags, answer);
      } else {
        SuccessfulOpen(t, target, flags, answer);
      }
    case _ =>
  }

  /** A run of operations: the tables passed through and the results. */
  predicate AllowedRun(t: Table, ops: seq<Op>)
    decreases |ops|
  {
    ops == [] || (Allowed(t, ops[0]) && AllowedRun(Apply(t, ops[0]).0, ops[1..]))
  }

  function After(t: Table, ops: seq<Op>): (u: Table)
    requires AllowedRun(t, ops)
    decreases |ops|
  {
    if ops == [] then t else After(Apply(t, ops[0]).0, ops[1..])
  }

  function Results(t: Table, ops: seq<Op>): (r: seq<Result>)
    requires AllowedRun(t, ops)
    ensures |r| == |ops|
    decreases |ops|
  {
    if ops == [] then [] else [Apply(t, ops[0]).1] + Results(Apply(t, ops[0]).0, ops[1..])
  }

  /** In any run in which the holder of a lock neither unlocks nor is closed, it keeps the lock,
      every attempt to open the device fails, and no further descriptor comes to refer to it. */
  lemma {:induction false} LockExcludesOpens(t: Table, ops: seq<Op>, holder: nat, dev: Target)
    requires Valid(t) && AllowedRun(t, ops) && Holds(t, holder, dev) && dev.Device?
    requires forall k :: 0 <= k < |ops| ==> !GivesUp(ops[k], holder)
    ensures Valid(After(t, ops)) && Holds(After(t, ops), holder, dev)
    ensures forall k :: 0 <= k < |ops| && ops[k].Open? && ops[k].dev == dev ==> Results(t, ops)[k].Err?
    ensures forall i :: 0 <= i < MAX_FD && After(t, ops).slots[i].dev == dev ==> t.slots[i].dev == dev
    decreases |ops|
  {
    if ops != [] {
      assert !GivesUp(ops[0], holder);
      ApplyKeepsValid(t, ops[0]);
      LockSurvives(t, ops[0], holder, dev);
      forall k | 0 <= k < |ops[1..]| ensures !GivesUp(ops[1..][k], holder) {
        assert ops[1..][k] == ops[k + 1];
      }
      LockExcludesOpens(Apply(t, ops[0]).0, ops[1..], holder, dev);
    }
  }

  /** From the start, every run keeps the pool in order: used descriptors above the standard ones
      are at or below the mark, and free ones carry no flags. */
  lemma {:induction false} RunsKeepValid(t: Table, ops: seq<Op>)
    requires Valid(t) && AllowedRun(t, ops)
    ensures Valid(After(t, ops)) && t.maxFd <= After(t, ops).maxFd
    decreases |ops|
  {
    if ops != [] {
      ApplyKeepsValid(t, ops[0]);
      RunsKeepValid(Apply(t, ops[0]).0, ops[1..]);
    }
  }

  // ---- exclusiveness -------------------------------------------------------------------

  predicate OnlyUser(t: Table, fd: nat)
    requires fd < |t.slots|
  {
    forall i :: 0 <= i < |t.slots| && i != fd ==> t.slots[i].dev != t.slots[fd].dev
  }

  /** A granted lock is exclusive exactly when no descriptor the scan leaves out, from the mark
      up, refers to the device. */
  lemma GrantedIsExclusiveExactlyWhen(t: Table, fd: nat)
    requires Valid(t) && fd < MAX_FD && t.slots[fd].dev != None && LockTable(t, fd).1.Ok?
    ensures OnlyUser(t, fd)
       <==> forall i :: t.maxFd <= i < MAX_FD && 0 <= i && i != fd ==> t.slots[i].dev != t.slots[fd].dev
  {
  }

  /** Once the mark is past the standard descriptors, the slot at the mark is the only one that
      matters. */
  lemma GrantedIsExclusiveUnlessAtTheMark(t: Table, fd: nat)
    requires Valid(t) && t.maxFd >= 3
    requires fd < MAX_FD && t.slots[fd].dev != None && LockTable(t, fd).1.Ok?
    ensures OnlyUser(t, fd) <==> fd == t.maxFd || t.slots[t.maxFd].dev != t.slots[fd].dev
  {
    GrantedIsExclusiveExactlyWhen(t, fd);
    assert forall i :: t.maxFd < i < MAX_FD ==> t.slots[i].dev == None;
  }

  /** So the grant can be wrong: with two descriptors open on one device, the first may lock it. */
  lemma GrantedWhileShared(nullDevice: nat, device: nat)
    requires device != nullDevice
    ensures var (t, first) := OpenTable(Initial(nullDevice), Device(device), 0, 0);
      var (u, second) := OpenTable(t, Device(device), 0, 0);
      && first == Ok(3) && second == Ok(4) && |u.slots| == MAX_FD
      && LockTable(u, 3).1 == Ok(0) && !OnlyUser(u, 3)
  {
    var start := Initial(nullDevice);
    FlagFacts(0);
    FirstFreeIs(start.slots, 3);
    assert !LockedElsewhere(Claimed(start, 3, Device(device), 0), 3);
    var t := OpenTable(start, Device(device), 0, 0).0;
    FirstFreeIs(t.slots, 4);
    assert t.slots[3].flags == Marked(Plain(0)) && !Exclusive(t.slots[3].flags);
    assert !LockedElsewhere(Claimed(t, 4, Device(device), 0), 4);
    var u := OpenTable(t, Device(device), 0, 0).0;
    assert u.slots[4].dev == u.slots[3].dev;
  }

  lemma FirstFreeIs(slots: seq<Slot>, n: nat)
    requires n < |slots| && slots[n].dev == None
    requires forall i :: 0 <= i < n ==> slots[i].dev != None
    ensures FirstFree(slots, 0) == n
  {
  }

  // ---- the pool in memory --------------------------------------------------------------

  class Pool {
    const slots: array<Slot>
    var maxFd: int

    ghost function Contents(): (t: Table)
      reads this, slots
    {
      Table(slots[..], maxFd)
    }

    constructor (nullDevice: nat)
      ensures fresh(slots) && Contents() == Initial(nullDevice)
    {
      slots := new Slot[MAX_FD](i => if 0 <= i <= 2 then Slot(Device(nullDevice), 0) else FREE);
      maxFd := -1;
    }

    /** Claim the first free descriptor. */
    method GetFd(dev: Target) returns (rc: Result)
      requires Valid(Contents())
      modifies this, slots
      ensures var n := FirstFree(old(slots[..]), 0);
        if n == MAX_FD then rc == Err(EMFILE) && Contents() == old(Contents())
        else rc == Ok(n) && slots[..] == old(slots[..])[n := old(slots[n]).(dev := dev)]
             && maxFd == (if n > old(maxFd) then n else old(maxFd))
    {
      for i := 0 to MAX_FD
        invariant Contents() == old(Contents())
        invariant FirstFree(slots[..], 0) == FirstFree(slots[..], i)
      {
        if slots[i].dev == None {
          slots[i] := slots[i].(dev := dev);
          if i > maxFd {
            maxFd := i;
          }
          return Ok(i);
        }
      }
      return Err(EMFILE);
    }

    method Release(fd: int)
      requires slots.Length == MAX_FD && fd < MAX_FD
      modifies slots
      ensures Contents() == Released(old(Contents()), fd)
    {
      if fd > 2 {
        slots[fd] := slots[fd].(flags := 0);
        slots[fd] := slots[fd].(dev := None);
      }
    }

    /** Mark the descriptor as a device's, and look for a lock. */
    method FileLocked(fd: nat) returns (locked: bool)
      requires slots.Length == MAX_FD && fd <= maxFd < MAX_FD
      modifies slots
      ensures slots[..] == old(slots[..])[fd := old(slots[fd]).(flags := Marked(old(slots[fd]).flags))]
      ensures locked == LockedElsewhere(Contents(), fd)
    {
      slots[fd] := slots[fd].(flags := Marked(slots[fd].flags));
      ghost var now := slots[..];
      for i := 0 to maxFd + 1
        invariant slots[..] == now
        invariant forall k ::
          0 <= k < i && k != fd && now[k].dev == now[fd].dev ==> !Exclusive(now[k].flags)
      {
        if slots[i].dev == slots[fd].dev && Exclusive(slots[i].flags) && i != fd {
          assert now[i] == slots[i];
          return true;
        }
      }
      return false;
    }

    method OpenFile(dev: Target, flags: bv32, answer: int) returns (r: Result)
      requires Valid(Contents())
      modifies this, slots
      ensures (Contents(), r) == OpenTable(old(Contents()), dev, flags, answer)
    {
      if dev == None {
        return Err(ENODEV);
      }
      var index := GetFd(dev);
      if index.Err? {
        return index;
      }
      var fd := index.value;
      slots[fd] := slots[fd].(flags := Plain(flags));
      var status := Ok(fd);
      var locked := false;
      if dev.Device? {
        locked := FileLocked(fd);
        if locked {
          status := Err(EACCES);
        }
      }
      assert Contents() == Claimed(old(Contents()), fd, dev, flags);
      if !locked && answer < 0 {
        status := Err(FromDriver(-answer));
      }
      if status.Err? {
        Release(fd);
      }
      return status;
    }

    method CloseFile(fd: int, answer: int) returns (r: Result)
      requires slots.Length == MAX_FD && fd < MAX_FD
      modifies slots
      ensures (Contents(), r) == CloseTable(old(Contents()), fd, answer)
    {
      if fd < 0 {
        return Err(EBADFD);
      }
      Release(fd);
      return if answer < 0 then Err(FromDriver(-answer)) else Ok(0);
    }

    method LockFd(fd: nat) returns (r: Result)
      requires slots.Length == MAX_FD && fd < MAX_FD && maxFd < MAX_FD
      modifies slots
      ensures (Contents(), r) == LockTable(old(Contents()), fd)
    {
      var i := 0;
      while i < maxFd
        invariant 0 <= i && slots[..] == old(slots[..])
        invariant forall k :: 0 <= k < i && k < MAX_FD && k != fd ==> slots[k].dev != slots[fd].dev
      {
        if i != fd && slots[i].dev == slots[fd].dev {
          return Err(EACCES);
        }
        i := i + 1;
      }
      slots[fd] := slots[fd].(flags := Locked(slots[fd].flags));
      return Ok(0);
    }

    method UnlockFd(fd: nat) returns (r: Result)
      requires slots.Length == MAX_FD && fd < MAX_FD
      modifies slots
      ensures (Contents(), r) == UnlockTable(old(Contents()), fd)
    {
      slots[fd] := slots[fd].(flags := Unlocked(slots[fd].flags));
      return Ok(0);
    }
  }
}
