/** The whole cursor configuration write of src/cursor_persistence.rs: sweep, lock, stage, publish. */
module CursorStore {
  import opened Common
  import opened Filesystem
  import opened CursorTransaction
  import opened CursorPublication

  function TargetInos(f: Fs): set<nat> {
    if Target in f.entries then {f.entries[Target]} else {}
  }

  // ----- sweeping what earlier transactions left behind -----

  function DebrisNames(f: Fs): set<Name> {
    set n | n in f.entries && Transactional(n)
  }

  /** Only private files are swept. */
  function DebrisInos(f: Fs): set<nat> {
    set n | n in f.entries && Transactional(n) && IdentityOf(f, n).private :: f.entries[n]
  }

  predicate Sweepable(f: Fs) {
    && |DebrisNames(f)| <= MAX_TRANSACTION_DEBRIS
    && forall n :: n in f.entries && Transactional(n) ==> IdentityOf(f, n).private
  }

  /** More debris than is looked at, or so much that cannot be removed. */
  predicate Choked(f: Fs) {
    || |DebrisNames(f)| > MAX_TRANSACTION_DEBRIS
    || (|DebrisNames(f)| == MAX_TRANSACTION_DEBRIS && forall n <- DebrisNames(f) :: !IdentityOf(f, n).private)
  }

  /** Only transaction debris differs. */
  ghost predicate Swept(f: Fs, before: Fs) {
    && f.inodes == before.inodes && f.next == before.next
    && forall n :: !Transactional(n) ==> SameEntry(f, before, n)
  }

  lemma SweptIsSteady(f: Fs, before: Fs, start: Fs)
    requires Swept(f, before) && Steady(before, start, Pending)
    ensures Steady(f, start, Pending)
  {
    forall n | n != Target && n != Lock && !Transactional(n) ensures SameEntry(f, start, n) {
      assert SameEntry(f, before, n) && SameEntry(before, start, n);
    }
    assert SameEntry(f, before, Target);
  }

  lemma RemovalSweeps(start: Fs, events: seq<Event>, end: Fs, name: Name, ino: nat, parked: Name, before: Fs)
    requires Removal(start, events, end, name, ino, parked) && Transactional(name)
    requires Swept(start, before)
    ensures forall k :: 0 <= k < |events| ==> Swept(events[k].after, before)
    ensures Swept(end, before)
    ensures forall n :: n != name && n in start.entries ==> SameEntry(end, start, n)
  {
    if events != [] {
      var aside := Moved(start, name, parked);
      forall n | !Transactional(n) ensures SameEntry(aside, before, n) && SameEntry(Removed(start, name), before, n) {
        assert SameEntry(start, before, n);
      }
    }
  }

  /** Steps of a sweep: they touch debris only, unlink private files only, and end in `f`. */
  ghost predicate Sweeps(f: Fs, events: seq<Event>, before: Fs) {
    && Swept(f, before) && (forall k :: 0 <= k < |events| ==> Swept(events[k].after, before))
    && Orderly(events, false, DebrisInos(before)) && Unsynced(events) && Swaps(events) == 0 && Undisturbed(events)
  }

  lemma NothingSwept(before: Fs)
    ensures Swept(before, before) && Sweeps(before, [], before)
    ensures forall n :: SameEntry(before, before, n)
  {
  }

  lemma StillSwept(f: Fs, events: seq<Event>, before: Fs)
    requires Sweeps(f, events, before)
    ensures Swept(f, before)
  {
  }

  lemma SweepsOn(f: Fs, first: seq<Event>, g: Fs, second: seq<Event>, before: Fs)
    requires Sweeps(f, first, before) && Sweeps(g, second, before)
    ensures Sweeps(g, first + second, before)
  {
    hide Swept, Orderly, Unsynced, Swaps, Undisturbed;
    OrderlyExtends(first, second, false, DebrisInos(before));
    SwapsAdd(first, second);
    UnsyncedAdds(first, second);
    UndisturbedAdds(first, second);
  }

  /** Remove one piece of debris if it is a private file. */
  method SweepOne(dir: Directory, name: Name, ghost before: Fs) returns (removed: bool, ghost events: seq<Event>)
    requires Transactional(name) && name in dir.fs.entries && Swept(dir.fs, before)
    requires SameEntry(dir.fs, before, name)
    modifies dir`fs, dir`trace
    ensures old(dir.Recorded()) ==> dir.Recorded()
    ensures dir.trace == old(dir.trace) + events
    ensures Sweeps(dir.fs, events, before)
    ensures forall n :: n != name && n in old(dir.fs.entries) ==> SameEntry(dir.fs, old(dir.fs), n)
    ensures !IdentityOf(before, name).private ==> !removed && dir.fs == old(dir.fs)
    ensures dir.reliable && IdentityOf(before, name).private ==>
              removed && dir.fs == Removed(old(dir.fs), name) && events != [] && events[|events| - 1].after == dir.fs
  {
    hide Chain, Orderly, Unsynced, Swaps, Undisturbed;
    events := [];
    CheckIsOrderly([], false);
    PlainOps([], {});
    OrderlyWidens([], false, {}, DebrisInos(before));
    var handle := dir.Open(name);
    if !handle.Opened? {
      return false, events;
    }
    var identity := dir.Fstat(handle.ino);
    if identity.None? || !identity.value.private {
      return false, events;
    }
    ghost var start := dir.fs;
    var r, removal, parked := RemoveOwned(dir, name, identity.value);
    RemovalSweeps(start, removal, dir.fs, name, identity.value.ino, parked, before);
    RemovalOps(start, removal, dir.fs, name, identity.value.ino, parked);
    assert before.entries[name] in DebrisInos(before);
    OrderlyWidens(removal, false, {identity.value.ino}, DebrisInos(before));
    return r.Ok?, removal;
  }

  /** All the names but those still to do are gone. */
  ghost predicate ClearedBut(f: Fs, events: seq<Event>, before: Fs, names: set<Name>, todo: set<Name>) {
    && f.entries == before.entries - (names - todo)
    && (todo != names ==> events != [] && events[|events| - 1].after == f)
  }

  lemma SweepStep(current: Fs, events: seq<Event>, after: Fs, sweeping: seq<Event>, before: Fs, names: set<Name>,
                  todo: set<Name>,
                  name: Name)
    requires name in todo && todo <= names && ClearedBut(current, events, before, names, todo)
    requires name in current.entries && after == Removed(current, name)
    requires sweeping != [] && sweeping[|sweeping| - 1].after == after
    ensures ClearedBut(after, events + sweeping, before, names, todo - {name})
  {
    assert (names - todo) + {name} == names - (todo - {name});
  }

  method SweepDebris(dir: Directory) returns (r: Result<(), PersistenceError>, ghost events: seq<Event>)
    modifies dir`fs, dir`trace
    ensures old(dir.Recorded()) ==> dir.Recorded()
    ensures dir.trace == old(dir.trace) + events && Sweeps(dir.fs, events, old(dir.fs))
    ensures Choked(old(dir.fs)) ==> r.Err? && dir.fs == old(dir.fs)
    ensures dir.reliable && Sweepable(old(dir.fs)) ==>
              r.Ok? && dir.fs.entries == old(dir.fs.entries) - DebrisNames(old(dir.fs))
    ensures dir.reliable && Sweepable(old(dir.fs)) && DebrisNames(old(dir.fs)) != {} ==>
              events != [] && events[|events| - 1].after == dir.fs
  {
    hide Chain, Sweeps;
    NothingSwept(dir.fs);
    events := [];
    var listed := dir.List();
    if listed.None? {
      return Err(WriteFailed), events;
    }
    var names := set n | n in listed.value && Transactional(n);
    assert names == DebrisNames(dir.fs);
    if |names| > MAX_TRANSACTION_DEBRIS {
      return Err(WriteFailed), events;
    }
    var remaining;
    remaining, events := SweepAll(dir, names);
    r := if remaining >= MAX_TRANSACTION_DEBRIS then Err(WriteFailed) else Ok(());
  }

  lemma RestIsKept(before: Fs, current: Fs, after: Fs, todo: set<Name>, name: Name)
    requires forall n :: n in todo ==> n in current.entries && SameEntry(current, before, n)
    requires forall n :: n != name && n in current.entries ==> SameEntry(after, current, n)
    ensures forall n :: n in todo - {name} ==> n in after.entries && SameEntry(after, before, n)
  {
  }

  /** Sweep every name given; what is not removed is counted. */
  method SweepAll(dir: Directory, names: set<Name>) returns (remaining: nat, ghost events: seq<Event>)
    requires names == DebrisNames(dir.fs)
    modifies dir`fs, dir`trace
    ensures old(dir.Recorded()) ==> dir.Recorded()
    ensures dir.trace == old(dir.trace) + events && Sweeps(dir.fs, events, old(dir.fs))
    ensures (forall n <- names :: !old(IdentityOf(dir.fs, n)).private) ==> remaining == |names| && dir.fs == old(dir.fs)
    ensures dir.reliable && Sweepable(old(dir.fs)) ==> remaining == 0 && dir.fs.entries == old(dir.fs.entries) - names
    ensures dir.reliable && Sweepable(old(dir.fs)) && names != {} ==>
              events != [] && events[|events| - 1].after == dir.fs
  {
    hide Chain, Sweeps, SameEntry, Swept, ClearedBut;
    ghost var before := dir.fs;
    ghost var hopeless := forall n <- names :: !IdentityOf(before, n).private;
    events := [];
    NothingSwept(before);
    remaining := 0;
    var todo := names;
    NothingCleared(before, names);
    while todo != {}
      invariant todo <= names && dir.trace == old(dir.trace) + events
      invariant old(dir.Recorded()) ==> dir.Recorded()
      invariant Sweeps(dir.fs, events, before)
      invariant hopeless ==> remaining + |todo| == |names| && dir.fs == before
      invariant forall n :: n in todo ==> n in dir.fs.entries && SameEntry(dir.fs, before, n)
      invariant dir.reliable && Sweepable(before) ==> remaining == 0 && ClearedBut(dir.fs, events, before, names, todo)
      decreases todo
    {
      var name :| name in todo;
      ghost var current := dir.fs;
      StillSwept(dir.fs, events, before);
      var removed, sweeping := SweepOne(dir, name, before);
      if !removed {
        remaining := remaining + 1;
      }
      if dir.reliable && Sweepable(before) { SweepStep(current, events, dir.fs, sweeping, before, names, todo, name); }
      RestIsKept(before, current, dir.fs, todo, name);
      todo := todo - {name};
      SweepsOn(current, events, dir.fs, sweeping, before);
      events := events + sweeping;
    }
    if dir.reliable && Sweepable(before) { AllCleared(dir.fs, events, before, names); }
  }

  lemma NothingCleared(before: Fs, names: set<Name>)
    ensures ClearedBut(before, [], before, names, names)
  {
    assert before.entries - (names - names) == before.entries;
  }

  lemma AllCleared(f: Fs, events: seq<Event>, before: Fs, names: set<Name>)
    requires ClearedBut(f, events, before, names, {})
    ensures f.entries == before.entries - names && (names != {} ==> events != [] && events[|events| - 1].after == f)
  {
    assert names - {} == names;
  }

  // ----- the whole write -----

  /** Other processes and lock creation touch only the lock, unless the writer is not alone. */
  ghost predicate OnlyLock(f: Fs, before: Fs, solitary: bool) {
    && f.next >= before.next
    && (forall i :: i in before.inodes ==> i in f.inodes && f.inodes[i] == before.inodes[i])
    && (forall n :: n != Lock && (solitary || n != Target) ==> SameEntry(f, before, n))
  }

  lemma OnlyLockIsSteady(f: Fs, start: Fs)
    requires OnlyLock(f, start, true)
    ensures Steady(f, start, Pending)
  {
  }

  lemma OnlyLockComposes(f: Fs, g: Fs, h: Fs, solitary: bool)
    requires OnlyLock(g, f, solitary) && OnlyLock(h, g, solitary)
    ensures OnlyLock(h, f, solitary)
  {
    forall n | n != Lock && (solitary || n != Target) ensures SameEntry(h, f, n) {
      assert SameEntry(h, g, n) && SameEntry(g, f, n);
    }
  }

  lemma StillChoked(f: Fs, before: Fs, solitary: bool)
    requires OnlyLock(f, before, solitary)
    ensures Choked(before) ==> Choked(f)
  {
    assert DebrisNames(f) == DebrisNames(before) by {
      assert forall n :: Transactional(n) ==> SameEntry(f, before, n);
    }
    forall n | n in DebrisNames(before) ensures IdentityOf(f, n) == IdentityOf(before, n) {
      assert SameEntry(f, before, n);
    }
  }

  /** The lock file that was there, or a new one. */
  predicate LockKept(f: Entries, start: Fs) {
    Lock in f && if Lock in start.entries then f[Lock] == start.entries[Lock] else f[Lock] >= start.next
  }

  /** The inode of the lock file, or of the one to be made. */
  function LockOf(f: Fs): nat {
    if Lock in f.entries then f.entries[Lock] else f.next
  }

  method OpenLock(dir: Directory) returns (r: Result<Identity, PersistenceError>, ghost events: seq<Event>)
    modifies dir`fs, dir`trace
    ensures old(dir.Recorded()) ==> dir.Recorded()
    ensures dir.trace == old(dir.trace) + events
    ensures forall k :: 0 <= k < |events| ==> events[k].op.Create? && events[k].after == dir.fs
    ensures OnlyLock(dir.fs, old(dir.fs), true)
    ensures r.Ok? ==> LockIs(dir.fs, r.value) && r.value.private && r.value.ino == LockOf(old(dir.fs))
    ensures dir.reliable && (Lock in old(dir.fs.entries) ==> old(IdentityOf(dir.fs, Lock)).private) ==>
              r.Ok? && dir.fs.entries == old(dir.fs.entries)[Lock := r.value.ino] && LockKept(dir.fs.entries, old(dir.fs))
  {
    hide Chain;
    events := [];
    var handle := dir.Open(Lock);
    var ino: nat;
    match handle {
      case Refused =>
        var irregular: bool := *;
        return Err(if irregular then Insecure else WriteFailed), events;
      case Opened(present) => ino := present;
      case Absent =>
        var created := dir.CreateExclusive(Lock);
        if !created.Created? {
          return Err(WriteFailed), events;
        }
        ino := created.ino;
        events := [Event(Create(Lock, ino), dir.fs)];
    }
    var identity := dir.Fstat(ino);
    if identity.None? || !identity.value.private {
      return Err(Insecure), events;
    }
    r := Ok(identity.value);
  }

  /** Admission: every step so far concerned the lock only. */
  ghost predicate Admission(events: seq<Event>, lost: bool, start: Fs, solitary: bool) {
    && (forall k :: 0 <= k < |events| ==> OnlyLock(events[k].after, start, solitary))
    && (forall k :: 0 <= k < |events| ==>
          || events[k].op.Create? || events[k].op.Foreign? || events[k].op.LockHeld?
          || (lost && k == |events| - 1 && events[k].op.LockLost?))
    && (lost ==> events != [] && events[|events| - 1].op.LockLost?)
  }

  /** The admission so far: the lock still to be checked, or just found in place. */
  ghost predicate Admitting(dir: Directory, base: seq<Event>, events: seq<Event>, lost: bool, start: Fs)
    reads dir
  {
    && dir.trace == base + events && dir.fs.next >= start.next
    && Admission(events, lost, start, dir.solitary) && OnlyLock(dir.fs, start, dir.solitary)
  }

  /** One lock identity check during admission. */
  method Recheck(dir: Directory, expected: Identity, ghost base: seq<Event>, ghost sofar: seq<Event>, ghost start: Fs)
    returns (lost: bool, ghost events: seq<Event>)
    requires Admitting(dir, base, sofar, false, start) && expected.ino < dir.fs.next && expected.ino in dir.flocked
    modifies dir`fs, dir`trace
    ensures old(dir.Recorded()) ==> dir.Recorded()
    ensures Admitting(dir, base, events, lost, start) && dir.fs.next >= old(dir.fs.next)
    ensures !lost ==> Watched(events, expected.ino, |events|)
    ensures dir.Quiet() ==> dir.fs == old(dir.fs) && (lost <==> !LockIs(dir.fs, expected))
  {
    ghost var before := dir.fs;
    hide Chain, Orderly, Unsynced, Swaps, Steady, Licensed, Watched;
    var held, gone, checking := RequireLockIdentity(dir, expected, start, Pending);
    OnlyLockComposes(start, before, dir.fs, dir.solitary);
    lost := gone;
    events := sofar + checking;
    if !lost { WatchedLater(sofar, checking, expected.ino, |checking|); }
  }

  /** A moment during admission in which other processes may act. */
  method Pause(dir: Directory, ghost base: seq<Event>, ghost sofar: seq<Event>,
               ghost start: Fs) returns (ghost events: seq<Event>)
    requires Admitting(dir, base, sofar, false, start)
    modifies dir`fs, dir`trace
    ensures old(dir.Recorded()) ==> dir.Recorded()
    ensures Admitting(dir, base, events, false, start) && dir.fs.next >= old(dir.fs.next)
    ensures forall lock :: Checked(sofar, lock) ==> Checked(events, lock)
    ensures sofar <= events && forall k :: |sofar| <= k < |events| ==> events[k].op.Foreign?
    ensures dir.Quiet() ==> dir.fs == old(dir.fs)
  {
    ghost var before := dir.fs;
    hide Chain, Orderly, Unsynced, Swaps, Steady, Licensed, Checked;
    var acting := Interlude(dir, start, Pending);
    OnlyLockComposes(start, before, dir.fs, dir.solitary);
    events := sofar + acting;
    forall lock | Checked(sofar, lock) ensures Checked(events, lock) { CheckedStays(sofar, events, lock); }
  }

  /** The lock was found in place at some time. */
  ghost predicate Checked(events: seq<Event>, lock: nat) {
    exists k :: 0 <= k < |events| && events[k].op == LockHeld(lock)
  }

  /** Nothing was done but to make a lock file. */
  ghost predicate TurnedAway(failed: bool, lost: bool, events: seq<Event>) {
    failed && !lost && forall k :: 0 <= k < |events| ==> events[k].op.Create? || events[k].op.Foreign?
  }

  /** Open and take the lock; meanwhile others may act. */
  method TakeLock(dir: Directory, fault: Option<Fault>, ghost base: seq<Event>)
    returns (r: Result<Identity, PersistenceError>, ghost events: seq<Event>)
    requires dir.trace == base
    modifies dir`fs, dir`trace, dir`flocked
    ensures old(dir.Recorded()) ==> dir.Recorded()
    ensures Admitting(dir, base, events, false, old(dir.fs))
    ensures r.Ok? ==> r.value.ino == LockOf(old(dir.fs)) < dir.fs.next && r.value.ino in dir.flocked && !dir.contended
    ensures dir.reliable && (Lock in old(dir.fs.entries) ==> old(IdentityOf(dir.fs, Lock)).private) ==>
              if Injected(fault, AfterLockOpen) then r == Err(WriteFailed)
              else if dir.contended then r == Err(Busy)
              else if Injected(fault, AfterFlock) then r == Err(WriteFailed) else r.Ok?
    ensures dir.contended ==> forall k :: 0 <= k < |events| ==> events[k].op.Create? || events[k].op.Foreign?
    ensures dir.Quiet() && (Lock in old(dir.fs.entries) ==> old(IdentityOf(dir.fs, Lock)).private) ==>
              && LockKept(dir.fs.entries, old(dir.fs))
              && dir.fs.entries == old(dir.fs.entries)[Lock := dir.fs.entries[Lock]]
              && (r.Ok? ==> LockIs(dir.fs, r.value))
  {
    hide Chain, Admission, OnlyLock, Checked;
    ghost var start := dir.fs;
    var lock, locking := OpenLock(dir);
    events := locking;
    OpeningAdmits(locking, start, dir.fs, dir.solitary);
    if lock.Err? {
      return Err(lock.error), events;
    }
    events := Pause(dir, base, events, start);
    if Injected(fault, AfterLockOpen) {
      return Err(WriteFailed), events;
    }
    var locked := dir.Flock(lock.value.ino);
    if !locked.Locked? {
      return Err(if locked.WouldBlock? then Busy else WriteFailed), events;
    }
    events := Pause(dir, base, events, start);
    if Injected(fault, AfterFlock) {
      return Err(WriteFailed), events;
    }
    r := lock;
  }

  /** Take the lock and check twice that it is still the file that was locked; before each check others may act. */
  method Admit(dir: Directory, fault: Option<Fault>)
    returns (r: Result<Identity, PersistenceError>, lost: bool, ghost events: seq<Event>)
    modifies dir`fs, dir`trace, dir`flocked
    ensures old(dir.Recorded()) ==> dir.Recorded()
    ensures Admitting(dir, old(dir.trace), events, lost, old(dir.fs))
    ensures lost ==> r == Err(Insecure)
    ensures r.Ok? ==> r.value.ino == LockOf(old(dir.fs)) < dir.fs.next && Watched(events, r.value.ino, |events|)
    ensures r.Ok? ==> r.value.ino in dir.flocked && !dir.contended
    ensures dir.contended ==> TurnedAway(r.Err?, lost, events)
    ensures dir.reliable && dir.contended && !Injected(fault, AfterLockOpen)
              && (Lock in old(dir.fs.entries) ==> old(IdentityOf(dir.fs, Lock)).private) ==>
              r == Err(Busy)
    ensures dir.reliable && !dir.contended
              && (Lock in old(dir.fs.entries) ==> old(IdentityOf(dir.fs, Lock)).private) ==>
              && (fault.None? ==> r.Ok? || lost)
              && (Injected(fault, BeforeStaleCleanup) ==> lost || Checked(events, LockOf(old(dir.fs))))
    ensures dir.Quiet() && (Lock in old(dir.fs.entries) ==> old(IdentityOf(dir.fs, Lock)).private) ==>
              && LockKept(dir.fs.entries, old(dir.fs))
              && dir.fs.entries == old(dir.fs.entries)[Lock := dir.fs.entries[Lock]]
              && if FailsBeforeSweep(fault) then r == Err(WriteFailed) else r.Ok? && LockIs(dir.fs, r.value)
  {
    hide Chain, Watched, Admission, OnlyLock, Checked;
    ghost var start, base := dir.fs, dir.trace;
    var lock, locking := TakeLock(dir, fault, base);
    lost, events := false, locking;
    if lock.Err? {
      return lock, lost, events;
    }
    lost, events := Recheck(dir, lock.value, base, events, start);
    if lost {
      return Err(Insecure), lost, events;
    }
    WatchedIsChecked(events, lock.value.ino);
    events := Pause(dir, base, events, start);
    if Injected(fault, BeforeStaleCleanup) {
      return Err(WriteFailed), lost, events;
    }
    lost, events := Recheck(dir, lock.value, base, events, start);
    if lost {
      return Err(Insecure), lost, events;
    }
    r := lock;
  }

  lemma OpeningAdmits(events: seq<Event>, start: Fs, f: Fs, solitary: bool)
    requires forall k :: 0 <= k < |events| ==> events[k].op.Create? && events[k].after == f
    requires OnlyLock(f, start, true)
    ensures Admission(events, false, start, solitary) && OnlyLock(f, start, solitary)
  {
  }

  lemma WatchedIsChecked(events: seq<Event>, lock: nat)
    requires Watched(events, lock, |events|)
    ensures Checked(events, lock)
  {
    var h :| 0 <= h < |events| && HeldSince(events, lock, h, |events|);
    assert events[h].op == LockHeld(lock);
  }

  lemma CheckedStays(events: seq<Event>, more: seq<Event>, lock: nat)
    requires Checked(events, lock) && |events| <= |more| && forall k :: 0 <= k < |events| ==> more[k] == events[k]
    ensures Checked(more, lock)
  {
    var k :| 0 <= k < |events| && events[k].op == LockHeld(lock);
    assert more[k].op == LockHeld(lock);
  }

  lemma AdmissionChronicle(events: seq<Event>, lost: bool, start: Fs, solitary: bool, own: set<nat>)
    requires Admission(events, lost, start, solitary)
    ensures Chronicle(events, lost, solitary, start, Pending, own) && Unsynced(events) && Swaps(events) == 0
    ensures forall floor, lock :: Licensed(events, floor, lock)
    ensures solitary && Target in start.entries ==>
              forall k :: 0 <= k < |events| ==> Reachable(events[k].after, start.entries[Target])
  {
    NoSwaps(events);
    if solitary {
      forall k | 0 <= k < |events|
        ensures Steady(events[k].after, start, Pending)
        ensures Target in start.entries ==> Reachable(events[k].after, start.entries[Target])
      {
        OnlyLockIsSteady(events[k].after, start);
        assert Target in start.entries ==> Names(events[k].after, Target, start.entries[Target]);
      }
    }
  }

  lemma SweepIsCalm(events: seq<Event>, before: Fs, start: Fs)
    requires forall k :: 0 <= k < |events| ==> Swept(events[k].after, before)
    requires Steady(before, start, Pending)
    ensures Calm(events, start, Pending)
    ensures Target in start.entries ==>
              forall k :: 0 <= k < |events| ==> Reachable(events[k].after, start.entries[Target])
  {
    forall k | 0 <= k < |events|
      ensures Steady(events[k].after, start, Pending)
      ensures Target in start.entries ==> Reachable(events[k].after, start.entries[Target])
    {
      SweptIsSteady(events[k].after, before, start);
      assert Target in start.entries ==> Names(events[k].after, Target, start.entries[Target]);
    }
  }

  lemma OnlyLockDebris(f: Fs, start: Fs, solitary: bool)
    requires OnlyLock(f, start, solitary)
    ensures DebrisNames(f) == DebrisNames(start) && DebrisInos(f) == DebrisInos(start)
    ensures Sweepable(start) ==> Sweepable(f)
  {
    assert forall n :: Transactional(n) ==> SameEntry(f, start, n);
  }

  /** The files a healthy directory holds are private, and there is not too much debris. */
  predicate Healthy(f: Fs) {
    && (Lock in f.entries ==> IdentityOf(f, Lock).private)
    && (Target in f.entries ==> IdentityOf(f, Target).private)
    && Sweepable(f)
  }

  /** After step `k`, before any directory sync, no transaction file is left and the configuration file is as it was. */
  ghost predicate SweptAt(events: seq<Event>, k: int, start: Fs)
    requires 0 <= k < |events|
  {
    && (forall n <- events[k].after.entries :: !Transactional(n))
    && LockKept(events[k].after.entries, start)
    && (forall n :: n != Lock && !Transactional(n) ==> SameEntry(events[k].after, start, n))
    && (forall i :: 0 <= i <= k ==> !events[i].op.SyncDirectory?)
  }

  ghost predicate SweepsAll(events: seq<Event>, start: Fs) {
    exists k :: 0 <= k < |events| && SweptAt(events, k, start)
  }

  /** Lock, sweep, and look at what is there; no entry but the lock and the debris is touched. */
  method Prepare(dir: Directory, fault: Option<Fault>)
    returns (r: Result<(Identity, Option<Identity>), PersistenceError>, lost: bool, ghost events: seq<Event>)
    modifies dir`fs, dir`trace, dir`flocked
    ensures old(dir.Recorded()) ==> dir.Recorded()
    ensures dir.trace == old(dir.trace) + events
    ensures Chronicle(events, lost, dir.solitary, old(dir.fs), Pending, DebrisInos(old(dir.fs))) && Unsynced(events)
              && Swaps(events) == 0
    ensures lost ==> r == Err(Insecure)
    ensures Licensed(events, old(dir.fs.next), LockOf(old(dir.fs)))
    ensures r.Ok? ==>
              r.value.0.ino == LockOf(old(dir.fs)) < dir.fs.next && r.value.0.ino in dir.flocked && !dir.contended
    ensures dir.contended ==> TurnedAway(r.Err?, lost, events)
    ensures dir.reliable && dir.contended && !Injected(fault, AfterLockOpen)
              && (Lock in old(dir.fs.entries) ==> old(IdentityOf(dir.fs, Lock)).private) ==>
              r == Err(Busy)
    ensures Choked(old(dir.fs)) ==> r.Err? && Swaps(events) == 0
    ensures dir.Tame() && Healthy(old(dir.fs)) && fault.None? ==> r.Ok? || lost
    ensures dir.fs.next >= old(dir.fs.next)
    ensures dir.solitary ==> Steady(dir.fs, old(dir.fs), Pending)
    ensures dir.solitary && Target in old(dir.fs.entries) ==>
              forall k :: 0 <= k < |events| ==> Reachable(events[k].after, old(dir.fs.entries)[Target])
    ensures r.Ok? ==> TargetIs(dir.fs, r.value.1)
    ensures dir.Quiet() && Healthy(old(dir.fs)) ==>
              && LockKept(dir.fs.entries, old(dir.fs))
              && if FailsBeforeSweep(fault)
                 then r == Err(WriteFailed) && dir.fs.entries == old(dir.fs.entries)[Lock := dir.fs.entries[Lock]]
                 else && r.Ok? && LockIs(dir.fs, r.value.0) && (r.value.1.Some? <==> Target in old(dir.fs.entries))
                      && dir.fs.entries == (old(dir.fs.entries) - DebrisNames(old(dir.fs)))[Lock := dir.fs.entries[Lock]]
    ensures dir.Quiet() && Healthy(old(dir.fs)) && !FailsBeforeSweep(fault) && DebrisNames(old(dir.fs)) != {} ==>
              SweepsAll(events, old(dir.fs))
  {
    hide Steady, Chain, Orderly, Swaps, Unsynced, SweepsAll, Licensed, Watched, Undisturbed, Admission, Swept;
    hide Reachable;
    hide Calm, DebrisInos, OnlyLock, LockIs, Sweepable, Sweeps, Choked, TurnedAway, DebrisNames, LockOf, Injected;
    hide Chronicle;
    ghost var start := dir.fs;
    var admitted, gone, admission := Admit(dir, fault);
    lost, events := gone, admission;
    AdmissionChronicle(admission, lost, start, dir.solitary, DebrisInos(start));
    if dir.solitary { OnlyLockIsSteady(dir.fs, start); }
    if admitted.Err? {
      return Err(admitted.error), lost, events;
    }
    ghost var locked := dir.fs;
    OnlyLockDebris(locked, start, dir.solitary);
    StillChoked(locked, start, dir.solitary);
    var swept, sweeping := SweepDebris(dir);
    SweepFollows(admission, sweeping, locked, dir.fs, start, dir.solitary);
    if dir.Tame() && Healthy(start) { RolesKept(dir.fs, locked, start, admitted.value, dir.solitary); }
    events := admission + sweeping;
    assert dir.trace == (old(dir.trace) + admission) + sweeping;
    if dir.Quiet() && Healthy(start) && DebrisNames(start) != {} { SweepIsAll(admission, sweeping, dir.fs, start); }
    if swept.Err? {
      return Err(swept.error), lost, events;
    }
    var existing := Inspect(dir);
    if existing.Err? {
      return Err(existing.error), lost, events;
    }
    r := Ok((admitted.value, existing.value));
  }

  /**
   After admission and sweep the configuration file is the one that was there,
   and the lock the one that was locked.
   */
  lemma RolesKept(f: Fs, locked: Fs, start: Fs, lock: Identity, solitary: bool)
    requires OnlyLock(locked, start, solitary) && Swept(f, locked) && Healthy(start)
    requires solitary || (Lock in locked.entries && locked.entries == start.entries[Lock := locked.entries[Lock]])
    ensures SameEntry(f, start, Target) && (Target in f.entries ==> IdentityOf(f, Target).private)
    ensures LockIs(locked, lock) ==> LockIs(f, lock)
  {
    assert SameEntry(locked, start, Target) && SameEntry(f, locked, Target) && SameEntry(f, locked, Lock);
  }

  lemma SweptGrows(f: Fs, before: Fs)
    requires Swept(f, before)
    ensures f.next >= before.next
  {
  }

  /** What holds of admission holds when the sweep follows it. */
  lemma SweepFollows(admission: seq<Event>, sweeping: seq<Event>, locked: Fs, end: Fs, start: Fs, solitary: bool)
    requires Admission(admission, false, start, solitary) && OnlyLock(locked, start, solitary)
    requires Watched(admission, LockOf(start), |admission|)
    requires Sweeps(end, sweeping, locked) && DebrisInos(locked) == DebrisInos(start)
    ensures var events := admission + sweeping;
            && Chronicle(events, false, solitary, start, Pending, DebrisInos(start)) && Unsynced(events)
                && Swaps(events) == 0
            && Licensed(events, start.next, LockOf(start))
            && (solitary && Target in start.entries ==>
                  forall k :: 0 <= k < |events| ==> Reachable(events[k].after, start.entries[Target]))
    ensures (solitary ==> Steady(end, start, Pending)) && end.next >= locked.next >= start.next && Swept(end, locked)
  {
    hide Steady, Orderly, Swaps, Unsynced, Licensed, Watched, Undisturbed, Admission, Swept, Reachable, DebrisInos;
    assert end.next >= locked.next by { SweptGrows(end, locked); }
    AdmissionChronicle(admission, false, start, solitary, DebrisInos(start));
    OrderlyExtends(admission, sweeping, false, DebrisInos(start));
    SwapsAdd(admission, sweeping);
    UnsyncedAdds(admission, sweeping);
    WatchLasts(admission, sweeping, start.next, LockOf(start));
    if solitary {
      OnlyLockIsSteady(locked, start);
      SweepIsCalm(sweeping, locked, start);
      SweptIsSteady(end, locked, start);
    }
  }

  lemma SweepIsAll(admission: seq<Event>, sweeping: seq<Event>, end: Fs, start: Fs)
    requires Unsynced(admission + sweeping) && sweeping != [] && sweeping[|sweeping| - 1].after == end
    requires LockKept(end.entries, start)
              && end.entries == (start.entries - DebrisNames(start))[Lock := end.entries[Lock]]
    ensures SweepsAll(admission + sweeping, start)
  {
    var all := admission + sweeping;
    assert all[|all| - 1] == sweeping[|sweeping| - 1];
    assert SweptAt(all, |all| - 1, start);
  }

  /**
   One write of `document`.  `events` are its steps, the candidate being
   complete from step `p` on, `made` is its inode and `own` holds the inodes it
   may unlink.
   */
  method Write(dir: Directory, unavailable: Option<PersistenceError>, document: Document, fault: Option<Fault>)
    returns (r: Result<WriteOutcome, PersistenceError>, ghost lost: bool, ghost events: seq<Event>, ghost made: nat,
             ghost own: set<nat>, ghost p: nat)
    modifies dir`fs, dir`trace, dir`flocked
    ensures old(dir.Recorded()) ==> dir.Recorded()
    ensures dir.trace == old(dir.trace) + events && made >= old(dir.fs.next)
    ensures unavailable.Some? ==> r == Err(unavailable.value) && !lost && events == [] && dir.fs == old(dir.fs)
    // while another process has the lock nothing is done
    ensures dir.contended ==> TurnedAway(r.Err?, lost, events)
    ensures unavailable.None? && dir.reliable && dir.contended && !Injected(fault, AfterLockOpen)
              && (Lock in old(dir.fs.entries) ==> old(IdentityOf(dir.fs, Lock)).private) ==>
              r == Err(Busy)
    // nor is it while debris chokes the directory
    ensures Choked(old(dir.fs)) ==> r.Err? && Swaps(events) == 0
    // every step leaves the complete old or the complete new document in place
    ensures dir.solitary ==> AllSafe(events, old(dir.fs), document) && Safe(dir.fs, old(dir.fs), document)
    ensures dir.solitary ==> Phased(events, p, old(dir.fs), made, document)
    // the old document stays reachable until the new one is verified and the directory synced
    ensures dir.solitary && Target in old(dir.fs.entries) ==> Preserved(events, old(dir.fs.entries)[Target], made)
    // nothing else is unlinked, and nothing at all happens after the lock is found lost
    ensures Orderly(events, lost, own)
    ensures dir.solitary ==> own <= {made} + DebrisInos(old(dir.fs)) + TargetInos(old(dir.fs))
    // every exchange, every file put in place and every file of others unlinked is under the lock; and so is a success
    ensures Licensed(events, old(dir.fs.next), LockOf(old(dir.fs)))
    ensures r.Ok? ==> Watched(events, LockOf(old(dir.fs)), |events|)
    ensures lost ==> r == Err(Insecure) && Swaps(events) == 0
    ensures unavailable.None? && dir.Tame() && !dir.blind && Healthy(old(dir.fs)) && fault.None? ==> r.Ok? || lost
    // success means committed, and only success syncs the directory
    ensures r.Ok? ==> r.value.committed && PublishedAs(dir.fs, made, document) && Committed(events, |events|, made)
    ensures if r.Ok? then Durable(events, made) else Unsynced(events)
    // a clean one syncs it last, with nothing of its own left in it but the configuration
    ensures Clean(r) ==> EndsSynced(events)
    // a failed write leaves the old document in place if and only if its exchange, if any, was undone; and
    // reachable in any case
    ensures Exchanges(events, made)
    ensures dir.solitary && r.Err? && Target in old(dir.fs.entries) ==>
              && (SameEntry(dir.fs, old(dir.fs), Target) <==> Swaps(events) != 1)
              && Abandoned(dir.fs, Swaps(events), made, old(dir.fs.entries)[Target])
    // with real calls succeeding, one fault decides the result and the entries
    ensures unavailable.None? && dir.Quiet() && Healthy(old(dir.fs)) ==>
              Decided(r, Swaps(events), dir.fs.entries, old(dir.fs), fault, dir.blind)
    ensures unavailable.None? && dir.Quiet() && dir.solitary && Healthy(old(dir.fs)) ==>
              Foreseen(events, made, fault, Target in old(dir.fs.entries), dir.blind)
    ensures unavailable.None? && dir.Quiet() && Healthy(old(dir.fs)) && !FailsBeforeSweep(fault)
              && DebrisNames(old(dir.fs)) != {} ==>
              SweepsAll(events, old(dir.fs))
  {
    hide Steady, Chain, Orderly, Swaps, Unsynced, Safe, AllSafe, Committed, Durable, SweepsAll, Replaced, Preserved;
    hide Exchanges;
    hide DebrisInos, DebrisNames, Healthy, Decided, Reachable, Abandoned, Expected, ExpectedSwaps, Strands, LockKept;
    hide Foreseen, Shows, Licensed, Watched, Proper, EndsSynced;
    ghost var start := dir.fs;
    lost, events, made, own, p := false, [], start.next, {}, 0;
    UntouchedAtFirst(start, document);
    NothingExchanged([], made);
    PlainOps([], {});
    if Target in start.entries { ReachablePreserves([], start.entries[Target], made); }
    if unavailable.Some? {
      return Err(unavailable.value), lost, events, made, own, p;
    }
    var ready, gone, preparing := Prepare(dir, fault);
    lost, events, own, p := gone, preparing, DebrisInos(start), |preparing|;
    NothingExchanged(preparing, made);
    if dir.solitary {
      if Target in start.entries { ReachablePreserves(preparing, start.entries[Target], made); }
      PhasedIsSafe(preparing, p, start, made, document);
      SteadyIsSafe(dir.fs, start, made, document);
      TargetKept(dir.fs, start, made);
      PendingShowsNothing(preparing, start, made);
    }
    if ready.Err? {
      if dir.Quiet() && Healthy(start) { EarlyFailureSettles(dir.fs.entries, start, fault, dir.blind); }
      EarlyFaultFails(preparing, made, fault, Target in start.entries, dir.blind);
      return Err(ready.error), lost, events, made, own, p;
    }
    ghost var prepared := dir.fs;
    var (lockIdentity, existing) := ready.value;
    if dir.solitary { TargetWasThere(prepared, start, existing); }
    ghost var staging, q;
    r, lost, staging, made, q := Stage(dir, existing, lockIdentity, document, fault, start);
    p := |preparing| + q;
    own := {made} + DebrisInos(start) + InoOf(existing);
    events := preparing + staging;
    StagesJoin(preparing, staging, lost, made, existing, dir.solitary, start, q, document, lockIdentity, r.Ok?, Clean(r));
    if dir.solitary && existing.Some? && r.Err? { AbandonedIff(dir.fs, start, Swaps(events), made); }
    assert dir.trace == (old(dir.trace) + preparing) + staging;
    if dir.Quiet() && Healthy(start) {
      QuietStages(r, preparing, staging, made, dir.fs.entries, prepared.entries, dir.solitary, start, fault, dir.blind);
    }
  }

  lemma QuietStages(r: Result<WriteOutcome, PersistenceError>, preparing: seq<Event>, staging: seq<Event>, made: nat,
                    f: Entries,
                    prepared: Entries, solitary: bool, start: Fs, fault: Option<Fault>, blind: bool)
    requires !FailsBeforeSweep(fault) && r == Expected(fault, Target in start.entries, blind) && made >= start.next
    requires Foreseen(staging, made, fault, Target in start.entries, blind)
    requires Swaps(preparing) == 0 && (solitary ==> Calm(preparing, start, Pending))
    requires LockKept(prepared, start) && prepared == (start.entries - DebrisNames(start))[Lock := prepared[Lock]]
    requires DebrisNames(start) != {} ==> SweepsAll(preparing, start)
    requires if r.Ok? then Replaced(f, prepared, Target in start.entries && Injected(fault, OldInodeCleanup))
             else if Strands(fault, Target in start.entries, blind) then Replaced(f, prepared, true)
             else f == prepared
    ensures Decided(r, Swaps(preparing + staging), f, start, fault, blind)
    ensures DebrisNames(start) != {} ==> SweepsAll(preparing + staging, start)
    ensures solitary ==> Foreseen(preparing + staging, made, fault, Target in start.entries, blind)
  {
    hide Decided, SweepsAll, Calm, Expected, Strands, Replaced, DebrisNames, Swaps, Foreseen, LockKept, Shows;
    StagingSettles(r, staging, made, f, prepared, start, fault, blind);
    SwapsAdd(preparing, staging);
    if DebrisNames(start) != {} { SweepsPrefix(preparing, staging, start); }
    if solitary {
      PendingShowsNothing(preparing, start, made);
      ForeseenAdds(preparing, staging, made, fault, Target in start.entries, blind);
    }
  }

  lemma PendingShowsNothing(events: seq<Event>, start: Fs, ino: nat)
    requires Calm(events, start, Pending) && ino >= start.next
    ensures !Shows(events, ino)
  {
    forall k | 0 <= k < |events| ensures !Names(events[k].after, Target, ino) {
      assert Steady(events[k].after, start, Pending);
    }
  }

  lemma EarlyFailureSettles(f: Entries, start: Fs, fault: Option<Fault>, blind: bool)
    requires FailsBeforeSweep(fault) && LockKept(f, start) && f == start.entries[Lock := f[Lock]]
    ensures Decided(Err(WriteFailed), 0, f, start, fault, blind)
  {
  }

  lemma AbandonedIff(f: Fs, start: Fs, swaps: nat, made: nat)
    requires Target in start.entries && made >= start.next && Abandoned(f, swaps, made, start.entries[Target])
    ensures SameEntry(f, start, Target) <==> swaps != 1
  {
  }

  lemma StagingSettles(r: Result<WriteOutcome, PersistenceError>, events: seq<Event>, made: nat, f: Entries,
                       prepared: Entries, start: Fs,
                       fault: Option<Fault>, blind: bool)
    requires r == Expected(fault, Target in start.entries, blind)
    requires Foreseen(events, made, fault, Target in start.entries, blind)
    requires !FailsBeforeSweep(fault) && LockKept(prepared, start)
              && prepared == (start.entries - DebrisNames(start))[Lock := prepared[Lock]]
    requires if r.Ok? then Replaced(f, prepared, Target in start.entries && Injected(fault, OldInodeCleanup))
             else if Strands(fault, Target in start.entries, blind) then Replaced(f, prepared, true)
             else f == prepared
    ensures Decided(r, Swaps(events), f, start, fault, blind)
  {
  }

  /** What holds of preparing and of staging holds of the whole write. */
  lemma StagesJoin(preparing: seq<Event>, staging: seq<Event>, lost: bool, made: nat, existing: Option<Identity>,
                   solitary: bool, start: Fs, q: nat, document: Document, lock: Identity, ok: bool, clean: bool)
    requires Chronicle(preparing, false, solitary, start, Pending, DebrisInos(start)) && Unsynced(preparing)
              && Swaps(preparing) == 0 && Licensed(preparing, start.next, lock.ino)
    requires Proper(staging, lost, made, existing, solitary, start, lock, ok, clean)
    requires solitary ==> Phased(staging, q, start, made, document)
    requires solitary && existing.Some? ==>
              forall k :: 0 <= k < |preparing| ==> Reachable(preparing[k].after, existing.value.ino)
    ensures var events := preparing + staging;
            && Orderly(events, lost, {made} + DebrisInos(start) + InoOf(existing))
            && Swaps(events) == Swaps(staging) && Exchanges(events, made) && (lost ==> Swaps(events) == 0)
            && Licensed(events, start.next, lock.ino) && (ok ==> Watched(events, lock.ino, |events|))
            && (solitary ==> Phased(events, |preparing| + q, start, made, document) && AllSafe(events, start, document))
            && (solitary && existing.Some? ==> Preserved(events, existing.value.ino, made))
            && (ok ==> Committed(events, |events|, made))
            && (if ok then Durable(events, made) else Unsynced(events)) && (clean ==> EndsSynced(events))
  {
    hide Steady, Orderly, Swaps, Unsynced, AllSafe, Committed, Durable, Preserved, Phased, DebrisInos, Reachable;
    hide Exchanges, Licensed, Watched, EndsSynced;
    EndStays(preparing, staging);
    var own := {made} + DebrisInos(start) + InoOf(existing);
    OrderlyWidens(preparing, false, DebrisInos(start), own);
    OrderlyWidens(staging, lost, {made} + InoOf(existing), own);
    OrderlyExtends(preparing, staging, lost, own);
    LicensedJoins(preparing, staging, start.next, lock.ino);
    SwapsAdd(preparing, staging);
    ExchangesAdd(preparing, staging, made);
    UnsyncedAdds(preparing, staging);
    if solitary {
      PhasedFollows(preparing, staging, q, start, made, document);
      PhasedIsSafe(preparing + staging, |preparing| + q, start, made, document);
      if existing.Some? { PrefixPreserves(preparing, staging, existing.value.ino, made); }
    }
    if ok {
      PrefixCommits(preparing, staging, |staging|, made);
      PrefixSettles(preparing, staging, made);
    }
  }

  lemma ReachablePreserves(events: seq<Event>, kept: nat, ino: nat)
    requires forall k :: 0 <= k < |events| ==> Reachable(events[k].after, kept)
    ensures Preserved(events, kept, ino) && Preserved([], kept, ino)
  {
  }

  lemma SweepsPrefix(first: seq<Event>, second: seq<Event>, start: Fs)
    requires SweepsAll(first, start)
    ensures SweepsAll(first + second, start)
  {
    var k :| 0 <= k < |first| && SweptAt(first, k, start);
    assert (first + second)[k] == first[k];
    assert SweptAt(first + second, k, start);
  }

  lemma UntouchedAtFirst(start: Fs, document: Document)
    ensures Safe(start, start, document) && AllSafe([], start, document) && Orderly([], false, {}) && Unsynced([])
              && Swaps([]) == 0
    ensures Target in start.entries ==> Abandoned(start, 0, start.next, start.entries[Target])
  {
    if Target in start.entries { assert Names(start, Target, start.entries[Target]); }
  }

  lemma TargetKept(f: Fs, start: Fs, made: nat)
    requires Steady(f, start, Pending)
    ensures SameEntry(f, start, Target)
    ensures Target in start.entries ==> Abandoned(f, 0, made, start.entries[Target])
  {
    if Target in start.entries { assert Names(f, Target, start.entries[Target]); }
  }

  /** Result, exchanges and entries of a write with every real call succeeding. */
  ghost predicate Decided(r: Result<WriteOutcome, PersistenceError>, swaps: nat, f: Entries, start: Fs,
                          fault: Option<Fault>, blind: bool) {
    && r == Expected(fault, Target in start.entries, blind)
    && swaps == ExpectedSwaps(fault, Target in start.entries, blind)
    && Settled(f, start, r.Ok?, fault, blind)
  }

  /**
   Entries after a write with every real call succeeding: restored, or with the
   new file in place of the old.  A write that cannot see the configuration
   entry leaves the new file in place too, and the old one under a temporary name.
   */
  ghost predicate Settled(f: Entries, start: Fs, ok: bool, fault: Option<Fault>, blind: bool) {
    && LockKept(f, start)
    && var base := (if FailsBeforeSweep(fault) then start.entries else start.entries - DebrisNames(start))[Lock := f[Lock]];
       if ok then Replaced(f, base, Target in start.entries && Injected(fault, OldInodeCleanup))
       else if Strands(fault, Target in start.entries, blind) then Replaced(f, base, true)
       else f == base
  }
}
