/**
 The vocabulary of the cursor configuration transaction of
 src/cursor_persistence.rs: when a directory is safe, what a run of steps may
 do, and the smallest transactions.
 */
module CursorTransaction {
  import opened Common
  import opened Filesystem

  datatype PersistenceError = Missing | Invalid | Insecure | WriteFailed | Busy

  datatype Fault =
    | AfterLockOpen
    | AfterFlock
    | BeforeStaleCleanup
    | BeforePublication
    | TemporaryCreation
    | TemporaryWrite
    | TemporaryFsync
    | NoReplacePublication
    | Exchange
    | PostExchangeIdentityVerification
    | NewFileFsync
    | FirstDirectoryFsync
    | OldInodeCleanup
    | CleanupDirectoryFsync

  datatype WriteOutcome = WriteOutcome(committed: bool, cleanupDegraded: bool)

  const TEMP_ATTEMPTS := 8
  const MAX_TRANSACTION_DEBRIS := 32

  predicate Transactional(n: Name) { n.Temporary? || n.Quarantine? }

  predicate Injected(fault: Option<Fault>, at: Fault) { fault == Some(at) }

  /** Faults injected before the candidate is published. */
  predicate FailsEarly(fault: Option<Fault>) {
    fault.Some? &&
    match fault.value
    case AfterLockOpen | AfterFlock | BeforeStaleCleanup | BeforePublication | TemporaryCreation | TemporaryWrite | TemporaryFsync => true
    case _ => false
  }

  /** Faults injected before the candidate is created. */
  predicate FailsBeforeStaging(fault: Option<Fault>) {
    Injected(fault, TemporaryCreation) || FailsBeforeSweep(fault)
  }

  predicate FailsBeforeSweep(fault: Option<Fault>) {
    Injected(fault, AfterLockOpen) || Injected(fault, AfterFlock) || Injected(fault, BeforeStaleCleanup)
  }

  predicate FailsExchange(fault: Option<Fault>) {
    Injected(fault, Exchange) || Injected(fault, PostExchangeIdentityVerification)
  }

  predicate FailsSettling(fault: Option<Fault>) {
    Injected(fault, NewFileFsync) || Injected(fault, FirstDirectoryFsync)
  }

  predicate DegradesCleanup(fault: Option<Fault>) {
    Injected(fault, OldInodeCleanup) || Injected(fault, CleanupDirectoryFsync)
  }

  /** The recorded effects of one removal of `name`: none, parked, parked and put back, or gone. */
  ghost predicate Removal(start: Fs, events: seq<Event>, end: Fs, name: Name, ino: nat, parked: Name) {
    || (events == [] && end == start)
    || (&& name in start.entries && parked.Quarantine? && parked !in start.entries
        && var aside := Event(Move(name, parked), Moved(start, name, parked));
           || (events == [aside] && end == aside.after)
           || (events == [aside, Event(Move(parked, name), start)] && end == start)
           || (&& start.entries[name] == ino
               && end == Removed(start, name)
               && events == [aside, Event(Unlink(parked, ino), end)]))
  }

  /** Park the entry, check that it is the expected inode, then unlink it. */
  method RemoveOwned(dir: Directory, name: Name, expected: Identity)
    returns (r: Result<(), PersistenceError>, ghost events: seq<Event>, ghost parked: Name)
    modifies dir`fs, dir`trace
    ensures old(dir.Recorded()) ==> dir.Recorded()
    ensures dir.trace == old(dir.trace) + events
    ensures Removal(old(dir.fs), events, dir.fs, name, expected.ino, parked)
    ensures r.Ok? ==> dir.fs == Removed(old(dir.fs), name)
    ensures r.Ok? && name in old(dir.fs.entries) ==> old(IdentityOf(dir.fs, name)) == expected && |events| == 2
    ensures dir.reliable && name !in old(dir.fs.entries) ==> r.Ok?
    ensures dir.reliable && name in old(dir.fs.entries) && old(IdentityOf(dir.fs, name)).private ==>
              if old(IdentityOf(dir.fs, name)) == expected then r.Ok? else r == Err(Insecure) && dir.fs == old(dir.fs)
  {
    hide Chain, Removal;
    ghost var start := dir.fs;
    events, parked := [], name;
    RemovalForms(start, name, expected.ino, parked);
    var suffix := dir.RandomSuffix();
    if suffix.None? {
      return Err(WriteFailed), events, parked;
    }
    var cleanup := Quarantine(suffix.value);
    parked := cleanup;
    RemovalForms(start, name, expected.ino, cleanup);
    var moved := dir.RenameNoReplace(name, cleanup);
    match moved {
      case Done =>
      case NotFound =>
        assert Removed(start, name).entries == start.entries;
        return Ok(()), events, parked;
      case _ => return Err(WriteFailed), events, parked;
    }
    events := [Event(Move(name, cleanup), dir.fs)];
    var handle := dir.Open(cleanup);
    if !handle.Opened? {
      var restored := RestoreEntry(dir, cleanup, name);
      if restored.Ok? {
        assert dir.fs.entries == start.entries;
        events := events + [Event(Move(cleanup, name), start)];
      }
      return Err(Insecure), events, parked;
    }
    var current := dir.Fstat(handle.ino);
    if current.None? {
      return Err(Insecure), events, parked;
    }
    if current.value != expected {
      var restored := RestoreEntry(dir, cleanup, name);
      if restored.Err? {
        return restored, events, parked;
      }
      assert dir.fs.entries == start.entries;
      events := events + [Event(Move(cleanup, name), start)];
      return Err(Insecure), events, parked;
    }
    var removed := dir.Remove(cleanup);
    if !removed {
      return Err(WriteFailed), events, parked;
    }
    assert dir.fs == Removed(start, name) by { assert dir.fs.entries == start.entries - {name}; }
    events := events + [Event(Unlink(cleanup, expected.ino), dir.fs)];
    return Ok(()), events, parked;
  }

  /** Each of the ways a removal may end. */
  lemma RemovalForms(start: Fs, name: Name, ino: nat, parked: Name)
    ensures Removal(start, [], start, name, ino, parked)
    ensures name in start.entries && parked.Quarantine? && parked !in start.entries ==>
              var aside := Event(Move(name, parked), Moved(start, name, parked));
              && Removal(start, [aside], aside.after, name, ino, parked)
              && Removal(start, [aside] + [Event(Move(parked, name), start)], start, name, ino, parked)
              && (start.entries[name] == ino ==>
                    Removal(start, [aside] + [Event(Unlink(parked, ino), Removed(start, name))], Removed(start, name), name, ino, parked))
  {
  }

  method RestoreEntry(dir: Directory, parked: Name, name: Name) returns (r: Result<(), PersistenceError>)
    modifies dir`fs, dir`trace
    ensures old(dir.Recorded()) ==> dir.Recorded()
    ensures r.Ok? ==> parked in old(dir.fs.entries) && name !in old(dir.fs.entries)
    ensures r.Ok? ==>
              dir.fs == Moved(old(dir.fs), parked, name) && dir.trace == old(dir.trace) + [Event(Move(parked, name), dir.fs)]
    ensures r.Err? ==> dir.fs == old(dir.fs) && dir.trace == old(dir.trace)
    ensures dir.reliable && parked in old(dir.fs.entries) && name !in old(dir.fs.entries) ==> r.Ok?
  {
    var moved := dir.RenameNoReplace(parked, name);
    r := if moved.Done? then Ok(()) else Err(WriteFailed);
  }

  // ----- what every state of a write looks like -----

  /**
   A state reached while `document` is being written over `start`: unrelated
   entries are untouched, no old file has changed, and the
   configuration file is the one `start` had or the complete, private and
   synced new document.
   */
  ghost predicate Safe(f: Fs, start: Fs, document: Document) {
    && f.next >= start.next
    && (forall i :: i in start.inodes ==> i in f.inodes && f.inodes[i] == start.inodes[i])
    && (forall n :: n != Target && n != Lock && !Transactional(n) ==> SameEntry(f, start, n))
    && (SameEntry(f, start, Target) || NewTarget(f, start, document))
  }

  ghost predicate NewTarget(f: Fs, start: Fs, document: Document) {
    && Target in f.entries && f.entries[Target] >= start.next
    && f.inodes[f.entries[Target]] == Inode(document, true, true)
  }

  ghost predicate AllSafe(events: seq<Event>, start: Fs, document: Document) {
    forall k :: 0 <= k < |events| ==> Safe(events[k].after, start, document)
  }

  /** How far the new file has come: not complete yet, or complete, private and synced as inode `ino`. */
  datatype Draft = Pending | Complete(ino: nat, document: Document)

  /**
   `Safe`, and more precisely: nothing is published before the draft is
   complete, and then nothing but the draft, which never changes again.
   */
  ghost predicate Steady(f: Fs, start: Fs, draft: Draft) {
    && f.next >= start.next
    && (forall i :: i in start.inodes ==> i in f.inodes && f.inodes[i] == start.inodes[i])
    && (forall n :: n != Target && n != Lock && !Transactional(n) ==> SameEntry(f, start, n))
    && match draft
       case Pending => SameEntry(f, start, Target)
       case Complete(ino, document) =>
         && ino >= start.next && ino in f.inodes && f.inodes[ino] == Inode(document, true, true)
         && (SameEntry(f, start, Target) || Names(f, Target, ino))
  }

  ghost predicate Calm(events: seq<Event>, start: Fs, draft: Draft) {
    forall k :: 0 <= k < |events| ==> Steady(events[k].after, start, draft)
  }

  /** The steps before `p` complete the draft, the others publish it. */
  ghost predicate Phased(events: seq<Event>, p: nat, start: Fs, ino: nat, document: Document) {
    && p <= |events|
    && (forall k :: 0 <= k < p ==> Steady(events[k].after, start, Pending))
    && (forall k :: p <= k < |events| ==> Steady(events[k].after, start, Complete(ino, document)))
  }

  lemma SteadyIsSafe(f: Fs, start: Fs, ino: nat, document: Document)
    requires Steady(f, start, Pending) || Steady(f, start, Complete(ino, document))
    ensures Safe(f, start, document)
  {
  }

  lemma PhasedIsSafe(events: seq<Event>, p: nat, start: Fs, ino: nat, document: Document)
    requires Phased(events, p, start, ino, document)
    ensures AllSafe(events, start, document)
  {
    hide Safe, Steady;
    forall k | 0 <= k < |events| ensures Safe(events[k].after, start, document) {
      SteadyIsSafe(events[k].after, start, ino, document);
    }
  }

  /** Before step `k` the configuration file was `ino`, verified and synced, with the directory synced after it. */
  ghost predicate Committed(events: seq<Event>, k: int, ino: nat) {
    exists s, d :: 0 <= s < d < k <= |events| && Synced(events, s, d, ino)
  }

  ghost predicate Synced(events: seq<Event>, s: int, d: int, ino: nat)
    requires 0 <= s < d < |events|
  {
    && events[s].op == Op.SyncFile(ino) && Names(events[s].after, Target, ino)
    && events[d].op == Op.SyncDirectory && Names(events[d].after, Target, ino)
  }

  /** The inode `kept` stays reachable until the new file is committed. */
  ghost predicate Preserved(events: seq<Event>, kept: nat, ino: nat) {
    forall k :: 0 <= k < |events| ==> Reachable(events[k].after, kept) || Committed(events, k, ino)
  }

  /** The first directory sync finds `ino` in place, and there it stays. */
  ghost predicate Durable(events: seq<Event>, ino: nat) {
    exists d :: 0 <= d < |events| && SettlesAt(events, d, ino)
  }

  ghost predicate SettlesAt(events: seq<Event>, d: int, ino: nat)
    requires 0 <= d < |events|
  {
    && events[d].op.SyncDirectory?
    && (forall k :: 0 <= k < d ==> !events[k].op.SyncDirectory?)
    && (forall k :: d <= k < |events| ==> Names(events[k].after, Target, ino))
  }

  /** No directory sync was completed. */
  ghost predicate Unsynced(events: seq<Event>) {
    forall k :: 0 <= k < |events| ==> !events[k].op.SyncDirectory?
  }

  lemma PrefixSettles(first: seq<Event>, events: seq<Event>, ino: nat)
    requires Unsynced(first) && Durable(events, ino)
    ensures Durable(first + events, ino)
  {
    var d :| 0 <= d < |events| && SettlesAt(events, d, ino);
    var all := first + events;
    assert forall k :: |first| <= k < |all| ==> all[k] == events[k - |first|];
    assert SettlesAt(all, |first| + d, ino);
  }

  lemma SuffixSettles(events: seq<Event>, last: seq<Event>, ino: nat)
    requires Durable(events, ino) && forall k :: 0 <= k < |last| ==> Names(last[k].after, Target, ino)
    ensures Durable(events + last, ino)
  {
    var d :| 0 <= d < |events| && SettlesAt(events, d, ino);
    assert SettlesAt(events + last, d, ino);
  }

  /** How often two entries were exchanged. */
  function Swaps(events: seq<Event>): nat {
    if events == [] then 0 else Swaps(events[..|events| - 1]) + if events[|events| - 1].op.Swap? then 1 else 0
  }

  lemma {:induction false} SwapsAdd(first: seq<Event>, second: seq<Event>)
    ensures Swaps(first + second) == Swaps(first) + Swaps(second)
  {
    if second == [] {
      assert first + second == first;
    } else {
      var rest := second[..|second| - 1];
      assert (first + second)[..|first + second| - 1] == first + rest;
      SwapsAdd(first, rest);
    }
  }

  lemma {:induction false} NoSwaps(events: seq<Event>)
    requires forall k :: 0 <= k < |events| ==> !events[k].op.Swap?
    ensures Swaps(events) == 0
  {
    if events != [] { NoSwaps(events[..|events| - 1]); }
  }

  /** At most one exchange and its undoing; an exchange puts `ino` in place. */
  ghost predicate Exchanges(events: seq<Event>, ino: nat) {
    Swaps(events) <= 2 && (Swaps(events) > 0 ==> Shows(events, ino))
  }

  ghost predicate Shows(events: seq<Event>, ino: nat) {
    exists k :: 0 <= k < |events| && Names(events[k].after, Target, ino)
  }

  lemma ShowsAdd(first: seq<Event>, second: seq<Event>, ino: nat)
    ensures Shows(first + second, ino) <==> Shows(first, ino) || Shows(second, ino)
  {
    var all := first + second;
    if Shows(first, ino) {
      var k :| 0 <= k < |first| && Names(first[k].after, Target, ino);
      assert all[k] == first[k];
    }
    if Shows(second, ino) {
      var k :| 0 <= k < |second| && Names(second[k].after, Target, ino);
      assert all[|first| + k] == second[k];
    }
    if Shows(all, ino) {
      var k :| 0 <= k < |all| && Names(all[k].after, Target, ino);
      assert if k < |first| then all[k] == first[k] else all[k] == second[k - |first|];
    }
  }

  lemma ExchangesAdd(first: seq<Event>, second: seq<Event>, ino: nat)
    requires (Swaps(first) == 0 && Exchanges(second, ino)) || (Exchanges(first, ino) && Swaps(second) == 0)
    ensures Exchanges(first + second, ino)
  {
    SwapsAdd(first, second);
    ShowsAdd(first, second, ino);
  }

  /** The lock entry is left alone. */
  predicate SparesLock(op: Op) {
    match op
    case Move(from, to) => from != Lock && to != Lock
    case Swap(a, b) => a != Lock && b != Lock
    case Unlink(n, _) => n != Lock
    case Overwrite(_, _) => false
    case Link(_, _) => false
    case _ => true
  }

  /**
   Steps of a writer: it unlinks nothing outside `own` and never renames or
   removes the lock; when it finds its lock gone, that is the last thing it does.
   */
  ghost predicate Orderly(events: seq<Event>, lost: bool, own: set<nat>) {
    && (forall k :: 0 <= k < |events| ==> SparesLock(events[k].op))
    && (forall k :: 0 <= k < |events| && events[k].op.Unlink? ==> events[k].op.ino in own)
    && (lost ==> events != [] && events[|events| - 1].op.LockLost?)
    && (forall k :: 0 <= k < |events| && events[k].op.LockLost? ==> lost && k == |events| - 1)
  }

  ghost predicate Chronicle(events: seq<Event>, lost: bool, solitary: bool, start: Fs, draft: Draft, own: set<nat>) {
    (solitary ==> Calm(events, start, draft)) && Orderly(events, lost, own)
  }

  // ----- acting under the lock -----

  /** No other process acts in between. */
  ghost predicate Undisturbed(events: seq<Event>) {
    forall k :: 0 <= k < |events| ==> !events[k].op.Foreign?
  }

  /**
   Steps that only the holder of the lock may take: exchanging entries, putting a
   file in place, unlinking a file it did not make.
   */
  predicate Privileged(op: Op, floor: nat) {
    match op
    case Swap(_, _) => true
    case Move(_, to) => to == Target
    case Unlink(_, ino) => ino < floor
    case _ => false
  }

  /** Before step `k` the lock was found in place, and nobody has acted since. */
  ghost predicate Watched(events: seq<Event>, lock: nat, k: nat) {
    exists h :: 0 <= h < k <= |events| && HeldSince(events, lock, h, k)
  }

  ghost predicate HeldSince(events: seq<Event>, lock: nat, h: nat, k: nat)
    requires h < k <= |events|
  {
    events[h].op == LockHeld(lock) && forall i :: h < i < k ==> !events[i].op.Foreign?
  }

  /** Every privileged step is taken under the lock. */
  ghost predicate Licensed(events: seq<Event>, floor: nat, lock: nat) {
    forall k :: 0 <= k < |events| && Privileged(events[k].op, floor) ==> Watched(events, lock, k)
  }

  lemma WatchedLater(first: seq<Event>, second: seq<Event>, lock: nat, k: nat)
    requires Watched(second, lock, k)
    ensures Watched(first + second, lock, |first| + k)
  {
    var all := first + second;
    var h :| 0 <= h < k && HeldSince(second, lock, h, k);
    assert forall i :: |first| <= i < |all| ==> all[i] == second[i - |first|];
    assert HeldSince(all, lock, |first| + h, |first| + k);
  }

  lemma LicensedJoins(first: seq<Event>, second: seq<Event>, floor: nat, lock: nat)
    requires Licensed(first, floor, lock) && Licensed(second, floor, lock)
    ensures Licensed(first + second, floor, lock)
    ensures Watched(second, lock, |second|) ==> Watched(first + second, lock, |first + second|)
  {
    hide Watched, Privileged;
    var all := first + second;
    forall k | 0 <= k < |all| && Privileged(all[k].op, floor) ensures Watched(all, lock, k) {
      if k < |first| {
        assert all[k] == first[k];
        WatchedSooner(first, second, lock, k);
      } else {
        assert all[k] == second[k - |first|];
        WatchedLater(first, second, lock, k - |first|);
      }
    }
    if Watched(second, lock, |second|) { WatchedLater(first, second, lock, |second|); }
  }

  lemma WatchedSooner(first: seq<Event>, second: seq<Event>, lock: nat, k: nat)
    requires Watched(first, lock, k)
    ensures Watched(first + second, lock, k)
  {
    var h :| 0 <= h < k <= |first| && HeldSince(first, lock, h, k);
    assert HeldSince(first + second, lock, h, k);
  }

  /** What follows a successful check undisturbed is under the lock. */
  lemma WatchLasts(first: seq<Event>, second: seq<Event>, floor: nat, lock: nat)
    requires Licensed(first, floor, lock) && Watched(first, lock, |first|) && Undisturbed(second)
    ensures Licensed(first + second, floor, lock) && Watched(first + second, lock, |first + second|)
  {
    var all := first + second;
    var h :| 0 <= h < |first| && HeldSince(first, lock, h, |first|);
    forall k | |first| <= k <= |all| ensures Watched(all, lock, k) {
      assert forall i :: h < i < k ==> all[i] == if i < |first| then first[i] else second[i - |first|];
      assert HeldSince(all, lock, h, k);
    }
    forall k | 0 <= k < |first| && Privileged(all[k].op, floor) ensures Watched(all, lock, k) {
      assert all[k] == first[k];
      WatchedSooner(first, second, lock, k);
    }
  }

  lemma UndisturbedAdds(first: seq<Event>, second: seq<Event>)
    requires Undisturbed(first) && Undisturbed(second)
    ensures Undisturbed(first + second)
  {
  }

  lemma OrderlyExtends(first: seq<Event>, second: seq<Event>, lost: bool, own: set<nat>)
    requires Orderly(first, false, own) && Orderly(second, lost, own)
    ensures Orderly(first + second, lost, own)
  {
    hide SparesLock;
  }

  lemma Extend(first: seq<Event>, second: seq<Event>, lost: bool, solitary: bool, start: Fs, draft: Draft,
               own: set<nat>)
    requires Chronicle(first, false, solitary, start, draft, own)
    requires Chronicle(second, lost, solitary, start, draft, own)
    ensures Chronicle(first + second, lost, solitary, start, draft, own)
  {
    hide Steady, SparesLock;
    OrderlyExtends(first, second, lost, own);
  }

  /** Steps that create, fill or sync files are orderly whoever owns what. */
  lemma PlainOps(events: seq<Event>, own: set<nat>)
    requires forall k :: 0 <= k < |events| ==>
              events[k].op.Create? || events[k].op.Write? || events[k].op.SyncFile? || events[k].op.SyncDirectory?
    ensures Orderly(events, false, own) && Swaps(events) == 0 && Undisturbed(events)
    ensures forall floor, lock :: Licensed(events, floor, lock)
    ensures (forall k :: 0 <= k < |events| ==> !events[k].op.SyncDirectory?) ==> Unsynced(events)
  {
    NoSwaps(events);
  }

  lemma OrderlyWidens(events: seq<Event>, lost: bool, own: set<nat>, more: set<nat>)
    requires Orderly(events, lost, own) && own <= more
    ensures Orderly(events, lost, more)
  {
  }

  lemma UnsyncedAdds(first: seq<Event>, second: seq<Event>)
    requires Unsynced(first)
    ensures Unsynced(second) ==> Unsynced(first + second)
  {
  }

  lemma RemovalIsSafe(base: Fs, draft: Draft, start: Fs, events: seq<Event>, end: Fs, name: Name, ino: nat,
                      parked: Name)
    requires Removal(start, events, end, name, ino, parked)
    requires Steady(start, base, draft)
    requires Transactional(name) || (name == Target && Target !in base.entries)
    ensures Chronicle(events, false, true, base, draft, {ino}) && Steady(end, base, draft)
  {
    if events != [] {
      var aside := Moved(start, name, parked);
      forall n | n != Target && n != Lock && !Transactional(n)
        ensures SameEntry(aside, base, n) && SameEntry(Removed(start, name), base, n)
      {
        assert SameEntry(start, base, n);
      }
      assert Steady(aside, base, draft);
      assert Steady(Removed(start, name), base, draft);
    }
  }

  /** A removal neither exchanges entries nor syncs the directory, and unlinks only the expected inode. */
  lemma RemovalOps(start: Fs, events: seq<Event>, end: Fs, name: Name, ino: nat, parked: Name)
    requires Removal(start, events, end, name, ino, parked)
    ensures Unsynced(events) && Swaps(events) == 0 && Undisturbed(events)
    ensures name != Lock ==> Orderly(events, false, {ino})
    ensures forall floor, lock :: name != Target && ino >= floor ==> Licensed(events, floor, lock)
    ensures name != Target ==>
              SameEntry(end, start, Target) && forall k :: 0 <= k < |events| ==> SameEntry(events[k].after, start, Target)
    ensures end.inodes == start.inodes && forall k :: 0 <= k < |events| ==> events[k].after.inodes == start.inodes
  {
    NoSwaps(events);
  }

  lemma RemovalKeeps(start: Fs, events: seq<Event>, end: Fs, name: Name, ino: nat, parked: Name, holder: Name)
    requires Removal(start, events, end, name, ino, parked)
    requires holder in start.entries
    requires holder != name || start.entries[holder] != ino
    ensures forall k :: 0 <= k < |events| ==> Reachable(events[k].after, start.entries[holder])
    ensures Reachable(end, start.entries[holder])
  {
    var kept := start.entries[holder];
    assert Names(start, holder, kept);
    if events != [] {
      var aside := Moved(start, name, parked);
      assert Names(aside, if holder == name then parked else holder, kept);
      assert holder != name ==> Names(Removed(start, name), holder, kept);
    }
  }

  lemma LockIsApart(f: Fs, g: Fs, start: Fs, draft: Draft)
    requires Steady(f, start, draft) && g.next >= f.next
    requires forall i :: i in f.inodes ==> i in g.inodes && g.inodes[i] == f.inodes[i]
    requires forall n :: n != Lock ==> SameEntry(g, f, n)
    ensures Steady(g, start, draft)
  {
    forall n | n != Lock && !Transactional(n) && n != Target ensures SameEntry(g, start, n) {
      assert SameEntry(g, f, n) && SameEntry(f, start, n);
    }
    assert SameEntry(g, f, Target);
  }

  lemma CheckIsOrderly(events: seq<Event>, lost: bool)
    requires forall k :: 0 <= k < |events| ==>
               || events[k].op.Foreign? || events[k].op.LockHeld?
                   || (lost && k == |events| - 1 && events[k].op.LockLost?)
    requires lost ==> events != [] && events[|events| - 1].op.LockLost?
    ensures Orderly(events, lost, {}) && Unsynced(events) && Swaps(events) == 0
    ensures forall floor, lock :: Licensed(events, floor, lock)
  {
    NoSwaps(events);
  }

  /** A moment in which other processes may act. */
  method Interlude(dir: Directory, ghost start: Fs, ghost draft: Draft) returns (ghost events: seq<Event>)
    modifies dir`fs, dir`trace
    ensures old(dir.Recorded()) ==> dir.Recorded()
    ensures dir.trace == old(dir.trace) + events
    ensures forall k :: 0 <= k < |events| ==> events[k].op.Foreign? && events[k].after == dir.fs
    ensures dir.fs.next >= old(dir.fs.next)
    ensures forall i :: i in old(dir.fs.inodes) ==> i in dir.fs.inodes && dir.fs.inodes[i] == old(dir.fs.inodes)[i]
    ensures forall n :: n != Lock && (dir.solitary || n != Target) ==> SameEntry(dir.fs, old(dir.fs), n)
    ensures dir.solitary && old(Steady(dir.fs, start, draft)) ==>
              Calm(events, start, draft) && Steady(dir.fs, start, draft)
    ensures Orderly(events, false, {}) && Unsynced(events) && Swaps(events) == 0
    ensures forall floor, lock :: Licensed(events, floor, lock)
    ensures dir.solitary ==> dir.fs == old(dir.fs) || !SameEntry(dir.fs, old(dir.fs), Lock)
    ensures Supplanted(old(dir.fs), dir.fs, Lock)
    ensures dir.Quiet() ==> dir.fs == old(dir.fs) && events == []
  {
    hide Chain, Steady, Orderly, Unsynced, Swaps, Licensed;
    ghost var was, before := dir.trace, dir.fs;
    dir.Interfere();
    if dir.solitary && Steady(before, start, draft) { LockIsApart(before, dir.fs, start, draft); }
    events := dir.trace[|was|..];
    CheckIsOrderly(events, false);
  }

  /** The lock file must still be the inode this writer locked. */
  method RequireLockIdentity(dir: Directory, expected: Identity, ghost start: Fs, ghost draft: Draft)
    returns (r: Result<(), PersistenceError>, lost: bool, ghost events: seq<Event>)
    requires expected.ino < dir.fs.next && expected.ino in dir.flocked
    modifies dir`fs, dir`trace
    ensures old(dir.Recorded()) ==> dir.Recorded()
    ensures dir.trace == old(dir.trace) + events
    ensures if lost then r == Err(Insecure) else r.Ok?
    ensures forall k :: 0 <= k < |events| ==>
              || events[k].op.Foreign? || events[k].op.LockHeld?
                  || (lost && k == |events| - 1 && events[k].op.LockLost?)
    ensures if lost then events != [] && events[|events| - 1].op.LockLost? else Watched(events, expected.ino, |events|)
    ensures forall k :: 0 <= k < |events| ==> events[k].after == dir.fs
    ensures dir.fs.next >= old(dir.fs.next)
    ensures forall i :: i in old(dir.fs.inodes) ==> i in dir.fs.inodes && dir.fs.inodes[i] == old(dir.fs.inodes)[i]
    ensures forall n :: n != Lock && (dir.solitary || n != Target) ==> SameEntry(dir.fs, old(dir.fs), n)
    ensures dir.solitary && old(Steady(dir.fs, start, draft)) ==>
              Calm(events, start, draft) && Steady(dir.fs, start, draft)
    ensures Orderly(events, lost, {}) && Unsynced(events) && Swaps(events) == 0
    ensures forall floor, lock :: Licensed(events, floor, lock)
    ensures !lost ==> Lock in dir.fs.entries && IdentityOf(dir.fs, Lock) == expected
    ensures dir.reliable && Lock in dir.fs.entries && IdentityOf(dir.fs, Lock) == expected ==> !lost
    ensures dir.solitary && !lost ==> dir.fs == old(dir.fs)
    ensures dir.Quiet() ==> dir.fs == old(dir.fs)
  {
    hide Chain, Steady, Orderly, Unsynced, Swaps, Licensed;
    var acting := Interlude(dir, start, draft);
    var actual := dir.Stat(Lock);
    if actual == Some(expected) {
      dir.RecordLockHeld(expected.ino);
      events := acting + [Event(LockHeld(expected.ino), dir.fs)];
      assert HeldSince(events, expected.ino, |acting|, |events|);
      CheckIsOrderly(events, false);
      return Ok(()), false, events;
    }
    dir.RecordLockLost();
    events := acting + [Event(LockLost, dir.fs)];
    CheckIsOrderly(events, true);
    return Err(Insecure), true, events;
  }

  /** Reopen the published file, compare identities, sync it. */
  method VerifyPublished(dir: Directory, expected: Identity, fault: Option<Fault>)
    returns (r: Result<(), PersistenceError>, ghost events: seq<Event>)
    modifies dir`fs, dir`trace
    ensures old(dir.Recorded()) ==> dir.Recorded()
    ensures dir.trace == old(dir.trace) + events
    ensures r.Ok? ==>
              Names(old(dir.fs), Target, expected.ino) && old(IdentityOf(dir.fs, Target)) == expected && expected.private
    ensures r.Ok? ==> dir.fs == Filled(old(dir.fs), expected.ino, old(dir.fs.inodes)[expected.ino].(synced := true))
    ensures r.Ok? ==> events == [Event(Op.SyncFile(expected.ino), dir.fs)]
    ensures r.Err? ==> dir.fs == old(dir.fs) && events == []
    ensures forall own :: Orderly(events, false, own)
    ensures Unsynced(events) && Swaps(events) == 0 && Undisturbed(events)
    ensures r.Ok? ==> !Injected(fault, NewFileFsync)
    ensures dir.reliable && Target !in old(dir.fs.entries) ==> r == Err(WriteFailed)
    ensures Target in old(dir.fs.entries) && old(IdentityOf(dir.fs, Target)) != expected ==> r == Err(Insecure)
    ensures dir.reliable && Target in old(dir.fs.entries) && old(IdentityOf(dir.fs, Target)) == expected
              && expected.private ==>
              r == if Injected(fault, NewFileFsync) then Err(WriteFailed) else Ok(())
  {
    hide Chain;
    events := [];
    var handle := dir.Open(Target);
    if !handle.Opened? {
      return Err(if handle.Absent? then WriteFailed else Insecure), events;
    }
    var identity := dir.Fstat(handle.ino);
    if identity.None? || identity.value != expected {
      return Err(Insecure), events;
    }
    if Injected(fault, NewFileFsync) {
      return Err(WriteFailed), events;
    }
    if !expected.private {
      return Err(Insecure), events;
    }
    var synced := dir.SyncFile(handle.ino);
    if !synced {
      return Err(WriteFailed), events;
    }
    events := [Event(Op.SyncFile(expected.ino), dir.fs)];
    NoSwaps(events);
    return Ok(()), events;
  }

  /** Exchange the two entries back, but only when they are exactly the expected ones. */
  method RollbackExchange(dir: Directory, temporary: Name, made: Identity, previous: Identity)
    returns (ok: bool, ghost events: seq<Event>)
    modifies dir`fs, dir`trace
    ensures old(dir.Recorded()) ==> dir.Recorded()
    ensures dir.trace == old(dir.trace) + events
    ensures ok ==> Target in old(dir.fs.entries) && temporary in old(dir.fs.entries)
    ensures ok ==> old(IdentityOf(dir.fs, Target)) == made && old(IdentityOf(dir.fs, temporary)) == previous
    ensures ok ==>
              dir.fs == Swapped(old(dir.fs), temporary, Target) && events == [Event(Swap(temporary, Target), dir.fs)]
    ensures !ok ==> dir.fs == old(dir.fs) && events == []
    ensures dir.reliable && !dir.blind && temporary != Target && Target in old(dir.fs.entries)
              && temporary in old(dir.fs.entries) ==>
              old(IdentityOf(dir.fs, Target)) == made && old(IdentityOf(dir.fs, temporary)) == previous ==> ok
    ensures dir.blind ==> !ok
    ensures Unsynced(events) && Undisturbed(events) && Swaps(events) == (if ok then 1 else 0)
              && (temporary != Lock ==> Orderly(events, false, {}))
  {
    hide Chain;
    events := [];
    var atTarget := dir.Stat(Target);
    if atTarget.None? {
      return false, events;
    }
    var atTemporary := dir.Stat(temporary);
    if atTemporary.None? {
      return false, events;
    }
    if atTarget.value != made || atTemporary.value != previous {
      return false, events;
    }
    ok := dir.Exchange(temporary, Target);
    if ok {
      events := [Event(Swap(temporary, Target), dir.fs)];
      assert events[..0] == [];
    }
  }
}
