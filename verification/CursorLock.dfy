/**
 What the lock file is for: a writer whose lock file was supplanted by another
 process exchanges nothing, puts nothing in place and unlinks nobody's files.
 */
module CursorLock {
  import opened Common
  import opened Filesystem
  import opened CursorTransaction
  import opened CursorPublication
  import opened PowerFailure
  import CursorStore

  lemma StepKeepsLockApart(f: Fs, e: Event, alone: bool, ino: nat)
    requires Effect(f, e, alone) && SparesLock(e.op) && !Names(f, Lock, ino) && ino < f.next
    ensures !Names(e.after, Lock, ino) && ino < e.after.next
  {
  }

  /** An inode that is not the lock file does not become it. */
  lemma {:induction false} LockStaysApart(start: Fs, events: seq<Event>, alone: bool, ino: nat, j: nat, k: nat)
    requires Chain(start, events, alone) && j <= k <= |events| && !Names(At(start, events, j), Lock, ino)
              && ino < At(start, events, j).next
    requires forall i :: 0 <= i < |events| ==> SparesLock(events[i].op)
    ensures !Names(At(start, events, k), Lock, ino) && ino < At(start, events, k).next
    decreases k
  {
    hide Chain, Effect, SparesLock;
    if j < k {
      LockStaysApart(start, events, alone, ino, j, k - 1);
      ChainStep(start, events, alone, k);
      StepKeepsLockApart(At(start, events, k - 1), events[k - 1], alone, ino);
    }
  }

  lemma StepKeepsLock(f: Fs, e: Event, alone: bool, ino: nat)
    requires Effect(f, e, alone) && SparesLock(e.op) && !e.op.Foreign? && Names(f, Lock, ino)
    ensures Names(e.after, Lock, ino)
  {
  }

  /** Undisturbed, the lock file stays. */
  lemma {:induction false} LockStays(start: Fs, events: seq<Event>, alone: bool, ino: nat, j: nat, k: nat)
    requires Chain(start, events, alone) && j <= k <= |events| && Names(At(start, events, j), Lock, ino)
    requires forall i :: 0 <= i < |events| ==> SparesLock(events[i].op)
    requires forall i :: j <= i < k ==> !events[i].op.Foreign?
    ensures Names(At(start, events, k), Lock, ino)
    decreases k
  {
    hide Chain, Effect, SparesLock;
    if j < k {
      LockStays(start, events, alone, ino, j, k - 1);
      ChainStep(start, events, alone, k);
      StepKeepsLock(At(start, events, k - 1), events[k - 1], alone, ino);
    }
  }

  /** In state `j` of the write its lock file is no longer the one it locked. */
  ghost predicate Displaced(start: Fs, events: seq<Event>, lock: nat, j: nat) {
    j <= |events| && lock < At(start, events, j).next && !Names(At(start, events, j), Lock, lock)
  }

  /** Whoever is watched holds the lock. */
  lemma WatchedHolds(start: Fs, events: seq<Event>, alone: bool, lock: nat, k: nat)
    requires Chain(start, events, alone) && forall i :: 0 <= i < |events| ==> SparesLock(events[i].op)
    requires Watched(events, lock, k)
    ensures k <= |events| && Names(At(start, events, k), Lock, lock)
  {
    hide Chain, SparesLock;
    var h :| 0 <= h < k <= |events| && HeldSince(events, lock, h, k);
    ChainStep(start, events, alone, h + 1);
    LockStays(start, events, alone, lock, h + 1, k);
  }

  /** From the moment the lock file is supplanted, no privileged step is taken, and the write does not succeed. */
  lemma NothingUnderLostLock(start: Fs, events: seq<Event>, alone: bool, lock: nat, floor: nat, j: nat)
    requires Chain(start, events, alone) && forall i :: 0 <= i < |events| ==> SparesLock(events[i].op)
    requires Licensed(events, floor, lock) && Displaced(start, events, lock, j)
    ensures forall k :: j <= k < |events| ==> !Privileged(events[k].op, floor)
    ensures !Watched(events, lock, |events|)
  {
    hide Chain, SparesLock, Privileged, Watched;
    forall k | j <= k <= |events| ensures !Watched(events, lock, k) {
      LockStaysApart(start, events, alone, lock, j, k);
      if Watched(events, lock, k) { WatchedHolds(start, events, alone, lock, k); }
    }
  }

  /**
   A write in whose course the lock file may be supplanted at any moment before
   a check.  If it is, the write fails, and from then on it exchanges nothing,
   puts nothing in place and unlinks nothing it did not make; and if every real
   call succeeds, it reports the loss, and the last thing it does is to notice.
   */
  method WriteUnderLock(dir: Directory, document: Document, fault: Option<Fault>)
    returns (r: Result<WriteOutcome, PersistenceError>, ghost events: seq<Event>, ghost lost: bool)
    requires dir.Recorded()
    modifies dir
    ensures dir.Recorded() && dir.trace == old(dir.trace) + events
    ensures forall j: nat :: Displaced(old(dir.fs), events, CursorStore.LockOf(old(dir.fs)), j) ==>
              r.Err? && forall k :: j <= k < |events| ==> !Privileged(events[k].op, old(dir.fs.next))
    ensures dir.Tame() && !dir.blind && CursorStore.Healthy(old(dir.fs)) && fault.None? ==>
              r.Ok? || (r == Err(Insecure) && lost && Swaps(events) == 0 && events != [] && events[|events| - 1].op.LockLost?)
    ensures dir.Quiet() && !dir.blind && CursorStore.Healthy(old(dir.fs)) && fault.None? ==> r.Ok?
  {
    hide Chain, Phased, Preserved, Durable, Unsynced, Committed, CursorStore.SweepsAll, Swaps, AllSafe, Safe;
    hide CursorStore.Healthy, Abandoned, Exchanges, Licensed, Watched, Privileged, Foreseen, Replaced;
    ghost var start, past := dir.fs, dir.trace;
    ghost var made, own, p;
    r, lost, events, made, own, p := CursorStore.Write(dir, None, document, fault);
    ChainRest(dir.origin, past, start, events, dir.solitary);
    forall j: nat | Displaced(start, events, CursorStore.LockOf(start), j)
      ensures r.Err? && forall k :: j <= k < |events| ==> !Privileged(events[k].op, start.next)
    {
      NothingUnderLostLock(start, events, dir.solitary, CursorStore.LockOf(start), start.next, j);
    }
  }
}
