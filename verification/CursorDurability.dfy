/**
 What a cursor configuration write means across time: what a power loss at any
 of its steps leaves on disk, and what becomes of a document when a failed
 write is followed by another one.
 */
module CursorDurability {
  import opened Common
  import opened Filesystem
  import opened CursorTransaction
  import opened CursorPublication
  import opened PowerFailure
  import opened CursorLock
  import CursorStore

  // ----- power loss -----

  /** What `CursorStore.Write` promises of its steps when no other process interferes. */
  ghost predicate Careful(start: Fs, events: seq<Event>, p: nat, made: nat, document: Document, ok: bool) {
    && made >= start.next
    && Phased(events, p, start, made, document)
    && (Target in start.entries ==> Preserved(events, start.entries[Target], made))
    && (if ok then Durable(events, made) else Unsynced(events))
    && Chain(start, events, true) && (forall k :: 0 <= k < |events| ==> SparesLock(events[k].op))
  }

  /**
   Every state names the old file or the complete new one; from the first state
   that names the new one on, its bytes are fixed.
   */
  lemma StatesName(start: Fs, events: seq<Event>, p: nat, made: nat, document: Document, j: nat, k: nat)
    requires made >= start.next && Phased(events, p, start, made, document) && j <= k <= |events|
    ensures SameEntry(At(start, events, j), start, Target) || Names(At(start, events, j), Target, made)
    ensures Names(At(start, events, j), Target, made) ==>
              made in At(start, events, k).inodes && At(start, events, k).inodes[made] == Inode(document, true, true)
    ensures forall i :: i in start.inodes ==>
              i in At(start, events, k).inodes && At(start, events, k).inodes[i] == start.inodes[i]
  {
    if k > 0 { assert Steady(events[k - 1].after, start, if k - 1 < p then Pending else Complete(made, document)); }
    if j > 0 { assert Steady(events[j - 1].after, start, if j - 1 < p then Pending else Complete(made, document)); }
  }

  /** Once the directory has been synced, every state the disk may hold names the new file. */
  lemma SyncSettles(start: Fs, events: seq<Event>, made: nat, j: nat, k: nat)
    requires Durable(events, made) && OnDisk(events, j, k) && SyncedBy(events, k)
    ensures Names(At(start, events, j), Target, made) && Names(At(start, events, k), Target, made)
  {
    var d :| 0 <= d < |events| && SettlesAt(events, d, made);
    var i :| 0 <= i < k && events[i].op.SyncDirectory?;
    assert d <= i < j;
    assert Names(events[j - 1].after, Target, made);
    assert Names(events[k - 1].after, Target, made);
  }

  /** The old file has a name whenever the disk may still name it. */
  lemma OldIsReachable(start: Fs, events: seq<Event>, p: nat, made: nat, document: Document, ok: bool, j: nat, k: nat)
    requires Careful(start, events, p, made, document, ok) && Target in start.entries && OnDisk(events, j, k)
    requires Names(At(start, events, j), Target, start.entries[Target])
    ensures Reachable(At(start, events, k), start.entries[Target])
  {
    hide Chain;
    var kept := start.entries[Target];
    if k == 0 {
      assert Names(start, Target, kept);
    } else if Committed(events, k - 1, made) {
      var s, d :| 0 <= s < d < k - 1 && Synced(events, s, d, made);
      assert SyncedBy(events, k);
      SyncSettles(start, events, made, j, k);
      assert false;
    }
  }

  /**
   Losing power during a write over a synced document.  The disk names the old
   or the new file.  If it names the old one, that file still has a name, and
   its bytes are there.  If it names the new one and that still has a name,
   the bytes are those of the new document.  Once the directory has been
   synced, and so after every successful write, it is exactly the new document.
   */
  lemma PowerLoss(start: Fs, events: seq<Event>, p: nat, made: nat, document: Document, ok: bool, j: nat, k: nat,
                  image: Fs)
    requires Careful(start, events, p, made, document, ok)
    requires Target in start.entries && OldIsSynced(start)
    requires CrashImage(image, start, events, j, k)
    ensures Target in image.entries && (image.entries[Target] == start.entries[Target] || image.entries[Target] == made)
    ensures image.entries[Target] == start.entries[Target] ==>
              && Reachable(At(start, events, k), start.entries[Target])
              && image.inodes[image.entries[Target]] == start.inodes[start.entries[Target]]
    ensures image.entries[Target] == made && Reachable(At(start, events, k), made) ==>
              image.inodes[made].content == document
    ensures SyncedBy(events, k) ==> ok && image.entries[Target] == made && image.inodes[made].content == document
  {
    hide Phased, Durable, Preserved, Chain;
    StatesName(start, events, p, made, document, j, k);
    if image.entries[Target] == start.entries[Target] {
      OldIsReachable(start, events, p, made, document, ok, j, k);
    }
    if SyncedBy(events, k) {
      assert ok;
      SyncSettles(start, events, made, j, k);
      assert Reachable(At(start, events, k), made);
    }
  }

  /** The same when nothing existed before: nothing, or the new file, and after a sync exactly the new document. */
  lemma PowerLossAtFirst(start: Fs, events: seq<Event>, p: nat, made: nat, document: Document, ok: bool, j: nat,
                         k: nat, image: Fs)
    requires Careful(start, events, p, made, document, ok) && Target !in start.entries
    requires CrashImage(image, start, events, j, k)
    ensures Target in image.entries ==> image.entries[Target] == made
    ensures Target in image.entries && Reachable(At(start, events, k), made) ==> image.inodes[made].content == document
    ensures SyncedBy(events, k) ==> ok && Target in image.entries && image.inodes[made].content == document
  {
    hide Phased, Durable, Chain;
    StatesName(start, events, p, made, document, j, k);
    if SyncedBy(events, k) {
      assert ok;
      SyncSettles(start, events, made, j, k);
      assert Reachable(At(start, events, k), made);
    }
  }

  /** Both together: a document is there unless the disk names a candidate that has lost its last name. */
  lemma HoldsUnlessLost(start: Fs, events: seq<Event>, p: nat, made: nat, document: Document, ok: bool, j: nat, k: nat,
                        image: Fs)
    requires Careful(start, events, p, made, document, ok) && OldIsSynced(start)
              && CrashImage(image, start, events, j, k)
    ensures HoldsADocument(image, start, document) || CandidateLost(start, events, made, j, k)
  {
    hide Careful, Intact;
    if Target in start.entries {
      PowerLoss(start, events, p, made, document, ok, j, k, image);
    } else {
      PowerLossAtFirst(start, events, p, made, document, ok, j, k, image);
    }
  }

  // ----- the exact condition -----

  /** The new file was in place during the write and has no name when it ends. */
  ghost predicate TakenBack(start: Fs, events: seq<Event>, made: nat) {
    Shows(events, made) && !Reachable(At(start, events, |events|), made)
  }

  lemma StepLoses(f: Fs, e: Event, ino: nat)
    requires Effect(f, e, true) && SparesLock(e.op) && !Reachable(f, ino) && ino < f.next
    ensures !Reachable(e.after, ino) && ino < e.after.next
  {
    forall n ensures !Names(e.after, n, ino) {
      var holder := match e.op
        case Move(from, to) => if n == to then from else n
        case Swap(a, b) => if n == a then b else if n == b then a else n
        case _ => n;
      assert !Names(f, holder, ino);
      assert e.op.Foreign? && n != Lock ==> SameEntry(e.after, f, n);
    }
  }

  /** What has lost its last name does not get one again. */
  lemma {:induction false} StaysLost(start: Fs, events: seq<Event>, ino: nat, j: nat, k: nat)
    requires Chain(start, events, true) && j <= k <= |events| && !Reachable(At(start, events, j), ino)
              && ino < At(start, events, j).next
    requires forall i :: j <= i < k ==> SparesLock(events[i].op)
    ensures !Reachable(At(start, events, k), ino) && ino < At(start, events, k).next
    decreases k
  {
    hide Chain, Effect, SparesLock, Reachable;
    if j < k {
      StaysLost(start, events, ino, j, k - 1);
      ChainStep(start, events, true, k);
      StepLoses(At(start, events, k - 1), events[k - 1], ino);
    }
  }

  lemma LostIsTakenBack(start: Fs, events: seq<Event>, p: nat, made: nat, document: Document, ok: bool, j: nat, k: nat)
    requires Careful(start, events, p, made, document, ok) && CandidateLost(start, events, made, j, k)
    ensures TakenBack(start, events, made)
  {
    hide Phased, Chain, Preserved, Reachable;
    StatesName(start, events, p, made, document, j, k);
    assert j > 0 && Names(events[j - 1].after, Target, made);
    StaysLost(start, events, made, k, |events|);
  }

  lemma TakenBackIsLost(start: Fs, events: seq<Event>, p: nat, made: nat, document: Document, ok: bool) returns (j: nat)
    requires Careful(start, events, p, made, document, ok) && TakenBack(start, events, made)
    ensures !ok && CandidateLost(start, events, made, j, |events|)
  {
    hide Phased, Chain, Preserved;
    var k :| 0 <= k < |events| && Names(events[k].after, Target, made);
    j := k + 1;
    if ok { SuccessEndsThere(start, events, made); }
  }

  lemma LosingIsLosing(start: Fs, events: seq<Event>, p: nat, made: nat, document: Document, ok: bool, j: nat)
    requires Careful(start, events, p, made, document, ok) && CandidateLost(start, events, made, j, |events|)
    ensures !Endures(start, events, document)
  {
    hide Chain, Preserved;
    StatesName(start, events, p, made, document, j, |events|);
    LostImage(start, events, made, document, j, |events|);
  }

  lemma SuccessEndsThere(start: Fs, events: seq<Event>, made: nat)
    requires Durable(events, made)
    ensures SyncedBy(events, |events|) && Names(At(start, events, |events|), Target, made)
              && Reachable(At(start, events, |events|), made)
  {
    var d :| 0 <= d < |events| && SettlesAt(events, d, made);
    assert Names(At(start, events, |events|), Target, made);
  }

  /**
   Whatever fails, over an existing configuration or not: every power loss at
   every step of a write leaves a document if and only if the write does not
   take its new file back after it had been in place.  A write that succeeds
   does not.
   */
  lemma PowerLossIff(start: Fs, events: seq<Event>, p: nat, made: nat, document: Document, ok: bool)
    requires Careful(start, events, p, made, document, ok) && OldIsSynced(start)
    ensures Endures(start, events, document) <==> !TakenBack(start, events, made)
    ensures ok ==> Endures(start, events, document)
  {
    hide Careful, CrashImage, TakenBack, HoldsADocument, CandidateLost;
    if TakenBack(start, events, made) {
      var j := TakenBackIsLost(start, events, p, made, document, ok);
      LosingIsLosing(start, events, p, made, document, ok, j);
    } else {
      forall image, j, k | CrashImage(image, start, events, j, k) ensures HoldsADocument(image, start, document) {
        HoldsUnlessLost(start, events, p, made, document, ok, j, k, image);
        if !HoldsADocument(image, start, document) { LostIsTakenBack(start, events, p, made, document, ok, j, k); }
      }
    }
  }

  // ----- in terms of the write -----

  lemma {:induction false} SwapFree(events: seq<Event>)
    requires Swaps(events) == 0
    ensures forall k :: 0 <= k < |events| ==> !events[k].op.Swap?
  {
    if events != [] { SwapFree(events[..|events| - 1]); }
  }

  lemma StepKeepsTarget(f: Fs, e: Event, ino: nat)
    requires Effect(f, e, true) && SparesLock(e.op) && !e.op.Swap? && Names(f, Target, ino)
    ensures Names(e.after, Target, ino) || Target !in e.after.entries
  {
    assert e.op.Foreign? ==> SameEntry(e.after, f, Target);
  }

  /** Over an existing configuration nothing but an exchange puts the new file in place. */
  lemma {:induction false} WithoutExchange(start: Fs, events: seq<Event>, p: nat, made: nat, document: Document,
                                           ok: bool, k: nat)
    requires Careful(start, events, p, made, document, ok) && Target in start.entries && Swaps(events) == 0
              && k <= |events|
    ensures Names(At(start, events, k), Target, start.entries[Target])
    decreases k
  {
    hide Careful, Swaps, Effect, Phased;
    if k > 0 {
      WithoutExchange(start, events, p, made, document, ok, k - 1);
      SwapFree(events);
      CarefulStep(start, events, p, made, document, ok, k);
      StepKeepsTarget(At(start, events, k - 1), events[k - 1], start.entries[Target]);
      StatesName(start, events, p, made, document, k, k);
    }
  }

  lemma CarefulStep(start: Fs, events: seq<Event>, p: nat, made: nat, document: Document, ok: bool, k: nat)
    requires Careful(start, events, p, made, document, ok) && 0 < k <= |events|
    ensures Effect(At(start, events, k - 1), events[k - 1], true) && SparesLock(events[k - 1].op)
    ensures made >= start.next && Phased(events, p, start, made, document)
  {
    hide Effect, Phased, Preserved, Chain;
    ChainStep(start, events, true, k);
  }

  /**
   Over an existing configuration: it is taken back exactly when the write fails
   after two exchanges and the candidate was unlinked.
   */
  lemma TakenBackIff(start: Fs, events: seq<Event>, p: nat, made: nat, document: Document, ok: bool)
    requires Careful(start, events, p, made, document, ok) && Target in start.entries && Exchanges(events, made)
    requires !ok ==> Abandoned(At(start, events, |events|), Swaps(events), made, start.entries[Target])
    ensures TakenBack(start, events, made) <==>
              !ok && Swaps(events) == 2 && !Reachable(At(start, events, |events|), made)
  {
    hide Phased, Preserved, Chain;
    if ok { SuccessEndsThere(start, events, made); }
    if Swaps(events) == 0 && Shows(events, made) {
      var k :| 0 <= k < |events| && Names(events[k].after, Target, made);
      WithoutExchange(start, events, p, made, document, ok, k + 1);
      assert false;
    }
  }

  // ----- how a candidate gets lost -----

  /** Some entry other than the lock leads to the inode. */
  ghost predicate Held(f: Fs, ino: nat) { exists n :: n != Lock && Names(f, n, ino) }

  lemma StepHolds(f: Fs, e: Event, ino: nat)
    requires Effect(f, e, true) && SparesLock(e.op) && Held(f, ino) && !(e.op.Unlink? && e.op.ino == ino)
    ensures Held(e.after, ino)
  {
    var n :| n != Lock && Names(f, n, ino);
    var holder := match e.op
      case Move(from, to) => if n == from then to else n
      case Swap(a, b) => if n == a then b else if n == b then a else n
      case _ => n;
    assert e.op.Foreign? ==> SameEntry(e.after, f, n);
    assert holder != Lock && Names(e.after, holder, ino);
  }

  lemma {:induction false} StaysHeld(start: Fs, events: seq<Event>, ino: nat, j: nat, k: nat)
    requires Chain(start, events, true) && j <= k <= |events| && Held(At(start, events, j), ino)
    requires forall i :: j <= i < k ==> SparesLock(events[i].op) && !(events[i].op.Unlink? && events[i].op.ino == ino)
    ensures Held(At(start, events, k), ino)
    decreases k
  {
    hide Chain, Effect, SparesLock, Held;
    if j < k {
      StaysHeld(start, events, ino, j, k - 1);
      ChainStep(start, events, true, k);
      StepHolds(At(start, events, k - 1), events[k - 1], ino);
    }
  }

  /** A candidate is lost only by unlinking it after it had been published, with no directory sync at all. */
  lemma LostByUnlinking(start: Fs, events: seq<Event>, p: nat, made: nat, document: Document, ok: bool, j: nat, k: nat)
    requires Careful(start, events, p, made, document, ok) && CandidateLost(start, events, made, j, k)
    ensures exists i :: j <= i < k && events[i].op.Unlink? && events[i].op.ino == made
    ensures !SyncedBy(events, k) && !ok
  {
    hide Phased, Preserved, Chain;
    LostIsTakenBack(start, events, p, made, document, ok, j, k);
    var _ := TakenBackIsLost(start, events, p, made, document, ok);
    if forall i :: j <= i < k ==> !(events[i].op.Unlink? && events[i].op.ino == made) {
      assert Held(At(start, events, j), made);
      StaysHeld(start, events, made, j, k);
      assert false;
    }
  }

  // ----- a file system that orders its directory operations -----

  /**
   The disk holds state `j` as a whole: a file it names has not been unlinked
   there, so its synced bytes are there.
   */
  ghost predicate OrderedImage(image: Fs, start: Fs, events: seq<Event>, j: nat, k: nat) {
    && OnDisk(events, j, k)
    && var f, g := At(start, events, j), At(start, events, k);
       && image.entries == f.entries
       && forall n <- f.entries :: f.entries[n] in g.inodes && g.inodes[f.entries[n]].synced ==>
           image.inodes[f.entries[n]] == g.inodes[f.entries[n]]
  }

  /** There a document survives every power loss. */
  lemma OrderedPowerLoss(start: Fs, events: seq<Event>, p: nat, made: nat, document: Document, ok: bool, j: nat,
                         k: nat, image: Fs)
    requires Careful(start, events, p, made, document, ok) && OldIsSynced(start)
    requires OrderedImage(image, start, events, j, k)
    ensures HoldsADocument(image, start, document)
    ensures SyncedBy(events, k) ==> Target in image.entries && image.inodes[image.entries[Target]].content == document
  {
    hide Phased, Durable, Preserved, Chain;
    StatesName(start, events, p, made, document, j, k);
    if SyncedBy(events, k) { SyncSettles(start, events, made, j, k); }
  }

  // ----- which faults -----

  /** Faults after which the exchange is undone, or the claimed name given up, with every real call succeeding. */
  predicate TakesBack(fault: Option<Fault>, existed: bool, blind: bool) {
    if existed then ExpectedSwaps(fault, true, blind) == 2 else FailsSettling(fault)
  }

  /** One name leads to the inode at most. */
  ghost predicate Single(f: Fs, ino: nat) { forall n, m :: Names(f, n, ino) && Names(f, m, ino) ==> n == m }

  lemma UnusedIsNameless(f: Fs, ino: nat)
    requires ino >= f.next
    ensures Single(f, ino) && forall n :: !Names(f, n, ino)
  {
  }

  lemma StepSingle(f: Fs, e: Event, ino: nat)
    requires Effect(f, e, true) && SparesLock(e.op) && Single(f, ino)
    ensures Single(e.after, ino)
  {
    if ino >= f.next { UnusedIsNameless(f, ino); }
    forall n, m | Names(e.after, n, ino) && Names(e.after, m, ino) ensures n == m {
      var before := k => match e.op
        case Move(from, to) => if k == to then from else k
        case Swap(a, b) => if k == a then b else if k == b then a else k
        case _ => k;
      assert e.op.Foreign? && n != Lock ==> SameEntry(e.after, f, n);
      assert e.op.Foreign? && m != Lock ==> SameEntry(e.after, f, m);
      assert ino < f.next ==> Names(f, before(n), ino) && Names(f, before(m), ino);
    }
  }

  lemma {:induction false} StaysSingle(start: Fs, events: seq<Event>, ino: nat, k: nat)
    requires Chain(start, events, true) && k <= |events| && ino >= start.next
    requires forall i :: 0 <= i < |events| ==> SparesLock(events[i].op)
    ensures Single(At(start, events, k), ino)
    decreases k
  {
    hide Chain, Effect, SparesLock, Single;
    if k == 0 {
      UnusedIsNameless(start, ino);
    } else {
      StaysSingle(start, events, ino, k - 1);
      ChainStep(start, events, true, k);
      StepSingle(At(start, events, k - 1), events[k - 1], ino);
    }
  }

  /** The lock is never the new file. */
  lemma LockIsAnother(start: Fs, events: seq<Event>, p: nat, made: nat, document: Document, ok: bool)
    requires Careful(start, events, p, made, document, ok) && Shows(events, made)
    ensures !Names(At(start, events, |events|), Lock, made)
  {
    hide Phased, Chain, Preserved;
    var k :| 0 <= k < |events| && Names(events[k].after, Target, made);
    StaysSingle(start, events, made, k + 1);
    LockStaysApart(start, events, true, made, k + 1, |events|);
  }

  /** With every real call succeeding the fault decides whether the new file is taken back. */
  lemma FaultDecides(start: Fs, events: seq<Event>, p: nat, made: nat, document: Document,
                     r: Result<WriteOutcome, PersistenceError>, fault: Option<Fault>, blind: bool)
    requires Careful(start, events, p, made, document, r.Ok?) && Exchanges(events, made)
    requires r.Err? && Target in start.entries ==>
              Abandoned(At(start, events, |events|), Swaps(events), made, start.entries[Target])
    requires CursorStore.Decided(r, Swaps(events), At(start, events, |events|).entries, start, fault, blind)
    requires Foreseen(events, made, fault, Target in start.entries, blind)
    ensures TakenBack(start, events, made) <==> TakesBack(fault, Target in start.entries, blind)
  {
    hide Phased, Chain, Preserved, CursorStore.DebrisNames;
    var end := At(start, events, |events|);
    if Target in start.entries { TakenBackIff(start, events, p, made, document, r.Ok?); }
    if r.Ok? {
      SuccessEndsThere(start, events, made);
    } else if TakesBack(fault, Target in start.entries, blind) {
      assert Shows(events, made);
      LockIsAnother(start, events, p, made, document, false);
      forall n ensures !Names(end, n, made) {
        assert n != Lock && n in end.entries ==> Names(start, n, end.entries[n]);
      }
    }
  }

  // ----- one write after another -----

  /** The disk can name nothing but what is in place. */
  ghost predicate CertainOnDisk(origin: Fs, past: seq<Event>) {
    forall j :: OnDisk(past, j, |past|) ==> SameEntry(At(origin, past, j), At(origin, past, |past|), Target)
  }

  /** An image that a power loss after `k` steps of the write leaves, after the past it followed. */
  ghost predicate CrashDuring(image: Fs, origin: Fs, past: seq<Event>, events: seq<Event>, j: nat, k: nat) {
    k <= |events| && CrashImage(image, origin, past + events, j, |past| + k)
  }

  /** An image of the write alone. */
  ghost predicate OfThisWrite(image: Fs, start: Fs, events: seq<Event>, k: nat) {
    exists i :: CrashImage(image, start, events, i, k)
  }

  /** An image that names what was in place before the write, at a time since the last directory sync. */
  ghost predicate Leftover(image: Fs, origin: Fs, past: seq<Event>, events: seq<Event>, j: nat, k: nat) {
    j < |past| && OnDisk(past, j, |past|) && OnDisk(events, 0, k) && SameEntry(image, At(origin, past, j), Target)
  }

  /** After any past a power loss during the next write finds an image of that write alone or a leftover of the past. */
  lemma PastOrPresent(origin: Fs, past: seq<Event>, events: seq<Event>, start: Fs, j: nat, k: nat, image: Fs)
    requires At(origin, past, |past|) == start && CrashDuring(image, origin, past, events, j, k)
    ensures OfThisWrite(image, start, events, k) || Leftover(image, origin, past, events, j, k)
  {
    var all := past + events;
    assert forall h :: 0 <= h < k ==> all[|past| + h] == events[h];
    StatesMeet(origin, past, start, events, k);
    if j >= |past| {
      StatesMeet(origin, past, start, events, j - |past|);
      assert CrashImage(image, start, events, j - |past|, k);
    } else {
      assert forall h :: j <= h < |past| ==> all[h] == past[h];
      assert OnDisk(past, j, |past|) && At(origin, all, j) == At(origin, past, j);
    }
  }

  /** After a past that is certain on disk, it is an image of the write alone. */
  lemma PastIsSettled(origin: Fs, past: seq<Event>, events: seq<Event>, start: Fs, j: nat, k: nat, image: Fs)
    requires At(origin, past, |past|) == start && CertainOnDisk(origin, past)
              && CrashDuring(image, origin, past, events, j, k)
    ensures OfThisWrite(image, start, events, k)
  {
    PastOrPresent(origin, past, events, start, j, k, image);
    StatesMeet(origin, past, start, events, k);
    if Leftover(image, origin, past, events, j, k) {
      assert CrashImage(image, start, events, 0, k);
    }
  }

  lemma StepsAreBounded(image: Fs, origin: Fs, past: seq<Event>, events: seq<Event>, j: nat, k: nat)
    requires CrashDuring(image, origin, past, events, j, k)
    ensures k <= |events|
  {
  }

  /** After any past, a successful write makes the disk certain: the new file, with its bytes. */
  lemma CertainAgain(origin: Fs, past: seq<Event>, start: Fs, events: seq<Event>, p: nat, made: nat, document: Document)
    requires At(origin, past, |past|) == start && Careful(start, events, p, made, document, true)
    ensures CertainOnDisk(origin, past + events)
    ensures forall image, j :: CrashImage(image, origin, past + events, j, |past + events|) ==>
              Names(image, Target, made) && image.inodes[made].content == document
  {
    hide Phased, Preserved, Chain;
    var all := past + events;
    var d :| 0 <= d < |events| && SettlesAt(events, d, made);
    StatesMeet(origin, past, start, events, |events|);
    SuccessEndsThere(start, events, made);
    forall j: nat | OnDisk(all, j, |all|) ensures Names(At(origin, all, j), Target, made) {
      assert all[|past| + d] == events[d];
      assert |past| + d < j;
      assert all[j - 1] == events[j - 1 - |past|];
    }
    StatesName(start, events, p, made, document, |events|, |events|);
  }

  /**
   What a power loss in state `f` may leave: what was there, or the new file,
   whose bytes are the new document unless it was unlinked again.
   */
  ghost predicate Survives(image: Fs, start: Fs, f: Fs, made: nat, document: Document) {
    && (SameEntry(image, start, Target) || Names(image, Target, made))
    && (Target in start.entries && Names(image, Target, start.entries[Target]) ==>
          image.inodes[start.entries[Target]] == start.inodes[start.entries[Target]])
    && (Names(image, Target, made) && Reachable(f, made) ==> image.inodes[made].content == document)
  }

  lemma ImageSurvives(start: Fs, events: seq<Event>, p: nat, made: nat, document: Document, ok: bool, k: nat, image: Fs)
    requires Careful(start, events, p, made, document, ok) && OldIsSynced(start) && k <= |events|
              && OfThisWrite(image, start, events, k)
    ensures Survives(image, start, At(start, events, k), made, document)
    ensures ok ==> HoldsADocument(image, start, document)
  {
    hide Phased, Preserved, Chain, Durable;
    var j :| CrashImage(image, start, events, j, k);
    if Target in start.entries {
      PowerLoss(start, events, p, made, document, ok, j, k, image);
    } else {
      PowerLossAtFirst(start, events, p, made, document, ok, j, k, image);
    }
    if ok { PowerLossIff(start, events, p, made, document, true); }
  }

  // ----- the writes themselves -----

  lemma EndsThere(dir: Directory)
    requires dir.Recorded()
    ensures At(dir.origin, dir.trace, |dir.trace|) == dir.fs && Chain(dir.origin, dir.trace, dir.solitary)
  {
  }

  lemma IsCareful(start: Fs, events: seq<Event>, p: nat, made: nat, document: Document, ok: bool, lost: bool,
                  own: set<nat>)
    requires made >= start.next && Phased(events, p, start, made, document)
    requires Target in start.entries ==> Preserved(events, start.entries[Target], made)
    requires if ok then Durable(events, made) else Unsynced(events)
    requires Chain(start, events, true) && Orderly(events, lost, own)
    ensures Careful(start, events, p, made, document, ok)
  {
  }

  /**
   One write after any past, successful or not.  A power loss during it leaves
   an image of this write alone, or names what was in place at a time before
   it since the last directory sync.  If the disk could only name what was in
   place when the write began, there are no such leftovers, and what is left
   is the old document or the new file; if the write succeeds, always the
   bytes of one of the two.  After a success the disk can only name the new
   document, with exactly the bytes written, whatever came before; after a
   clean one it holds every entry of the directory as it is.
   */
  method WriteSurvives(dir: Directory, document: Document, fault: Option<Fault>)
    returns (r: Result<WriteOutcome, PersistenceError>, ghost events: seq<Event>, ghost made: nat)
    requires dir.solitary && dir.Recorded()
    modifies dir
    ensures dir.Recorded() && dir.trace == old(dir.trace) + events
    ensures forall image, j, k :: CrashDuring(image, dir.origin, old(dir.trace), events, j, k) ==>
              OfThisWrite(image, old(dir.fs), events, k) || Leftover(image, dir.origin, old(dir.trace), events, j, k)
    ensures CertainOnDisk(dir.origin, old(dir.trace)) && OldIsSynced(old(dir.fs)) ==>
              forall image, j, k :: CrashDuring(image, dir.origin, old(dir.trace), events, j, k) ==>
                && Survives(image, old(dir.fs), At(old(dir.fs), events, k), made, document)
                && (r.Ok? ==> HoldsADocument(image, old(dir.fs), document))
    ensures r.Ok? ==> && PublishedAs(dir.fs, made, document) && CertainOnDisk(dir.origin, dir.trace)
                      && forall image, j :: CrashImage(image, dir.origin, dir.trace, j, |dir.trace|) ==>
                           Names(image, Target, made) && image.inodes[made].content == document
    ensures Clean(r) ==> forall j: nat :: OnDisk(dir.trace, j, |dir.trace|) ==> At(dir.origin, dir.trace, j) == dir.fs
  {
    hide *;
    ghost var start, past := dir.fs, dir.trace;
    EndsThere(dir);
    ghost var lost, own, p;
    r, lost, events, made, own, p := CursorStore.Write(dir, None, document, fault);
    EndsThere(dir);
    ChainRest(dir.origin, past, start, events, true);
    IsCareful(start, events, p, made, document, r.Ok?, lost, own);
    forall image, j: nat, k: nat | CrashDuring(image, dir.origin, past, events, j, k)
      ensures k <= |events|
      ensures OfThisWrite(image, start, events, k) || Leftover(image, dir.origin, past, events, j, k)
      ensures CertainOnDisk(dir.origin, past) && OldIsSynced(start) ==>
                && Survives(image, start, At(start, events, k), made, document)
                && (r.Ok? ==> HoldsADocument(image, start, document))
    {
      StepsAreBounded(image, dir.origin, past, events, j, k);
      PastOrPresent(dir.origin, past, events, start, j, k, image);
      if CertainOnDisk(dir.origin, past) && OldIsSynced(start) {
        PastIsSettled(dir.origin, past, events, start, j, k, image);
        ImageSurvives(start, events, p, made, document, r.Ok?, k, image);
      }
    }
    if r.Ok? { CertainAgain(dir.origin, past, start, events, p, made, document); }
    if Clean(r) { CleanIsFinal(past, events); }
  }

  /** When a directory sync comes last, the disk holds the directory as it is: no replaced file can come back. */
  lemma CleanIsFinal(past: seq<Event>, events: seq<Event>)
    requires EndsSynced(events)
    ensures var all := past + events; forall j: nat :: OnDisk(all, j, |all|) ==> j == |all|
  {
    var all := past + events;
    assert all[|all| - 1].op.SyncDirectory?;
  }

  /**
   When a write survives a power loss at any of its steps.  Whatever fails: if
   and only if its new file is not taken back; over an existing configuration
   that is, unless it fails after two exchanges and the candidate was unlinked.
   With every real call succeeding: if and only if the fault is not one that
   makes the write undo its exchange, or give up the name it claimed.
   */
  method WriteUnderFault(dir: Directory, document: Document, fault: Option<Fault>)
    returns (r: Result<WriteOutcome, PersistenceError>, ghost events: seq<Event>, ghost made: nat)
    requires dir.solitary && dir.Recorded() && OldIsSynced(dir.fs)
    modifies dir
    ensures dir.Recorded() && dir.trace == old(dir.trace) + events
    ensures Endures(old(dir.fs), events, document) <==> !TakenBack(old(dir.fs), events, made)
    ensures Target in old(dir.fs.entries) ==>
              (Endures(old(dir.fs), events, document) <==> !(r.Err? && Swaps(events) == 2 && !Reachable(dir.fs, made)))
    ensures dir.Quiet() && CursorStore.Healthy(old(dir.fs)) ==>
              (Endures(old(dir.fs), events, document) <==> !TakesBack(fault, Target in old(dir.fs.entries), dir.blind))
    ensures dir.Quiet() && CursorStore.Healthy(old(dir.fs))
              && TakesBack(fault, Target in old(dir.fs.entries), dir.blind) ==>
              r == Err(WriteFailed) && SameEntry(dir.fs, old(dir.fs), Target)
  {
    hide *;
    ghost var start, past := dir.fs, dir.trace;
    EndsThere(dir);
    ghost var lost, own, p;
    r, lost, events, made, own, p := CursorStore.Write(dir, None, document, fault);
    EndsThere(dir);
    ChainRest(dir.origin, past, start, events, true);
    StatesMeet(dir.origin, past, start, events, |events|);
    IsCareful(start, events, p, made, document, r.Ok?, lost, own);
    PowerLossIff(start, events, p, made, document, r.Ok?);
    if Target in start.entries { TakenBackIff(start, events, p, made, document, r.Ok?); }
    if dir.Quiet() && CursorStore.Healthy(start) {
      FaultDecides(start, events, p, made, document, r, fault, dir.blind);
      if TakesBack(fault, Target in start.entries, dir.blind) {
        TakenBackRestores(r, Swaps(events), dir.fs, start, fault, dir.blind);
      }
    }
  }

  lemma TakenBackRestores(r: Result<WriteOutcome, PersistenceError>, swaps: nat, f: Fs, start: Fs,
                          fault: Option<Fault>, blind: bool)
    requires CursorStore.Decided(r, swaps, f.entries, start, fault, blind)
              && TakesBack(fault, Target in start.entries, blind)
    ensures r == Err(WriteFailed) && SameEntry(f, start, Target)
  {
  }

  /**
   The failing runs.  Every call succeeds until the new file is in place, where
   a check or a sync fails: the entries are exchanged back, or the claimed name
   is given up, the candidate is unlinked, and the directory is not synced.  The
   write reports the failure and leaves the entry as it was, yet a power loss
   afterwards may leave an entry that names the unlinked candidate, and so no
   document at all.
   */
  method RolledBackWrite(dir: Directory, document: Document, fault: Option<Fault>)
    returns (r: Result<WriteOutcome, PersistenceError>, ghost events: seq<Event>, ghost image: Fs)
    requires dir.solitary && dir.Quiet() && dir.Recorded() && CursorStore.Healthy(dir.fs) && OldIsSynced(dir.fs)
    requires TakesBack(fault, Target in dir.fs.entries, dir.blind)
    modifies dir
    ensures r == Err(WriteFailed) && dir.trace == old(dir.trace) + events && SameEntry(dir.fs, old(dir.fs), Target)
    ensures (exists j, k :: CrashImage(image, old(dir.fs), events, j, k))
              && !HoldsADocument(image, old(dir.fs), document)
  {
    ghost var made;
    r, events, made := WriteUnderFault(dir, document, fault);
    ghost var j: nat, k: nat;
    image, j, k :| CrashImage(image, old(dir.fs), events, j, k) && !HoldsADocument(image, old(dir.fs), document);
  }

  // ----- a write after a failed one -----

  /** Only the configuration entry and transaction files lead to the inode. */
  predicate OnlyOurs(f: Fs, ino: nat) {
    forall n <- f.entries :: f.entries[n] == ino ==> n == Target || Transactional(n)
  }

  /** Once swept, a file that only transaction files led to is gone, before anything was synced. */
  lemma SweptAway(events: seq<Event>, start: Fs, ino: nat, made: nat)
    requires CursorStore.SweepsAll(events, start) && ino < start.next && OnlyOurs(start, ino)
              && !Names(start, Target, ino)
    ensures !Preserved(events, ino, made)
  {
    var k :| 0 <= k < |events| && CursorStore.SweptAt(events, k, start);
    var f := events[k].after;
    forall n ensures !Names(f, n, ino) {
      assert n != Lock && !Transactional(n) ==> SameEntry(f, start, n);
    }
    assert !Reachable(f, ino) && !Committed(events, k, made);
  }

  /**
   A write that fails over an existing document, then another one by a later
   process.  If the later calls succeed, the first document is kept until the
   second write commits if and only if the first write left it in place, that
   is, unless it exchanged the entries once and did not exchange them back.
   */
  method WriteTwice(dir: Directory, first: Document, second: Document, fault: Option<Fault>, reliable: bool)
    returns (r: Result<WriteOutcome, PersistenceError>, again: Result<WriteOutcome, PersistenceError>, later: Directory,
             ghost events: seq<Event>, ghost more: seq<Event>, ghost made: nat)
    requires dir.solitary && Target in dir.fs.entries
    modifies dir
    ensures fresh(later) && later.solitary && dir.trace == old(dir.trace) + events && later.trace == more
    ensures r.Err? ==> Reachable(dir.fs, old(dir.fs.entries)[Target])
    ensures r.Err? && Swaps(events) != 1 ==> Preserved(more, old(dir.fs.entries)[Target], made)
    ensures r.Err? && reliable && CursorStore.Healthy(dir.fs) && OnlyOurs(dir.fs, old(dir.fs.entries)[Target]) ==>
              (Preserved(more, old(dir.fs.entries)[Target], made) <==> Swaps(events) != 1)
  {
    hide Phased, Preserved, Orderly, Durable, Unsynced, Committed, CursorStore.SweepsAll, Swaps, Safe, AllSafe;
    hide CursorStore.Decided, CursorStore.Healthy, Chain;
    ghost var kept := dir.fs.entries[Target];
    ghost var lost, own, p, candidate;
    r, lost, events, candidate, own, p := CursorStore.Write(dir, None, first, fault);
    later := new Directory(dir.fs, reliable, true, false, false, false, false, false);
    again, lost, more, made, own, p := CursorStore.Write(later, None, second, None);
    if r.Err? && Swaps(events) == 1 && reliable && CursorStore.Healthy(dir.fs) && OnlyOurs(dir.fs, kept) {
      LeftInDebris(dir.fs, candidate, kept);
      SweptAway(more, dir.fs, kept, made);
    }
  }

  /** A document that lost its place is in a transaction file. */
  lemma LeftInDebris(f: Fs, made: nat, kept: nat)
    requires Abandoned(f, 1, made, kept) && OnlyOurs(f, kept) && kept != made
    ensures CursorStore.DebrisNames(f) != {} && kept < f.next && !Names(f, Target, kept)
  {
    var n :| Names(f, n, kept);
    assert n in CursorStore.DebrisNames(f);
  }

  /**
   The failing run.  Every call succeeds but the stats of the configuration
   entry.  Each of two writes then reports an error, yet after them the
   document that was there is gone, the second document is in place, and the
   directory was never synced.
   */
  method BlindWrites(dir: Directory, first: Document, second: Document)
    returns (r: Result<WriteOutcome, PersistenceError>, again: Result<WriteOutcome, PersistenceError>,
             ghost events: seq<Event>)
    requires dir.solitary && dir.Quiet() && dir.blind
    requires CursorStore.Healthy(dir.fs) && Target in dir.fs.entries && Lock in dir.fs.entries
              && OnlyOurs(dir.fs, dir.fs.entries[Target])
    modifies dir
    ensures r == Err(Insecure) && again == Err(Insecure)
    ensures dir.trace == old(dir.trace) + events && Unsynced(events)
    ensures !Reachable(dir.fs, old(dir.fs.entries)[Target])
    ensures Target in dir.fs.entries && dir.fs.inodes[dir.fs.entries[Target]] == Inode(second, true, true)
  {
    hide Phased, Preserved, Orderly, Durable, Unsynced, Committed, CursorStore.SweepsAll, Swaps, AllSafe, Safe;
    hide CursorStore.Decided, CursorStore.Healthy, Chain, Abandoned;
    ghost var start := dir.fs;
    ghost var lost, own, p, made;
    r, lost, events, made, own, p := CursorStore.Write(dir, None, first, None);
    ghost var middle := dir.fs;
    BlindFails(r, Swaps(events), middle.entries, start);
    BlindOutcome(r, Swaps(events), middle, start, made, first);
    ghost var more, made';
    again, lost, more, made', own, p := CursorStore.Write(dir, None, second, None);
    BlindFails(again, Swaps(more), dir.fs.entries, middle);
    BlindOutcome(again, Swaps(more), dir.fs, middle, made', second);
    OutOfReach(start, middle, dir.fs, made, made');
    UnsyncedAdds(events, more);
    events := events + more;
  }

  lemma BlindFails(r: Result<WriteOutcome, PersistenceError>, swaps: nat, f: Entries, start: Fs)
    requires Target in start.entries && CursorStore.Decided(r, swaps, f, start, None, true)
    ensures r == Err(Insecure) && swaps == 1
  {
  }

  /** A write that cannot see the configuration entry: the new file is in place, the old one under a temporary name. */
  lemma BlindOutcome(r: Result<WriteOutcome, PersistenceError>, swaps: nat, f: Fs, start: Fs, made: nat,
                     document: Document)
    requires CursorStore.Healthy(start) && Target in start.entries && Lock in start.entries && made >= start.next
    requires CursorStore.Decided(r, swaps, f.entries, start, None, true) && Safe(f, start, document)
    requires Abandoned(f, swaps, made, start.entries[Target])
    ensures r == Err(Insecure) && CursorStore.Healthy(f) && f.entries[Lock] == start.entries[Lock]
    ensures Names(f, Target, made) && f.inodes[made] == Inode(document, true, true)
    ensures exists s :: KeptAs(f.entries, start.entries - CursorStore.DebrisNames(start), s)
  {
    var base := (start.entries - CursorStore.DebrisNames(start))[Lock := f.entries[Lock]];
    assert base == start.entries - CursorStore.DebrisNames(start);
    var s :| KeptAs(f.entries, base, s);
    assert CursorStore.DebrisNames(f) == {Temporary(s)};
    assert NewTarget(f, start, document);
  }

  /** After two such writes nothing leads to the first document. */
  lemma OutOfReach(start: Fs, middle: Fs, end: Fs, made: nat, made': nat)
    requires Target in start.entries && OnlyOurs(start, start.entries[Target])
    requires start.entries[Target] < start.next <= made && made < middle.next <= made'
    requires Names(middle, Target, made) && Names(end, Target, made')
    requires exists s :: KeptAs(middle.entries, start.entries - CursorStore.DebrisNames(start), s)
    requires exists s :: KeptAs(end.entries, middle.entries - CursorStore.DebrisNames(middle), s)
    ensures !Reachable(end, start.entries[Target])
  {
    var s :| KeptAs(middle.entries, start.entries - CursorStore.DebrisNames(start), s);
    var s' :| KeptAs(end.entries, middle.entries - CursorStore.DebrisNames(middle), s');
    forall n ensures !Names(end, n, start.entries[Target]) {
      assert n != Target && n != Temporary(s') && n in end.entries ==>
             Names(middle, n, end.entries[n]) && !Transactional(n);
      assert n != Target && !Transactional(n) && n in middle.entries ==> Names(start, n, middle.entries[n]);
    }
  }
}
