/** Filling, publishing and settling a new cursor configuration, from src/cursor_persistence.rs. */
module CursorPublication {
  import opened Common
  import opened Filesystem
  import opened CursorTransaction

  ghost predicate PublishedAs(f: Fs, ino: nat, document: Document) {
    Names(f, Target, ino) && f.inodes[ino] == Inode(document, true, true)
  }

  /** The candidate is complete, private and synced under its temporary name, and newer than `start`. */
  ghost predicate Ready(f: Fs, start: Fs, temporary: Name, made: Identity, document: Document) {
    && temporary.Temporary?
    && Names(f, temporary, made.ino)
    && made.private && made.ino >= start.next
    && f.inodes[made.ino] == Inode(document, true, true)
  }

  /** Claim the free name, then verify and sync it; on any failure take the file away again. */
  method ClaimTarget(dir: Directory, temporary: Name, made: Identity, fault: Option<Fault>, ghost start: Fs,
                     ghost document: Document)
    returns (r: Result<WriteOutcome, PersistenceError>, ghost events: seq<Event>)
    requires Ready(dir.fs, start, temporary, made, document)
    requires dir.solitary ==> Steady(dir.fs, start, Complete(made.ino, document)) && Target !in start.entries
    modifies dir`fs, dir`trace
    ensures old(dir.Recorded()) ==> dir.Recorded()
    ensures dir.trace == old(dir.trace) + events
    ensures Chronicle(events, false, dir.solitary, start, Complete(made.ino, document), {made.ino})
              && Swaps(events) == 0 && Undisturbed(events)
    ensures dir.solitary ==> Steady(dir.fs, start, Complete(made.ino, document))
    ensures r.Ok? ==>
              r.value == WriteOutcome(true, false) && PublishedAs(dir.fs, made.ino, document) && Committed(events, |events|, made.ino)
    ensures if r.Ok? then Durable(events, made.ino) else Unsynced(events)
    ensures r.Ok? ==>
              Target !in old(dir.fs.entries) && dir.fs == Moved(old(dir.fs), temporary, Target) && EndsSynced(events)
    ensures dir.reliable && Target !in old(dir.fs.entries) ==>
              if FailsSettling(fault)
              then r == Err(WriteFailed) && dir.fs == Removed(old(dir.fs), temporary)
              else r.Ok?
    ensures dir.reliable && Target !in old(dir.fs.entries) ==> Shows(events, made.ino)
    ensures dir.reliable && Target in old(dir.fs.entries) ==> r == Err(Insecure) && events == []
  {
    hide Steady, Chain, Orderly, Unsynced, Durable, Swaps, Undisturbed;
    events := [];
    CheckIsOrderly([], false);
    PlainOps([], {});
    OrderlyWidens([], false, {}, {made.ino});
    ghost var before := dir.fs;
    var renamed := dir.RenameNoReplace(temporary, Target);
    if !renamed.Done? {
      return Err(if renamed.AlreadyExists? then Insecure else WriteFailed), events;
    }
    if dir.solitary { ClaimIsSafe(before, start, temporary, made, document); }
    ghost var claiming := [Event(Move(temporary, Target), dir.fs)];
    OneMove(claiming, {made.ino});
    assert Removed(dir.fs, Target).entries == Removed(before, temporary).entries;
    ghost var settling;
    r, settling := SettleClaim(dir, made, fault, start, document);
    events := claiming + settling;
    Extend(claiming, settling, false, dir.solitary, start, Complete(made.ino, document), {made.ino});
    SwapsAdd(claiming, settling);
    UnsyncedAdds(claiming, settling);
    UndisturbedAdds(claiming, settling);
    assert Names(events[0].after, Target, made.ino);
    if r.Ok? {
      assert Synced(events, 1, 2, made.ino);
      SettledAt(events, 2, made.ino);
    }
  }

  method SettleClaim(dir: Directory, made: Identity, fault: Option<Fault>, ghost start: Fs, ghost document: Document)
    returns (r: Result<WriteOutcome, PersistenceError>, ghost events: seq<Event>)
    requires Names(dir.fs, Target, made.ino) && dir.fs.inodes[made.ino] == Inode(document, made.private, true)
              && made.private
    requires dir.solitary ==> Steady(dir.fs, start, Complete(made.ino, document)) && Target !in start.entries
    modifies dir`fs, dir`trace
    ensures old(dir.Recorded()) ==> dir.Recorded()
    ensures dir.trace == old(dir.trace) + events
    ensures Chronicle(events, false, dir.solitary, start, Complete(made.ino, document), {made.ino})
              && Swaps(events) == 0 && Undisturbed(events)
    ensures dir.solitary ==> Steady(dir.fs, start, Complete(made.ino, document))
    ensures r.Ok? ==> r.value == WriteOutcome(true, false) && dir.fs == old(dir.fs)
    ensures r.Ok? ==> events == [Event(Op.SyncFile(made.ino), dir.fs), Event(Op.SyncDirectory, dir.fs)]
    ensures r.Err? ==> Unsynced(events)
    ensures dir.reliable ==>
              if FailsSettling(fault)
              then r == Err(WriteFailed) && dir.fs == Removed(old(dir.fs), Target)
              else r.Ok?
  {
    hide Steady, Removed, Chain, Orderly, Swaps, Unsynced, Removal, Undisturbed;
    ghost var claimed := dir.fs;
    var verified, syncing := VerifyPublished(dir, made, fault);
    assert dir.fs == claimed by { assert claimed.inodes[made.ino := claimed.inodes[made.ino].(synced := true)] == claimed.inodes; }
    events := syncing;
    var failure := if verified.Err? then Some(verified.error) else None;
    if failure.None? && Injected(fault, FirstDirectoryFsync) {
      failure := Some(WriteFailed);
    }
    if failure.None? {
      var synced := dir.SyncDirectory();
      if synced {
        events := events + [Event(Op.SyncDirectory, dir.fs)];
        PlainOps(events, {made.ino});
        return Ok(WriteOutcome(true, false)), events;
      }
      failure := Some(WriteFailed);
    }
    var removed, undo, parked := RemoveOwned(dir, Target, made);
    RemovalOps(claimed, undo, dir.fs, Target, made.ino, parked);
    if dir.solitary { RemovalIsSafe(start, Complete(made.ino, document), claimed, undo, dir.fs, Target, made.ino, parked); }
    Extend(events, undo, false, dir.solitary, start, Complete(made.ino, document), {made.ino});
    SwapsAdd(events, undo);
    UnsyncedAdds(events, undo);
    UndisturbedAdds(events, undo);
    return Err(failure.value), events + undo;
  }

  lemma ClaimIsSafe(f: Fs, start: Fs, temporary: Name, made: Identity, document: Document)
    requires Ready(f, start, temporary, made, document) && Steady(f, start, Complete(made.ino, document))
              && Target !in f.entries
    ensures Steady(Moved(f, temporary, Target), start, Complete(made.ino, document))
  {
    var g := Moved(f, temporary, Target);
    forall n | n != Target && n != Lock && !Transactional(n) ensures SameEntry(g, start, n) {
      assert SameEntry(f, start, n);
    }
  }

  /**
   After the exchange: check that exactly the two expected files changed
   places, verify and sync the new one, sync the directory; otherwise exchange
   back.
   */
  method VerifyExchange(dir: Directory, temporary: Name, made: Identity, previous: Identity, fault: Option<Fault>)
    returns (r: Result<(), PersistenceError>, ghost events: seq<Event>)
    requires temporary.Temporary? && Target in dir.fs.entries && temporary in dir.fs.entries
              && dir.fs.inodes[dir.fs.entries[Target]].synced
    modifies dir`fs, dir`trace
    ensures old(dir.Recorded()) ==> dir.Recorded()
    ensures dir.trace == old(dir.trace) + events
    ensures r.Ok? ==> dir.fs == old(dir.fs)
    ensures r.Ok? ==> events == [Event(Op.SyncFile(made.ino), dir.fs), Event(Op.SyncDirectory, dir.fs)]
    ensures r.Ok? ==> old(IdentityOf(dir.fs, Target)) == made && old(IdentityOf(dir.fs, temporary)) == previous
    ensures Swaps(events) <= 1
              && dir.fs == if Swaps(events) == 0 then old(dir.fs) else Swapped(old(dir.fs), temporary, Target)
    ensures Undisturbed(events) && if r.Ok? then Swaps(events) == 0 else Unsynced(events)
    ensures dir.blind ==>
              r == Err(if Injected(fault, PostExchangeIdentityVerification) then WriteFailed else Insecure) && events == []
    // a file that was not expected is put back, and that is reported
    ensures (old(IdentityOf(dir.fs, Target)) != made || old(IdentityOf(dir.fs, temporary)) != previous)
              && !Injected(fault, PostExchangeIdentityVerification) ==>
              r.Err? && (Swaps(events) == 1 ==> r == Err(Insecure))
    ensures forall k :: 0 <= k < |events| ==>
              events[k].after == old(dir.fs) || events[k].after == Swapped(old(dir.fs), temporary, Target)
    ensures Orderly(events, false, {}) && forall k :: 0 <= k < |events| ==> !events[k].op.Unlink?
    ensures dir.reliable && !dir.blind && old(IdentityOf(dir.fs, Target)) == made && made.private && r.Err? ==>
              dir.fs == Swapped(old(dir.fs), temporary, Target) || Injected(fault, PostExchangeIdentityVerification)
    ensures dir.reliable && !dir.blind && old(IdentityOf(dir.fs, Target)) == made && made.private
              && old(IdentityOf(dir.fs, temporary)) == previous ==>
              if Injected(fault, PostExchangeIdentityVerification) || FailsSettling(fault)
              then r == Err(WriteFailed) && dir.fs == Swapped(old(dir.fs), temporary, Target) && Swaps(events) == 1
              else r.Ok?
  {
    hide Chain, Orderly, Swaps, Unsynced, Undisturbed;
    events := [];
    PlainOps([], {});
    CheckIsOrderly([], false);
    ghost var exchanged := dir.fs;
    if Injected(fault, PostExchangeIdentityVerification) {
      var _, undo := RollbackExchange(dir, temporary, made, previous);
      return Err(WriteFailed), undo;
    }
    var atTarget := dir.Stat(Target);
    if atTarget.None? {
      return Err(Insecure), events;
    }
    var atTemporary := dir.Stat(temporary);
    if atTemporary.None? {
      return Err(Insecure), events;
    }
    if atTarget.value != made || atTemporary.value != previous {
      var undone, undo := RollbackExchange(dir, temporary, made, atTemporary.value);
      return Err(if undone then Insecure else WriteFailed), undo;
    }
    var verified, syncing := VerifyPublished(dir, made, fault);
    assert dir.fs == exchanged by {
      assert exchanged.inodes[made.ino := exchanged.inodes[made.ino].(synced := true)] == exchanged.inodes;
    }
    events := syncing;
    var failure := if verified.Err? then Some(verified.error) else None;
    if failure.None? && Injected(fault, FirstDirectoryFsync) {
      failure := Some(WriteFailed);
    }
    if failure.None? {
      var synced := dir.SyncDirectory();
      if synced {
        PlainOps(events + [Event(Op.SyncDirectory, dir.fs)], {});
        return Ok(()), events + [Event(Op.SyncDirectory, dir.fs)];
      }
      failure := Some(WriteFailed);
    }
    var undone, undo := RollbackExchange(dir, temporary, made, previous);
    SwapsAdd(events, undo);
    UnsyncedAdds(events, undo);
    UndisturbedAdds(events, undo);
    OrderlyExtends(events, undo, false, {});
    return Err(if undone then failure.value else WriteFailed), events + undo;
  }

  lemma SwapIsSafe(f: Fs, start: Fs, temporary: Name, made: Identity, document: Document)
    requires Ready(f, start, temporary, made, document) && Steady(f, start, Complete(made.ino, document))
              && Target in f.entries
    ensures Steady(Swapped(f, temporary, Target), start, Complete(made.ino, document))
  {
    var g := Swapped(f, temporary, Target);
    forall n | n != Target && n != Lock && !Transactional(n) ensures SameEntry(g, start, n) {
      assert SameEntry(f, start, n);
    }
  }

  lemma SwapTwice(f: Fs, a: Name, b: Name)
    requires a in f.entries && b in f.entries
    ensures Swapped(Swapped(f, a, b), a, b) == f
  {
    assert Swapped(Swapped(f, a, b), a, b).entries == f.entries;
  }

  /** The document being replaced, if the removal of its last name follows the commit. */
  lemma CleanupPreserves(events: seq<Event>, cleanup: seq<Event>, kept: nat, ino: nat)
    requires Preserved(events, kept, ino) && Committed(events, |events|, ino)
    ensures Preserved(events + cleanup, kept, ino) && Committed(events + cleanup, |events + cleanup|, ino)
  {
    var all := events + cleanup;
    var s, d :| 0 <= s < d < |events| && Synced(events, s, d, ino);
    assert Synced(all, s, d, ino);
    forall k | 0 <= k < |all| ensures Reachable(all[k].after, kept) || Committed(all, k, ino) {
      if k < |events| {
        assert all[k] == events[k];
        if Committed(events, k, ino) {
          var s', d' :| 0 <= s' < d' < k && Synced(events, s', d', ino);
          assert Synced(all, s', d', ino);
        }
      }
    }
  }

  /** Exchange with the existing file, settle, then remove the old inode. */
  method SwapTarget(dir: Directory, temporary: Name, made: Identity, previous: Identity, fault: Option<Fault>,
                    ghost start: Fs, ghost document: Document)
    returns (r: Result<WriteOutcome, PersistenceError>, ghost events: seq<Event>)
    requires Ready(dir.fs, start, temporary, made, document)
    requires dir.solitary ==> Steady(dir.fs, start, Complete(made.ino, document)) && Names(dir.fs, Target, previous.ino)
    modifies dir`fs, dir`trace
    ensures old(dir.Recorded()) ==> dir.Recorded()
    ensures dir.trace == old(dir.trace) + events
    ensures Chronicle(events, false, dir.solitary, start, Complete(made.ino, document), {previous.ino})
    ensures dir.solitary ==>
              Steady(dir.fs, start, Complete(made.ino, document)) && Preserved(events, previous.ino, made.ino)
    ensures r.Ok? ==>
              r.value.committed && PublishedAs(dir.fs, made.ino, document) && Committed(events, |events|, made.ino)
    ensures if r.Ok? then Durable(events, made.ino) else Unsynced(events)
    ensures r.Ok? ==> Target in old(dir.fs.entries) && old(IdentityOf(dir.fs, Target)) == previous
    ensures Clean(r) ==> dir.fs == Removed(Swapped(old(dir.fs), temporary, Target), temporary) && EndsSynced(events)
    ensures Exchanges(events, made.ino) && (r.Ok? ==> Swaps(events) == 1) && Undisturbed(events)
    ensures r.Err? && Swaps(events) != 1 ==> dir.fs == old(dir.fs)
    ensures r.Err? && Swaps(events) == 1 ==>
              Target in old(dir.fs.entries) && dir.fs == Swapped(old(dir.fs), temporary, Target)
    ensures r.Err? ==> forall k :: 0 <= k < |events| ==> !events[k].op.Unlink?
    ensures dir.reliable && !dir.blind && Target in old(dir.fs.entries) && r.Err?
              && !Injected(fault, PostExchangeIdentityVerification) ==>
              dir.fs == old(dir.fs)
    ensures dir.reliable && dir.blind && Target in old(dir.fs.entries) ==>
              && r == Err(if Injected(fault, PostExchangeIdentityVerification) then WriteFailed else Insecure)
              && dir.fs == Swapped(old(dir.fs), temporary, Target) && Swaps(events) == 1
    ensures dir.reliable && !dir.blind && Target in old(dir.fs.entries) && old(IdentityOf(dir.fs, Target)) == previous
              && previous.private ==>
              if Injected(fault, PostExchangeIdentityVerification) || FailsSettling(fault)
              then r == Err(WriteFailed) && dir.fs == old(dir.fs) && Swaps(events) == 2
              else && r == Ok(WriteOutcome(true, DegradesCleanup(fault)))
                   && dir.fs == if Injected(fault, OldInodeCleanup) then Swapped(old(dir.fs), temporary, Target)
                                else Removed(Swapped(old(dir.fs), temporary, Target), temporary)
  {
    hide Steady, Removed, FailsSettling, DegradesCleanup, Chain, Orderly, Swaps, Unsynced, Durable, Exchanges;
    hide Preserved, Committed, Calm, Undisturbed, EndsSynced;
    NothingYet(made.ino, previous.ino, start, Complete(made.ino, document));
    events := [];
    ghost var before := dir.fs;
    var swapped := dir.Exchange(temporary, Target);
    if !swapped {
      var alreadyThere: bool := *;
      return Err(if alreadyThere then Insecure else WriteFailed), events;
    }
    ghost var exchanged := dir.fs;
    SwapTwice(before, temporary, Target);
    ghost var exchange := [Event(Swap(temporary, Target), exchanged)];
    var verified, settling := VerifyExchange(dir, temporary, made, previous, fault);
    events := exchange + settling;
    ExchangeJoins(exchange, settling, made.ino, previous.ino);
    if dir.solitary { BothStatesAreSafe(events, before, exchanged, start, temporary, made, previous.ino, document); }
    if verified.Err? {
      return Err(verified.error), events;
    }
    CommittedAt(events, 1, 2, made.ino);
    SettledAt(events, 2, made.ino);
    var degraded, cleanup := CleanupOld(dir, temporary, previous, fault, start, Complete(made.ino, document));
    r := Ok(WriteOutcome(true, degraded));
    CleanupJoins(events, cleanup, made.ino, previous.ino, dir.solitary, start, Complete(made.ino, document));
    events := events + cleanup;
  }

  lemma ExchangeJoins(exchange: seq<Event>, settling: seq<Event>, ino: nat, kept: nat)
    requires |exchange| == 1 && exchange[0].op.Swap? && SparesLock(exchange[0].op)
              && Names(exchange[0].after, Target, ino)
    requires Orderly(settling, false, {}) && Undisturbed(settling) && Swaps(settling) <= 1
    ensures var all := exchange + settling;
            && Orderly(all, false, {kept}) && Undisturbed(all) && Swaps(all) == 1 + Swaps(settling)
                && Exchanges(all, ino)
            && (Unsynced(settling) ==> Unsynced(all))
  {
    hide Orderly, Undisturbed, Swaps, Unsynced, Exchanges;
    OneSwap(exchange, {kept});
    SwapsAdd(exchange, settling);
    assert (exchange + settling)[0] == exchange[0];
    ExchangeShows(exchange + settling, ino);
    UnsyncedAdds(exchange, settling);
    UndisturbedAdds(exchange, settling);
    OrderlyWidens(settling, false, {}, {kept});
    OrderlyExtends(exchange, settling, false, {kept});
  }

  /** What holds of a settled exchange holds when the cleanup follows it. */
  lemma CleanupJoins(events: seq<Event>, cleanup: seq<Event>, ino: nat, kept: nat, solitary: bool, start: Fs,
                     draft: Draft)
    requires Chronicle(events, false, solitary, start, draft, {kept})
              && Chronicle(cleanup, false, solitary, start, draft, {kept})
    requires Committed(events, |events|, ino) && Durable(events, ino) && Exchanges(events, ino)
    requires Swaps(cleanup) == 0 && Undisturbed(events) && Undisturbed(cleanup)
              && (solitary ==> Preserved(events, kept, ino))
    requires forall k :: 0 <= k < |cleanup| ==> Names(cleanup[k].after, Target, ino)
    ensures var all := events + cleanup;
            && Chronicle(all, false, solitary, start, draft, {kept}) && Committed(all, |all|, ino) && Durable(all, ino)
            && Exchanges(all, ino) && Swaps(all) == Swaps(events) && Undisturbed(all)
                && (solitary ==> Preserved(all, kept, ino))
            && (EndsSynced(cleanup) ==> EndsSynced(all))
  {
    hide Chronicle, Committed, Durable, Exchanges, Swaps, Undisturbed, Preserved, EndsSynced;
    CommitLasts(events, cleanup, ino);
    if solitary { CleanupPreserves(events, cleanup, kept, ino); }
    SuffixSettles(events, cleanup, ino);
    SwapsAdd(events, cleanup);
    UndisturbedAdds(events, cleanup);
    ExchangesAdd(events, cleanup, ino);
    Extend(events, cleanup, false, solitary, start, draft, {kept});
    EndStays(events, cleanup);
  }

  lemma NothingYet(ino: nat, kept: nat, start: Fs, draft: Draft)
    ensures Orderly([], false, {kept}) && Swaps([]) == 0 && Exchanges([], ino) && Unsynced([]) && Undisturbed([])
    ensures Preserved([], kept, ino) && Calm([], start, draft)
  {
  }

  /** While the two files change places and back, either is under one of the two names. */
  lemma BothStatesAreSafe(events: seq<Event>, before: Fs, exchanged: Fs, start: Fs, temporary: Name, made: Identity,
                          kept: nat, document: Document)
    requires Ready(before, start, temporary, made, document) && Steady(before, start, Complete(made.ino, document))
              && Names(before, Target, kept)
    requires exchanged == Swapped(before, temporary, Target)
    requires forall k :: 0 <= k < |events| ==> events[k].after == before || events[k].after == exchanged
    ensures Calm(events, start, Complete(made.ino, document)) && Preserved(events, kept, made.ino)
    ensures Steady(exchanged, start, Complete(made.ino, document))
  {
    SwapIsSafe(before, start, temporary, made, document);
    hide Steady;
    assert Names(exchanged, temporary, kept);
  }

  lemma CommittedAt(events: seq<Event>, s: nat, d: nat, ino: nat)
    requires s < d < |events| && Synced(events, s, d, ino)
    ensures Committed(events, |events|, ino)
  {
  }

  lemma CommitLasts(events: seq<Event>, more: seq<Event>, ino: nat)
    requires Committed(events, |events|, ino)
    ensures Committed(events + more, |events + more|, ino)
  {
    var s, d :| 0 <= s < d < |events| && Synced(events, s, d, ino);
    assert Synced(events + more, s, d, ino);
  }

  lemma NothingExchanged(events: seq<Event>, ino: nat)
    requires Swaps(events) == 0
    ensures Exchanges(events, ino)
  {
  }

  lemma ExchangeShows(events: seq<Event>, ino: nat)
    requires events != [] && Names(events[0].after, Target, ino) && Swaps(events) <= 2
    ensures Exchanges(events, ino)
  {
  }

  lemma OneMove(events: seq<Event>, own: set<nat>)
    requires |events| == 1 && events[0].op.Move? && SparesLock(events[0].op)
    ensures Swaps(events) == 0 && Unsynced(events) && Orderly(events, false, own) && Undisturbed(events)
  {
    NoSwaps(events);
  }

  lemma OneSwap(events: seq<Event>, own: set<nat>)
    requires |events| == 1 && events[0].op.Swap? && SparesLock(events[0].op)
    ensures Swaps(events) == 1 && Unsynced(events) && Orderly(events, false, own) && Undisturbed(events)
  {
    assert events[..0] == [];
  }

  lemma SettledAt(events: seq<Event>, d: nat, ino: nat)
    requires d < |events| && SettlesAt(events, d, ino)
    ensures Durable(events, ino)
  {
  }

  /** Drop the exchanged-out inode; failing to do so only degrades the outcome. */
  method CleanupOld(dir: Directory, temporary: Name, previous: Identity, fault: Option<Fault>, ghost start: Fs,
                    ghost draft: Draft)
    returns (degraded: bool, ghost events: seq<Event>)
    requires temporary.Temporary?
    requires dir.solitary ==> Steady(dir.fs, start, draft)
    modifies dir`fs, dir`trace
    ensures old(dir.Recorded()) ==> dir.Recorded()
    ensures dir.trace == old(dir.trace) + events
    ensures Chronicle(events, false, dir.solitary, start, draft, {previous.ino})
    ensures dir.solitary ==> Steady(dir.fs, start, draft)
    ensures SameEntry(dir.fs, old(dir.fs), Target) && dir.fs.inodes == old(dir.fs.inodes)
    ensures forall k :: 0 <= k < |events| ==> SameEntry(events[k].after, old(dir.fs), Target)
    ensures Swaps(events) == 0 && Undisturbed(events)
    ensures !degraded ==> dir.fs == Removed(old(dir.fs), temporary) && EndsSynced(events)
    ensures dir.reliable && temporary in old(dir.fs.entries) && old(IdentityOf(dir.fs, temporary)) == previous
              && previous.private ==>
              && (degraded <==> DegradesCleanup(fault))
              && dir.fs == if Injected(fault, OldInodeCleanup) then old(dir.fs) else Removed(old(dir.fs), temporary)
  {
    hide Chain, Steady;
    events := [];
    if Injected(fault, OldInodeCleanup) {
      return true, events;
    }
    ghost var before := dir.fs;
    var removed, removal, parked := RemoveOwned(dir, temporary, previous);
    RemovalOps(before, removal, dir.fs, temporary, previous.ino, parked);
    if dir.solitary { RemovalIsSafe(start, draft, before, removal, dir.fs, temporary, previous.ino, parked); }
    if removed.Err? {
      return true, removal;
    }
    if Injected(fault, CleanupDirectoryFsync) {
      return true, removal;
    }
    var synced := dir.SyncDirectory();
    if !synced {
      return true, removal;
    }
    ghost var syncing := [Event(Op.SyncDirectory, dir.fs)];
    PlainOps(syncing, {previous.ino});
    SwapsAdd(removal, syncing);
    UndisturbedAdds(removal, syncing);
    return false, removal + syncing;
  }

  lemma PrefixPreserves(first: seq<Event>, events: seq<Event>, kept: nat, ino: nat)
    requires forall k :: 0 <= k < |first| ==> Reachable(first[k].after, kept)
    requires Preserved(events, kept, ino)
    ensures Preserved(first + events, kept, ino)
  {
    var all := first + events;
    forall k | 0 <= k < |all| ensures Reachable(all[k].after, kept) || Committed(all, k, ino) {
      if k >= |first| && Committed(events, k - |first|, ino) {
        PrefixCommits(first, events, k - |first|, ino);
      }
    }
  }

  lemma PrefixCommits(first: seq<Event>, events: seq<Event>, k: int, ino: nat)
    requires Committed(events, k, ino)
    ensures Committed(first + events, |first| + k, ino)
  {
    var s, d :| 0 <= s < d < k <= |events| && Synced(events, s, d, ino);
    assert Synced(first + events, |first| + s, |first| + d, ino);
  }

  /** The exchange takes place, but nothing that follows it can see the configuration entry. */
  predicate Strands(fault: Option<Fault>, existed: bool, blind: bool) {
    existed && blind && !FailsEarly(fault) && !Injected(fault, Exchange)
  }

  /** How often it exchanges the two entries. */
  function ExpectedSwaps(fault: Option<Fault>, existed: bool, blind: bool): nat {
    if !existed || FailsEarly(fault) || Injected(fault, Exchange) then 0
    else if blind then 1
    else if Injected(fault, PostExchangeIdentityVerification) || FailsSettling(fault) then 2
    else 1
  }

  /** Whether it claims the free name, where no configuration existed. */
  predicate ExpectedClaim(fault: Option<Fault>) {
    !FailsEarly(fault) && !Injected(fault, NoReplacePublication)
  }

  /** The exchanges, or the claim, that the fault lets happen. */
  ghost predicate Foreseen(events: seq<Event>, ino: nat, fault: Option<Fault>, existed: bool, blind: bool) {
    && Swaps(events) == ExpectedSwaps(fault, existed, blind)
    && (!existed ==> (Shows(events, ino) <==> ExpectedClaim(fault)))
  }

  /** Steps that neither exchange entries nor put the new file in place add nothing to that. */
  lemma ForeseenAdds(first: seq<Event>, second: seq<Event>, ino: nat, fault: Option<Fault>, existed: bool, blind: bool)
    requires || (Foreseen(first, ino, fault, existed, blind) && Swaps(second) == 0 && (!existed ==> !Shows(second, ino)))
             || (Foreseen(second, ino, fault, existed, blind) && Swaps(first) == 0 && (!existed ==> !Shows(first, ino)))
    ensures Foreseen(first + second, ino, fault, existed, blind)
  {
    SwapsAdd(first, second);
    ShowsAdd(first, second, ino);
  }

  /**
   What a write with one injected fault reports when every real call succeeds,
   but for the stats that `blind` makes fail.
   */
  function Expected(fault: Option<Fault>, existed: bool, blind: bool): Result<WriteOutcome, PersistenceError> {
    if FailsEarly(fault) then Err(WriteFailed)
    else if Strands(fault, existed, blind) then Err(if Injected(fault, PostExchangeIdentityVerification) then WriteFailed else Insecure)
    else if FailsSettling(fault) then Err(WriteFailed)
    else if existed then
      if FailsExchange(fault) then Err(WriteFailed) else Ok(WriteOutcome(true, DegradesCleanup(fault)))
    else
      if Injected(fault, NoReplacePublication) then Err(WriteFailed) else Ok(WriteOutcome(true, false))
  }

  /** The directory after publication; `keep` leaves the replaced file under the temporary name. */
  function Published(f: Fs, temporary: Name, keep: bool): Fs
    requires temporary in f.entries && (keep ==> Target in f.entries)
  {
    f.(entries := (if keep then f.entries[temporary := f.entries[Target]] else f.entries - {temporary})[Target := f.entries[temporary]])
  }

  lemma PublishedShapes(f: Fs, temporary: Name)
    requires temporary in f.entries && temporary != Target
    ensures Target !in f.entries ==> Moved(f, temporary, Target) == Published(f, temporary, false)
    ensures Target in f.entries ==> Removed(Swapped(f, temporary, Target), temporary) == Published(f, temporary, false)
    ensures Target in f.entries ==> Swapped(f, temporary, Target) == Published(f, temporary, true)
  {
    if Target in f.entries {
      assert Removed(Swapped(f, temporary, Target), temporary).entries == Published(f, temporary, false).entries;
      assert Swapped(f, temporary, Target).entries == Published(f, temporary, true).entries;
    }
  }

  ghost predicate LockIs(f: Fs, lockIdentity: Identity) {
    Lock in f.entries && IdentityOf(f, Lock) == lockIdentity
  }

  ghost predicate TargetIs(f: Fs, existing: Option<Identity>) {
    match existing
    case None => Target !in f.entries
    case Some(identity) => Target in f.entries && IdentityOf(f, Target) == identity && identity.private
  }

  /** Success without anything left over. */
  predicate Clean(r: Result<WriteOutcome, PersistenceError>) { r.Ok? && !r.value.cleanupDegraded }

  /** The last step syncs the directory. */
  ghost predicate EndsSynced(events: seq<Event>) { events != [] && events[|events| - 1].op.SyncDirectory? }

  lemma EndStays(first: seq<Event>, second: seq<Event>)
    ensures EndsSynced(second) ==> EndsSynced(first + second)
  {
  }

  /** All privileged steps are taken under the lock, and a success is. */
  ghost predicate UnderLock(events: seq<Event>, start: Fs, lock: Identity, ok: bool) {
    Licensed(events, start.next, lock.ino) && (ok ==> Watched(events, lock.ino, |events|))
  }

  /**
   What every part of a write keeps to: it unlinks only what is its own, and
   privileged steps are under the lock; the old file stays reachable until the
   new one is committed; and success, but not failure, syncs the directory.
   */
  ghost predicate Proper(events: seq<Event>, lost: bool, made: nat, existing: Option<Identity>, solitary: bool,
                         start: Fs, lock: Identity, ok: bool, clean: bool) {
    && Orderly(events, lost, {made} + InoOf(existing)) && UnderLock(events, start, lock, ok)
    && Exchanges(events, made) && (lost ==> Swaps(events) == 0)
    && (solitary && existing.Some? ==> Preserved(events, existing.value.ino, made))
    && (ok ==> Committed(events, |events|, made))
    && (if ok then Durable(events, made) else Unsynced(events)) && (clean ==> EndsSynced(events))
  }

  /** Steps before anything is published. */
  ghost predicate Prelude(events: seq<Event>, made: nat, existing: Option<Identity>, solitary: bool, start: Fs,
                          lock: Identity) {
    && Orderly(events, false, {made} + InoOf(existing)) && Licensed(events, start.next, lock.ino)
    && Unsynced(events) && Swaps(events) == 0
    && (solitary && existing.Some? ==> forall k :: 0 <= k < |events| ==> Reachable(events[k].after, existing.value.ino))
  }

  lemma PreludeIsProper(events: seq<Event>, made: nat, existing: Option<Identity>, solitary: bool, start: Fs,
                        lock: Identity)
    requires Prelude(events, made, existing, solitary, start, lock)
    ensures Proper(events, false, made, existing, solitary, start, lock, false, false)
  {
    NothingExchanged(events, made);
  }

  lemma NothingDone(made: nat, existing: Option<Identity>, solitary: bool, start: Fs, lock: Identity)
    ensures Prelude([], made, existing, solitary, start, lock)
    ensures Proper([], false, made, existing, solitary, start, lock, false, false)
  {
    CheckIsOrderly([], false);
    PreludeIsProper([], made, existing, solitary, start, lock);
  }

  lemma CheckIsProper(events: seq<Event>, lost: bool, made: nat, existing: Option<Identity>, solitary: bool, start: Fs,
                      lock: Identity)
    requires Orderly(events, lost, {}) && Unsynced(events) && Swaps(events) == 0
              && Licensed(events, start.next, lock.ino)
    requires solitary && existing.Some? ==>
              forall k :: 0 <= k < |events| ==> Names(events[k].after, Target, existing.value.ino)
    ensures Proper(events, lost, made, existing, solitary, start, lock, false, false)
    ensures !lost ==> Prelude(events, made, existing, solitary, start, lock)
  {
    hide Orderly, Licensed, Swaps, Unsynced;
    OrderlyWidens(events, lost, {}, {made} + InoOf(existing));
    NothingExchanged(events, made);
    if solitary && existing.Some? {
      forall k | 0 <= k < |events| ensures Reachable(events[k].after, existing.value.ino) {
        assert Names(events[k].after, Target, existing.value.ino);
      }
    }
  }

  /** What follows undisturbed upon a successful check. */
  lemma ActsUnderLock(checking: seq<Event>, acting: seq<Event>, made: nat, existing: Option<Identity>, solitary: bool,
                      start: Fs,
                      lock: Identity, ok: bool, clean: bool)
    requires Prelude(checking, made, existing, solitary, start, lock) && Watched(checking, lock.ino, |checking|)
    requires Orderly(acting, false, {made} + InoOf(existing)) && Exchanges(acting, made) && Undisturbed(acting)
    requires solitary && existing.Some? ==> Preserved(acting, existing.value.ino, made)
    requires ok ==> Committed(acting, |acting|, made)
    requires (if ok then Durable(acting, made) else Unsynced(acting)) && (clean ==> EndsSynced(acting))
    ensures Proper(checking + acting, false, made, existing, solitary, start, lock, ok, clean)
    ensures Swaps(checking + acting) == Swaps(acting)
  {
    hide Orderly, Swaps, Unsynced, Committed, Durable, Preserved, Reachable, Exchanges, Licensed, Watched, Undisturbed;
    hide EndsSynced;
    EndStays(checking, acting);
    WatchLasts(checking, acting, start.next, lock.ino);
    OrderlyExtends(checking, acting, false, {made} + InoOf(existing));
    SwapsAdd(checking, acting);
    ExchangesAdd(checking, acting, made);
    UnsyncedAdds(checking, acting);
    if solitary && existing.Some? { PrefixPreserves(checking, acting, existing.value.ino, made); }
    if ok {
      PrefixCommits(checking, acting, |acting|, made);
      PrefixSettles(checking, acting, made);
    }
  }

  /** What holds of the later part of a write holds of the whole. */
  lemma Follows(first: seq<Event>, second: seq<Event>, lost: bool, made: nat, existing: Option<Identity>,
                solitary: bool, start: Fs,
                lock: Identity, ok: bool, clean: bool)
    requires Prelude(first, made, existing, solitary, start, lock)
    requires Proper(second, lost, made, existing, solitary, start, lock, ok, clean)
    ensures Proper(first + second, lost, made, existing, solitary, start, lock, ok, clean)
    ensures Swaps(first + second) == Swaps(second)
  {
    hide Orderly, Swaps, Unsynced, Committed, Durable, Preserved, Reachable, Exchanges, Licensed, Watched, EndsSynced;
    EndStays(first, second);
    LicensedJoins(first, second, start.next, lock.ino);
    OrderlyExtends(first, second, lost, {made} + InoOf(existing));
    SwapsAdd(first, second);
    ExchangesAdd(first, second, made);
    UnsyncedAdds(first, second);
    if solitary && existing.Some? { PrefixPreserves(first, second, existing.value.ino, made); }
    if ok {
      PrefixCommits(first, second, |second|, made);
      PrefixSettles(first, second, made);
    }
  }

  /** A failed part followed by steps that publish nothing. */
  lemma FailureFollows(first: seq<Event>, second: seq<Event>, made: nat, existing: Option<Identity>, solitary: bool,
                       start: Fs,
                       lock: Identity)
    requires Proper(first, false, made, existing, solitary, start, lock, false, false)
    requires Prelude(second, made, existing, solitary, start, lock)
    ensures Proper(first + second, false, made, existing, solitary, start, lock, false, false)
    ensures Swaps(first + second) == Swaps(first)
  {
    hide Orderly, Swaps, Unsynced, Committed, Durable, Preserved, Reachable, Exchanges, Licensed, Watched;
    LicensedJoins(first, second, start.next, lock.ino);
    OrderlyExtends(first, second, false, {made} + InoOf(existing));
    SwapsAdd(first, second);
    ExchangesAdd(first, second, made);
    UnsyncedAdds(first, second);
    if solitary && existing.Some? { SuffixPreserves(first, second, existing.value.ino, made); }
  }

  /** Publication when no configuration existed. */
  method PublishNew(dir: Directory, temporary: Name, made: Identity, lockIdentity: Identity, fault: Option<Fault>,
                    ghost start: Fs, ghost document: Document)
    returns (r: Result<WriteOutcome, PersistenceError>, lost: bool, ghost events: seq<Event>)
    requires Ready(dir.fs, start, temporary, made, document) && lockIdentity.ino < dir.fs.next
              && lockIdentity.ino in dir.flocked
    requires dir.solitary ==> Steady(dir.fs, start, Complete(made.ino, document)) && Target !in start.entries
    modifies dir`fs, dir`trace
    ensures old(dir.Recorded()) ==> dir.Recorded()
    ensures dir.trace == old(dir.trace) + events
    ensures Proper(events, lost, made.ino, None, dir.solitary, start, lockIdentity, r.Ok?, Clean(r))
              && Swaps(events) == 0
    ensures lost ==> r == Err(Insecure)
    ensures dir.Tame() && Target !in old(dir.fs.entries) && fault.None? ==> r.Ok? || lost
    ensures dir.solitary ==>
              Calm(events, start, Complete(made.ino, document)) && Steady(dir.fs, start, Complete(made.ino, document))
    ensures r.Ok? ==> r.value.committed && PublishedAs(dir.fs, made.ino, document)
    ensures dir.Quiet() && old(LockIs(dir.fs, lockIdentity)) && Target !in old(dir.fs.entries)
              && !FailsEarly(fault) ==>
              && r == Expected(fault, false, dir.blind) && !lost && Foreseen(events, made.ino, fault, false, dir.blind)
              && (r.Err? ==> dir.fs == old(dir.fs) || dir.fs == Removed(old(dir.fs), temporary))
              && (r.Ok? ==> dir.fs == Published(old(dir.fs), temporary, false))
  {
    hide Steady, Chain, Orderly, Unsynced, Durable, Committed, Swaps, Removed, Moved, Shows, Undisturbed, Proper;
    hide Prelude;
    hide Watched, Licensed, Exchanges, Foreseen, Calm;
    NothingDone(made.ino, None, dir.solitary, start, lockIdentity);
    NothingHappens(made.ino, fault, start, Complete(made.ino, document));
    lost, events := false, [];
    ghost var before := dir.fs;
    if Injected(fault, NoReplacePublication) {
      return Err(WriteFailed), lost, events;
    }
    var held, gone, locking := RequireLockIdentity(dir, lockIdentity, start, Complete(made.ino, document));
    lost, events := gone, locking;
    CheckIsProper(locking, lost, made.ino, None, dir.solitary, start, lockIdentity);
    assert SameEntry(dir.fs, before, temporary);
    if Target !in dir.fs.entries { AbsentShowsNothing(locking, made.ino); }
    if held.Err? {
      return Err(held.error), lost, events;
    }
    PublishedShapes(dir.fs, temporary);
    ghost var claiming;
    r, claiming := ClaimTarget(dir, temporary, made, fault, start, document);
    OrderlyWidens(claiming, false, {made.ino}, {made.ino} + InoOf(None));
    NothingExchanged(claiming, made.ino);
    if dir.solitary { CalmAdds(locking, claiming, start, Complete(made.ino, document)); }
    ActsUnderLock(locking, claiming, made.ino, None, dir.solitary, start, lockIdentity, r.Ok?, Clean(r));
    if Target !in before.entries && dir.Quiet() && !FailsEarly(fault) {
      ClaimIsForeseen(locking, claiming, made.ino, fault, dir.blind);
    }
    events := locking + claiming;
  }

  lemma NothingHappens(ino: nat, fault: Option<Fault>, start: Fs, draft: Draft)
    ensures Swaps([]) == 0 && Calm([], start, draft) && !Shows([], ino)
    ensures Injected(fault, NoReplacePublication) ==> forall blind :: Foreseen([], ino, fault, false, blind)
  {
  }

  lemma ClaimIsForeseen(locking: seq<Event>, claiming: seq<Event>, ino: nat, fault: Option<Fault>, blind: bool)
    requires Swaps(locking) == 0 && !Shows(locking, ino) && Swaps(claiming) == 0 && Shows(claiming, ino)
              && ExpectedClaim(fault)
    ensures Foreseen(locking + claiming, ino, fault, false, blind)
  {
    ForeseenAdds(locking, claiming, ino, fault, false, blind);
  }

  /** Where the two files are after a failed publication over an existing one. */
  ghost predicate LeftBehind(f: Fs, swaps: nat, temporary: Name, made: nat, previous: nat) {
    if swaps == 1 then Names(f, Target, made) && Names(f, temporary, previous) else Names(f, Target, previous)
  }

  /** Publication over an existing configuration. */
  method PublishOver(dir: Directory, temporary: Name, made: Identity, previous: Identity, lockIdentity: Identity,
                     fault: Option<Fault>, ghost start: Fs, ghost document: Document)
    returns (r: Result<WriteOutcome, PersistenceError>, lost: bool, ghost events: seq<Event>)
    requires Ready(dir.fs, start, temporary, made, document) && lockIdentity.ino < dir.fs.next
              && lockIdentity.ino in dir.flocked
    requires dir.solitary ==> Steady(dir.fs, start, Complete(made.ino, document)) && Names(dir.fs, Target, previous.ino)
    modifies dir`fs, dir`trace
    ensures old(dir.Recorded()) ==> dir.Recorded()
    ensures dir.trace == old(dir.trace) + events
    ensures Proper(events, lost, made.ino, Some(previous), dir.solitary, start, lockIdentity, r.Ok?, Clean(r))
    ensures lost ==> r == Err(Insecure)
    ensures dir.Tame() && !dir.blind && old(TargetIs(dir.fs, Some(previous))) && fault.None? ==> r.Ok? || lost
    ensures dir.solitary ==>
              Calm(events, start, Complete(made.ino, document)) && Steady(dir.fs, start, Complete(made.ino, document))
    ensures r.Ok? ==> r.value.committed && PublishedAs(dir.fs, made.ino, document)
    ensures r.Err? ==> forall k :: 0 <= k < |events| ==> !events[k].op.Unlink?
    ensures r.Err? && dir.solitary ==> LeftBehind(dir.fs, Swaps(events), temporary, made.ino, previous.ino)
    // nothing but the file that was inspected is ever exchanged
    ensures Target !in old(dir.fs.entries) || old(IdentityOf(dir.fs, Target)) != previous ==>
              r == Err(Insecure) && !lost && events == [] && dir.fs == old(dir.fs)
    ensures dir.Quiet() && old(LockIs(dir.fs, lockIdentity)) && old(TargetIs(dir.fs, Some(previous)))
              && !FailsEarly(fault) ==>
              && r == Expected(fault, true, dir.blind) && !lost && Foreseen(events, made.ino, fault, true, dir.blind)
              && (r.Err? ==>
                    dir.fs == if Strands(fault, true, dir.blind) then Published(old(dir.fs), temporary, true) else old(dir.fs))
              && (r.Ok? ==> dir.fs == Published(old(dir.fs), temporary, Injected(fault, OldInodeCleanup)))
  {
    hide Steady, Published, Chain, Swaps, Proper, Calm, Foreseen, LeftBehind;
    NothingDone(made.ino, Some(previous), dir.solitary, start, lockIdentity);
    NothingHappens(made.ino, fault, start, Complete(made.ino, document));
    lost, events := false, [];
    if dir.solitary { LeftAlone(dir.fs, temporary, made.ino, previous.ino); }
    var handle := dir.Open(Target);
    if !handle.Opened? {
      return Err(Insecure), lost, events;
    }
    var current := dir.Fstat(handle.ino);
    if current.None? || current.value != previous {
      return Err(Insecure), lost, events;
    }
    if Injected(fault, Exchange) {
      LaterIsForeseen([], made.ino, fault, dir.blind);
      return Err(WriteFailed), lost, events;
    }
    r, lost, events := SwapUnderLock(dir, temporary, made, previous, lockIdentity, fault, start, document);
  }

  /** The exchange, after a last look at the lock. */
  method SwapUnderLock(dir: Directory, temporary: Name, made: Identity, previous: Identity, lockIdentity: Identity,
                       fault: Option<Fault>, ghost start: Fs, ghost document: Document)
    returns (r: Result<WriteOutcome, PersistenceError>, lost: bool, ghost events: seq<Event>)
    requires Ready(dir.fs, start, temporary, made, document) && lockIdentity.ino < dir.fs.next
              && lockIdentity.ino in dir.flocked
    requires dir.solitary ==> Steady(dir.fs, start, Complete(made.ino, document)) && Names(dir.fs, Target, previous.ino)
    modifies dir`fs, dir`trace
    ensures old(dir.Recorded()) ==> dir.Recorded()
    ensures dir.trace == old(dir.trace) + events
    ensures Proper(events, lost, made.ino, Some(previous), dir.solitary, start, lockIdentity, r.Ok?, Clean(r))
    ensures lost ==> r == Err(Insecure)
    ensures dir.Tame() && !dir.blind && old(TargetIs(dir.fs, Some(previous))) && fault.None? ==> r.Ok? || lost
    ensures dir.solitary ==>
              Calm(events, start, Complete(made.ino, document)) && Steady(dir.fs, start, Complete(made.ino, document))
    ensures r.Ok? ==> r.value.committed && PublishedAs(dir.fs, made.ino, document)
    ensures r.Err? ==> forall k :: 0 <= k < |events| ==> !events[k].op.Unlink?
    ensures r.Err? && dir.solitary ==> LeftBehind(dir.fs, Swaps(events), temporary, made.ino, previous.ino)
    ensures dir.Quiet() && old(LockIs(dir.fs, lockIdentity)) && old(TargetIs(dir.fs, Some(previous)))
              && !FailsEarly(fault) && !Injected(fault, Exchange) ==>
              && r == Expected(fault, true, dir.blind) && !lost && Foreseen(events, made.ino, fault, true, dir.blind)
              && (r.Err? ==>
                    dir.fs == if Strands(fault, true, dir.blind) then Published(old(dir.fs), temporary, true) else old(dir.fs))
              && (r.Ok? ==> dir.fs == Published(old(dir.fs), temporary, Injected(fault, OldInodeCleanup)))
  {
    hide Steady, Committed, Published, Removed, Chain, Orderly, Unsynced, Durable, Swaps, Exchanges, Undisturbed;
    hide Proper;
    hide Watched, Licensed, Prelude, Calm, Preserved, Foreseen;
    ghost var existing := Some(previous);
    ghost var before := dir.fs;
    var held, gone, locking := RequireLockIdentity(dir, lockIdentity, start, Complete(made.ino, document));
    lost, events := gone, locking;
    assert SameEntry(dir.fs, before, temporary);
    assert dir.solitary ==> Names(dir.fs, Target, previous.ino) by {
      assert dir.solitary ==> SameEntry(dir.fs, before, Target);
    }
    CheckIsProper(locking, lost, made.ino, existing, dir.solitary, start, lockIdentity);
    if held.Err? {
      return Err(held.error), lost, events;
    }
    PublishedShapes(dir.fs, temporary);
    ghost var swapping;
    r, swapping := SwapTarget(dir, temporary, made, previous, fault, start, document);
    OrderlyWidens(swapping, false, {previous.ino}, {made.ino} + InoOf(existing));
    if dir.solitary { CalmAdds(locking, swapping, start, Complete(made.ino, document)); }
    ActsUnderLock(locking, swapping, made.ino, existing, dir.solitary, start, lockIdentity, r.Ok?, Clean(r));
    events := locking + swapping;
    if Swaps(events) == ExpectedSwaps(fault, true, dir.blind) { LaterIsForeseen(events, made.ino, fault, dir.blind); }
  }

  lemma FillIsSafe(f: Fs, start: Fs, ino: nat, node: Inode)
    requires Steady(f, start, Pending) && ino in f.inodes && ino >= start.next
    ensures Steady(Filled(f, ino, node), start, Pending)
  {
    var g := Filled(f, ino, node);
    forall n | n != Target && n != Lock && !Transactional(n) ensures SameEntry(g, start, n) {
      assert SameEntry(f, start, n);
    }
  }

  lemma DraftCompletes(f: Fs, start: Fs, ino: nat, document: Document)
    requires Steady(f, start, Pending) && ino >= start.next && ino in f.inodes
              && f.inodes[ino] == Inode(document, true, true)
    ensures Steady(f, start, Complete(ino, document))
  {
  }

  /** Write and sync the candidate, and check what was created. */
  method FillTemporary(dir: Directory, made: Identity, document: Document, fault: Option<Fault>, ghost start: Fs)
    returns (r: Result<(), PersistenceError>, ghost events: seq<Event>)
    requires made.ino in dir.fs.inodes && made.ino >= start.next && dir.fs.inodes[made.ino].private == made.private
    requires dir.solitary ==> Steady(dir.fs, start, Pending)
    modifies dir`fs, dir`trace
    ensures old(dir.Recorded()) ==> dir.Recorded()
    ensures dir.trace == old(dir.trace) + events
    ensures Chronicle(events, false, dir.solitary, start, Pending, {}) && Unsynced(events) && Swaps(events) == 0
    ensures forall lock :: Licensed(events, start.next, lock)
    ensures dir.solitary ==> Steady(dir.fs, start, Pending)
    ensures dir.fs.entries == old(dir.fs.entries) && made.ino in dir.fs.inodes && dir.fs.next == old(dir.fs.next)
    ensures dir.fs == Filled(old(dir.fs), made.ino, dir.fs.inodes[made.ino])
              && dir.fs.inodes[made.ino].private == made.private
    ensures forall k :: 0 <= k < |events| ==> events[k].after.entries == old(dir.fs.entries)
    ensures r.Ok? ==> made.private && dir.fs.inodes[made.ino] == Inode(document, true, true)
    ensures dir.full ==> r.Err?
    ensures dir.reliable && !dir.full && made.private ==>
              r == if Injected(fault, TemporaryWrite) || Injected(fault, TemporaryFsync) || Injected(fault, BeforePublication)
                   then Err(WriteFailed) else Ok(())
  {
    hide Steady, Chain, Licensed;
    events := [];
    PlainOps([], {});
    ghost var before := dir.fs;
    assert before.inodes[made.ino := before.inodes[made.ino]] == before.inodes;
    if Injected(fault, TemporaryWrite) {
      return Err(WriteFailed), events;
    }
    var written := dir.WriteAll(made.ino, document);
    events := [Event(Op.Write(made.ino), dir.fs)];
    PlainOps(events, {});
    if dir.solitary { FillIsSafe(before, start, made.ino, dir.fs.inodes[made.ino]); }
    if !written || Injected(fault, TemporaryFsync) {
      return Err(WriteFailed), events;
    }
    ghost var filled := dir.fs;
    var synced := dir.SyncFile(made.ino);
    if !synced {
      return Err(WriteFailed), events;
    }
    assert dir.fs == Filled(before, made.ino, dir.fs.inodes[made.ino]);
    if dir.solitary { FillIsSafe(before, start, made.ino, dir.fs.inodes[made.ino]); }
    events := events + [Event(Op.SyncFile(made.ino), dir.fs)];
    PlainOps(events, {});
    var identity := dir.Fstat(made.ino);
    if identity.None? || !identity.value.private {
      return Err(Insecure), events;
    }
    r := if Injected(fault, BeforePublication) then Err(WriteFailed) else Ok(());
  }

  lemma SuffixPreserves(events: seq<Event>, last: seq<Event>, kept: nat, ino: nat)
    requires Preserved(events, kept, ino)
    requires forall k :: 0 <= k < |last| ==> Reachable(last[k].after, kept)
    ensures Preserved(events + last, kept, ino)
  {
    var all := events + last;
    forall k | 0 <= k < |all| ensures Reachable(all[k].after, kept) || Committed(all, k, ino) {
      if k < |events| && Committed(events, k, ino) {
        var s, d :| 0 <= s < d < k && Synced(events, s, d, ino);
        assert Synced(all, s, d, ino);
      }
    }
  }

  function InoOf(existing: Option<Identity>): set<nat> {
    match existing
    case None => {}
    case Some(identity) => {identity.ino}
  }

  method Publish(dir: Directory, temporary: Name, made: Identity, existing: Option<Identity>, lockIdentity: Identity,
                 fault: Option<Fault>, ghost start: Fs, ghost document: Document)
    returns (r: Result<WriteOutcome, PersistenceError>, lost: bool, ghost events: seq<Event>)
    requires Ready(dir.fs, start, temporary, made, document) && lockIdentity.ino < dir.fs.next
              && lockIdentity.ino in dir.flocked
    requires dir.solitary ==> Steady(dir.fs, start, Complete(made.ino, document))
    requires dir.solitary ==>
              if existing.None? then Target !in start.entries else Names(dir.fs, Target, existing.value.ino)
    modifies dir`fs, dir`trace
    ensures old(dir.Recorded()) ==> dir.Recorded()
    ensures dir.trace == old(dir.trace) + events
    ensures Proper(events, lost, made.ino, existing, dir.solitary, start, lockIdentity, r.Ok?, Clean(r))
    ensures lost ==> r == Err(Insecure)
    ensures dir.Tame() && (existing.Some? ==> !dir.blind) && old(TargetIs(dir.fs, existing)) && fault.None? ==>
              r.Ok? || lost
    ensures dir.solitary ==>
              Calm(events, start, Complete(made.ino, document)) && Steady(dir.fs, start, Complete(made.ino, document))
    ensures dir.solitary && existing.Some? && r.Err? ==>
              LeftBehind(dir.fs, Swaps(events), temporary, made.ino, existing.value.ino)
    ensures r.Ok? ==> r.value.committed && PublishedAs(dir.fs, made.ino, document)
    ensures dir.Quiet() && old(LockIs(dir.fs, lockIdentity)) && old(TargetIs(dir.fs, existing))
              && !FailsEarly(fault) ==>
              && Foreseen(events, made.ino, fault, existing.Some?, dir.blind)
              && r == Expected(fault, existing.Some?, dir.blind) && !lost
              && (r.Err? ==>
                    if Strands(fault, existing.Some?, dir.blind) then dir.fs == Published(old(dir.fs), temporary, true)
                    else dir.fs == old(dir.fs) || dir.fs == Removed(old(dir.fs), temporary))
              && (r.Ok? ==>
                    dir.fs == Published(old(dir.fs), temporary, existing.Some? && Injected(fault, OldInodeCleanup)))
  {
    hide Steady, Chain, Proper, LeftBehind, Published, Removed, Swaps, Calm, Foreseen;
    match existing {
      case None =>
        r, lost, events := PublishNew(dir, temporary, made, lockIdentity, fault, start, document);
      case Some(previous) =>
        r, lost, events := PublishOver(dir, temporary, made, previous, lockIdentity, fault, start, document);
    }
  }

  /** The last moment before publication in which others may act. */
  method PauseAndPublish(dir: Directory, temporary: Name, made: Identity, existing: Option<Identity>,
                         lockIdentity: Identity,
                         fault: Option<Fault>, ghost start: Fs, ghost document: Document)
    returns (r: Result<WriteOutcome, PersistenceError>, lost: bool, ghost events: seq<Event>)
    requires Ready(dir.fs, start, temporary, made, document) && lockIdentity.ino < dir.fs.next
              && lockIdentity.ino in dir.flocked
    requires dir.solitary ==> Steady(dir.fs, start, Complete(made.ino, document))
    requires dir.solitary ==>
              if existing.None? then Target !in start.entries else Names(dir.fs, Target, existing.value.ino)
    modifies dir`fs, dir`trace
    ensures old(dir.Recorded()) ==> dir.Recorded()
    ensures dir.trace == old(dir.trace) + events
    ensures Proper(events, lost, made.ino, existing, dir.solitary, start, lockIdentity, r.Ok?, Clean(r))
    ensures lost ==> r == Err(Insecure)
    ensures dir.Tame() && (existing.Some? ==> !dir.blind) && old(TargetIs(dir.fs, existing)) && fault.None? ==>
              r.Ok? || lost
    ensures dir.solitary ==>
              Calm(events, start, Complete(made.ino, document)) && Steady(dir.fs, start, Complete(made.ino, document))
    ensures dir.solitary && existing.Some? && r.Err? ==>
              LeftBehind(dir.fs, Swaps(events), temporary, made.ino, existing.value.ino)
    ensures r.Ok? ==> r.value.committed && PublishedAs(dir.fs, made.ino, document)
    ensures dir.Quiet() && old(LockIs(dir.fs, lockIdentity)) && old(TargetIs(dir.fs, existing))
              && !FailsEarly(fault) ==>
              && Foreseen(events, made.ino, fault, existing.Some?, dir.blind)
              && r == Expected(fault, existing.Some?, dir.blind) && !lost
              && (r.Err? ==>
                    if Strands(fault, existing.Some?, dir.blind) then dir.fs == Published(old(dir.fs), temporary, true)
                    else dir.fs == old(dir.fs) || dir.fs == Removed(old(dir.fs), temporary))
              && (r.Ok? ==>
                    dir.fs == Published(old(dir.fs), temporary, existing.Some? && Injected(fault, OldInodeCleanup)))
  {
    hide Steady, Chain, Proper, LeftBehind, Published, Removed, Swaps, Calm, Foreseen, Prelude, Orderly, Unsynced;
    hide Licensed;
    hide LockIs, TargetIs, Expected, Strands, FailsEarly;
    ghost var before := dir.fs;
    var acting := Interlude(dir, start, Complete(made.ino, document));
    if dir.solitary && existing.Some? { assert SameEntry(dir.fs, before, Target); }
    CheckIsProper(acting, false, made.ino, existing, dir.solitary, start, lockIdentity);
    assert Ready(dir.fs, start, temporary, made, document) by { assert SameEntry(dir.fs, before, temporary); }
    if TargetIs(before, existing) && dir.Tame() { InterludeSpares(before, dir.fs, existing); }
    ghost var publishing;
    r, lost, publishing := Publish(dir, temporary, made, existing, lockIdentity, fault, start, document);
    if dir.solitary { CalmAdds(acting, publishing, start, Complete(made.ino, document)); }
    Follows(acting, publishing, lost, made.ino, existing, dir.solitary, start, lockIdentity, r.Ok?, Clean(r));
    events := acting + publishing;
    assert dir.Quiet() ==> events == publishing;
  }

  /** Of the files that matter here, others touch only the lock. */
  lemma InterludeSpares(before: Fs, after: Fs, existing: Option<Identity>)
    requires TargetIs(before, existing) && SameEntry(after, before, Target)
    requires forall i :: i in before.inodes ==> i in after.inodes && after.inodes[i] == before.inodes[i]
    ensures TargetIs(after, existing)
  {
  }

  lemma CalmAdds(first: seq<Event>, second: seq<Event>, start: Fs, draft: Draft)
    requires Calm(first, start, draft) && Calm(second, start, draft)
    ensures Calm(first + second, start, draft)
  {
    hide Steady;
  }

  lemma LaterIsForeseen(events: seq<Event>, ino: nat, fault: Option<Fault>, blind: bool)
    requires Swaps(events) == ExpectedSwaps(fault, true, blind)
    ensures Foreseen(events, ino, fault, true, blind)
  {
  }

  /** A candidate created by this writer, not yet published, beside the file that `existing` describes. */
  ghost predicate Staged(f: Fs, solitary: bool, start: Fs, temporary: Name, made: Identity,
                         existing: Option<Identity>) {
    && temporary.Temporary? && temporary in f.entries && IdentityOf(f, temporary) == made && made.ino >= start.next
    && (existing.Some? ==> existing.value.ino != made.ino)
    && (solitary ==> Steady(f, start, Pending) && TargetWas(start, existing))
  }

  ghost predicate TargetWas(start: Fs, existing: Option<Identity>) {
    match existing
    case None => Target !in start.entries
    case Some(identity) => Names(start, Target, identity.ino)
  }

  lemma TargetStill(f: Fs, start: Fs, existing: Option<Identity>)
    requires Steady(f, start, Pending) && TargetWas(start, existing)
    ensures if existing.None? then Target !in f.entries else Names(f, Target, existing.value.ino)
  {
  }

  /** The candidate is back under its temporary name or already removed, all else as before. */
  ghost predicate Undone(f: Fs, before: Fs, temporary: Name, made: Identity) {
    || f.entries == before.entries - {temporary}
    || (f.entries == before.entries && temporary in f.entries && IdentityOf(f, temporary) == made)
  }

  /** The two files have changed places, and that is all. */
  ghost predicate Traded(f: Fs, before: Fs, temporary: Name, existing: Option<Identity>) {
    && existing.Some? && temporary in before.entries && Target in before.entries && temporary in f.entries
    && f.entries == Published(before, temporary, true).entries && IdentityOf(f, temporary) == existing.value
  }

  lemma TradedAfterFill(before: Fs, filled: Fs, temporary: Name, made: Identity, existing: Option<Identity>)
    requires temporary.Temporary? && temporary in before.entries && made.ino in filled.inodes
              && made.ino in before.inodes
    requires filled == Filled(before, made.ino, filled.inodes[made.ino])
    requires existing.Some? && TargetIs(before, existing) && existing.value.ino != made.ino
    ensures Traded(Published(filled, temporary, true), before, temporary, existing)
  {
  }

  /** The draft is complete once its filling succeeded. */
  ghost function DraftOf(filled: bool, ino: nat, document: Document): Draft {
    if filled then Complete(ino, document) else Pending
  }

  /** Fill and publish the candidate; publication begins at step `p`, if `filled`. */
  method FillAndPublish(dir: Directory, temporary: Name, made: Identity, existing: Option<Identity>,
                        lockIdentity: Identity,
                        document: Document, fault: Option<Fault>, ghost start: Fs)
    returns (r: Result<WriteOutcome, PersistenceError>, lost: bool, ghost events: seq<Event>, ghost filled: bool,
             ghost p: nat)
    requires Staged(dir.fs, dir.solitary, start, temporary, made, existing) && lockIdentity.ino < dir.fs.next
              && lockIdentity.ino in dir.flocked
    modifies dir`fs, dir`trace
    ensures old(dir.Recorded()) ==> dir.Recorded()
    ensures dir.trace == old(dir.trace) + events && (filled || p == |events|)
    ensures Proper(events, lost, made.ino, existing, dir.solitary, start, lockIdentity, r.Ok?, Clean(r))
    ensures lost ==> r == Err(Insecure)
    ensures dir.Tame() && made.private && (existing.Some? ==> !dir.blind) && old(TargetIs(dir.fs, existing))
              && fault.None? ==>
              r.Ok? || lost
    ensures dir.solitary ==>
              && Phased(events, p, start, made.ino, document)
              && Steady(dir.fs, start, DraftOf(filled, made.ino, document))
    ensures dir.solitary && existing.Some? && r.Err? ==>
              LeftBehind(dir.fs, Swaps(events), temporary, made.ino, existing.value.ino)
    ensures r.Ok? ==> r.value.committed && PublishedAs(dir.fs, made.ino, document)
    ensures dir.Quiet() && made.private && old(LockIs(dir.fs, lockIdentity)) && old(TargetIs(dir.fs, existing))
              && !FailsBeforeStaging(fault) ==>
              && Foreseen(events, made.ino, fault, existing.Some?, dir.blind)
              && r == Expected(fault, existing.Some?, dir.blind) && !lost
              && (r.Err? ==>
                    if Strands(fault, existing.Some?, dir.blind) then Traded(dir.fs, old(dir.fs), temporary, existing)
                    else Undone(dir.fs, old(dir.fs), temporary, made))
              && (r.Ok? ==>
                    dir.fs.entries == Published(old(dir.fs), temporary, existing.Some? && Injected(fault, OldInodeCleanup)).entries)
  {
    hide Steady, Chain, Orderly, Unsynced, Swaps, Traded, LeftBehind, Expected, ExpectedSwaps, Foreseen, Proper;
    hide Prelude;
    hide Licensed, Shows, LockIs, TargetIs, Published, Undone, Removed, Phased, Calm;
    ghost var before := dir.fs;
    if dir.solitary { TargetStill(before, start, existing); }
    var written, filling := FillTemporary(dir, made, document, fault, start);
    filled, p := written.Ok?, |filling|;
    if dir.solitary { PendingIsPhased(filling, start, made.ino, document); }
    CheckIsProper(filling, false, made.ino, existing, dir.solitary, start, lockIdentity);
    PreludeIsProper(filling, made.ino, existing, dir.solitary, start, lockIdentity);
    if TargetIs(before, existing) && existing.None? { FillShowsNothing(filling, before, made.ino); }
    FillKeepsRoles(before, dir.fs, temporary, made, existing, lockIdentity);
    if written.Err? {
      if dir.solitary && existing.Some? { LeftAlone(dir.fs, temporary, made.ino, existing.value.ino); }
      EarlyFaultFails(filling, made.ino, fault, existing.Some?, dir.blind);
      return Err(written.error), false, filling, filled, p;
    }
    if dir.solitary { DraftCompletes(dir.fs, start, made.ino, document); }
    if existing.Some? && TargetIs(before, existing) { TradedAfterFill(before, dir.fs, temporary, made, existing); }
    ghost var publishing;
    r, lost, publishing := PauseAndPublish(dir, temporary, made, existing, lockIdentity, fault, start, document);
    if dir.solitary {
      CompleteIsPhased(publishing, start, made.ino, document);
      PhasedFollows(filling, publishing, 0, start, made.ino, document);
    }
    Follows(filling, publishing, lost, made.ino, existing, dir.solitary, start, lockIdentity, r.Ok?, Clean(r));
    if dir.Quiet() && LockIs(before, lockIdentity) && TargetIs(before, existing) && !FailsEarly(fault) {
      ForeseenAdds(filling, publishing, made.ino, fault, existing.Some?, dir.blind);
    }
    events := filling + publishing;
  }

  /** Filling the candidate changes nothing that the outcome is told by. */
  lemma FillKeepsRoles(before: Fs, filled: Fs, temporary: Name, made: Identity, existing: Option<Identity>,
                       lockIdentity: Identity)
    requires temporary.Temporary? && Names(before, temporary, made.ino) && made.ino in filled.inodes
    requires filled == Filled(before, made.ino, filled.inodes[made.ino])
    requires filled.inodes[made.ino].private == before.inodes[made.ino].private == made.private
    ensures LockIs(before, lockIdentity) ==> LockIs(filled, lockIdentity)
    ensures TargetIs(before, existing) ==> TargetIs(filled, existing)
    ensures Undone(filled, before, temporary, made) && Undone(Removed(filled, temporary), before, temporary, made)
    ensures Published(filled, temporary, false).entries == Published(before, temporary, false).entries
    ensures Target in before.entries ==>
              Published(filled, temporary, true).entries == Published(before, temporary, true).entries
  {
  }

  lemma LeftAlone(f: Fs, temporary: Name, made: nat, previous: nat)
    requires Names(f, Target, previous)
    ensures LeftBehind(f, 0, temporary, made, previous)
  {
  }

  /** A fault before publication fails the write and no entries are exchanged. */
  lemma EarlyFaultFails(events: seq<Event>, ino: nat, fault: Option<Fault>, existed: bool, blind: bool)
    requires Swaps(events) == 0
    ensures FailsEarly(fault) ==> Expected(fault, existed, blind) == Err(WriteFailed) && !Strands(fault, existed, blind)
    ensures FailsEarly(fault) && (existed || !Shows(events, ino)) ==> Foreseen(events, ino, fault, existed, blind)
  {
  }

  lemma FillShowsNothing(filling: seq<Event>, before: Fs, ino: nat)
    requires TargetIs(before, None) && forall k :: 0 <= k < |filling| ==> filling[k].after.entries == before.entries
    ensures !Shows(filling, ino)
  {
  }

  lemma AbsentShowsNothing(events: seq<Event>, ino: nat)
    requires forall k :: 0 <= k < |events| ==> Target !in events[k].after.entries
    ensures !Shows(events, ino)
  {
  }

  /**
   After a failed write over an existing file: it is still in place unless
   exactly one exchange happened, and reachable in any case.
   */
  ghost predicate Abandoned(f: Fs, swaps: nat, made: nat, previous: nat) {
    Reachable(f, previous) && Names(f, Target, if swaps == 1 then made else previous)
  }

  /** When publishing fails and the lock is still held, take the candidate away again. */
  method Commit(dir: Directory, temporary: Name, made: Identity, existing: Option<Identity>, lockIdentity: Identity,
                document: Document, fault: Option<Fault>, ghost start: Fs)
    returns (r: Result<WriteOutcome, PersistenceError>, lost: bool, ghost events: seq<Event>, ghost p: nat)
    requires Staged(dir.fs, dir.solitary, start, temporary, made, existing) && lockIdentity.ino < dir.fs.next
              && lockIdentity.ino in dir.flocked
    modifies dir`fs, dir`trace
    ensures old(dir.Recorded()) ==> dir.Recorded()
    ensures dir.trace == old(dir.trace) + events
    ensures Proper(events, lost, made.ino, existing, dir.solitary, start, lockIdentity, r.Ok?, Clean(r))
    ensures lost ==> r == Err(Insecure)
    ensures dir.Tame() && made.private && (existing.Some? ==> !dir.blind) && old(TargetIs(dir.fs, existing))
              && fault.None? ==>
              r.Ok? || lost
    ensures dir.solitary ==> Phased(events, p, start, made.ino, document) && Safe(dir.fs, start, document)
    ensures dir.solitary && existing.Some? && r.Err? ==>
              Abandoned(dir.fs, Swaps(events), made.ino, existing.value.ino)
    ensures r.Ok? ==> r.value.committed && PublishedAs(dir.fs, made.ino, document)
    ensures dir.Quiet() && made.private && old(LockIs(dir.fs, lockIdentity)) && old(TargetIs(dir.fs, existing))
              && !FailsBeforeStaging(fault) ==>
              && Foreseen(events, made.ino, fault, existing.Some?, dir.blind)
              && r == Expected(fault, existing.Some?, dir.blind)
              && (r.Err? ==>
                    if Strands(fault, existing.Some?, dir.blind) then Traded(dir.fs, old(dir.fs), temporary, existing)
                    else dir.fs.entries == old(dir.fs.entries) - {temporary})
              && (r.Ok? ==>
                    dir.fs.entries == Published(old(dir.fs), temporary, existing.Some? && Injected(fault, OldInodeCleanup)).entries)
  {
    hide Steady, Chain, Orderly, Unsynced, Safe, Swaps, Removal, Foreseen, Shows, Proper, Prelude, Licensed;
    hide Undisturbed, Expected, Strands, Phased;
    ghost var filled;
    r, lost, events, filled, p := FillAndPublish(dir, temporary, made, existing, lockIdentity, document, fault, start);
    ghost var draft := DraftOf(filled, made.ino, document);
    if dir.solitary { SteadyIsSafe(dir.fs, start, made.ino, document); }
    if dir.solitary && existing.Some? && r.Err? {
      LeftIsReachable(dir.fs, Swaps(events), temporary, made.ino, existing.value.ino);
    }
    if r.Err? && !lost {
      ghost var failed := dir.fs;
      var _, removal, parked := RemoveOwned(dir, temporary, made);
      RemovalOps(failed, removal, dir.fs, temporary, made.ino, parked);
      if dir.solitary {
        RemovalIsSafe(start, draft, failed, removal, dir.fs, temporary, made.ino, parked);
        SteadyIsSafe(dir.fs, start, made.ino, document);
        p := PhasedExtends(events, p, removal, start, made.ino, document, filled);
        if existing.Some? {
          var holder := if Swaps(events) == 1 then temporary else Target;
          RemovalKeeps(failed, removal, dir.fs, temporary, made.ino, parked, holder);
        }
      }
      OwnRemoval(removal, made.ino, existing, dir.solitary, start, lockIdentity);
      if Target !in failed.entries { AbsentShowsNothing(removal, made.ino); }
      if Foreseen(events, made.ino, fault, existing.Some?, dir.blind) && (existing.Some? || Target !in failed.entries) {
        ForeseenAdds(events, removal, made.ino, fault, existing.Some?, dir.blind);
      }
      FailureFollows(events, removal, made.ino, existing, dir.solitary, start, lockIdentity);
      events := events + removal;
    }
  }

  /** Taking its own candidate away publishes nothing and needs no lock. */
  lemma OwnRemoval(removal: seq<Event>, made: nat, existing: Option<Identity>, solitary: bool, start: Fs,
                   lock: Identity)
    requires Orderly(removal, false, {made}) && Unsynced(removal) && Swaps(removal) == 0
              && Licensed(removal, start.next, lock.ino)
    requires solitary && existing.Some? ==>
              forall k :: 0 <= k < |removal| ==> Reachable(removal[k].after, existing.value.ino)
    ensures Prelude(removal, made, existing, solitary, start, lock)
  {
    hide Orderly, Licensed, Swaps, Unsynced, Reachable;
    OrderlyWidens(removal, false, {made}, {made} + InoOf(existing));
  }

  lemma LeftIsReachable(f: Fs, swaps: nat, temporary: Name, made: nat, previous: nat)
    requires LeftBehind(f, swaps, temporary, made, previous)
    ensures Abandoned(f, swaps, made, previous)
  {
    assert Names(f, if swaps == 1 then temporary else Target, previous);
  }

  lemma PhasedExtends(events: seq<Event>, p: nat, last: seq<Event>, start: Fs, ino: nat, document: Document,
                      filled: bool) returns (q: nat)
    requires Phased(events, p, start, ino, document) && (filled || p == |events|)
    requires Calm(last, start, DraftOf(filled, ino, document))
    ensures Phased(events + last, q, start, ino, document)
  {
    hide Steady;
    q := if filled then p else |events + last|;
  }

  method CreateTemporary(dir: Directory) returns (r: Result<Name, PersistenceError>, ino: nat, ghost events: seq<Event>)
    modifies dir`fs, dir`trace
    ensures old(dir.Recorded()) ==> dir.Recorded()
    ensures dir.trace == old(dir.trace) + events
    ensures r.Err? ==> dir.fs == old(dir.fs) && events == []
    ensures r.Ok? ==> r.value.Temporary? && r.value !in old(dir.fs.entries) && ino == old(dir.fs.next)
    ensures r.Ok? ==> exists p :: dir.fs == Added(old(dir.fs), r.value, Inode([], p, false)) && (dir.reliable ==> p)
    ensures r.Ok? ==> events == [Event(Create(r.value, ino), dir.fs)]
    ensures dir.reliable ==> r.Ok?
  {
    ino, events := 0, [];
    var attempt := 0;
    while attempt < TEMP_ATTEMPTS
      invariant dir.fs == old(dir.fs) && dir.trace == old(dir.trace) && events == []
      invariant dir.reliable ==> attempt == 0
    {
      var suffix := dir.RandomSuffix();
      if suffix.None? {
        return Err(WriteFailed), ino, events;
      }
      var name := Temporary(suffix.value);
      var created := dir.CreateExclusive(name);
      match created {
        case Created(node) =>
          return Ok(name), node, [Event(Create(name, node), dir.fs)];
        case Collision =>
        case NotCreated =>
          return Err(WriteFailed), ino, events;
      }
      attempt := attempt + 1;
    }
    return Err(WriteFailed), ino, events;
  }

  lemma CreationIsSafe(f: Fs, start: Fs, temporary: Name, node: Inode)
    requires Steady(f, start, Pending) && Transactional(temporary)
    ensures Steady(Added(f, temporary, node), start, Pending)
  {
    var g := Added(f, temporary, node);
    forall n | n != Target && n != Lock && !Transactional(n) ensures SameEntry(g, start, n) {
      assert SameEntry(f, start, n);
    }
  }

  /** The existing configuration file, which must be private. */
  method Inspect(dir: Directory) returns (r: Result<Option<Identity>, PersistenceError>)
    ensures r.Ok? ==> TargetIs(dir.fs, r.value)
    ensures r.Err? ==> r.error == Insecure
    ensures dir.reliable && (Target in dir.fs.entries ==> IdentityOf(dir.fs, Target).private) ==> r.Ok?
  {
    var handle := dir.Open(Target);
    match handle {
      case Refused => return Err(Insecure);
      case Absent => return Ok(None);
      case Opened(ino) =>
        var identity := dir.Fstat(ino);
        return if identity.None? || !identity.value.private then Err(Insecure) else Ok(identity);
    }
  }

  /** Create, fill and publish the candidate. */
  method Stage(dir: Directory, existing: Option<Identity>, lockIdentity: Identity, document: Document,
               fault: Option<Fault>, ghost start: Fs)
    returns (r: Result<WriteOutcome, PersistenceError>, lost: bool, ghost events: seq<Event>, ghost made: nat,
             ghost p: nat)
    requires start.next <= dir.fs.next && TargetIs(dir.fs, existing) && lockIdentity.ino < dir.fs.next
              && lockIdentity.ino in dir.flocked
    requires dir.solitary ==> Steady(dir.fs, start, Pending)
    modifies dir`fs, dir`trace
    ensures old(dir.Recorded()) ==> dir.Recorded()
    ensures dir.trace == old(dir.trace) + events && made >= start.next
    ensures Proper(events, lost, made, existing, dir.solitary, start, lockIdentity, r.Ok?, Clean(r))
    ensures lost ==> r == Err(Insecure)
    ensures dir.Tame() && (existing.Some? ==> !dir.blind) && fault.None? ==> r.Ok? || lost
    ensures dir.solitary ==> Phased(events, p, start, made, document) && Safe(dir.fs, start, document)
    ensures dir.solitary && existing.Some? && r.Err? ==> Abandoned(dir.fs, Swaps(events), made, existing.value.ino)
    ensures r.Ok? ==> r.value.committed && PublishedAs(dir.fs, made, document)
    ensures dir.Quiet() && old(LockIs(dir.fs, lockIdentity)) && !FailsBeforeSweep(fault) ==>
              && Foreseen(events, made, fault, existing.Some?, dir.blind)
              && r == Expected(fault, existing.Some?, dir.blind)
              && (r.Err? ==>
                    if Strands(fault, existing.Some?, dir.blind) then Replaced(dir.fs.entries, old(dir.fs.entries), true)
                    else dir.fs.entries == old(dir.fs.entries))
              && (r.Ok? ==>
                    Replaced(dir.fs.entries, old(dir.fs.entries), existing.Some? && Injected(fault, OldInodeCleanup)))
  {
    hide Steady, Chain, Orderly, Unsynced, Safe, Published, Replaced, Swaps, Foreseen, Shows, Proper, Prelude, Licensed;
    hide Phased;
    hide Calm;
    lost, events, made, p := false, [], start.next, 0;
    NothingDone(made, existing, dir.solitary, start, lockIdentity);
    NothingHappens(made, fault, start, Pending);
    if dir.solitary {
      SteadyIsSafe(dir.fs, start, made, document);
      PendingIsPhased([], start, made, document);
    }
    if dir.solitary && existing.Some? { assert Names(dir.fs, Target, existing.value.ino); }
    if Injected(fault, TemporaryCreation) {
      EarlyFaultFails([], made, fault, existing.Some?, dir.blind);
      return Err(WriteFailed), lost, events, made, p;
    }
    ghost var before := dir.fs;
    var created, temporary, creating := CreateCandidate(dir, existing, lockIdentity, start);
    p := |creating|;
    CreatingIsPrelude(creating, made, existing, dir.solitary, start, lockIdentity);
    if created.Err? {
      if dir.solitary {
        SteadyIsSafe(dir.fs, start, made, document);
        PendingIsPhased(creating, start, made, document);
      }
      return Err(created.error), lost, creating, made, p;
    }
    made := created.value.ino;
    CreatingIsPrelude(creating, made, existing, dir.solitary, start, lockIdentity);
    ghost var added := dir.fs;
    ghost var committing, q;
    r, lost, committing, q := Commit(dir, temporary, created.value, existing, lockIdentity, document, fault, start);
    p := |creating| + q;
    if dir.solitary { PhasedFollows(creating, committing, q, start, made, document); }
    Follows(creating, committing, lost, made, existing, dir.solitary, start, lockIdentity, r.Ok?, Clean(r));
    if existing.None? { AbsentShowsNothing(creating, made); }
    if Foreseen(committing, made, fault, existing.Some?, dir.blind) {
      ForeseenAdds(creating, committing, made, fault, existing.Some?, dir.blind);
    }
    events := creating + committing;
    assert dir.trace == (old(dir.trace) + creating) + committing;
    if dir.Quiet() && LockIs(before, lockIdentity) && !FailsBeforeSweep(fault)
       && (r.Ok? || Strands(fault, existing.Some?, dir.blind)) {
      StagedReplaces(before.entries, added, dir.fs.entries, temporary,
                     r.Err? || (existing.Some? && Injected(fault, OldInodeCleanup)));
    }
  }

  lemma CreatingIsPrelude(creating: seq<Event>, made: nat, existing: Option<Identity>, solitary: bool, start: Fs,
                          lock: Identity)
    requires Orderly(creating, false, {}) && Unsynced(creating) && Swaps(creating) == 0
              && Licensed(creating, start.next, lock.ino)
    requires existing.Some? ==> forall k :: 0 <= k < |creating| ==> Reachable(creating[k].after, existing.value.ino)
    ensures Prelude(creating, made, existing, solitary, start, lock)
    ensures Proper(creating, false, made, existing, solitary, start, lock, false, false)
  {
    hide Orderly, Licensed, Swaps, Unsynced, Reachable;
    OrderlyWidens(creating, false, {}, {made} + InoOf(existing));
    PreludeIsProper(creating, made, existing, solitary, start, lock);
  }

  lemma CompleteIsPhased(events: seq<Event>, start: Fs, ino: nat, document: Document)
    requires Calm(events, start, Complete(ino, document))
    ensures Phased(events, 0, start, ino, document)
  {
    hide Steady;
  }

  lemma PendingIsPhased(events: seq<Event>, start: Fs, ino: nat, document: Document)
    requires Calm(events, start, Pending)
    ensures Phased(events, |events|, start, ino, document)
  {
    hide Steady;
  }

  lemma PhasedFollows(first: seq<Event>, events: seq<Event>, p: nat, start: Fs, ino: nat, document: Document)
    requires Calm(first, start, Pending) && Phased(events, p, start, ino, document)
    ensures Phased(first + events, |first| + p, start, ino, document)
  {
    hide Steady;
  }

  method CreateCandidate(dir: Directory, existing: Option<Identity>, ghost lockIdentity: Identity, ghost start: Fs)
    returns (r: Result<Identity, PersistenceError>, temporary: Name, ghost events: seq<Event>)
    requires start.next <= dir.fs.next && TargetIs(dir.fs, existing)
    requires dir.solitary ==> Steady(dir.fs, start, Pending)
    modifies dir`fs, dir`trace
    ensures old(dir.Recorded()) ==> dir.Recorded()
    ensures dir.trace == old(dir.trace) + events
    ensures Chronicle(events, false, dir.solitary, start, Pending, {}) && Unsynced(events) && Swaps(events) == 0
    ensures (forall lock :: Licensed(events, start.next, lock)) && dir.fs.next >= old(dir.fs.next)
    ensures dir.solitary ==> Steady(dir.fs, start, Pending)
    ensures existing.Some? ==>
              Names(dir.fs, Target, existing.value.ino) && forall k :: 0 <= k < |events| ==> Reachable(events[k].after, existing.value.ino)
    ensures existing.None? ==> forall k :: 0 <= k < |events| ==> Target !in events[k].after.entries
    ensures r.Ok? ==> Staged(dir.fs, dir.solitary, start, temporary, r.value, existing)
    ensures r.Ok? ==> TargetIs(dir.fs, existing) && (old(LockIs(dir.fs, lockIdentity)) ==> LockIs(dir.fs, lockIdentity))
    ensures r.Ok? ==> temporary !in old(dir.fs.entries) && dir.fs.entries - {temporary} == old(dir.fs.entries)
    ensures dir.reliable ==> r.Ok? && r.value.private
  {
    hide Steady, Chain, Orderly, Unsynced, Swaps, Licensed;
    ghost var before := dir.fs;
    if dir.solitary { TargetWasThere(before, start, existing); }
    var created, ino, creating := CreateTemporary(dir);
    events := creating;
    PlainOps(events, {});
    if existing.Some? { assert Names(before, Target, existing.value.ino) && Names(dir.fs, Target, existing.value.ino); }
    if created.Err? {
      return Err(created.error), Temporary(0), events;
    }
    temporary := created.value;
    if dir.solitary { CreationIsSafe(before, start, temporary, dir.fs.inodes[ino]); }
    var identity := dir.Fstat(ino);
    if identity.None? {
      return Err(Insecure), temporary, events;
    }
    r := Ok(identity.value);
    assert dir.fs.entries - {temporary} == before.entries;
  }

  lemma TargetWasThere(f: Fs, start: Fs, existing: Option<Identity>)
    requires Steady(f, start, Pending) && TargetIs(f, existing)
    ensures TargetWas(start, existing)
  {
  }

  /** `f` is `before` with a new configuration file, the old one staying under a temporary name if `keep`. */
  ghost predicate Replaced(f: Entries, before: Entries, keep: bool) {
    && Target in f
    && if keep then exists s :: KeptAs(f, before, s) else f == before[Target := f[Target]]
  }

  ghost predicate KeptAs(f: Entries, before: Entries, s: nat) {
    && Target in f && Target in before && Temporary(s) !in before
    && f == before[Temporary(s) := before[Target]][Target := f[Target]]
  }

  lemma StagedReplaces(before: Entries, added: Fs, f: Entries, temporary: Name, keep: bool)
    requires temporary.Temporary? && temporary !in before && temporary in added.entries
    requires added.entries - {temporary} == before
    requires keep ==> Target in before
    requires keep ==> Target in added.entries
    requires f == Published(added, temporary, keep).entries
    ensures Replaced(f, before, keep)
  {
    assert forall n :: n in before ==> n in added.entries && added.entries[n] == before[n];
    if keep {
      assert f == before[temporary := before[Target]][Target := f[Target]];
      assert KeptAs(f, before, temporary.suffix);
    } else {
      assert f == before[Target := f[Target]];
    }
  }
}
