/**
 What a power loss leaves of the file replacement of src/private_config.rs, and
 when its success is one.
 */
module ConfigDurability {
  import opened Common
  import opened Filesystem
  import opened PowerFailure
  import opened PrivateConfig

  /** What `PrivateConfig.WriteBytes` promises of its steps. */
  ghost predicate Replaced(start: Fs, events: seq<Event>, bytes: Document, own: Scratch, ok: bool) {
    && Usable(own) && Good(events, start, bytes, own) && Ended(events, start, bytes, ok)
    && if ok then Names(At(start, events, |events|), Target, start.next)
       else SameEntry(At(start, events, |events|), start, Target)
  }

  lemma StateIsSafe(start: Fs, events: seq<Event>, bytes: Document, own: Scratch, k: nat)
    requires Good(events, start, bytes, own) && k <= |events|
    ensures Safe(At(start, events, k), start, bytes, own)
  {
    if k > 0 { assert Safe(events[k - 1].after, start, bytes, own); }
  }

  /** The previous file has a name whenever the disk may still name it. */
  lemma PreviousIsReachable(start: Fs, events: seq<Event>, bytes: Document, own: Scratch, ok: bool, j: nat, k: nat)
    requires Replaced(start, events, bytes, own, ok) && Target in start.entries && OnDisk(events, j, k)
    requires !Names(At(start, events, j), Target, start.next)
    ensures Reachable(At(start, events, k), start.entries[Target])
  {
    hide Safe, Fixed, Lost;
    if k == 0 {
      assert Names(start, Target, start.entries[Target]);
    }
  }

  /**
   Losing power at any step of a replacement of a synced file: the disk names
   the previous file, which is there with its bytes, or the new one, with all
   the new bytes if it still has a name.
   */
  lemma ConfigPowerLoss(start: Fs, events: seq<Event>, bytes: Document, own: Scratch, ok: bool, j: nat, k: nat,
                        image: Fs)
    requires Replaced(start, events, bytes, own, ok) && OldIsSynced(start) && CrashImage(image, start, events, j, k)
    ensures SameEntry(image, start, Target) || Names(image, Target, start.next)
    ensures Target in start.entries && SameEntry(image, start, Target) ==>
              image.inodes[image.entries[Target]] == start.inodes[start.entries[Target]]
    ensures Names(image, Target, start.next) && Reachable(At(start, events, k), start.next) ==>
              image.inodes[start.next].content == bytes
  {
    StateIsSafe(start, events, bytes, own, j);
    StateIsSafe(start, events, bytes, own, k);
    if Target in start.entries && SameEntry(image, start, Target) {
      PreviousIsReachable(start, events, bytes, own, ok, j, k);
    }
    if Names(image, Target, start.next) {
      assert j > 0 && Names(events[j - 1].after, Target, start.next);
      assert Complete(events[k - 1].after, start, bytes);
    }
  }

  lemma HoldsUnlessLost(start: Fs, events: seq<Event>, bytes: Document, own: Scratch, ok: bool, j: nat, k: nat,
                        image: Fs)
    requires Replaced(start, events, bytes, own, ok) && OldIsSynced(start) && CrashImage(image, start, events, j, k)
    requires ok || !Shown(events, start)
    ensures HoldsADocument(image, start, bytes)
  {
    ConfigPowerLoss(start, events, bytes, own, ok, j, k, image);
    hide Good, Lost;
    if Names(image, Target, start.next) {
      assert j > 0 && Names(events[j - 1].after, Target, start.next);
      assert Names(events[k - 1].after, Target, start.next);
    }
  }

  /**
   Every power loss at every step leaves the previous or the new bytes if and
   only if the write succeeds or never gets the new file in place.
   */
  lemma ConfigEnduresIff(start: Fs, events: seq<Event>, bytes: Document, own: Scratch, ok: bool)
    requires Replaced(start, events, bytes, own, ok) && OldIsSynced(start)
    ensures Endures(start, events, bytes) <==> ok || !Shown(events, start)
  {
    if ok || !Shown(events, start) {
      hide Replaced, CrashImage, HoldsADocument, Shown;
      forall image, j, k | CrashImage(image, start, events, j, k) ensures HoldsADocument(image, start, bytes) {
        HoldsUnlessLost(start, events, bytes, own, ok, j, k, image);
      }
    } else {
      var i :| LostAt(events, start, i);
      assert Complete(events[i].after, start, bytes);
      assert CandidateLost(start, events, start.next, i, i + 1);
      LostImage(start, events, start.next, bytes, i, i + 1);
    }
  }

  /** The last state without the new file in place. */
  lemma {:induction false} LastWithout(start: Fs, events: seq<Event>, n: nat) returns (j: nat)
    requires n <= |events|
    ensures j <= n && !Names(At(start, events, j), Target, start.next)
    ensures forall i :: j <= i < n ==> Names(events[i].after, Target, start.next)
    decreases n
  {
    if n == 0 || !Names(At(start, events, n), Target, start.next) {
      j := n;
    } else {
      j := LastWithout(start, events, n - 1);
    }
  }

  /** Whatever a power loss after the write leaves, it is the new file with the new bytes. */
  ghost predicate Certain(start: Fs, events: seq<Event>, bytes: Document) {
    forall image, j :: CrashImage(image, start, events, j, |events|) ==>
      Names(image, Target, start.next) && image.inodes[start.next].content == bytes
  }

  lemma SyncedIsCertain(start: Fs, events: seq<Event>, bytes: Document, own: Scratch)
    requires Replaced(start, events, bytes, own, true) && SyncedBefore(events, |events|, start, bytes)
    ensures Certain(start, events, bytes)
  {
    hide Safe, Guarded;
    var d :| 0 <= d < |events| && events[d].op == Op.SyncDirectory && Holds(events[d].after, start, bytes);
    var n := |events|;
    assert Names(At(start, events, n), Target, start.next) && Complete(events[n - 1].after, start, bytes);
    forall image, j | CrashImage(image, start, events, j, n)
      ensures Names(image, Target, start.next) && image.inodes[start.next].content == bytes
    {
      assert d < j && Names(events[j - 1].after, Target, start.next);
    }
  }

  lemma UnsyncedIsUncertain(start: Fs, events: seq<Event>, bytes: Document, own: Scratch) returns (image: Fs, j: nat)
    requires Replaced(start, events, bytes, own, true) && !SyncedBefore(events, |events|, start, bytes)
    ensures CrashImage(image, start, events, j, |events|) && SameEntry(image, start, Target)
  {
    j := LastWithout(start, events, |events|);
    StateIsSafe(start, events, bytes, own, j);
    StateIsSafe(start, events, bytes, own, |events|);
    var f := At(start, events, |events|);
    assert forall i :: j <= i < |events| ==> Complete(events[i].after, start, bytes);
    image := RawFs(if Target in start.entries then map[Target := start.entries[Target]] else map[], f.inodes, f.next);
  }

  /** A success is certain on disk if and only if the directory was synced while the new file was in place. */
  lemma ConfigDurableIff(start: Fs, events: seq<Event>, bytes: Document, own: Scratch)
    requires Replaced(start, events, bytes, own, true)
    ensures Certain(start, events, bytes) <==> SyncedBefore(events, |events|, start, bytes)
  {
    hide Replaced, CrashImage, SyncedBefore;
    if SyncedBefore(events, |events|, start, bytes) {
      SyncedIsCertain(start, events, bytes, own);
    } else {
      var image, j := UnsyncedIsUncertain(start, events, bytes, own);
      assert !Names(image, Target, start.next);
    }
  }

  /** Whatever a power loss after a failed write leaves, it is what was there before, with its bytes. */
  ghost predicate Returned(start: Fs, events: seq<Event>) {
    forall image, j :: CrashImage(image, start, events, j, |events|) ==>
      && SameEntry(image, start, Target)
      && (Target in start.entries ==> image.inodes[image.entries[Target]] == start.inodes[start.entries[Target]])
  }

  lemma ResyncedReturns(start: Fs, events: seq<Event>, bytes: Document, own: Scratch)
    requires Replaced(start, events, bytes, own, false) && OldIsSynced(start)
    requires !Shown(events, start) || Resynced(events, start)
    ensures Returned(start, events)
  {
    hide Ended;
    StateIsSafe(start, events, bytes, own, |events|);
    forall image, j | CrashImage(image, start, events, j, |events|)
      ensures SameEntry(image, start, Target)
      ensures Target in start.entries ==> image.inodes[image.entries[Target]] == start.inodes[start.entries[Target]]
    {
      StateIsSafe(start, events, bytes, own, j);
      if Resynced(events, start) {
        var d :| 0 <= d < |events| && ResyncedAt(events, start, d);
        assert d < j;
      } else if j > 0 {
        assert !Names(events[j - 1].after, Target, start.next);
      }
      assert SameEntry(At(start, events, j), start, Target);
      assert Target in start.entries ==> Names(At(start, events, |events|), Target, start.entries[Target]);
    }
  }

  /** The last state with the new file in place. */
  lemma {:induction false} LastWith(start: Fs, events: seq<Event>, n: nat) returns (j: nat)
    requires n <= |events| && exists k :: 0 <= k < n && Names(events[k].after, Target, start.next)
    ensures 0 < j <= n && Names(events[j - 1].after, Target, start.next)
    ensures forall i :: j <= i < n ==> !Names(events[i].after, Target, start.next)
    decreases n
  {
    if Names(events[n - 1].after, Target, start.next) {
      j := n;
    } else {
      j := LastWith(start, events, n - 1);
    }
  }

  lemma UnsyncedMayShow(start: Fs, events: seq<Event>, bytes: Document, own: Scratch) returns (image: Fs, j: nat)
    requires Replaced(start, events, bytes, own, false) && Shown(events, start) && !Resynced(events, start)
    ensures CrashImage(image, start, events, j, |events|) && Names(image, Target, start.next)
  {
    hide Ended, Fixed, Guarded, Insured;
    j := LastWith(start, events, |events|);
    forall i | j <= i < |events| ensures SameEntry(events[i].after, start, Target) && !events[i].op.SyncDirectory? {
      SinceThen(start, events, bytes, own, j, i);
    }
    var f := At(start, events, |events|);
    assert start.next in f.inodes by { IsThere(start, events, bytes, own, j); }
    image := RawFs(map[Target := start.next], f.inodes, f.next);
  }

  lemma SinceThen(start: Fs, events: seq<Event>, bytes: Document, own: Scratch, j: nat, i: nat)
    requires Good(events, start, bytes, own) && !Resynced(events, start) && j <= i < |events|
    requires forall k :: j <= k < |events| ==> !Names(events[k].after, Target, start.next)
    ensures SameEntry(events[i].after, start, Target) && !events[i].op.SyncDirectory?
  {
    forall k | j <= k < |events| ensures SameEntry(events[k].after, start, Target) {
      StateIsSafe(start, events, bytes, own, k + 1);
    }
    if events[i].op.SyncDirectory? { assert ResyncedAt(events, start, i); }
  }

  lemma IsThere(start: Fs, events: seq<Event>, bytes: Document, own: Scratch, j: nat)
    requires Good(events, start, bytes, own) && 0 < j <= |events| && Names(events[j - 1].after, Target, start.next)
    ensures start.next in At(start, events, |events|).inodes
  {
    assert Complete(events[|events| - 1].after, start, bytes);
  }

  /**
   After a failure the previous state is certain on disk if and only if the new
   file never was in place, or the directory was synced after its removal.
   */
  lemma ConfigReturnsIff(start: Fs, events: seq<Event>, bytes: Document, own: Scratch)
    requires Replaced(start, events, bytes, own, false) && OldIsSynced(start)
    ensures Returned(start, events) <==> !Shown(events, start) || Resynced(events, start)
  {
    hide Replaced, CrashImage, Resynced, Shown;
    if !Shown(events, start) || Resynced(events, start) {
      ResyncedReturns(start, events, bytes, own);
    } else {
      var image, j := UnsyncedMayShow(start, events, bytes, own);
      assert Names(image, Target, start.next) ==> !SameEntry(image, start, Target);
    }
  }

  /** After a sync as the last step the disk can only hold the directory as it is. */
  lemma FlushedIsFinal(start: Fs, events: seq<Event>, j: nat)
    requires Flushed(events) && OnDisk(events, j, |events|)
    ensures At(start, events, j) == At(start, events, |events|)
  {
    assert events[|events| - 1].op.SyncDirectory? && j == |events|;
  }

  /**
   The replacement, with what a power loss makes of it.  With every real call
   succeeding, a power loss at every step leaves the previous or the new bytes
   if and only if the write is not rolled back; a success is certain on disk
   if and only if the sync after the replacement did not fail; and a rollback
   is, if and only if the sync after it did not fail.
   */
  method WriteConfig(dir: Directory, bytes: Document, maximum: nat, own: Scratch, failing: set<SyncPoint>)
    returns (r: Result<(), ConfigError>, ghost events: seq<Event>)
    requires Usable(own) && OldIsSynced(dir.fs)
    modifies dir
    ensures dir.trace == old(dir.trace) + events
    ensures Endures(old(dir.fs), events, bytes) <==> r.Ok? || !Shown(events, old(dir.fs))
    ensures r.Ok? ==> (Certain(old(dir.fs), events, bytes) <==> SyncedBefore(events, |events|, old(dir.fs), bytes))
    ensures r.Err? ==> (Returned(old(dir.fs), events) <==> !Shown(events, old(dir.fs)) || Resynced(events, old(dir.fs)))
    ensures dir.reliable && own.temporary !in old(dir.fs.entries) && own.backup !in old(dir.fs.entries) ==>
              && (Endures(old(dir.fs), events, bytes) <==>
                    !(Reaches(|bytes| <= maximum, old(dir.fs), failing, dir.full) && AfterReplace in failing && !dir.stuck))
              && (r.Ok? ==> (Certain(old(dir.fs), events, bytes) <==> AfterReplace !in failing))
              && (r.Err? ==> (Returned(old(dir.fs), events) <==>
                                !Reaches(|bytes| <= maximum, old(dir.fs), failing, dir.full) || Rollback !in failing))
              && (r.Ok? && AfterReplace !in failing && Cleanup !in failing ==> Flushed(events))
  {
    hide Good, Ended, Safe, Shown, SyncedBefore, Endures, Certain, Returned, Resynced, Flushed;
    r, events := WriteBytes(dir, bytes, maximum, own, failing);
    ConfigEnduresIff(old(dir.fs), events, bytes, own, r.Ok?);
    if r.Ok? {
      ConfigDurableIff(old(dir.fs), events, bytes, own);
    } else {
      ConfigReturnsIff(old(dir.fs), events, bytes, own);
    }
  }

  /**
   The failing run: the directory cannot be synced after the replacement, and
   the previous file cannot be put back.  The write reports success, yet a
   power loss may leave what was there before.
   */
  method UnsyncedSuccess(dir: Directory, bytes: Document, own: Scratch)
    returns (r: Result<(), ConfigError>, ghost events: seq<Event>, ghost image: Fs)
    requires Usable(own) && dir.reliable && dir.stuck && !dir.full && own.temporary !in dir.fs.entries
              && own.backup !in dir.fs.entries
    requires Target in dir.fs.entries ==> IdentityOf(dir.fs, Target).private
    modifies dir
    ensures r.Ok? && Holds(dir.fs, old(dir.fs), bytes)
    ensures (exists j :: CrashImage(image, old(dir.fs), events, j, |events|)) && SameEntry(image, old(dir.fs), Target)
  {
    r, events := WriteBytes(dir, bytes, |bytes|, own, {AfterReplace});
    ghost var j;
    image, j := UnsyncedIsUncertain(old(dir.fs), events, bytes, own);
  }
}
