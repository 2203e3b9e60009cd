/** The all-or-nothing file replacement of src/private_config.rs. */
module PrivateConfig {
  import opened Common
  import opened Filesystem

  datatype ConfigError = Missing | Invalid | Insecure | WriteFailed

  datatype SyncPoint = BeforeReplace | AfterReplace | Rollback | Cleanup

  /** The names one write uses beside the file itself. */
  datatype Scratch = Scratch(temporary: Name, backup: Name)

  predicate Usable(s: Scratch) { s.temporary.Temporary? && s.backup.Backup? }

  /**
   A state reached while `bytes` replace the file of `start`: entries that are
   not this write's own are untouched, no earlier file has changed, and the
   file is the previous one (or still absent) or holds all the new bytes, synced.
   */
  ghost predicate Safe(f: Fs, start: Fs, bytes: Document, own: Scratch) {
    && Kept(f, start, own)
    && (SameEntry(f, start, Target) || Holds(f, start, bytes))
  }

  ghost predicate Kept(f: Fs, start: Fs, own: Scratch) {
    && f.next >= start.next
    && (forall i :: i in start.inodes ==> i in f.inodes && f.inodes[i] == start.inodes[i])
    && (forall n :: n != Target && n != own.temporary && n != own.backup ==> SameEntry(f, start, n))
  }

  /** The new file is the next inode that the directory hands out. */
  ghost predicate Holds(f: Fs, start: Fs, bytes: Document) {
    Names(f, Target, start.next) && Complete(f, start, bytes)
  }

  ghost predicate Complete(f: Fs, start: Fs, bytes: Document) {
    start.next in f.inodes && f.inodes[start.next].content == bytes && f.inodes[start.next].synced
  }

  /** Until the directory is synced with the new file in place, the previous file keeps a name. */
  ghost predicate Guarded(events: seq<Event>, start: Fs, bytes: Document) {
    Target in start.entries ==>
      forall k :: 0 <= k < |events| ==> Reachable(events[k].after, start.entries[Target]) || SyncedBefore(events, k, start, bytes)
  }

  ghost predicate SyncedBefore(events: seq<Event>, k: int, start: Fs, bytes: Document) {
    exists d :: 0 <= d < k <= |events| && events[d].op == Op.SyncDirectory && Holds(events[d].after, start, bytes)
  }

  ghost predicate Good(events: seq<Event>, start: Fs, bytes: Document, own: Scratch) {
    && (forall k :: 0 <= k < |events| ==> Safe(events[k].after, start, bytes, own))
    && Guarded(events, start, bytes)
    && Fixed(events, start, bytes)
    && Insured(events, start, own)
  }

  /** Before the new file is ever in place, the directory was synced with the previous one under the backup name. */
  ghost predicate Insured(events: seq<Event>, start: Fs, own: Scratch) {
    Target in start.entries ==>
      forall k :: 0 <= k < |events| && Names(events[k].after, Target, start.next) ==> InsuredAt(events, k, start, own)
  }

  ghost predicate InsuredAt(events: seq<Event>, k: int, start: Fs, own: Scratch)
    requires Target in start.entries
  {
    exists d :: 0 <= d < k <= |events| && events[d].op == Op.SyncDirectory
                && Names(events[d].after, own.backup, start.entries[Target])
  }

  lemma InsuranceLasts(events: seq<Event>, e: Event, k: int, start: Fs, own: Scratch)
    requires Target in start.entries && InsuredAt(events, k, start, own)
    ensures InsuredAt(events + [e], k, start, own) && InsuredAt(events + [e], |events| + 1, start, own)
  {
    var d :| 0 <= d < k <= |events| && events[d].op == Op.SyncDirectory
             && Names(events[d].after, own.backup, start.entries[Target]);
    assert (events + [e])[d] == events[d];
  }

  lemma InsuredAppend(events: seq<Event>, e: Event, start: Fs, own: Scratch)
    requires Insured(events, start, own)
    requires Target in start.entries && Names(e.after, Target, start.next) ==>
               Shown(events, start) || InsuredAt(events, |events|, start, own)
    ensures Insured(events + [e], start, own)
  {
    hide InsuredAt;
    var all := events + [e];
    if Target in start.entries {
      forall k | 0 <= k < |all| && Names(all[k].after, Target, start.next) ensures InsuredAt(all, k, start, own) {
        if k < |events| {
          assert all[k] == events[k];
          InsuranceLasts(events, e, k, start, own);
        } else if Shown(events, start) {
          var i :| 0 <= i < |events| && Names(events[i].after, Target, start.next);
          InsuranceReaches(events, i, start, own);
          InsuranceLasts(events, e, |events|, start, own);
        } else {
          InsuranceLasts(events, e, |events|, start, own);
        }
      }
    }
  }

  lemma InsuranceReaches(events: seq<Event>, i: int, start: Fs, own: Scratch)
    requires Target in start.entries && InsuredAt(events, i, start, own)
    ensures InsuredAt(events, |events|, start, own)
  {
    var d :| 0 <= d < i <= |events| && events[d].op == Op.SyncDirectory
             && Names(events[d].after, own.backup, start.entries[Target]);
  }

  /** The directory was synced with the previous state of the configuration entry restored, and that stayed. */
  ghost predicate Resynced(events: seq<Event>, start: Fs) {
    exists d :: 0 <= d < |events| && ResyncedAt(events, start, d)
  }

  ghost predicate ResyncedAt(events: seq<Event>, start: Fs, d: int)
    requires 0 <= d < |events|
  {
    events[d].op == Op.SyncDirectory && forall k :: d <= k < |events| ==> SameEntry(events[k].after, start, Target)
  }

  /** The last step was a sync of the directory. */
  ghost predicate Flushed(events: seq<Event>) { events != [] && events[|events| - 1].op.SyncDirectory? }

  /** The new file is in place after some step. */
  ghost predicate Shown(events: seq<Event>, start: Fs) {
    exists k :: 0 <= k < |events| && Names(events[k].after, Target, start.next)
  }

  /** Once the new file has been in place, its bytes stay. */
  ghost predicate Fixed(events: seq<Event>, start: Fs, bytes: Document) {
    forall i, k :: 0 <= i <= k < |events| && Names(events[i].after, Target, start.next) ==> Complete(events[k].after, start, bytes)
  }

  /** Once the new file is in place, it stays there. */
  ghost predicate Lasting(events: seq<Event>, start: Fs) {
    forall i, k :: 0 <= i <= k < |events| && Names(events[i].after, Target, start.next) ==> Names(events[k].after, Target, start.next)
  }

  /** A step takes the new file from its place and leaves it without a name. */
  ghost predicate LostAt(events: seq<Event>, start: Fs, i: int) {
    && 0 < i < |events| && Names(events[i - 1].after, Target, start.next)
    && !events[i].op.SyncDirectory? && !Reachable(events[i].after, start.next)
  }

  ghost predicate Lost(events: seq<Event>, start: Fs) { exists i :: LostAt(events, start, i) }

  /**
   How a write ends.  After a success the new file stayed in place; after a
   failure nothing was synced with it in place, and if it was in place, it was
   taken away again.
   */
  ghost predicate Ended(events: seq<Event>, start: Fs, bytes: Document, ok: bool) {
    if ok then Lasting(events, start)
    else !SyncedBefore(events, |events|, start, bytes) && (Shown(events, start) ==> Lost(events, start))
  }

  lemma UnshownEnds(events: seq<Event>, start: Fs, bytes: Document)
    requires !Shown(events, start)
    ensures Ended(events, start, bytes, false) && Lasting(events, start)
              && !SyncedBefore(events, |events|, start, bytes)
  {
  }

  lemma ShownAppend(events: seq<Event>, e: Event, start: Fs)
    ensures Shown(events + [e], start) <==> Shown(events, start) || Names(e.after, Target, start.next)
    ensures Lasting(events, start) && (Shown(events, start) ==> Names(e.after, Target, start.next)) ==>
              Lasting(events + [e], start)
    ensures Lost(events, start) ==> Lost(events + [e], start)
  {
    var all := events + [e];
    assert all[|events|] == e && forall k :: 0 <= k < |events| ==> all[k] == events[k];
    if Lost(events, start) {
      var i :| LostAt(events, start, i);
      assert LostAt(all, start, i);
    }
  }

  lemma SyncedAppend(events: seq<Event>, e: Event, start: Fs, bytes: Document)
    ensures SyncedBefore(events + [e], |events| + 1, start, bytes) <==>
              SyncedBefore(events, |events|, start, bytes) || (e.op == Op.SyncDirectory && Holds(e.after, start, bytes))
  {
    var all := events + [e];
    assert all[|events|] == e && forall k :: 0 <= k < |events| ==> all[k] == events[k];
  }

  /** A further step that leaves the configuration entry alone changes nothing about that. */
  lemma EndedAppend(events: seq<Event>, e: Event, start: Fs, bytes: Document, ok: bool)
    requires Ended(events, start, bytes, ok) && events != [] && SameEntry(e.after, events[|events| - 1].after, Target)
    requires ok ==> Names(events[|events| - 1].after, Target, start.next)
    requires !ok ==> !Names(events[|events| - 1].after, Target, start.next)
    ensures Ended(events + [e], start, bytes, ok)
    ensures Shown(events + [e], start) <==> Shown(events, start)
    ensures SyncedBefore(events, |events|, start, bytes) ==> SyncedBefore(events + [e], |events| + 1, start, bytes)
  {
    ShownAppend(events, e, start);
    SyncedAppend(events, e, start, bytes);
  }

  lemma NewFileIsComplete(f: Fs, start: Fs, bytes: Document, own: Scratch)
    requires Safe(f, start, bytes, own)
    ensures Names(f, Target, start.next) ==> Complete(f, start, bytes)
  {
  }

  lemma GoodAppend(events: seq<Event>, e: Event, start: Fs, bytes: Document, own: Scratch)
    requires Good(events, start, bytes, own) && Safe(e.after, start, bytes, own)
    requires Target in start.entries ==>
              Reachable(e.after, start.entries[Target]) || SyncedBefore(events, |events|, start, bytes)
    requires Shown(events, start) ==> Complete(e.after, start, bytes)
    requires Target in start.entries && Names(e.after, Target, start.next) ==>
               Shown(events, start) || InsuredAt(events, |events|, start, own)
    ensures Good(events + [e], start, bytes, own)
    ensures SyncedBefore(events, |events|, start, bytes) ==> SyncedBefore(events + [e], |events| + 1, start, bytes)
    ensures Shown(events + [e], start) ==> Complete(e.after, start, bytes)
  {
    NewFileIsComplete(e.after, start, bytes, own);
    hide Safe, Holds, Reachable, Complete, Insured, InsuredAt, Guarded, SyncedBefore, Fixed, Shown;
    InsuredAppend(events, e, start, own);
    GuardedAppend(events, e, start, bytes);
    FixedAppend(events, e, start, bytes);
  }

  lemma FixedAppend(events: seq<Event>, e: Event, start: Fs, bytes: Document)
    requires Fixed(events, start, bytes)
              && (Shown(events, start) || Names(e.after, Target, start.next) ==> Complete(e.after, start, bytes))
    ensures Fixed(events + [e], start, bytes) && (Shown(events + [e], start) ==> Complete(e.after, start, bytes))
  {
    hide Complete;
    var all := events + [e];
    ShownAppend(events, e, start);
    forall i, k | 0 <= i <= k < |all| && Names(all[i].after, Target, start.next)
      ensures Complete(all[k].after, start, bytes)
    {
      if k < |events| {
        assert all[i] == events[i] && all[k] == events[k];
      } else if i < |events| {
        assert all[i] == events[i];
      }
    }
  }

  lemma GuardedAppend(events: seq<Event>, e: Event, start: Fs, bytes: Document)
    requires Guarded(events, start, bytes)
    requires Target in start.entries ==>
              Reachable(e.after, start.entries[Target]) || SyncedBefore(events, |events|, start, bytes)
    ensures Guarded(events + [e], start, bytes)
    ensures SyncedBefore(events, |events|, start, bytes) ==> SyncedBefore(events + [e], |events| + 1, start, bytes)
  {
    hide Reachable, Holds;
    var all := events + [e];
    forall k, d | 0 <= d < k <= |events| && events[d].op == Op.SyncDirectory && Holds(events[d].after, start, bytes)
      ensures SyncedBefore(all, k, start, bytes)
    {
      assert all[d] == events[d];
    }
    SyncedAppend(events, e, start, bytes);
  }

  /** The callback that syncs the directory: it fails at the points in `failing`, or with the directory. */
  method SyncAt(dir: Directory, point: SyncPoint, failing: set<SyncPoint>) returns (ok: bool, ghost events: seq<Event>)
    modifies dir
    ensures old(dir.Recorded()) ==> dir.Recorded()
    ensures dir.fs == old(dir.fs) && dir.trace == old(dir.trace) + events
    ensures events == if ok then [Event(Op.SyncDirectory, dir.fs)] else []
    ensures dir.reliable ==> (ok <==> point !in failing)
  {
    events := [];
    if point in failing {
      return false, events;
    }
    ok := dir.SyncDirectory();
    if ok {
      events := [Event(Op.SyncDirectory, dir.fs)];
    }
  }

  /** The steps recorded so far, ending in state `f`. */
  ghost predicate Track(f: Fs, events: seq<Event>, start: Fs, bytes: Document, own: Scratch) {
    && f == At(start, events, |events|)
    && Good(events, start, bytes, own) && Safe(f, start, bytes, own)
    && (Shown(events, start) ==> Complete(f, start, bytes))
  }

  ghost predicate Sofar(dir: Directory, base: seq<Event>, events: seq<Event>, start: Fs, bytes: Document, own: Scratch)
    reads dir
  {
    Usable(own) && dir.trace == base + events && Track(dir.fs, events, start, bytes, own)
  }

  lemma TrackStarts(start: Fs, bytes: Document, own: Scratch)
    ensures Track(start, [], start, bytes, own) && !Shown([], start)
  {
  }

  /** A step that leaves the bytes of all files alone, or one before the new file was ever in place. */
  lemma TrackAppend(f: Fs, events: seq<Event>, e: Event, start: Fs, bytes: Document, own: Scratch)
    requires Track(f, events, start, bytes, own) && Safe(e.after, start, bytes, own)
    requires Target in start.entries ==>
              Reachable(e.after, start.entries[Target]) || SyncedBefore(events, |events|, start, bytes)
    requires e.after.inodes == f.inodes || !Shown(events, start)
    requires Target in start.entries && Names(e.after, Target, start.next) ==>
               Shown(events, start) || InsuredAt(events, |events|, start, own)
    ensures Track(e.after, events + [e], start, bytes, own)
    ensures SyncedBefore(events, |events|, start, bytes) ==> SyncedBefore(events + [e], |events| + 1, start, bytes)
  {
    hide Good, Safe, Reachable, InsuredAt;
    GoodAppend(events, e, start, bytes, own);
  }

  /** A completed sync of the directory. */
  lemma SyncAppend(f: Fs, events: seq<Event>, start: Fs, bytes: Document, own: Scratch)
    requires Track(f, events, start, bytes, own)
    requires Target in start.entries ==>
              Reachable(f, start.entries[Target]) || SyncedBefore(events, |events|, start, bytes)
    ensures Track(f, events + [Event(Op.SyncDirectory, f)], start, bytes, own)
    ensures SyncedBefore(events + [Event(Op.SyncDirectory, f)], |events| + 1, start, bytes) <==>
              SyncedBefore(events, |events|, start, bytes) || Holds(f, start, bytes)
  {
    var e := Event(Op.SyncDirectory, f);
    SyncedAppend(events, e, start, bytes);
    assert Names(f, Target, start.next) && Target in start.entries ==> Shown(events, start);
    hide SyncedBefore, Good, Safe, Reachable;
    TrackAppend(f, events, e, start, bytes, own);
  }

  lemma ThereIsShown(f: Fs, events: seq<Event>, start: Fs, bytes: Document, own: Scratch)
    requires Track(f, events, start, bytes, own) && Names(f, Target, start.next)
    ensures Shown(events, start)
  {
    if |events| > 0 { assert Names(events[|events| - 1].after, Target, start.next); }
  }

  /** A step that leaves the configuration entry as it was, before the new file was ever in place. */
  lemma PlainStep(f: Fs, events: seq<Event>, e: Event, start: Fs, bytes: Document, own: Scratch)
    requires Track(f, events, start, bytes, own) && Safe(e.after, start, bytes, own) && !Shown(events, start)
    requires SameEntry(e.after, start, Target)
    requires Target in start.entries ==> Reachable(e.after, start.entries[Target])
    ensures Track(e.after, events + [e], start, bytes, own) && !Shown(events + [e], start)
    ensures Target in start.entries && InsuredAt(events, |events|, start, own) ==>
              InsuredAt(events + [e], |events| + 1, start, own)
  {
    hide Track, Safe, Reachable, InsuredAt, Shown;
    OldEntryIsUnshown(events, e, start);
    TrackAppend(f, events, e, start, bytes, own);
    if Target in start.entries && InsuredAt(events, |events|, start, own) { InsuranceLasts(events, e, |events|, start, own); }
  }

  lemma DiscardIsSafe(f: Fs, start: Fs, bytes: Document, own: Scratch, name: Name)
    requires Usable(own) && Safe(f, start, bytes, own) && (name == own.temporary || name == own.backup)
    ensures Safe(Removed(f, name), start, bytes, own)
    ensures Target in start.entries && Names(f, Target, start.entries[Target]) ==>
              Reachable(Removed(f, name), start.entries[Target])
  {
    var g := Removed(f, name);
    forall n | n != Target && n != own.temporary && n != own.backup ensures SameEntry(g, start, n) {
      assert SameEntry(f, start, n);
    }
    assert Target in start.entries && Names(f, Target, start.entries[Target]) ==>
           Names(g, Target, start.entries[Target]);
  }

  /** Best-effort removal of one of the write's own names. */
  method Discard(dir: Directory, name: Name,
                 ghost base: seq<Event>, ghost sofar: seq<Event>, ghost start: Fs, ghost bytes: Document, ghost own: Scratch)
    returns (removed: bool, ghost events: seq<Event>)
    requires name == own.temporary || name == own.backup
    requires Sofar(dir, base, sofar, start, bytes, own)
    requires Target in start.entries ==>
              Names(dir.fs, Target, start.entries[Target]) || SyncedBefore(sofar, |sofar|, start, bytes)
    modifies dir
    ensures old(dir.Recorded()) ==> dir.Recorded()
    ensures Sofar(dir, base, events, start, bytes, own)
    ensures SyncedBefore(sofar, |sofar|, start, bytes) ==> SyncedBefore(events, |events|, start, bytes)
    ensures removed ==> name in old(dir.fs.entries)
    ensures events == if removed then sofar + [Event(Unlink(name, old(dir.fs.entries)[name]), dir.fs)] else sofar
    ensures dir.fs == (if removed then Removed(old(dir.fs), name) else old(dir.fs))
    ensures dir.reliable ==> (removed <==> name in old(dir.fs.entries))
  {
    hide Chain, Reachable, SyncedBefore, Track, Safe, Good, Shown;
    ghost var before := dir.fs;
    OnTrack(before, sofar, start, bytes, own);
    DiscardIsSafe(before, start, bytes, own, name);
    removed := dir.Remove(name);
    events := sofar;
    if removed {
      ghost var unlinking := Event(Unlink(name, before.entries[name]), dir.fs);
      if Names(before, Target, start.next) { ThereIsShown(before, sofar, start, bytes, own); }
      TrackAppend(before, sofar, unlinking, start, bytes, own);
      events := sofar + [unlinking];
    }
  }

  lemma LinkIsSafe(start: Fs, bytes: Document, own: Scratch)
    requires Usable(own) && Target in start.entries && own.backup !in start.entries
    ensures var f := Linked(start, own.backup, start.entries[Target]);
            && Safe(f, start, bytes, own) && SameEntry(f, start, Target) && f.inodes == start.inodes
                && f.next == start.next
            && Names(f, own.backup, start.entries[Target]) && Removed(f, own.backup) == start
                && Reachable(f, start.entries[Target])
  {
    var f := Linked(start, own.backup, start.entries[Target]);
    assert Names(f, Target, start.entries[Target]) && Removed(f, own.backup).entries == start.entries;
  }

  lemma OldEntryIsUnshown(events: seq<Event>, e: Event, start: Fs)
    requires !Shown(events, start) && SameEntry(e.after, start, Target)
    ensures !Shown(events + [e], start)
  {
    ShownAppend(events, e, start);
  }

  /** Keep the existing file under a second name before anything is replaced. */
  method BackUp(dir: Directory, failing: set<SyncPoint>, own: Scratch, ghost base: seq<Event>, ghost bytes: Document)
    returns (r: Result<(), ConfigError>, ghost events: seq<Event>)
    requires Usable(own) && Target in dir.fs.entries && dir.trace == base
    modifies dir
    ensures old(dir.Recorded()) ==> dir.Recorded()
    ensures Sofar(dir, base, events, old(dir.fs), bytes, own)
    ensures SameEntry(dir.fs, old(dir.fs), Target) && !Shown(events, old(dir.fs))
    ensures r.Ok? ==>
              own.backup !in old(dir.fs.entries) && dir.fs == Linked(old(dir.fs), own.backup, old(dir.fs.entries)[Target])
    ensures r.Ok? ==> InsuredAt(events, |events|, old(dir.fs), own) && old(IdentityOf(dir.fs, Target)).private
    ensures dir.reliable && own.backup !in old(dir.fs.entries) && old(IdentityOf(dir.fs, Target)).private ==>
              if BeforeReplace in failing then r == Err(WriteFailed) && dir.fs == old(dir.fs) else r.Ok?
  {
    hide Track, Chain, Shown, Safe, Reachable, SyncedBefore;
    TrackStarts(dir.fs, bytes, own);
    ghost var start := dir.fs;
    events := [];
    var linked := dir.HardLink(Target, own.backup);
    if !linked {
      return Err(WriteFailed), events;
    }
    LinkIsSafe(start, bytes, own);
    ghost var linking := Event(Link(own.backup, dir.fs.entries[own.backup]), dir.fs);
    TrackAppend(start, [], linking, start, bytes, own);
    OldEntryIsUnshown([], linking, start);
    events := [] + [linking];
    var found := dir.Lookup(own.backup);
    var failure := if found.Present? && found.identity.private then None else Some(Insecure);
    if failure.None? {
      var synced, syncing := SyncAt(dir, BeforeReplace, failing);
      if synced {
        SyncAppend(dir.fs, events, start, bytes, own);
        OldEntryIsUnshown(events, syncing[0], start);
        BackupIsInsurance(events, syncing[0], start, own);
        return Ok(()), events + syncing;
      }
      failure := Some(WriteFailed);
    }
    var removed, discarding := Discard(dir, own.backup, base, events, start, bytes, own);
    if removed { OldEntryIsUnshown(events, discarding[|events|], start); }
    return Err(failure.value), discarding;
  }

  lemma BackupIsInsurance(events: seq<Event>, e: Event, start: Fs, own: Scratch)
    requires Target in start.entries && e.op == Op.SyncDirectory && Names(e.after, own.backup, start.entries[Target])
    ensures InsuredAt(events + [e], |events| + 1, start, own)
  {
    assert (events + [e])[|events|] == e;
  }

  /** The candidate holds all the bytes, synced, under the temporary name. */
  ghost predicate Ready(f: Fs, start: Fs, bytes: Document, own: Scratch) {
    Names(f, own.temporary, start.next) && Complete(f, start, bytes)
  }

  lemma OwnEntryIsSafe(f: Fs, g: Fs, start: Fs, bytes: Document, own: Scratch)
    requires Usable(own) && Kept(f, start, own) && SameEntry(f, start, Target)
    requires g.next >= start.next && g.entries - {own.temporary} == f.entries - {own.temporary}
    requires forall i :: i in start.inodes ==> i in g.inodes && g.inodes[i] == f.inodes[i]
    ensures Safe(g, start, bytes, own) && SameEntry(g, start, Target)
    ensures SameEntry(g, f, own.backup)
    ensures Target in start.entries ==> Reachable(g, start.entries[Target])
  {
    forall n | n != own.temporary ensures SameEntry(g, f, n) {
      assert n in f.entries <==> n in f.entries - {own.temporary};
      assert n in g.entries <==> n in g.entries - {own.temporary};
    }
    forall n | n != Target && n != own.temporary && n != own.backup ensures SameEntry(g, start, n) {
      assert SameEntry(g, f, n) && SameEntry(f, start, n);
    }
    assert SameEntry(g, f, Target);
    assert Target in start.entries ==> Names(g, Target, start.entries[Target]);
  }

  method PrepareTemporary(dir: Directory, bytes: Document, own: Scratch, ghost base: seq<Event>,
                          ghost sofar: seq<Event>, ghost start: Fs)
    returns (r: Result<(), ConfigError>, ghost events: seq<Event>)
    requires Sofar(dir, base, sofar, start, bytes, own) && SameEntry(dir.fs, start, Target)
    requires dir.fs.next == start.next && !Shown(sofar, start)
    modifies dir
    ensures old(dir.Recorded()) ==> dir.Recorded()
    ensures Sofar(dir, base, events, start, bytes, own) && SameEntry(dir.fs, start, Target) && !Shown(events, start)
    ensures SameEntry(dir.fs, old(dir.fs), own.backup)
    ensures dir.fs.entries - {own.temporary} == old(dir.fs.entries) - {own.temporary}
    ensures Target in start.entries && InsuredAt(sofar, |sofar|, start, own) ==> InsuredAt(events, |events|, start, own)
    ensures r.Ok? ==> Ready(dir.fs, start, bytes, own)
    ensures dir.reliable && own.temporary !in old(dir.fs.entries) ==> r == if dir.full then Err(WriteFailed) else Ok(())
  {
    hide Good, Reachable, Chain, Shown, SyncedBefore, InsuredAt;
    assert Kept(dir.fs, start, own);
    hide Track;
    events := sofar;
    ghost var before := dir.fs;
    var created := dir.CreateExclusive(own.temporary);
    if !created.Created? {
      return Err(WriteFailed), events;
    }
    ghost var was := dir.fs;
    OwnEntryIsSafe(before, dir.fs, start, bytes, own);
    ghost var creating := Event(Create(own.temporary, created.ino), dir.fs);
    PlainStep(before, events, creating, start, bytes, own);
    events := events + [creating];
    var written := dir.WriteAll(created.ino, bytes);
    OwnEntryIsSafe(before, dir.fs, start, bytes, own);
    ghost var writing := Event(Write(created.ino), dir.fs);
    PlainStep(was, events, writing, start, bytes, own);
    events := events + [writing];
    if !written {
      return Err(WriteFailed), events;
    }
    was := dir.fs;
    var synced := dir.SyncFile(created.ino);
    if !synced {
      return Err(WriteFailed), events;
    }
    OwnEntryIsSafe(before, dir.fs, start, bytes, own);
    ghost var syncing := Event(Op.SyncFile(created.ino), dir.fs);
    PlainStep(was, events, syncing, start, bytes, own);
    events := events + [syncing];
    r := Ok(());
  }

  /** Where the previous file is kept: under the backup name, if there was one. */
  ghost predicate BackedUp(f: Fs, start: Fs, own: Scratch, backed: bool) {
    && (backed <==> Target in start.entries)
    && (backed ==> Names(f, own.backup, start.entries[Target]))
    && (!backed ==> !Names(f, own.backup, start.next))
  }

  /** The new file is in place since the last step, and under no other name. */
  ghost predicate Installed(f: Fs, events: seq<Event>, start: Fs, bytes: Document, own: Scratch, backed: bool) {
    && Holds(f, start, bytes) && BackedUp(f, start, own, backed) && own.temporary !in f.entries
    && Lasting(events, start) && !SyncedBefore(events, |events|, start, bytes)
    && events != [] && events[|events| - 1].after == f
  }

  /** Putting the previous file back, or taking the new one away, leaves the new one without a name. */
  lemma RestoringLoses(f: Fs, g: Fs, op: Op, events: seq<Event>, start: Fs, bytes: Document, own: Scratch, backed: bool)
    requires Usable(own) && Safe(f, start, bytes, own) && Installed(f, events, start, bytes, own, backed)
    requires g == (if backed then Renamed(f, own.backup, Target) else Removed(f, Target)) && !op.SyncDirectory?
    ensures Safe(g, start, bytes, own) && SameEntry(g, start, Target) && g.inodes == f.inodes && g.next == f.next
    ensures Target in start.entries ==> Reachable(g, start.entries[Target])
    ensures Lost(events + [Event(op, g)], start) && Ended(events + [Event(op, g)], start, bytes, false)
    ensures g.entries - {Target} == f.entries - (if backed then {Target, own.backup} else {Target})
  {
    var e := Event(op, g);
    forall n | n != Target && n != own.temporary && n != own.backup ensures SameEntry(g, start, n) {
      assert SameEntry(f, start, n);
    }
    assert backed ==> Names(g, Target, start.entries[Target]);
    forall n ensures !Names(g, n, start.next) {
      assert n != Target && n != own.temporary && n != own.backup ==> SameEntry(g, start, n);
    }
    var all := events + [e];
    assert LostAt(all, start, |events|);
    SyncedAppend(events, e, start, bytes);
  }

  /** Undo the replacement after the directory could not be synced. */
  method RollBack(dir: Directory, backed: bool, failing: set<SyncPoint>, own: Scratch,
                  ghost base: seq<Event>, ghost sofar: seq<Event>, ghost start: Fs, ghost bytes: Document)
    returns (undone: bool, ghost events: seq<Event>)
    requires Sofar(dir, base, sofar, start, bytes, own)
    requires Installed(dir.fs, sofar, start, bytes, own, backed)
    modifies dir
    ensures old(dir.Recorded()) ==> dir.Recorded()
    ensures Sofar(dir, base, events, start, bytes, own)
    ensures if undone then SameEntry(dir.fs, start, Target) else dir.fs == old(dir.fs) && events == sofar
    ensures undone ==> Lost(events, start) && Ended(events, start, bytes, false)
    ensures undone ==>
              dir.fs.entries - {Target} == old(dir.fs.entries) - (if backed then {Target, own.backup} else {Target})
    ensures dir.reliable && undone ==> (Resynced(events, start) <==> Rollback !in failing)
    ensures dir.stuck ==> !undone
    ensures dir.reliable && !dir.stuck ==> undone
  {
    hide Resynced, Chain, Shown, Lost, SyncedBefore, Reachable, Lasting, Good;
    assert Safe(dir.fs, start, bytes, own);
    hide Track;
    events := sofar;
    ghost var before := dir.fs;
    if backed {
      undone := dir.Rename(own.backup, Target);
    } else {
      undone := dir.Remove(Target);
    }
    if undone {
      ghost var op := if backed then Overwrite(own.backup, Target) else Unlink(Target, before.entries[Target]);
      RestoringLoses(before, dir.fs, op, sofar, start, bytes, own, backed);
      TrackAppend(before, sofar, Event(op, dir.fs), start, bytes, own);
      events := sofar + [Event(op, dir.fs)];
      NotResynced(sofar, Event(op, dir.fs), start);
      hide Ended, Safe;
      var synced, syncing := SyncAt(dir, Rollback, failing);
      if synced {
        SyncAppend(dir.fs, events, start, bytes, own);
        StillEnded(events, syncing[0], start, bytes);
        ResyncedNow(events, syncing[0], start);
        events := events + syncing;
      }
    }
  }

  lemma NotResynced(events: seq<Event>, e: Event, start: Fs)
    requires events != [] && Names(events[|events| - 1].after, Target, start.next) && !e.op.SyncDirectory?
    ensures !Resynced(events + [e], start)
  {
    var all := events + [e];
    assert all[|events|] == e && all[|events| - 1] == events[|events| - 1];
  }

  lemma ResyncedNow(events: seq<Event>, e: Event, start: Fs)
    requires e.op == Op.SyncDirectory && SameEntry(e.after, start, Target)
    ensures Resynced(events + [e], start)
  {
    assert (events + [e])[|events|] == e;
    assert ResyncedAt(events + [e], start, |events|);
  }

  lemma StillEnded(events: seq<Event>, e: Event, start: Fs, bytes: Document)
    requires events != [] && e.after == events[|events| - 1].after && SameEntry(e.after, start, Target)
    requires Lost(events, start) && Ended(events, start, bytes, false)
    ensures Lost(events + [e], start) && Ended(events + [e], start, bytes, false)
  {
    ShownAppend(events, e, start);
    EndedAppend(events, e, start, bytes, false);
  }

  /** Put the candidate in place, sync, then drop the backup; roll back if the sync fails. */
  method Install(dir: Directory, backed: bool, failing: set<SyncPoint>, own: Scratch,
                 ghost base: seq<Event>, ghost sofar: seq<Event>, ghost start: Fs, ghost bytes: Document)
    returns (r: Result<(), ConfigError>, ghost events: seq<Event>)
    requires Sofar(dir, base, sofar, start, bytes, own) && SameEntry(dir.fs, start, Target) && !Shown(sofar, start)
    requires Ready(dir.fs, start, bytes, own) && BackedUp(dir.fs, start, own, backed)
    requires backed ==> InsuredAt(sofar, |sofar|, start, own)
    modifies dir
    ensures old(dir.Recorded()) ==> dir.Recorded()
    ensures Sofar(dir, base, events, start, bytes, own)
    ensures if r.Ok? then Holds(dir.fs, start, bytes) else SameEntry(dir.fs, start, Target)
    ensures Ended(events, start, bytes, r.Ok?)
    ensures r.Err? ==> r.error == WriteFailed
    ensures dir.reliable ==>
              && (r.Err? <==> AfterReplace in failing && !dir.stuck) && Shown(events, start)
              && (r.Ok? ==> (SyncedBefore(events, |events|, start, bytes) <==> AfterReplace !in failing))
              && (r.Ok? && AfterReplace !in failing ==> (Flushed(events) <==> (backed ==> Cleanup !in failing)))
              && (r.Err? ==> (Resynced(events, start) <==> Rollback !in failing))
              && (!(r.Ok? && AfterReplace in failing) ==>
                    dir.fs.entries - {Target} ==
                      old(dir.fs.entries) - (if backed then {Target, own.temporary, own.backup} else {Target, own.temporary}))
  {
    hide InsuredAt, Resynced, Kept, Chain, Shown, Lost, SyncedBefore, Reachable, Lasting, Good, Ended, Installed;
    events := sofar;
    ghost var before := dir.fs;
    UnshownEnds(sofar, start, bytes);
    var renamed := dir.Rename(own.temporary, Target);
    if !renamed {
      return Err(WriteFailed), events;
    }
    ghost var replacing := Event(Overwrite(own.temporary, Target), dir.fs);
    InstallIsSafe(before, dir.fs, start, bytes, own, backed);
    hide Safe;
    TrackAppend(before, events, replacing, start, bytes, own);
    Replacing(before, dir.fs, events, replacing, start, bytes, own, backed);
    events := events + [replacing];
    hide Track;
    var synced, syncing := SyncAt(dir, AfterReplace, failing);
    if !synced {
      var undone, undoing := RollBack(dir, backed, failing, own, base, events, start, bytes);
      if undone { LostWasShown(undoing, start); }
      return if undone then Err(WriteFailed) else Ok(()), undoing;
    }
    SyncAppend(dir.fs, events, start, bytes, own);
    StillThere(events, syncing[0], start, bytes);
    events := events + syncing;
    r := Ok(());
    if backed {
      events := Clean(dir, failing, own, base, events, start, bytes);
    }
  }

  /** Once the new file is synced in place the backup goes. */
  method Clean(dir: Directory, failing: set<SyncPoint>, own: Scratch,
               ghost base: seq<Event>, ghost sofar: seq<Event>, ghost start: Fs, ghost bytes: Document)
    returns (ghost events: seq<Event>)
    requires Sofar(dir, base, sofar, start, bytes, own) && Holds(dir.fs, start, bytes)
    requires SyncedBefore(sofar, |sofar|, start, bytes) && Ended(sofar, start, bytes, true) && Shown(sofar, start)
    modifies dir
    ensures old(dir.Recorded()) ==> dir.Recorded()
    ensures Sofar(dir, base, events, start, bytes, own) && Holds(dir.fs, start, bytes)
    ensures SyncedBefore(events, |events|, start, bytes) && Ended(events, start, bytes, true) && Shown(events, start)
    ensures dir.fs == old(dir.fs) || dir.fs == Removed(old(dir.fs), own.backup)
    ensures dir.reliable ==> dir.fs == Removed(old(dir.fs), own.backup)
    ensures dir.reliable && own.backup in old(dir.fs.entries) ==> (Flushed(events) <==> Cleanup !in failing)
  {
    hide Chain, Shown, SyncedBefore, Reachable, Good, Ended, Safe, Track;
    assert Removed(dir.fs, own.backup).entries == dir.fs.entries - {own.backup};
    var removed;
    removed, events := Discard(dir, own.backup, base, sofar, start, bytes, own);
    if removed {
      StillThere(sofar, events[|sofar|], start, bytes);
      var cleaned, cleaning := SyncAt(dir, Cleanup, failing);
      if cleaned {
        SyncAppend(dir.fs, events, start, bytes, own);
        StillThere(events, cleaning[0], start, bytes);
        events := events + cleaning;
      }
    }
  }

  lemma Replacing(f: Fs, g: Fs, events: seq<Event>, e: Event, start: Fs, bytes: Document, own: Scratch, backed: bool)
    requires Usable(own) && !Shown(events, start) && e.after == g && e.op.Overwrite? && Holds(g, start, bytes)
              && BackedUp(g, start, own, backed)
    requires own.temporary in f.entries && g == Renamed(f, own.temporary, Target) && !Names(f, Target, start.next)
              && Names(f, own.temporary, start.next)
    ensures Installed(g, events + [e], start, bytes, own, backed) && Shown(events + [e], start)
              && Ended(events + [e], start, bytes, true)
  {
    ShownAppend(events, e, start);
    UnshownEnds(events, start, bytes);
    SyncedAppend(events, e, start, bytes);
  }

  lemma LostWasShown(events: seq<Event>, start: Fs)
    requires Lost(events, start)
    ensures Shown(events, start)
  {
  }

  /** After a further step with the new file in place. */
  lemma StillThere(events: seq<Event>, e: Event, start: Fs, bytes: Document)
    requires Names(e.after, Target, start.next) && Ended(events, start, bytes, true)
    ensures Ended(events + [e], start, bytes, true) && Shown(events + [e], start)
  {
    ShownAppend(events, e, start);
  }

  lemma InstallIsSafe(f: Fs, g: Fs, start: Fs, bytes: Document, own: Scratch, backed: bool)
    requires Usable(own) && Kept(f, start, own) && SameEntry(f, start, Target)
    requires Ready(f, start, bytes, own) && BackedUp(f, start, own, backed)
    requires g == Renamed(f, own.temporary, Target)
    ensures Safe(g, start, bytes, own) && Holds(g, start, bytes) && BackedUp(g, start, own, backed)
    ensures Target in start.entries ==> Reachable(g, start.entries[Target])
    ensures g.entries - {Target} == f.entries - {Target, own.temporary}
  {
    forall n | n != Target && n != own.temporary && n != own.backup ensures SameEntry(g, start, n) {
      assert SameEntry(f, start, n);
    }
    assert backed ==> Names(g, own.backup, start.entries[Target]);
  }

  /**
   Replace the file's contents.  Whatever fails, success means the file holds
   exactly the new bytes and failure means it is exactly what it was, and at
   every step in between it is one or the other.
   */
  method WriteBytes(dir: Directory, bytes: Document, maximum: nat, own: Scratch, failing: set<SyncPoint>)
    returns (r: Result<(), ConfigError>, ghost events: seq<Event>)
    requires Usable(own)
    modifies dir
    ensures old(dir.Recorded()) ==> dir.Recorded()
    ensures dir.trace == old(dir.trace) + events && dir.fs == At(old(dir.fs), events, |events|)
    ensures Good(events, old(dir.fs), bytes, own) && Safe(dir.fs, old(dir.fs), bytes, own)
    ensures if r.Ok? then Holds(dir.fs, old(dir.fs), bytes) else SameEntry(dir.fs, old(dir.fs), Target)
    ensures Ended(events, old(dir.fs), bytes, r.Ok?)
    ensures r.Ok? ==> |bytes| <= maximum && (Target in old(dir.fs.entries) ==> old(IdentityOf(dir.fs, Target)).private)
    ensures dir.reliable && own.temporary !in old(dir.fs.entries) && own.backup !in old(dir.fs.entries) ==>
              Resolved(r, events, dir.fs, old(dir.fs), bytes, |bytes| <= maximum, failing, dir.stuck, dir.full)
  {
    hide InsuredAt, Resynced, Flushed, Track, Chain, Shown, SyncedBefore, Reachable, Good, Ended, Safe;
    TrackStarts(dir.fs, bytes, own);
    UnshownEnds([], dir.fs, bytes);
    ghost var start, base := dir.fs, dir.trace;
    if !Reaches(|bytes| <= maximum, start, failing, dir.full) {
      Unresolved([], start, start, bytes, |bytes| <= maximum, failing, dir.stuck, dir.full);
    }
    events := [];
    OnTrack(dir.fs, events, start, bytes, own);
    if |bytes| > maximum {
      return Err(Invalid), events;
    }
    var found := dir.Lookup(Target);
    if found.Unreadable? || (found.Present? && !found.identity.private) {
      return Err(Insecure), events;
    }
    var backed := found.Present?;
    if backed {
      var saved, saving := BackUp(dir, failing, own, base, bytes);
      events := saving;
      OnTrack(dir.fs, events, start, bytes, own);
      if saved.Err? {
        UnshownEnds(events, start, bytes);
        if !Reaches(true, start, failing, dir.full) && dir.fs == start {
          Unresolved(events, dir.fs, start, bytes, true, failing, dir.stuck, dir.full);
        }
        return saved, events;
      }
    }
    ghost var prepared := dir.fs;
    assert prepared.entries - {own.backup} == start.entries - {own.backup};
    r, events := ReplaceFile(dir, backed, bytes, failing, own, base, events, start);
    if dir.reliable && own.temporary !in start.entries && own.backup !in start.entries {
      assert prepared.entries - (if backed then {Target, own.backup} else {Target}) == start.entries - {Target};
      if r.Err? && !dir.full { LeavesNothing(dir.fs, start, own); }
    }
    ghost var replaced := dir.fs;
    if r.Err? {
      events := DiscardBoth(dir, backed, base, events, start, bytes, own);
      if dir.reliable && dir.full && own.temporary !in start.entries && own.backup !in start.entries {
        AllDiscarded(start.entries, prepared.entries, replaced.entries, dir.fs.entries, own, backed);
        Unresolved(events, dir.fs, start, bytes, true, failing, dir.stuck, true);
      }
    }
    OnTrack(dir.fs, events, start, bytes, own);
  }

  lemma OnTrack(f: Fs, events: seq<Event>, start: Fs, bytes: Document, own: Scratch)
    requires Track(f, events, start, bytes, own)
    ensures f == At(start, events, |events|) && Good(events, start, bytes, own) && Safe(f, start, bytes, own)
  {
  }

  /** After a failed replacement the temporary file and the backup go. */
  method DiscardBoth(dir: Directory, backed: bool,
                     ghost base: seq<Event>, ghost sofar: seq<Event>, ghost start: Fs, ghost bytes: Document, own: Scratch)
    returns (ghost events: seq<Event>)
    requires Sofar(dir, base, sofar, start, bytes, own) && SameEntry(dir.fs, start, Target)
              && Ended(sofar, start, bytes, false)
    modifies dir
    ensures old(dir.Recorded()) ==> dir.Recorded()
    ensures Sofar(dir, base, events, start, bytes, own) && SameEntry(dir.fs, start, Target)
              && Ended(events, start, bytes, false)
    ensures Shown(events, start) <==> Shown(sofar, start)
    ensures own.temporary !in old(dir.fs.entries) && own.backup !in old(dir.fs.entries) ==>
              dir.fs == old(dir.fs) && events == sofar
    ensures dir.reliable ==>
              dir.fs.entries == old(dir.fs.entries) - {own.temporary} - (if backed then {own.backup} else {})
  {
    hide Chain, Shown, SyncedBefore, Reachable, Good, Ended, Safe, Track;
    var first;
    first, events := Discard(dir, own.temporary, base, sofar, start, bytes, own);
    if first { StillFailed(sofar, events[|sofar|], start, bytes); }
    if backed {
      ghost var kept := events;
      var second, last := Discard(dir, own.backup, base, events, start, bytes, own);
      events := last;
      if second { StillFailed(kept, events[|kept|], start, bytes); }
    }
  }

  lemma StillFailed(events: seq<Event>, e: Event, start: Fs, bytes: Document)
    requires Ended(events, start, bytes, false) && SameEntry(e.after, start, Target) && !e.op.SyncDirectory?
    ensures Ended(events + [e], start, bytes, false) && (Shown(events + [e], start) <==> Shown(events, start))
  {
    ShownAppend(events, e, start);
    SyncedAppend(events, e, start, bytes);
  }

  lemma AllDiscarded(start: Entries, prepared: Entries, replaced: Entries, end: Entries, own: Scratch, backed: bool)
    requires own.temporary !in start && own.backup !in start
    requires prepared - {own.backup} == start - {own.backup} && (!backed ==> own.backup !in prepared)
    requires replaced - {own.temporary} == prepared - {own.temporary}
    requires end == replaced - {own.temporary} - (if backed then {own.backup} else {})
    ensures end == start
  {
    assert start - {own.backup} == start && start - {own.temporary} == start;
    assert end == prepared - {own.backup} - {own.temporary};
  }

  lemma LeavesNothing(f: Fs, start: Fs, own: Scratch)
    requires Usable(own) && own.temporary !in start.entries && own.backup !in start.entries
    requires f.entries - {Target} == start.entries - {Target}
    ensures own.temporary !in f.entries && own.backup !in f.entries
  {
    assert own.temporary !in f.entries - {Target} && own.backup !in f.entries - {Target};
  }

  /** The write gets as far as putting the new file in place. */
  predicate Reaches(fits: bool, start: Fs, failing: set<SyncPoint>, full: bool) {
    && fits && !full && (Target in start.entries ==> IdentityOf(start, Target).private)
    && !(Target in start.entries && BeforeReplace in failing)
  }

  /**
   Why a write is refused when every real call succeeds, only the syncs in
   `failing` fail, `stuck` prevents a rollback and `full` the writing of bytes.
   */
  function Refusal(fits: bool, start: Fs, failing: set<SyncPoint>, stuck: bool, full: bool): Option<ConfigError> {
    if !fits then Some(Invalid)
    else if Target in start.entries && !IdentityOf(start, Target).private then Some(Insecure)
    else if full || (Target in start.entries && BeforeReplace in failing) || (AfterReplace in failing && !stuck) then Some(WriteFailed)
    else None
  }

  /** Result, steps and entries of a write with every real call succeeding. */
  ghost predicate Resolved(r: Result<(), ConfigError>, events: seq<Event>, f: Fs, start: Fs, bytes: Document,
                           fits: bool, failing: set<SyncPoint>, stuck: bool, full: bool) {
    && (match Refusal(fits, start, failing, stuck, full) case None => r.Ok? case Some(error) => r == Err(error))
    && (Shown(events, start) <==> Reaches(fits, start, failing, full))
    && (r.Ok? ==> (SyncedBefore(events, |events|, start, bytes) <==> AfterReplace !in failing))
    && (r.Ok? && AfterReplace !in failing ==> (Flushed(events) <==> (Target in start.entries ==> Cleanup !in failing)))
    && (r.Err? && Shown(events, start) ==> (Resynced(events, start) <==> Rollback !in failing))
    && (!(r.Ok? && AfterReplace in failing) ==> f.entries - {Target} == start.entries - {Target})
  }

  lemma Unresolved(events: seq<Event>, f: Fs, start: Fs, bytes: Document, fits: bool, failing: set<SyncPoint>,
                   stuck: bool, full: bool)
    requires !Shown(events, start) && f.entries == start.entries && !Reaches(fits, start, failing, full)
    ensures var refusal := Refusal(fits, start, failing, stuck, full);
            refusal.Some? && Resolved(Err(refusal.value), events, f, start, bytes, fits, failing, stuck, full)
  {
  }

  method ReplaceFile(dir: Directory, backed: bool, bytes: Document, failing: set<SyncPoint>, own: Scratch,
                     ghost base: seq<Event>, ghost sofar: seq<Event>, ghost start: Fs)
    returns (r: Result<(), ConfigError>, ghost events: seq<Event>)
    requires Sofar(dir, base, sofar, start, bytes, own) && SameEntry(dir.fs, start, Target)
    requires BackedUp(dir.fs, start, own, backed) && dir.fs.next == start.next && !Shown(sofar, start)
    requires backed ==> InsuredAt(sofar, |sofar|, start, own)
    modifies dir
    ensures old(dir.Recorded()) ==> dir.Recorded()
    ensures Sofar(dir, base, events, start, bytes, own)
    ensures if r.Ok? then Holds(dir.fs, start, bytes) else SameEntry(dir.fs, start, Target)
    ensures Ended(events, start, bytes, r.Ok?)
    ensures dir.reliable && own.temporary !in old(dir.fs.entries) && dir.full ==>
              && r == Err(WriteFailed) && !Shown(events, start)
              && dir.fs.entries - {own.temporary} == old(dir.fs.entries) - {own.temporary}
    ensures dir.reliable && own.temporary !in old(dir.fs.entries) && !dir.full ==>
              && (if AfterReplace in failing && !dir.stuck then r == Err(WriteFailed) else r.Ok?)
                  && Shown(events, start)
              && (r.Ok? ==> (SyncedBefore(events, |events|, start, bytes) <==> AfterReplace !in failing))
              && (r.Ok? && AfterReplace !in failing ==> (Flushed(events) <==> (backed ==> Cleanup !in failing)))
              && (r.Err? ==> (Resynced(events, start) <==> Rollback !in failing))
              && (!(r.Ok? && AfterReplace in failing) ==>
                    dir.fs.entries - {Target} == old(dir.fs.entries) - (if backed then {Target, own.backup} else {Target}))
  {
    hide InsuredAt, Resynced, Flushed, Kept, Holds, Chain, Shown, SyncedBefore, Reachable, Good, Ended, Safe, Track;
    hide Lasting, Lost;
    r, events := PrepareTemporary(dir, bytes, own, base, sofar, start);
    if r.Err? {
      UnshownEnds(events, start, bytes);
    } else {
      ghost var prepared := dir.fs;
      r, events := Install(dir, backed, failing, own, base, events, start, bytes);
      if dir.reliable && own.temporary !in old(dir.fs.entries) {
        assert prepared.entries - {own.temporary} == old(dir.fs.entries);
      }
    }
  }
}
