/**
 What a power loss leaves of a directory whose steps were recorded: the entries
 of some state since the last directory sync, and the bytes of the files that
 were synced and still had a name.
 */
module PowerFailure {
  import opened Filesystem

  /**
   When power fails after step `k`, the disk may hold the entries of state `j`:
   the directory was not synced in between.
   */
  ghost predicate OnDisk(events: seq<Event>, j: nat, k: nat) {
    j <= k <= |events| && forall i :: j <= i < k ==> !events[i].op.SyncDirectory?
  }

  /**
   After a power loss the configuration entry is that of state `j`.  The bytes
   of a file are certain only if it was synced and still had a name when power
   failed; anything else may have been overwritten.
   */
  ghost predicate CrashImage(image: Fs, start: Fs, events: seq<Event>, j: nat, k: nat) {
    && OnDisk(events, j, k)
    && SameEntry(image, At(start, events, j), Target)
    && Intact(image, At(start, events, k))
  }

  ghost predicate Intact(image: Fs, f: Fs) {
    forall i :: i in f.inodes && f.inodes[i].synced && Reachable(f, i) ==> i in image.inodes && image.inodes[i] == f.inodes[i]
  }

  /** What was in place when the write began had been synced. */
  predicate OldIsSynced(start: Fs) {
    Target in start.entries ==> start.inodes[start.entries[Target]].synced
  }

  ghost predicate SyncedBy(events: seq<Event>, k: nat) {
    exists i :: 0 <= i < k <= |events| && events[i].op.SyncDirectory?
  }

  /** The old or the new document; where there was none before, none or the new one. */
  ghost predicate HoldsADocument(image: Fs, start: Fs, document: Document) {
    if Target in start.entries then
      && Target in image.entries
      && (image.inodes[image.entries[Target]].content == start.inodes[start.entries[Target]].content
          || image.inodes[image.entries[Target]].content == document)
    else
      Target in image.entries ==> image.inodes[image.entries[Target]].content == document
  }

  /** Losing power at whatever step leaves a document. */
  ghost predicate Endures(start: Fs, events: seq<Event>, document: Document) {
    forall image, j, k :: CrashImage(image, start, events, j, k) ==> HoldsADocument(image, start, document)
  }

  /** Old and new document, but neither of them. */
  function Garbage(a: Document, b: Document): (r: Document)
    ensures r != a && r != b
  {
    a + b + [0]
  }

  /** The disk may name the new file while that has lost its last name. */
  ghost predicate CandidateLost(start: Fs, events: seq<Event>, made: nat, j: nat, k: nat) {
    OnDisk(events, j, k) && Names(At(start, events, j), Target, made) && !Reachable(At(start, events, k), made)
  }

  lemma LostImage(start: Fs, events: seq<Event>, made: nat, document: Document, j: nat, k: nat)
    requires CandidateLost(start, events, made, j, k) && made in At(start, events, k).inodes
    ensures exists image :: CrashImage(image, start, events, j, k) && !HoldsADocument(image, start, document)
  {
    var f := At(start, events, k);
    var before := if Target in start.entries then start.inodes[start.entries[Target]].content else document;
    var junk := Inode(Garbage(before, document), true, true);
    var image: Fs := RawFs(map[Target := made], f.inodes[made := junk], f.next);
    assert CrashImage(image, start, events, j, k) && !HoldsADocument(image, start, document);
  }

  lemma StatesMeet(origin: Fs, past: seq<Event>, start: Fs, events: seq<Event>, k: nat)
    requires At(origin, past, |past|) == start && k <= |events|
    ensures At(origin, past + events, |past| + k) == At(start, events, k)
  {
    if k > 0 { assert (past + events)[|past| + k - 1] == events[k - 1]; }
  }

  lemma ChainRest(origin: Fs, past: seq<Event>, start: Fs, events: seq<Event>, alone: bool)
    requires Chain(origin, past + events, alone) && At(origin, past, |past|) == start
    ensures Chain(start, events, alone)
  {
    hide Effect;
    forall k | 0 <= k < |events| ensures Effect(At(start, events, k), events[k], alone) {
      StatesMeet(origin, past, start, events, k);
      assert (past + events)[|past| + k] == events[k];
    }
  }
}
