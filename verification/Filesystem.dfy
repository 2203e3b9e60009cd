/**
 One private configuration directory and the system calls the stores make on it.

 Every call may fail for reasons of its own; the state it leaves behind on
 failure is the state it found, except that a failed write may leave any bytes
 in the file being written.  Each call that changes the directory, and each
 completed sync, is recorded in `trace` together with the state it produced.
 */
module Filesystem {
  import opened Common

  type Document = seq<bv8>

  /** Directory entry names, by the role the stores give them. */
  datatype Name =
    | Target                    // the configuration file itself
    | Lock                      // cursor.lock
    | Temporary(suffix: nat)    // freshly written candidate
    | Quarantine(suffix: nat)   // entry parked before removal
    | Backup(suffix: nat)       // hard link to the previous file
    | Other(id: nat)

  /** `private` stands for: regular file, owned by the effective user, mode 0600. */
  datatype Inode = Inode(content: Document, private: bool, synced: bool)

  datatype Identity = Identity(ino: nat, private: bool)

  type Entries = map<Name, nat>

  /** Inode numbers below `next` have been handed out; none is handed out twice. */
  datatype RawFs = RawFs(entries: Entries, inodes: map<nat, Inode>, next: nat)

  predicate WellFormed(f: RawFs) {
    && (forall n :: n in f.entries ==> f.entries[n] in f.inodes)
    && (forall i :: i in f.inodes ==> i < f.next)
  }

  /** A directory state without dangling entries. */
  type Fs = f: RawFs | WellFormed(f) witness RawFs(map[], map[], 0)

  predicate SameEntry(f: Fs, g: Fs, n: Name) {
    && (n in f.entries <==> n in g.entries)
    && (n in f.entries ==> f.entries[n] == g.entries[n])
  }

  predicate Names(f: Fs, n: Name, ino: nat) {
    n in f.entries && f.entries[n] == ino
  }

  /** Some entry of the directory still leads to the inode. */
  ghost predicate Reachable(f: Fs, ino: nat) {
    exists n :: Names(f, n, ino)
  }

  function IdentityOf(f: Fs, n: Name): Identity
    requires n in f.entries
  {
    Identity(f.entries[n], f.inodes[f.entries[n]].private)
  }

  function Moved(f: Fs, from: Name, to: Name): Fs
    requires from in f.entries && to !in f.entries
  {
    f.(entries := (f.entries - {from})[to := f.entries[from]])
  }

  function Swapped(f: Fs, a: Name, b: Name): Fs
    requires a in f.entries && b in f.entries
  {
    f.(entries := f.entries[a := f.entries[b]][b := f.entries[a]])
  }

  function Removed(f: Fs, n: Name): Fs {
    f.(entries := f.entries - {n})
  }

  /** rename(2): the destination is replaced, but two names of one inode are left alone. */
  function Renamed(f: Fs, from: Name, to: Name): Fs
    requires from in f.entries
  {
    if to in f.entries && f.entries[to] == f.entries[from] then f
    else f.(entries := (f.entries - {from})[to := f.entries[from]])
  }

  function Linked(f: Fs, n: Name, ino: nat): Fs
    requires ino in f.inodes
  {
    f.(entries := f.entries[n := ino])
  }

  function Filled(f: Fs, ino: nat, node: Inode): Fs
    requires ino in f.inodes
  {
    f.(inodes := f.inodes[ino := node])
  }

  /** A new inode, named `n`. */
  function Added(f: Fs, n: Name, node: Inode): Fs {
    f.(entries := f.entries[n := f.next], inodes := f.inodes[f.next := node], next := f.next + 1)
  }

  /** One more than the suffix of a name that carries one. */
  function SuffixBound(n: Name): nat {
    match n
    case Temporary(s) => s + 1
    case Quarantine(s) => s + 1
    case Backup(s) => s + 1
    case _ => 0
  }

  ghost function Largest(names: set<Name>): nat {
    if names == {} then 0
    else
      var n :| n in names;
      var rest := Largest(names - {n});
      if SuffixBound(n) > rest then SuffixBound(n) else rest
  }

  lemma {:induction false} LargestBounds(names: set<Name>)
    ensures forall n :: n in names ==> SuffixBound(n) <= Largest(names)
  {
    if names != {} {
      var m :| m in names && Largest(names) == (
        var rest := Largest(names - {m});
        if SuffixBound(m) > rest then SuffixBound(m) else rest);
      LargestBounds(names - {m});
      forall n | n in names ensures SuffixBound(n) <= Largest(names) {
        assert n == m || n in names - {m};
      }
    }
  }

  datatype Op =
    | Move(from: Name, to: Name)
    | Overwrite(from: Name, to: Name)
    | Swap(a: Name, b: Name)
    | Link(name: Name, ino: nat)
    | Unlink(name: Name, ino: nat)
    | Create(name: Name, ino: nat)
    | Write(ino: nat)
    | SyncFile(ino: nat)
    | SyncDirectory
    | Foreign               // another process acted
    | LockHeld(ino: nat)    // a lock identity check succeeded
    | LockLost              // a lock identity check failed

  datatype Event = Event(op: Op, after: Fs)

  /** The directory after `k` recorded steps. */
  ghost function At(start: Fs, events: seq<Event>, k: nat): Fs
    requires k <= |events|
  {
    if k == 0 then start else events[k - 1].after
  }

  /** The recorded step is what its operation does to `f`; `alone` restricts what other processes do. */
  ghost predicate Effect(f: Fs, e: Event, alone: bool) {
    match e.op
    case Move(from, to) => from in f.entries && to !in f.entries && e.after == Moved(f, from, to)
    case Overwrite(from, to) => from in f.entries && e.after == Renamed(f, from, to)
    case Swap(a, b) => a in f.entries && b in f.entries && e.after == Swapped(f, a, b)
    case Link(n, ino) => n !in f.entries && ino in f.inodes && e.after == Linked(f, n, ino)
    case Unlink(n, ino) => Names(f, n, ino) && e.after == Removed(f, n)
    case Create(n, ino) => n !in f.entries && ino == f.next && ino in e.after.inodes && e.after == Added(f, n, e.after.inodes[ino])
    case Write(ino) => ino in f.inodes && ino in e.after.inodes && e.after == Filled(f, ino, e.after.inodes[ino])
    case SyncFile(ino) => ino in f.inodes && e.after == Filled(f, ino, f.inodes[ino].(synced := true))
    case SyncDirectory => e.after == f
    case Foreign => ForeignChange(f, e.after, alone)
    case LockHeld(ino) => Names(f, Lock, ino) && e.after == f
    case LockLost => e.after == f
  }

  /** Other processes replace or remove the lock file and, unless the writer is alone, the configuration file. */
  ghost predicate ForeignChange(f: Fs, g: Fs, alone: bool) {
    && g.next >= f.next
    && (forall i :: i in f.inodes ==> i in g.inodes && g.inodes[i] == f.inodes[i])
    && (forall n :: n != Lock && (alone || n != Target) ==> SameEntry(g, f, n))
    && Supplanted(f, g, Lock) && Supplanted(f, g, Target)
  }

  /** The entry is as it was, or gone, or a file made since. */
  predicate Supplanted(f: Fs, g: Fs, n: Name) {
    SameEntry(g, f, n) || n !in g.entries || g.entries[n] >= f.next
  }

  /** Every step begins where the one before it ended. */
  ghost predicate Chain(start: Fs, events: seq<Event>, alone: bool) {
    forall k :: 0 <= k < |events| ==> Effect(At(start, events, k), events[k], alone)
  }

  lemma ChainStep(start: Fs, events: seq<Event>, alone: bool, k: nat)
    requires Chain(start, events, alone) && 0 < k <= |events|
    ensures Effect(At(start, events, k - 1), events[k - 1], alone)
  {
    hide Effect;
  }

  lemma ChainAppends(start: Fs, events: seq<Event>, e: Event, alone: bool)
    requires Chain(start, events, alone) && Effect(At(start, events, |events|), e, alone)
    ensures Chain(start, events + [e], alone) && At(start, events + [e], |events| + 1) == e.after
  {
    hide Effect;
    var all := events + [e];
    forall k | 0 <= k < |all| ensures Effect(At(start, all, k), all[k], alone) {
      assert At(start, all, k) == At(start, events, k);
    }
  }

  datatype RenameResult = Done | NotFound | AlreadyExists | IoError
  datatype OpenResult = Opened(ino: nat) | Absent | Refused
  datatype LookupResult = Present(identity: Identity) | Nothing | Unreadable
  datatype FlockResult = Locked | WouldBlock | NotLocked
  datatype CreateResult = Created(ino: nat) | Collision | NotCreated

  /**
   The opened directory.  With `reliable` set no call fails of its own accord,
   created files get the private mode and random suffixes are unused, with
   three exceptions: if `blind`, every stat of the configuration entry fails; if
   `stuck`, that entry cannot be removed, nor a backup be renamed; if `full`, no
   bytes can be written.  With
   `solitary` set no other process touches any entry but the lock file; and
   unless `restless`, none acts at all while calls are reliable.  If
   `contended`, another process has locked the lock file.
   */
  class Directory {
    var fs: Fs
    ghost var trace: seq<Event>
    const reliable: bool
    const solitary: bool
    const blind: bool
    const stuck: bool
    const full: bool
    const restless: bool
    const contended: bool
    ghost var flocked: set<nat>
    ghost const origin: Fs

    constructor (start: Fs, reliable: bool, solitary: bool, blind: bool, stuck: bool, full: bool, restless: bool,
                 contended: bool)
      ensures fs == start && trace == [] && Recorded()
      ensures this.reliable == reliable && this.solitary == solitary && this.blind == blind && this.stuck == stuck
      ensures this.full == full && this.restless == restless && this.contended == contended
    {
      fs, origin := start, start;
      trace, flocked := [], {};
      this.reliable, this.solitary, this.blind, this.stuck := reliable, solitary, blind, stuck;
      this.full, this.restless, this.contended := full, restless, contended;
    }

    /** Calls succeed, nobody else acts, and the lock is free. */
    predicate Quiet() { reliable && !full && !restless && !contended }

    /** Calls succeed, nobody else touches anything but the lock file, and that is free. */
    predicate Tame() { reliable && !full && (solitary || !restless) && !contended }

    /** The trace tells how the present state came about. */
    ghost predicate Recorded()
      reads this
    {
      Chain(origin, trace, solitary) && fs == At(origin, trace, |trace|)
    }

    ghost method Record(op: Op, before: Fs)
      requires Effect(before, Event(op, fs), solitary)
      modifies this`trace
      ensures trace == old(trace) + [Event(op, fs)]
      ensures Chain(origin, old(trace), solitary) && before == At(origin, old(trace), |old(trace)|) ==> Recorded()
    {
      hide Effect;
      if Chain(origin, trace, solitary) && before == At(origin, trace, |trace|) {
        ChainAppends(origin, trace, Event(op, fs), solitary);
      }
      trace := trace + [Event(op, fs)];
    }

    method Attempt() returns (ok: bool)
      ensures reliable ==> ok
    {
      ok := *;
      if reliable { ok := true; }
    }

    /** The names in the directory. */
    method List() returns (names: Option<set<Name>>)
      ensures names.Some? ==> names.value == fs.entries.Keys
      ensures reliable ==> names.Some?
    {
      var ok := Attempt();
      names := if ok then Some(fs.entries.Keys) else None;
    }

    /** flock(LOCK_EX | LOCK_NB) on an open descriptor. */
    method Flock(ino: nat) returns (r: FlockResult)
      modifies this`flocked
      ensures r.Locked? ==> !contended && flocked == old(flocked) + {ino}
      ensures !r.Locked? ==> flocked == old(flocked)
      ensures r.WouldBlock? ==> contended
      ensures reliable ==> r == if contended then WouldBlock else Locked
    {
      var ok := Attempt();
      r := if !ok then NotLocked else if contended then WouldBlock else Locked;
      if r.Locked? {
        flocked := flocked + {ino};
      }
    }

    /** Sixteen bytes from getrandom. */
    method RandomSuffix() returns (s: Option<nat>)
      ensures reliable ==> s.Some?
      ensures reliable ==>
                forall n :: n in fs.entries ==> n !in {Temporary(s.value), Quarantine(s.value), Backup(s.value)}
    {
      var ok := Attempt();
      if !ok {
        return None;
      }
      var suffix: nat := *;
      if reliable {
        suffix := 0;
        while exists n :: n in fs.entries && SuffixBound(n) > suffix
          decreases Largest(fs.entries.Keys) - suffix
        {
          LargestBounds(fs.entries.Keys);
          suffix := suffix + 1;
        }
      }
      s := Some(suffix);
    }

    /** fstatat without following links. */
    method Stat(name: Name) returns (id: Option<Identity>)
      ensures id.Some? ==> name in fs.entries && id.value == IdentityOf(fs, name)
      ensures reliable && name in fs.entries && !(blind && name == Target) ==> id.Some?
      ensures blind && name == Target ==> id.None?
    {
      var ok := Attempt();
      ok := ok && !(blind && name == Target);
      id := if ok && name in fs.entries then Some(IdentityOf(fs, name)) else None;
    }

    /** openat(O_RDONLY | O_NOFOLLOW); only a missing entry reports absence. */
    method Open(name: Name) returns (r: OpenResult)
      ensures r.Opened? ==> Names(fs, name, r.ino)
      ensures r.Absent? ==> name !in fs.entries
      ensures reliable && name !in fs.entries ==> r.Absent?
      ensures reliable && name in fs.entries && IdentityOf(fs, name).private ==> r.Opened?
    {
      var ok := Attempt();
      r := if !ok then Refused else if name in fs.entries then Opened(fs.entries[name]) else Absent;
    }

    /** fstat on an open descriptor. */
    method Fstat(ino: nat) returns (id: Option<Identity>)
      ensures id.Some? ==> ino in fs.inodes && id.value == Identity(ino, fs.inodes[ino].private)
      ensures reliable && ino in fs.inodes ==> id.Some?
    {
      var ok := Attempt();
      id := if ok && ino in fs.inodes then Some(Identity(ino, fs.inodes[ino].private)) else None;
    }

    /** renameat2(RENAME_NOREPLACE). */
    method RenameNoReplace(from: Name, to: Name) returns (r: RenameResult)
      modifies this`fs, this`trace
      ensures old(Recorded()) ==> Recorded()
      ensures r.Done? ==> from in old(fs.entries) && to !in old(fs.entries)
      ensures r.Done? ==> fs == Moved(old(fs), from, to) && trace == old(trace) + [Event(Move(from, to), fs)]
      ensures r.NotFound? ==> from !in old(fs.entries)
      ensures r.AlreadyExists? ==> to in old(fs.entries)
      ensures reliable && from in old(fs.entries) && to in old(fs.entries) ==> r.AlreadyExists?
      ensures !r.Done? ==> fs == old(fs) && trace == old(trace)
      ensures reliable && from !in old(fs.entries) ==> r.NotFound?
      ensures reliable && from in old(fs.entries) && to !in old(fs.entries) ==> r.Done?
    {
      hide Chain;
      var ok := Attempt();
      if !ok {
        r := IoError;
      } else if from !in fs.entries {
        r := NotFound;
      } else if to in fs.entries {
        r := AlreadyExists;
      } else {
        fs := Moved(fs, from, to);
        Record(Move(from, to), old(fs));
        r := Done;
      }
    }

    /** renameat2(RENAME_EXCHANGE). */
    method Exchange(a: Name, b: Name) returns (ok: bool)
      modifies this`fs, this`trace
      ensures old(Recorded()) ==> Recorded()
      ensures ok ==> a in old(fs.entries) && b in old(fs.entries)
      ensures ok ==> fs == Swapped(old(fs), a, b) && trace == old(trace) + [Event(Swap(a, b), fs)]
      ensures !ok ==> fs == old(fs) && trace == old(trace)
      ensures reliable && a in old(fs.entries) && b in old(fs.entries) ==> ok
    {
      hide Chain;
      ok := Attempt();
      ok := ok && a in fs.entries && b in fs.entries;
      if ok {
        fs := Swapped(fs, a, b);
        Record(Swap(a, b), old(fs));
      }
    }

    /** unlinkat. */
    method Remove(name: Name) returns (ok: bool)
      modifies this`fs, this`trace
      ensures old(Recorded()) ==> Recorded()
      ensures ok ==> name in old(fs.entries) && fs == Removed(old(fs), name)
      ensures ok ==> trace == old(trace) + [Event(Unlink(name, old(fs.entries)[name]), fs)]
      ensures !ok ==> fs == old(fs) && trace == old(trace)
      ensures stuck && name == Target ==> !ok
      ensures reliable && name in old(fs.entries) && !(stuck && name == Target) ==> ok
    {
      hide Chain;
      ok := Attempt();
      ok := ok && name in fs.entries && !(stuck && name == Target);
      if ok {
        ghost var ino := fs.entries[name];
        fs := Removed(fs, name);
        Record(Unlink(name, ino), old(fs));
      }
    }

    /** openat(O_CREAT | O_EXCL, 0600); the umask may withhold bits of the mode. */
    method CreateExclusive(name: Name) returns (r: CreateResult)
      modifies this`fs, this`trace
      ensures old(Recorded()) ==> Recorded()
      ensures r.Created? ==> name !in old(fs.entries) && r.ino == old(fs.next)
      ensures r.Created? ==> exists p ::
                  && fs == Added(old(fs), name, Inode([], p, false))
                  && (reliable ==> p)
      ensures r.Created? ==> trace == old(trace) + [Event(Create(name, r.ino), fs)]
      ensures r.Collision? ==> name in old(fs.entries)
      ensures !r.Created? ==> fs == old(fs) && trace == old(trace)
      ensures reliable && name !in old(fs.entries) ==> r.Created?
    {
      hide Chain;
      var ok := Attempt();
      if !ok {
        r := NotCreated;
      } else if name in fs.entries {
        r := Collision;
      } else {
        var p := Attempt();
        r := Created(fs.next);
        fs := Added(fs, name, Inode([], p, false));
        Record(Create(name, r.ino), old(fs));
      }
    }

    /** write_all and flush; a failure may leave any prefix, or anything else, behind. */
    method WriteAll(ino: nat, document: Document) returns (ok: bool)
      requires ino in fs.inodes
      modifies this`fs, this`trace
      ensures old(Recorded()) ==> Recorded()
      ensures ino in fs.inodes && (ok ==> fs.inodes[ino].content == document)
      ensures fs == Filled(old(fs), ino, Inode(fs.inodes[ino].content, old(fs.inodes)[ino].private, false))
      ensures trace == old(trace) + [Event(Write(ino), fs)]
      ensures full ==> !ok
      ensures reliable && !full ==> ok
    {
      hide Chain;
      ok := Attempt();
      ok := ok && !full;
      var c: Document := *;
      if ok { c := document; }
      fs := Filled(fs, ino, Inode(c, fs.inodes[ino].private, false));
      Record(Write(ino), old(fs));
    }

    /** fsync of a file. */
    method SyncFile(ino: nat) returns (ok: bool)
      requires ino in fs.inodes
      modifies this`fs, this`trace
      ensures old(Recorded()) ==> Recorded()
      ensures ok ==> fs == Filled(old(fs), ino, old(fs.inodes)[ino].(synced := true))
      ensures ok ==> trace == old(trace) + [Event(Op.SyncFile(ino), fs)]
      ensures !ok ==> fs == old(fs) && trace == old(trace)
      ensures reliable ==> ok
    {
      hide Chain;
      ok := Attempt();
      if ok {
        fs := Filled(fs, ino, fs.inodes[ino].(synced := true));
        Record(Op.SyncFile(ino), old(fs));
      }
    }

    /** fsync of the directory. */
    method SyncDirectory() returns (ok: bool)
      modifies this`fs, this`trace
      ensures old(Recorded()) ==> Recorded()
      ensures fs == old(fs)
      ensures trace == if ok then old(trace) + [Event(Op.SyncDirectory, fs)] else old(trace)
      ensures reliable ==> ok
    {
      hide Chain;
      ok := Attempt();
      if ok {
        Record(Op.SyncDirectory, old(fs));
      }
    }

    /** lstat, telling a missing entry from an unreadable one. */
    method Lookup(name: Name) returns (r: LookupResult)
      ensures r.Present? ==> name in fs.entries && r.identity == IdentityOf(fs, name)
      ensures r.Nothing? ==> name !in fs.entries
      ensures reliable ==> !r.Unreadable?
    {
      var ok := Attempt();
      r := if !ok then Unreadable else if name in fs.entries then Present(IdentityOf(fs, name)) else Nothing;
    }

    /** link(2), which never replaces an entry. */
    method HardLink(from: Name, to: Name) returns (ok: bool)
      modifies this`fs, this`trace
      ensures old(Recorded()) ==> Recorded()
      ensures ok ==> from in old(fs.entries) && to !in old(fs.entries)
      ensures ok ==>
                fs == Linked(old(fs), to, old(fs.entries)[from]) && trace == old(trace) + [Event(Link(to, fs.entries[to]), fs)]
      ensures !ok ==> fs == old(fs) && trace == old(trace)
      ensures reliable && from in old(fs.entries) && to !in old(fs.entries) ==> ok
    {
      hide Chain;
      ok := Attempt();
      ok := ok && from in fs.entries && to !in fs.entries;
      if ok {
        fs := Linked(fs, to, fs.entries[from]);
        Record(Link(to, fs.entries[to]), old(fs));
      }
    }

    method Rename(from: Name, to: Name) returns (ok: bool)
      modifies this`fs, this`trace
      ensures old(Recorded()) ==> Recorded()
      ensures ok ==> from in old(fs.entries) && fs == Renamed(old(fs), from, to)
      ensures ok ==> trace == old(trace) + [Event(Overwrite(from, to), fs)]
      ensures !ok ==> fs == old(fs) && trace == old(trace)
      ensures stuck && from.Backup? ==> !ok
      ensures reliable && from in old(fs.entries) && !(stuck && from.Backup?) ==> ok
    {
      hide Chain;
      ok := Attempt();
      ok := ok && from in fs.entries && !(stuck && from.Backup?);
      if ok {
        fs := Renamed(fs, from, to);
        Record(Overwrite(from, to), old(fs));
      }
    }

    /**
     Whatever other processes do between two calls: the lock file, and unless
     `solitary` also the configuration file, may vanish or become a new file.
     */
    method Interfere()
      modifies this`fs, this`trace
      ensures old(Recorded()) ==> Recorded()
      ensures fs.next >= old(fs.next)
      ensures forall i :: i in old(fs.inodes) ==> i in fs.inodes && fs.inodes[i] == old(fs.inodes)[i]
      ensures forall n :: n != Lock && (solitary || n != Target) ==> SameEntry(fs, old(fs), n)
      ensures SameEntry(fs, old(fs), Target) || Target !in fs.entries || fs.entries[Target] >= old(fs.next)
      ensures trace == old(trace) || trace == old(trace) + [Event(Foreign, fs)]
      ensures trace == old(trace) ==> fs == old(fs)
      ensures solitary ==> fs == old(fs) || !SameEntry(fs, old(fs), Lock)
      ensures Supplanted(old(fs), fs, Lock)
      ensures Quiet() ==> trace == old(trace)
    {
      hide Chain;
      var quiet: bool := *;
      if Quiet() { quiet := true; }
      if quiet {
        return;
      }
      ghost var start := fs;
      Replace(Lock);
      ghost var middle := fs;
      assert SameEntry(middle, start, Target);
      if !solitary {
        Replace(Target);
      }
      forall n | n != Lock && (solitary || n != Target) ensures SameEntry(fs, start, n) {
        assert SameEntry(middle, start, n);
        assert SameEntry(fs, middle, n);
      }
      assert SameEntry(fs, middle, Lock);
      assert Supplanted(start, fs, Lock) && Supplanted(start, fs, Target);
      Record(Foreign, start);
    }

    /** Mark in the trace that the writer found the file that it has locked in place as the lock file. */
    ghost method RecordLockHeld(ino: nat)
      requires Names(fs, Lock, ino) && ino in flocked
      modifies this`trace
      ensures old(Recorded()) ==> Recorded()
      ensures trace == old(trace) + [Event(LockHeld(ino), fs)]
    {
      hide Chain;
      Record(LockHeld(ino), fs);
    }

    /** Mark in the trace that the writer found its lock gone. */
    ghost method RecordLockLost()
      modifies this`trace
      ensures old(Recorded()) ==> Recorded()
      ensures trace == old(trace) + [Event(LockLost, fs)]
    {
      Record(LockLost, fs);
    }

    method Replace(name: Name)
      modifies this`fs
      ensures fs.next >= old(fs.next)
      ensures forall i :: i in old(fs.inodes) ==> i in fs.inodes && fs.inodes[i] == old(fs.inodes)[i]
      ensures forall n :: n != name ==> SameEntry(fs, old(fs), n)
      ensures SameEntry(fs, old(fs), name) || name !in fs.entries || fs.entries[name] >= old(fs.next)
      ensures SameEntry(fs, old(fs), name) ==> fs == old(fs)
    {
      assert name !in fs.entries ==> Removed(fs, name).entries == fs.entries;
      var keep: bool, gone: bool, node: Inode := *, *, *;
      if keep {
        return;
      }
      if gone {
        fs := Removed(fs, name);
      } else {
        fs := Added(fs, name, node);
      }
    }
  }
}
