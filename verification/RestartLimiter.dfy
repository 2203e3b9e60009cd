/**
 The sliding-window restart limiter of src/process.rs.  A child carries the
 history of its lineage; the log is every attempt the lineage ever made.
 */
module RestartLimiter {

  datatype Guard = Guard(max: nat, window: nat)

  function Since(now: nat, then_: nat): nat { if now > then_ then now - then_ else 0 }

  /** Drops entries from the front while they are older than the window. */
  function Pruned(history: seq<nat>, now: nat, window: nat): (r: seq<nat>)
    ensures |r| <= |history| && r == history[|history| - |r|..]
    ensures forall i :: 0 <= i < |history| - |r| ==> Since(now, history[i]) > window
    ensures r != [] ==> Since(now, r[0]) <= window
  {
    if history != [] && Since(now, history[0]) > window then Pruned(history[1..], now, window) else history
  }

  method Prune(history: seq<nat>, now: nat, window: nat) returns (r: seq<nat>)
    ensures r == Pruned(history, now, window)
  {
    r := history;
    while r != [] && Since(now, r[0]) > window
      invariant Pruned(r, now, window) == Pruned(history, now, window)
      decreases |r|
    {
      r := r[1..];
    }
  }

  ghost predicate Ordered(log: seq<nat>) { forall i, j :: 0 <= i < j < |log| ==> log[i] <= log[j] }

  /** Any max + 1 consecutive attempts span more than the window. */
  ghost predicate Spaced(log: seq<nat>, guard: Guard) {
    forall i :: 0 <= i && i + guard.max < |log| ==> log[i + guard.max] - log[i] > guard.window
  }

  /** The last max attempts all lie within the window. */
  ghost predicate WindowIsFull(log: seq<nat>, guard: Guard, now: nat)
    requires guard.max <= |log|
  {
    forall i :: |log| - guard.max <= i < |log| ==> now - log[i] <= guard.window
  }

  /** The history agrees with the end of the log, and what it no longer holds is out of the window for good. */
  ghost predicate Tracks(history: seq<nat>, log: seq<nat>, window: nat, clock: nat) {
    && Ordered(log) && (forall i :: 0 <= i < |log| ==> log[i] <= clock)
    && Ordered(history) && (forall i :: 0 <= i < |history| ==> history[i] <= clock)
    && (forall i :: 0 <= i < |log| && i + |history| < |log| ==> clock - log[i] > window)
    && (forall i :: 0 <= i < |log| && |log| <= i + |history| ==> history[i + |history| - |log|] == log[i])
  }

  lemma TimePasses(history: seq<nat>, log: seq<nat>, window: nat, clock: nat, now: nat)
    requires Tracks(history, log, window, clock) && clock <= now
    ensures Tracks(history, log, window, now)
  {
  }

  lemma Forgotten(history: seq<nat>, log: seq<nat>, guard: Guard, clock: nat, now: nat, i: nat)
    requires Tracks(history, log, guard.window, clock) && clock <= now
    requires i < |log| && i + |Pruned(history, now, guard.window)| < |log|
    ensures now - log[i] > guard.window
  {
    if |log| <= i + |history| {
      assert Since(now, history[i + |history| - |log|]) > guard.window;
    }
  }

  lemma SpacedExtends(log: seq<nat>, guard: Guard, now: nat)
    requires Spaced(log, guard)
    requires forall i :: 0 <= i < |log| && i + guard.max == |log| ==> now - log[i] > guard.window
    requires guard.max > 0
    ensures Spaced(log + [now], guard)
  {
  }

  lemma TracksExtends(kept: seq<nat>, log: seq<nat>, window: nat, now: nat)
    requires Tracks(kept, log, window, now)
    ensures Tracks(kept + [now], log + [now], window, now)
  {
    var history', log' := kept + [now], log + [now];
    forall i | 0 <= i < |log'| && |log'| <= i + |history'| ensures history'[i + |history'| - |log'|] == log'[i] {
      assert i < |log| ==> kept[i + |kept| - |log|] == log[i];
    }
  }

  lemma SuffixOrdered(history: seq<nat>, from: nat)
    requires Ordered(history) && from <= |history|
    ensures Ordered(history[from..])
  {
  }

  lemma PruningTracks(history: seq<nat>, log: seq<nat>, guard: Guard, clock: nat, now: nat)
    requires Tracks(history, log, guard.window, clock) && clock <= now
    ensures Tracks(Pruned(history, now, guard.window), log, guard.window, now)
  {
    hide Pruned, Since, Ordered;
    var kept := Pruned(history, now, guard.window);
    SuffixOrdered(history, |history| - |kept|);
    forall i | 0 <= i < |log| && i + |kept| < |log| ensures now - log[i] > guard.window {
      Forgotten(history, log, guard, clock, now, i);
    }
    forall i | 0 <= i < |log| && |log| <= i + |kept| ensures kept[i + |kept| - |log|] == log[i] {
      assert kept[i + |kept| - |log|] == history[i + |history| - |log|];
    }
  }

  /** An admitted attempt keeps the log spaced and the history tracking it. */
  lemma AttemptKeeps(history: seq<nat>, log: seq<nat>, guard: Guard, clock: nat, now: nat)
    requires Tracks(history, log, guard.window, clock) && Spaced(log, guard) && clock <= now
    requires |Pruned(history, now, guard.window)| < guard.max
    ensures Spaced(log + [now], guard)
    ensures Tracks(Pruned(history, now, guard.window) + [now], log + [now], guard.window, now)
  {
    hide Tracks, Spaced;
    PruningTracks(history, log, guard, clock, now);
    TracksExtends(Pruned(history, now, guard.window), log, guard.window, now);
    forall i | 0 <= i < |log| && i + guard.max == |log| ensures now - log[i] > guard.window {
      Forgotten(history, log, guard, clock, now, i);
    }
    SpacedExtends(log, guard, now);
  }

  lemma KeptIsRecent(history: seq<nat>, now: nat, window: nat, i: int)
    requires Ordered(history) && |history| - |Pruned(history, now, window)| <= i < |history|
    ensures Since(now, history[i]) <= window
  {
    var first := |history| - |Pruned(history, now, window)|;
    assert Pruned(history, now, window)[0] == history[first] <= history[i];
  }

  /**
   The limiter looks at the child's history, but what it decides is a fact
   about the lineage: once the log holds the maximum of attempts, the next one
   is refused if and only if the last max of them all lie within the window.
   */
  lemma RefusalIsDue(history: seq<nat>, log: seq<nat>, guard: Guard, clock: nat, now: nat)
    requires Tracks(history, log, guard.window, clock) && clock <= now && 0 < guard.max <= |log|
    ensures |Pruned(history, now, guard.window)| >= guard.max <==> WindowIsFull(log, guard, now)
  {
    hide Pruned;
    var kept := Pruned(history, now, guard.window);
    if |kept| >= guard.max {
      forall i | |log| - guard.max <= i < |log| ensures now - log[i] <= guard.window {
        KeptIsRecent(history, now, guard.window, i + |history| - |log|);
      }
    } else {
      Forgotten(history, log, guard, clock, now, |log| - guard.max);
      assert now - log[|log| - guard.max] > guard.window;
    }
  }
}
