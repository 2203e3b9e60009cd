/**
 Accounting of scoped application launches, and the wrapping of their argument
 vectors, from src/application_scope.rs.
 */
module LaunchScope {
  import opened Common

  const MAX_PENDING: nat := 32
  const SCOPE_EXEC: string := "__internal-app-scope-exec"

  datatype Support = Unknown | Available | Unavailable

  datatype Snapshot = Snapshot(
    support: Support,
    attempted: nat,
    scoped: nat,
    fallback: nat,
    pending: nat,
    dropped: nat,
    lastFailure: Option<string>)

  const INITIAL: Snapshot := Snapshot(Unknown, 0, 0, 0, 0, 0, None)

  /** What one read of a status pipe yields. */
  datatype Report = Closed | WouldBlock | Failed | Status(text: string)

  predicate IsPrefix(p: string, s: string) { |p| <= |s| && s[..|p|] == p }

  /** The reader is kept and asked again later. */
  predicate Keeps(report: Report) {
    report.WouldBlock? || (report.Status? && !IsPrefix("S", report.text) && !IsPrefix("F:", report.text))
  }

  function Recorded(s: Snapshot, report: Report): Snapshot {
    match report
    case Closed => s.(dropped := Increment(s.dropped))
    case Failed => s.(dropped := Increment(s.dropped))
    case WouldBlock => s
    case Status(text) =>
      if IsPrefix("S", text) then s.(scoped := Increment(s.scoped), support := Available, lastFailure := None)
      else if IsPrefix("F:", text) then s.(fallback := Increment(s.fallback), support := Unavailable, lastFailure := Some(text[2..]))
      else s
  }

  // ----- one drain, as the list of polls it made -----

  datatype Poll = Poll(reader: nat, report: Report)

  function Readers(polls: seq<Poll>): seq<nat> { seq(|polls|, i requires 0 <= i < |polls| => polls[i].reader) }

  function AllRecorded(s: Snapshot, polls: seq<Poll>): Snapshot {
    if polls == [] then s else Recorded(AllRecorded(s, polls[..|polls| - 1]), polls[|polls| - 1].report)
  }

  function Kept(polls: seq<Poll>): seq<nat> {
    if polls == [] then []
    else Kept(polls[..|polls| - 1]) + if Keeps(polls[|polls| - 1].report) then [polls[|polls| - 1].reader] else []
  }

  /** Launches whose outcome is known or was lost. */
  function Settled(s: Snapshot): nat { s.scoped + s.fallback + s.dropped }

  /**
   Every attempted launch is settled or still has its reader; counting stops
   meaning anything once the counter is full.
   */
  predicate Conserved(s: Snapshot, readers: nat) {
    && s.attempted <= MAX_U64 && readers <= MAX_PENDING
    && (s.attempted < MAX_U64 ==> s.attempted == Settled(s) + readers)
  }

  /** A poll settles its launch exactly when it does not keep the reader. */
  lemma PollConserves(s: Snapshot, report: Report, readers: nat)
    requires Conserved(s, readers + 1)
    ensures Conserved(Recorded(s, report), readers + if Keeps(report) then 1 else 0)
    ensures Recorded(s, report).attempted == s.attempted
  {
  }

  lemma {:induction false} DrainConserves(s: Snapshot, polls: seq<Poll>, rest: nat)
    requires Conserved(s, |polls| + rest)
    ensures Conserved(AllRecorded(s, polls), |Kept(polls)| + rest)
    ensures AllRecorded(s, polls).attempted == s.attempted
  {
    if polls != [] {
      var last := |polls| - 1;
      DrainConserves(s, polls[..last], rest + 1);
      PollConserves(AllRecorded(s, polls[..last]), polls[last].report, |Kept(polls[..last])| + rest);
    }
  }

  // ----- which counter a report moves -----

  /** The helper reported that the launch got its scope. */
  predicate GotScope(report: Report) { report.Status? && |report.text| > 0 && report.text[0] == 'S' }

  /** The helper reported that it launched without a scope, and why. */
  predicate FellBack(report: Report) { report.Status? && |report.text| > 1 && report.text[..2] == "F:" }

  /** Nothing will ever be reported. */
  predicate Lost(report: Report) { report.Closed? || report.Failed? }

  /** Of all reports just one kind moves each counter, and the rest leave the snapshot alone. */
  lemma ReportMoves(s: Snapshot, report: Report)
    ensures var after := Recorded(s, report);
            && after.scoped == (if GotScope(report) then Increment(s.scoped) else s.scoped)
            && after.fallback == (if FellBack(report) then Increment(s.fallback) else s.fallback)
            && after.dropped == (if Lost(report) then Increment(s.dropped) else s.dropped)
            && after.support == (if GotScope(report) then Available else if FellBack(report) then Unavailable else s.support)
            && after.lastFailure ==
               (if GotScope(report) then None else if FellBack(report) then Some(report.text[2..]) else s.lastFailure)
            && after.attempted == s.attempted && after.pending == s.pending
    ensures Keeps(report) <==> !GotScope(report) && !FellBack(report) && !Lost(report)
  {
    if report.Status? {
      var text := report.text;
      assert IsPrefix("S", text) <==> GotScope(report) by {
        if |text| > 0 { assert text[..1] == [text[0]]; }
      }
    }
  }

  function CountOf(polls: seq<Poll>, kind: Report -> bool): (n: nat)
    ensures n <= |polls|
  {
    if polls == [] then 0
    else CountOf(polls[..|polls| - 1], kind) + if kind(polls[|polls| - 1].report) then 1 else 0
  }

  /** Over a whole drain each counter grows by the reports of its kind, and stops when it is full. */
  lemma {:induction false} DrainCounts(s: Snapshot, polls: seq<Poll>)
    requires s.scoped <= MAX_U64 && s.fallback <= MAX_U64 && s.dropped <= MAX_U64
    ensures var after := AllRecorded(s, polls);
            && after.scoped == Saturated(s.scoped + CountOf(polls, GotScope))
            && after.fallback == Saturated(s.fallback + CountOf(polls, FellBack))
            && after.dropped == Saturated(s.dropped + CountOf(polls, Lost))
            && |Kept(polls)| == |polls| - CountOf(polls, GotScope) - CountOf(polls, FellBack) - CountOf(polls, Lost)
  {
    if polls != [] {
      var last := |polls| - 1;
      DrainCounts(s, polls[..last]);
      ReportMoves(AllRecorded(s, polls[..last]), polls[last].report);
      hide Recorded, Keeps;
    }
  }

  datatype Mode = Direct | DirectFallback(reason: string) | ScopeHelper

  datatype Launch = Plain | WithStatus(reader: nat)

  /** The counters after one launch, with or without a reader for it. */
  function Accounted(s: Snapshot, mode: Mode, watched: bool): Snapshot {
    match mode
    case Direct => s
    case DirectFallback(reason) =>
      s.(attempted := Increment(s.attempted), fallback := Increment(s.fallback), support := Unavailable, lastFailure := Some(reason))
    case ScopeHelper =>
      s.(attempted := Increment(s.attempted), dropped := if watched then s.dropped else Increment(s.dropped))
  }

  class Diagnostics {
    var snapshot: Snapshot
    var readers: seq<nat>

    ghost predicate Valid()
      reads this
    {
      Conserved(snapshot, |readers|)
    }

    constructor ()
      ensures Valid() && readers == [] && snapshot == INITIAL
    {
      snapshot := INITIAL;
      readers := [];
    }

    /** A read may yield anything. */
    method Read(reader: nat) returns (report: Report)
    {
      report := *;
    }

    method SwapRemove(index: nat)
      requires index < |readers|
      modifies this`readers
      ensures readers == old(readers)[index := old(readers)[|old(readers)| - 1]][..|old(readers)| - 1]
      ensures multiset(readers[index..]) + multiset{old(readers)[index]} == multiset(old(readers)[index..])
      ensures readers[..index] == old(readers)[..index]
    {
      var last := |readers| - 1;
      SwapRemoveKeeps(readers, index);
      readers := readers[index := readers[last]][..last];
    }

    /**
     Polls every reader present on entry exactly once, however the vector is
     reshuffled, records every report in polling order, and keeps exactly the
     readers whose report says nothing yet.
     */
    method Drain() returns (ghost polls: seq<Poll>)
      requires Valid()
      modifies this
      ensures Valid()
      ensures multiset(Readers(polls)) == multiset(old(readers))
      ensures readers == Kept(polls)
      ensures snapshot == AllRecorded(old(snapshot), polls) && snapshot.attempted == old(snapshot).attempted
    {
      hide Conserved, Recorded, Keeps, AllRecorded, Kept, Readers;
      polls := [];
      NothingPolled(snapshot);
      var index := 0;
      while index < |readers|
        invariant 0 <= index <= |readers|
        invariant readers[..index] == Kept(polls)
        invariant snapshot == AllRecorded(old(snapshot), polls)
        invariant multiset(Readers(polls)) + multiset(readers[index..]) == multiset(old(readers))
        decreases |readers| - index
      {
        var reader := readers[index];
        var report := Read(reader);
        PollAppends(polls, Poll(reader, report), old(snapshot));
        assert readers[index..] == [reader] + readers[index + 1..];
        snapshot := Recorded(snapshot, report);
        if Keeps(report) {
          assert readers[..index + 1] == readers[..index] + [reader];
          index := index + 1;
        } else {
          SwapRemove(index);
        }
        polls := polls + [Poll(reader, report)];
      }
      assert readers[..index] == readers && readers[index..] == [];
      assert |polls| == |old(readers)| by { PolledOnce(polls, old(readers)); }
      DrainConserves(old(snapshot), polls, 0);
    }

    method PollStatus() returns (ghost polls: seq<Poll>)
      requires Valid()
      modifies this
      ensures Valid()
      ensures multiset(Readers(polls)) == multiset(old(readers)) && readers == Kept(polls)
      ensures snapshot == AllRecorded(old(snapshot), polls).(pending := |readers|)
                && snapshot.attempted == old(snapshot).attempted
    {
      polls := Drain();
      snapshot := snapshot.(pending := |readers|);
    }

    /**
     Accounts for one launch.  A direct launch is not an attempt; a planned
     fallback is settled at once; a helper launch gets a reader, or is counted
     as dropped when there are too many or its pipe cannot be had.
     */
    method PrepareSpawn(mode: Mode, pipe: Option<nat>, mapped: bool) returns (launch: Launch, ghost polls: seq<Poll>)
      requires Valid()
      modifies this
      ensures Valid()
      ensures multiset(Readers(polls)) == multiset(old(readers))
      ensures snapshot == Accounted(AllRecorded(old(snapshot), polls).(pending := |Kept(polls)|), mode, launch.WithStatus?)
      ensures launch.WithStatus? <==> mode.ScopeHelper? && |Kept(polls)| < MAX_PENDING && pipe.Some? && mapped
      ensures readers == Kept(polls) + if launch.WithStatus? then [launch.reader] else []
      ensures launch.WithStatus? ==> launch.reader == pipe.value
    {
      launch := Plain;
      polls := PollStatus();
      match mode {
        case Direct => return;
        case DirectFallback(reason) =>
          snapshot := snapshot.(attempted := Increment(snapshot.attempted), fallback := Increment(snapshot.fallback),
                                support := Unavailable, lastFailure := Some(reason));
          return;
        case ScopeHelper =>
      }
      snapshot := snapshot.(attempted := Increment(snapshot.attempted));
      if |readers| >= MAX_PENDING || pipe.None? || !mapped {
        snapshot := snapshot.(dropped := Increment(snapshot.dropped));
        return;
      }
      readers := readers + [pipe.value];
      launch := WithStatus(pipe.value);
    }
  }

  lemma SwapRemoveKeeps(readers: seq<nat>, index: nat)
    requires index < |readers|
    ensures var last := |readers| - 1;
            var after := readers[index := readers[last]][..last];
            && after[..index] == readers[..index]
            && multiset(after[index..]) + multiset{readers[index]} == multiset(readers[index..])
  {
    var last := |readers| - 1;
    var after := readers[index := readers[last]][..last];
    if index < last {
      var middle := readers[index + 1..last];
      assert readers[index..] == [readers[index]] + middle + [readers[last]];
      assert after[index..] == [readers[last]] + middle;
    } else {
      assert readers[index..] == [readers[index]];
      assert after[index..] == [];
    }
  }

  lemma NothingPolled(s: Snapshot)
    ensures Readers([]) == [] && Kept([]) == [] && AllRecorded(s, []) == s
  {
  }

  lemma PollAppends(polls: seq<Poll>, poll: Poll, s: Snapshot)
    ensures Readers(polls + [poll]) == Readers(polls) + [poll.reader]
    ensures AllRecorded(s, polls + [poll]) == Recorded(AllRecorded(s, polls), poll.report)
    ensures Kept(polls + [poll]) == Kept(polls) + if Keeps(poll.report) then [poll.reader] else []
  {
    assert (polls + [poll])[..|polls|] == polls;
  }

  lemma PolledOnce(polls: seq<Poll>, readers: seq<nat>)
    requires multiset(Readers(polls)) == multiset(readers)
    ensures |polls| == |readers|
  {
    assert |multiset(Readers(polls))| == |Readers(polls)|;
  }

  // ----- argument vectors -----

  datatype ScopeError = EmptyTarget | InvalidExecutable | MissingDelimiter

  function Wrap(argv: seq<string>, executable: string): Result<seq<string>, ScopeError> {
    if argv == [] then Err(EmptyTarget)
    else if executable == "" then Err(InvalidExecutable)
    else Ok([executable, SCOPE_EXEC, "--"] + argv)
  }

  /** The first delimiter. */
  function Delimiter(args: seq<string>): (r: Option<nat>)
    ensures r.None? ==> forall i :: 0 <= i < |args| ==> args[i] != "--"
    ensures r.Some? ==> r.value < |args| && args[r.value] == "--" && forall i :: 0 <= i < r.value ==> args[i] != "--"
  {
    if args == [] then None
    else
      var last := |args| - 1;
      var before := Delimiter(args[..last]);
      if before.Some? then before else if args[last] == "--" then Some(last) else None
  }

  /** What the helper runs: the arguments after the first delimiter. */
  function Target(args: seq<string>): Result<seq<string>, ScopeError> {
    match Delimiter(args)
    case None => Err(MissingDelimiter)
    case Some(i) => if args[i + 1..] == [] then Err(EmptyTarget) else Ok(args[i + 1..])
  }

  /**
   The helper, given the arguments after its own command word, runs exactly the
   original vector, even one that contains delimiters.
   */
  lemma WrapRoundTrips(argv: seq<string>, executable: string)
    ensures Wrap(argv, executable).Ok? <==> argv != [] && executable != ""
    ensures Wrap(argv, executable).Ok? ==>
              Wrap(argv, executable).value[1] == SCOPE_EXEC && Target(Wrap(argv, executable).value[2..]) == Ok(argv)
  {
    if Wrap(argv, executable).Ok? {
      var args := Wrap(argv, executable).value[2..];
      assert args[0] == "--" && args[1..] == argv;
    }
  }
}
