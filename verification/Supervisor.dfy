/**
 Child supervision of src/process.rs: the two process tables, restarts, the
 signal drain, and the TERM-then-KILL shutdown.  Times are nanoseconds.

 The operating system appears as arbitrary choices: a spawn fails or yields a
 pid that no unreaped child has, processes end at any time with any status, a
 wait or a signal may be refused, and the clock moves forward by any amount.
 With `reliable` set nothing is refused, and with `prompt` set a process has
 ended once it was sent SIGKILL.
 */
module Supervisor {
  import opened Common
  import opened RestartLimiter

  const TERM_GRACE: nat := 750_000_000

  datatype Kind = ShellSessionCritical | Application | SessionService | Infrastructure | Xwayland

  datatype RestartPolicy = Never | OnFailure | CriticalSessionComponent

  datatype Options = Options(kind: Kind, sessionOwned: bool, dedicated: bool, policy: RestartPolicy)

  datatype Spawned = Spawned(id: nat, pid: nat, pgid: Option<int>)

  datatype ManagedChild = ManagedChild(spawned: Spawned, options: Options, restartable: bool, history: seq<nat>)

  datatype Shutdown = Shutdown(startedAt: nat, killSent: bool)

  datatype Termination = Hangup | Interrupt | Quit | Terminate

  datatype Signal = Term | Kill

  datatype Sent = Sent(target: Spawned, signal: Signal)

  datatype Exit = Exit(child: Spawned, success: bool, restarted: Option<Spawned>)

  datatype Error = DedicatedNotOwned | IdsExhausted | SpawnFailed | GroupUnknown | WaitFailed | SignalFailed | ReadFailed

  type Children = map<nat, ManagedChild>

  // ----- what holds in every reachable state -----

  /** What is remembered of every id ever given out: its options and the id its restart lineage began with. */
  datatype Record = Record(options: Options, origin: nat)

  ghost predicate Inverse(children: Children, pidToId: map<nat, nat>) {
    && (forall id <- children :: children[id].spawned.id == id
          && children[id].spawned.pid in pidToId && pidToId[children[id].spawned.pid] == id)
    && (forall pid <- pidToId :: pidToId[pid] in children && children[pidToId[pid]].spawned.pid == pid)
  }

  ghost predicate GroupsOwned(children: Children) {
    forall id <- children :: children[id].spawned.pgid.Some? ==> children[id].options.sessionOwned
  }

  ghost predicate OnRecord(children: Children, records: map<nat, Record>, nextId: nat) {
    && (forall id <- records :: id < nextId)
    && (forall id <- children :: id in records && records[id].options == children[id].options)
    && (forall a <- children, b <- children :: records[a].origin == records[b].origin ==> a == b)
  }

  /** Every log is spaced, and the history of every living child tracks the log of its lineage. */
  ghost predicate Limited(children: Children, records: map<nat, Record>, logs: map<nat, seq<nat>>, guard: Guard,
                          clock: nat) {
    && (forall origin <- logs :: origin in records && Spaced(logs[origin], guard))
    && (forall id <- children :: id in records && records[id].origin in logs
          && Tracks(children[id].history, logs[records[id].origin], guard.window, clock))
  }

  /** At most one batch of kills, and only after the grace period. */
  ghost predicate OneKillBatch(shutdown: Option<Shutdown>, kills: seq<nat>) {
    && |kills| <= 1
    && (kills != [] <==> shutdown.Some? && shutdown.value.killSent)
    && (kills != [] ==> kills[0] >= shutdown.value.startedAt + TERM_GRACE)
  }

  ghost predicate Extends(old_: map<nat, Record>, new_: map<nat, Record>) {
    forall id <- old_ :: id in new_ && new_[id] == old_[id]
  }

  /** Attempts are only ever added to a log. */
  ghost predicate LogsGrow(old_: map<nat, seq<nat>>, new_: map<nat, seq<nat>>) {
    forall origin <- old_ :: origin in new_ && old_[origin] <= new_[origin]
  }

  /** What is remembered of a moment of the supervisor; `epoch` counts how often the guard was set. */
  datatype Snapshot = Snapshot(
    records: map<nat, Record>,
    logs: map<nat, seq<nat>>,
    guard: Guard,
    epoch: nat,
    kills: seq<nat>,
    signals: seq<Sent>,
    quiescing: bool,
    shutdown: Option<Shutdown>,
    nextId: nat,
    clock: nat)

  /** Nothing was restarted: no attempt was logged, and every new child begins a lineage of its own. */
  ghost predicate NoRestart(a: Snapshot, b: Snapshot) {
    && (forall id <- b.records :: id in a.records || b.records[id].origin == id)
    && (forall origin <- b.logs :: b.logs[origin] == [] || (origin in a.logs && b.logs[origin] == a.logs[origin]))
  }

  /** What no operation of the supervisor ever undoes. */
  ghost predicate Later(a: Snapshot, b: Snapshot) {
    && Extends(a.records, b.records) && a.nextId <= b.nextId && a.clock <= b.clock
    && (forall id <- b.records :: id in a.records || id >= a.nextId)
    && a.epoch <= b.epoch && (a.epoch == b.epoch ==> a.guard == b.guard && LogsGrow(a.logs, b.logs))
    && a.kills <= b.kills && a.signals <= b.signals
    && (a.shutdown.Some? ==> b.shutdown.Some? && b.shutdown.value.startedAt == a.shutdown.value.startedAt)
    && (a.quiescing ==> b.quiescing && NoRestart(a, b))
  }

  lemma LaterItself(a: Snapshot)
    ensures Later(a, a)
  {
  }

  lemma LaterTransitive(a: Snapshot, b: Snapshot, c: Snapshot)
    requires Later(a, b) && Later(b, c)
    ensures Later(a, c)
  {
  }

  /** Steps that touch neither records nor logs. */
  lemma QuietStep(a: Snapshot, b: Snapshot)
    requires b.records == a.records && b.logs == a.logs && b.guard == a.guard && b.epoch == a.epoch
    requires a.nextId <= b.nextId && a.clock <= b.clock && a.kills <= b.kills && a.signals <= b.signals
              && (a.quiescing ==> b.quiescing)
    requires a.shutdown.Some? ==> b.shutdown.Some? && b.shutdown.value.startedAt == a.shutdown.value.startedAt
    ensures Later(a, b)
  {
  }

  /** A new child with a lineage of its own. */
  lemma FreshStep(a: Snapshot, id: nat, record: Record)
    requires id !in a.records && id !in a.logs && record.origin == id >= a.nextId
    ensures Later(a, a.(records := a.records[id := record], logs := a.logs[id := []], nextId := a.nextId + 1))
  {
  }

  /** A restart attempt, with or without a child from it. */
  lemma AttemptStep(a: Snapshot, b: Snapshot, origin: nat, id: nat)
    requires !a.quiescing && origin in a.logs && b.logs == a.logs[origin := a.logs[origin] + [b.clock]]
              && a.nextId <= b.nextId && a.clock <= b.clock
    requires b.records == a.records
              || (a.nextId <= id && id !in a.records && id in b.records && b.records == a.records[id := b.records[id]])
    requires b.guard == a.guard && b.epoch == a.epoch && b.kills == a.kills && b.signals == a.signals
              && b.shutdown == a.shutdown
    ensures Later(a, b)
  {
  }

  /** An attempt is logged first, then at most one child is added. */
  lemma Attempted(a: Snapshot, admitted: Snapshot, b: Snapshot, origin: nat)
    requires !a.quiescing && origin in a.logs && a.clock <= admitted.clock
    requires admitted == a.(logs := a.logs[origin := a.logs[origin] + [admitted.clock]], clock := admitted.clock)
    requires b == admitted.(records := b.records, nextId := b.nextId) && a.nextId <= b.nextId
    requires b.records == a.records
              || (a.nextId !in a.records && a.nextId in b.records
                    && b.records == a.records[a.nextId := b.records[a.nextId]])
    ensures Later(a, b)
  {
    AttemptStep(a, b, origin, a.nextId);
  }

  /** No living child belongs to the lineage. */
  ghost predicate Orphaned(children: Children, records: map<nat, Record>, origin: nat) {
    forall id <- children :: id in records ==> records[id].origin != origin
  }

  predicate OwnedTarget(children: Children, target: Spawned) {
    target.id in children && children[target.id].spawned == target && children[target.id].options.sessionOwned
  }

  predicate NoneOwned(children: Children) { forall id <- children :: !children[id].options.sessionOwned }

  /** The grace period of a shutdown is over and its children were not killed yet. */
  predicate KillIsDue(shutdown: Option<Shutdown>, now: nat) {
    shutdown.Some? && !shutdown.value.killSent && now >= shutdown.value.startedAt + TERM_GRACE
  }

  function ShouldRestart(policy: RestartPolicy, success: bool): bool {
    match policy
    case Never => false
    case OnFailure => !success
    case CriticalSessionComponent => true
  }

  /** A critical component is always worth a restart, others that ask for it only after a failure. */
  predicate Deserves(policy: RestartPolicy, success: bool) {
    policy.CriticalSessionComponent? || (policy.OnFailure? && !success)
  }

  lemma PolicyIs(policy: RestartPolicy, success: bool)
    ensures ShouldRestart(policy, success) <==> Deserves(policy, success)
  {
  }

  /** A restart is to be considered at all. */
  predicate Eligible(quiescing: bool, pending: Option<Termination>, child: ManagedChild, success: bool) {
    !quiescing && pending.None? && Deserves(child.options.policy, success) && child.restartable
  }

  // ----- reads of the signal descriptor -----

  datatype Read = Delivered(number: int) | Interrupted | WouldBlock | EndOfFile | Short | Broken

  function FromRaw(number: int): Option<Termination> {
    match number
    case 1 => Some(Hangup)
    case 2 => Some(Interrupt)
    case 3 => Some(Quit)
    case 15 => Some(Terminate)
    case _ => None
  }

  predicate Stops(read: Read) { !read.Delivered? && !read.Interrupted? }

  /** The termination requests read before the drain stops, in order. */
  function Requests(script: seq<Read>): seq<Termination>
    decreases |script|
  {
    if script == [] || Stops(script[0]) then []
    else
      (if script[0].Delivered? && FromRaw(script[0].number).Some? then [FromRaw(script[0].number).value] else []) + Requests(script[1..])
  }

  /** The read that ends the drain; a drain that runs out of reads would block. */
  function LastRead(script: seq<Read>): Read
    decreases |script|
  {
    if script == [] then WouldBlock else if Stops(script[0]) then script[0] else LastRead(script[1..])
  }

  function FirstRequest(pending: Option<Termination>, requests: seq<Termination>): Option<Termination> {
    if pending.Some? || requests == [] then pending else Some(requests[0])
  }

  /** The number under which the system delivers a request. */
  function NumberOf(request: Termination): int {
    match request
    case Hangup => 1
    case Interrupt => 2
    case Quit => 3
    case Terminate => 15
  }

  predicate Asks(read: Read) { read.Delivered? && read.number in {1, 2, 3, 15} }

  /** The drain reaches the read at `k`, and no read before it is a request. */
  predicate ReachesFirst(script: seq<Read>, k: nat) {
    k < |script| && forall j :: 0 <= j < k ==> !Stops(script[j]) && !Asks(script[j])
  }

  lemma {:induction false} FirstRequestIs(script: seq<Read>, k: nat, request: Termination)
    requires ReachesFirst(script, k) && script[k] == Delivered(NumberOf(request))
    ensures Requests(script) != [] && Requests(script)[0] == request
    decreases k
  {
    if k > 0 {
      assert forall j :: 0 <= j < k - 1 ==> script[1..][j] == script[j + 1];
      FirstRequestIs(script[1..], k - 1, request);
    }
  }

  lemma {:induction false} NothingAsked(script: seq<Read>)
    requires forall read <- script :: !Asks(read)
    ensures Requests(script) == []
    decreases |script|
  {
    if script != [] {
      assert !Asks(script[0]);
      NothingAsked(script[1..]);
    }
  }

  lemma RequestsAre(script: seq<Read>)
    ensures forall k: nat, request :: ReachesFirst(script, k) && script[k] == Delivered(NumberOf(request)) ==>
              Requests(script) != [] && Requests(script)[0] == request
    ensures (forall read <- script :: !Asks(read)) ==> Requests(script) == []
  {
    forall k: nat, request | ReachesFirst(script, k) && script[k] == Delivered(NumberOf(request))
      ensures Requests(script) != [] && Requests(script)[0] == request
    {
      FirstRequestIs(script, k, request);
    }
    if forall read <- script :: !Asks(read) { NothingAsked(script); }
  }

  // ----- table updates -----

  ghost function Emptied(logs: map<nat, seq<nat>>): map<nat, seq<nat>> { map origin | origin in logs :: [] }

  lemma GuardResets(children: Children, records: map<nat, Record>, logs: map<nat, seq<nat>>, guard: Guard,
                    guard': Guard, clock: nat)
    requires Limited(children, records, logs, guard, clock)
    ensures Limited(children, records, Emptied(logs), guard', clock)
  {
  }

  /** The next id has never been used. */
  lemma NextIdIsNew(children: Children, records: map<nat, Record>, nextId: nat)
    requires OnRecord(children, records, nextId)
    ensures nextId !in records && nextId !in children && OnRecord(children, records, nextId + 1)
  {
  }

  lemma InsertionKeepsGroups(children: Children, child: ManagedChild)
    requires GroupsOwned(children) && (child.spawned.pgid.Some? ==> child.options.sessionOwned)
    ensures GroupsOwned(children[child.spawned.id := child])
  {
  }

  lemma InsertionExtends(records: map<nat, Record>, id: nat, record: Record)
    requires id !in records
    ensures Extends(records, records[id := record])
  {
  }

  lemma RemovalKeepsTables(children: Children, pidToId: map<nat, nat>, id: nat)
    requires Inverse(children, pidToId) && id in children
    ensures Inverse(children - {id}, pidToId - {children[id].spawned.pid})
  {
  }

  lemma InsertionKeepsTables(children: Children, pidToId: map<nat, nat>, child: ManagedChild)
    requires Inverse(children, pidToId) && child.spawned.id !in children && child.spawned.pid !in pidToId
    ensures Inverse(children[child.spawned.id := child], pidToId[child.spawned.pid := child.spawned.id])
  {
  }

  lemma InsertionKeepsRecords(children: Children, records: map<nat, Record>, nextId: nat, child: ManagedChild,
                              origin: nat)
    requires OnRecord(children, records, nextId) && child.spawned.id == nextId && Orphaned(children, records, origin)
    ensures OnRecord(children[nextId := child], records[nextId := Record(child.options, origin)], nextId + 1)
  {
  }

  lemma InsertionKeepsLimits(children: Children, records: map<nat, Record>, logs: map<nat, seq<nat>>, guard: Guard,
                             clock: nat, id: nat, child: ManagedChild, origin: nat)
    requires Limited(children, records, logs, guard, clock) && id !in records && origin in logs
    requires Tracks(child.history, logs[origin], guard.window, clock)
    ensures Limited(children[id := child], records[id := Record(child.options, origin)], logs, guard, clock)
  {
  }

  lemma RemovalKeepsRest(children: Children, records: map<nat, Record>, nextId: nat, logs: map<nat, seq<nat>>,
                         guard: Guard, clock: nat, id: nat)
    requires GroupsOwned(children) && OnRecord(children, records, nextId)
              && Limited(children, records, logs, guard, clock) && id in children
    ensures GroupsOwned(children - {id}) && OnRecord(children - {id}, records, nextId)
              && Limited(children - {id}, records, logs, guard, clock)
    ensures id in records && records[id].options == children[id].options && records[id].origin in logs
    ensures Orphaned(children - {id}, records, records[id].origin)
    ensures Tracks(children[id].history, logs[records[id].origin], guard.window, clock)
  {
  }

  lemma ClockKeeps(children: Children, records: map<nat, Record>, logs: map<nat, seq<nat>>, guard: Guard, clock: nat,
                   now: nat)
    requires Limited(children, records, logs, guard, clock) && clock <= now
    ensures Limited(children, records, logs, guard, now)
  {
    hide Tracks;
    forall id <- children ensures Tracks(children[id].history, logs[records[id].origin], guard.window, now) {
      TimePasses(children[id].history, logs[records[id].origin], guard.window, clock, now);
    }
  }

  lemma LogReplaced(children: Children, records: map<nat, Record>, logs: map<nat, seq<nat>>, guard: Guard, now: nat,
                    origin: nat, log: seq<nat>)
    requires Limited(children, records, logs, guard, now)
    requires origin in logs && Orphaned(children, records, origin) && Spaced(log, guard)
    ensures Limited(children, records, logs[origin := log], guard, now)
  {
    hide Tracks, Spaced;
  }

  lemma AttemptIsLimited(children: Children, records: map<nat, Record>, logs: map<nat, seq<nat>>, guard: Guard,
                         clock: nat, now: nat,
                         origin: nat, history: seq<nat>)
    requires Limited(children, records, logs, guard, clock) && clock <= now
    requires origin in logs && Orphaned(children, records, origin) && Tracks(history, logs[origin], guard.window, clock)
    requires |Pruned(history, now, guard.window)| < guard.max
    ensures Limited(children, records, logs[origin := logs[origin] + [now]], guard, now)
    ensures Tracks(Pruned(history, now, guard.window) + [now], logs[origin] + [now], guard.window, now)
  {
    hide Tracks, Spaced, Pruned;
    assert Spaced(logs[origin], guard);
    hide Limited, Orphaned;
    ClockKeeps(children, records, logs, guard, clock, now);
    AttemptKeeps(history, logs[origin], guard, clock, now);
    LogReplaced(children, records, logs, guard, now, origin, logs[origin] + [now]);
  }

  lemma ExtendsItself(records: map<nat, Record>)
    ensures Extends(records, records)
  {
  }

  predicate Reported(exits: seq<Exit>, id: nat) { exists k :: 0 <= k < |exits| && exits[k].child.id == id }

  /** The exits reported by a reap: children it found, each once. */
  ghost predicate Report(exits: seq<Exit>, before: Children, after: Children, nextId: nat) {
    && (forall k :: 0 <= k < |exits| ==>
          exits[k].child.id in before && exits[k].child == before[exits[k].child.id].spawned
                                         && exits[k].child.id !in after)
    && (forall i, j :: 0 <= i < j < |exits| ==> exits[i].child.id != exits[j].child.id)
    && (forall id <- before :: id in after || Reported(exits, id))
    && (forall id <- after ::
          if id < nextId then id in before && after[id] == before[id] else RestartOf(exits, before, after[id]))
  }

  /** A child that was not there before is the restart of a reported one, with its options. */
  ghost predicate RestartOf(exits: seq<Exit>, before: Children, child: ManagedChild) {
    exists k :: 0 <= k < |exits| && Restarts(exits[k], before, child)
  }

  predicate Restarts(e: Exit, before: Children, child: ManagedChild) {
    && e.child.id in before && e.restarted == Some(child.spawned) && child.options == before[e.child.id].options
    && Deserves(child.options.policy, e.success) && before[e.child.id].restartable && child.restartable
  }

  predicate NoneRestarted(exits: seq<Exit>) { forall k :: 0 <= k < |exits| ==> exits[k].restarted.None? }

  // ----- a round of signals -----

  /**
   In the course of a round: of the session-owned children those not in `ids`
   were signalled, each once, and nobody else.
   */
  ghost predicate Round(children: Children, ids: set<nat>, batch: seq<Sent>, signal: Signal) {
    && (forall s <- batch :: s.signal == signal && OwnedTarget(children, s.target) && s.target.id !in ids)
    && (forall i, j :: 0 <= i < j < |batch| ==> batch[i].target.id != batch[j].target.id)
    && (forall id <- children :: id !in ids && children[id].options.sessionOwned ==>
          Sent(children[id].spawned, signal) in batch)
  }

  /** Of the session-owned children those not in `ids` have ended. */
  ghost predicate Struck(children: Children, ids: set<nat>, exited: map<nat, bool>) {
    forall id <- children :: id !in ids && children[id].options.sessionOwned ==> children[id].spawned.pid in exited
  }

  lemma RoundStarts(children: Children, signal: Signal)
    ensures Round(children, children.Keys, [], signal)
  {
  }

  lemma RoundStep(children: Children, pidToId: map<nat, nat>, ids: set<nat>, batch: seq<Sent>, signal: Signal, id: nat)
    requires Inverse(children, pidToId) && Round(children, ids, batch, signal) && id in ids && id in children
    ensures var owned := children[id].options.sessionOwned;
            Round(children, ids - {id}, if owned then batch + [Sent(children[id].spawned, signal)] else batch, signal)
  {
  }

  lemma RoundEnds(children: Children, ids: set<nat>, batch: seq<Sent>, signal: Signal)
    requires Round(children, ids, batch, signal)
    ensures forall s <- batch :: s.signal == signal && OwnedTarget(children, s.target)
    ensures forall i, j :: 0 <= i < j < |batch| ==> batch[i].target.id != batch[j].target.id
    ensures ids == {} ==>
              forall id <- children :: children[id].options.sessionOwned ==> Sent(children[id].spawned, signal) in batch
  {
  }

  // ----- no exit is missed -----

  /** The exits tell of `id`, with the status it ended with. */
  predicate ReportedAs(exits: seq<Exit>, id: nat, success: bool) {
    exists k :: 0 <= k < |exits| && exits[k].child.id == id && exits[k].success == success
  }

  /** Every child that had ended is reported. */
  ghost predicate AllReported(exits: seq<Exit>, before: Children, exited: map<nat, bool>) {
    forall id <- before :: before[id].spawned.pid in exited ==> ReportedAs(exits, id, exited[before[id].spawned.pid])
  }

  function With(exits: seq<Exit>,
                reaped: Option<Exit>): seq<Exit> { if reaped.Some? then exits + [reaped.value] else exits }

  /** In the course of a reap: what has been waited for is reported, and what has not can still be waited for. */
  ghost predicate Owed(exits: seq<Exit>, ids: set<nat>, before: Children, was: map<nat, bool>, exited: map<nat, bool>) {
    && (forall id <- before :: id in ids && before[id].spawned.pid in was ==>
          before[id].spawned.pid in exited && exited[before[id].spawned.pid] == was[before[id].spawned.pid])
    && (forall id <- before :: id !in ids && before[id].spawned.pid in was ==>
          ReportedAs(exits, id, was[before[id].spawned.pid]))
  }

  /** What was left to wait for, but for one process, still is. */
  ghost predicate Spared(was: map<nat, bool>, exited: map<nat, bool>, pid: nat) {
    forall p <- was :: p != pid ==> p in exited && exited[p] == was[p]
  }

  lemma OwedStep(sure: bool, exits: seq<Exit>, ids: set<nat>, before: Children, pidToId: map<nat, nat>, was: map<nat,
                 bool>,
                 middle: map<nat, bool>, exited: map<nat, bool>, id: nat, reaped: Option<Exit>)
    requires Inverse(before, pidToId) && id in ids && id in before && (sure ==> Owed(exits, ids, before, was, middle))
    requires Spared(middle, exited, before[id].spawned.pid)
    requires reaped.Some? ==> reaped.value.child.id == id
    requires sure && before[id].spawned.pid in middle ==>
              reaped.Some? && reaped.value.success == middle[before[id].spawned.pid]
    ensures sure ==> Owed(With(exits, reaped), ids - {id}, before, was, exited)
  {
    if sure {
      var exits' := With(exits, reaped);
      forall other <- before | other !in ids - {id} && before[other].spawned.pid in was
        ensures ReportedAs(exits', other, was[before[other].spawned.pid])
      {
        if other == id {
          assert exits'[|exits|] == reaped.value;
        } else {
          var k :| 0 <= k < |exits| && exits[k].child.id == other && exits[k].success == was[before[other].spawned.pid];
          assert exits'[k] == exits[k];
        }
      }
      forall other <- before | other in ids - {id} && before[other].spawned.pid in was
        ensures before[other].spawned.pid in exited
                  && exited[before[other].spawned.pid] == was[before[other].spawned.pid]
      {
        assert before[other].spawned.pid != before[id].spawned.pid;
      }
    }
  }

  /** Children that had ended are gone after a reap; while quiescing nothing takes their place. */
  lemma EndedAreGone(exits: seq<Exit>, before: Children, after: Children, nextId: nat, exited: map<nat, bool>)
    requires Report(exits, before, after, nextId) && AllReported(exits, before, exited)
    ensures forall id <- before :: before[id].spawned.pid in exited ==> id !in after
  {
  }

  lemma NoneOwnedLeft(before: Children, after: Children, exited: map<nat, bool>)
    requires forall id <- before :: before[id].spawned.pid in exited ==> id !in after
    requires forall id <- after :: id in before && after[id] == before[id]
    requires forall id <- before :: before[id].options.sessionOwned ==> before[id].spawned.pid in exited
    ensures NoneOwned(after)
  {
  }

  /** A number that no process has. */
  function Unused(used: set<nat>, from: nat): (pid: nat)
    ensures pid !in used && pid >= from
    decreases |used|
  {
    if from !in used then from else Unused(used - {from}, from + 1)
  }

  datatype WaitResult = Refused | Running | Ended(success: bool)

  /** Such a child can be started. */
  predicate Spawnable(options: Options,
                      nextId: nat) { (options.dedicated ==> options.sessionOwned) && nextId < MAX_U64 }

  /** What reaping one child does to the table. */
  ghost predicate Reaped(e: Exit, middle: Children, after: Children, nextId: nat) {
    && e.child.id in middle && middle[e.child.id].spawned == e.child && e.child.id < nextId
    && match e.restarted
       case None => after == middle - {e.child.id}
       case Some(spawned) =>
         && nextId <= spawned.id && spawned.id !in middle && spawned.id in after
         && after == (middle - {e.child.id})[spawned.id := after[spawned.id]]
         && after[spawned.id].spawned == spawned && after[spawned.id].options == middle[e.child.id].options
         && after[spawned.id].restartable && middle[e.child.id].restartable
         && Deserves(middle[e.child.id].options.policy, e.success)
  }

  lemma ReportExtends(exits: seq<Exit>, before: Children, middle: Children, after: Children, nextId: nat, e: Exit)
    requires Report(exits, before, middle, nextId) && (forall id <- before :: id < nextId)
              && Reaped(e, middle, after, nextId)
    ensures Report(exits + [e], before, after, nextId)
  {
    hide Deserves;
    var exits' := exits + [e];
    assert middle[e.child.id] == before[e.child.id];
    forall id <- before ensures id in after || Reported(exits', id) {
      if id == e.child.id { assert exits'[|exits|].child.id == id; }
      else if id !in middle { ReportedStays(exits, e, id); }
    }
    forall id <- after | id >= nextId ensures RestartOf(exits', before, after[id]) {
      if e.restarted.Some? && id == e.restarted.value.id {
        assert exits'[|exits|] == e;
      } else {
        RestartStays(exits, e, before, middle[id]);
      }
    }
  }

  lemma ReportedStays(exits: seq<Exit>, e: Exit, id: nat)
    requires Reported(exits, id)
    ensures Reported(exits + [e], id)
  {
    var k :| 0 <= k < |exits| && exits[k].child.id == id;
    assert (exits + [e])[k] == exits[k];
  }

  lemma RestartStays(exits: seq<Exit>, e: Exit, before: Children, child: ManagedChild)
    requires RestartOf(exits, before, child)
    ensures RestartOf(exits + [e], before, child)
  {
    var k :| 0 <= k < |exits| && Restarts(exits[k], before, child);
    assert (exits + [e])[k] == exits[k];
  }

  class ChildSupervisor {
    var children: Children
    var pidToId: map<nat, nat>
    var nextId: nat
    var guard: Guard
    var suppressions: nat
    var quiescing: bool
    var shutdown: Option<Shutdown>
    var pending: Option<Termination>
    var clock: nat
    var exited: map<nat, bool>    // processes that ended and were not waited for, and whether they succeeded
    const hasSignalFd: bool
    const reliable: bool
    const prompt: bool
    ghost var refused: nat        // signals, waits and reads that failed
    ghost var unstarted: nat      // commands, processes and groups that could not be had
    ghost var records: map<nat, Record>
    ghost var logs: map<nat, seq<nat>>
    ghost var signals: seq<Sent>
    ghost var kills: seq<nat>
    ghost var epoch: nat

    ghost function Snap(): Snapshot
      reads this
    {
      Snapshot(records, logs, guard, epoch, kills, signals, quiescing, shutdown, nextId, clock)
    }

    ghost predicate Valid()
      reads this
    {
      && Inverse(children, pidToId)
      && GroupsOwned(children)
      && OnRecord(children, records, nextId)
      && Limited(children, records, logs, guard, clock)
      && OneKillBatch(shutdown, kills)
      && (pending.Some? || shutdown.Some? ==> quiescing)
    }

    constructor (hasSignalFd: bool, reliable: bool, prompt: bool)
      ensures Valid() && children == map[] && !quiescing && shutdown == None && pending == None && signals == []
      ensures guard == Guard(3, 30_000_000_000)
      ensures this.hasSignalFd == hasSignalFd && this.reliable == reliable && this.prompt == prompt
    {
      this.hasSignalFd, this.reliable, this.prompt := hasSignalFd, reliable, prompt;
      exited, refused, unstarted := map[], 0, 0;
      children, pidToId, nextId := map[], map[], 1;
      guard, suppressions := Guard(3, 30_000_000_000), 0;
      quiescing, shutdown, pending, clock := false, None, None, 0;
      records, logs, signals, kills, epoch := map[], map[], [], [], 0;
    }

    /** The limit applies to the attempts made since it was set. */
    method SetRestartGuard(guard: Guard)
      requires Valid()
      modifies this`guard, this`logs, this`epoch
      ensures Valid() && this.guard == guard && logs == Emptied(old(logs)) && epoch == old(epoch) + 1
      ensures Later(old(Snap()), Snap())
    {
      hide Inverse, GroupsOwned, OnRecord, Limited, OneKillBatch;
      GuardResets(children, records, logs, this.guard, guard, clock);
      this.guard, epoch := guard, epoch + 1;
      logs := Emptied(logs);
      ExtendsItself(records);
    }

    /** The first termination request since the last call. */
    method TakeTerminationSignal() returns (r: Option<Termination>)
      requires Valid()
      modifies this`pending
      ensures Valid() && r == old(pending) && pending == None && Later(old(Snap()), Snap())
    {
      hide Inverse, GroupsOwned, OnRecord, Limited, OneKillBatch, Later;
      LaterItself(Snap());
      r := pending;
      pending := None;
    }

    // ----- the system -----

    /** fork and exec. */
    method Launch() returns (pid: Option<nat>)
      modifies this`unstarted
      ensures pid.Some? ==> pid.value !in pidToId && pid.value !in exited
      ensures reliable ==> pid.Some?
      ensures unstarted == if pid.Some? then old(unstarted) else old(unstarted) + 1
    {
      var started: bool, n: nat := *, *;
      if !started && !reliable {
        unstarted := unstarted + 1;
        return None;
      }
      pid := Some(Unused(pidToId.Keys + exited.Keys, n));
    }

    method GroupOf(pid: nat) returns (group: Option<int>)
      modifies this`unstarted
      ensures reliable ==> group.Some?
      ensures unstarted == if group.Some? then old(unstarted) else old(unstarted) + 1
    {
      var known: bool, n: int := *, *;
      if !known && !reliable {
        unstarted := unstarted + 1;
        return None;
      }
      group := Some(n);
    }

    /** What the restart factory gives. */
    method MakeCommand() returns (made: bool)
      modifies this`unstarted
      ensures reliable ==> made
      ensures unstarted == if made then old(unstarted) else old(unstarted) + 1
    {
      made := *;
      made := made || reliable;
      if !made {
        unstarted := unstarted + 1;
      }
    }

    /** waitpid without blocking; other processes may have ended in the meantime. */
    method Wait(pid: nat) returns (r: WaitResult)
      modifies this`exited, this`refused
      ensures refused == if r.Refused? then old(refused) + 1 else old(refused)
      ensures Spared(old(exited), exited, pid)
      ensures !r.Ended? && pid in old(exited) ==> pid in exited && exited[pid] == old(exited)[pid]
      ensures r.Ended? && pid in old(exited) ==> r.success == old(exited)[pid]
      ensures reliable ==> !r.Refused? && (pid in old(exited) ==> r.Ended?)
    {
      var more: map<nat, bool>, asked: bool := *, *;
      exited := more + exited;
      if !asked && !reliable {
        refused := refused + 1;
        return Refused;
      }
      if pid !in exited {
        return Running;
      }
      r := Ended(exited[pid]);
      exited := exited - {pid};
    }

    method ReadSignals() returns (script: seq<Read>)
      ensures reliable ==> LastRead(script).WouldBlock?
    {
      script := *;
      if reliable && !LastRead(script).WouldBlock? {
        script := [];
      }
    }

    /** Sends a signal to a process or its group; the system may refuse. */
    method Send(target: Spawned, signal: Signal) returns (ok: bool)
      modifies this`signals, this`refused, this`exited
      ensures signals == old(signals) + [Sent(target, signal)]
      ensures refused == if ok then old(refused) else old(refused) + 1
      ensures reliable ==> ok
      ensures exited == if ok && prompt && signal.Kill?
                && target.pid !in old(exited) then old(exited)[target.pid := false]
                        else old(exited)
    {
      signals := signals + [Sent(target, signal)];
      ok := *;
      ok := ok || reliable;
      if !ok {
        refused := refused + 1;
      } else if prompt && signal.Kill? && target.pid !in exited {
        exited := exited[target.pid := false];
      }
    }

    // ----- children -----

    /**
     Registers a new child under the next id, or changes no table.  Dedicated
     groups are refused to children the session does not own.
     */
    method SpawnChild(options: Options, restartable: bool, history: seq<nat>,
                      ghost lineage: Option<nat>) returns (r: Result<Spawned, Error>)
      requires Valid()
      requires lineage.None? ==> history == []
      requires lineage.Some? ==> && lineage.value in logs && Orphaned(children, records, lineage.value)
                                 && Tracks(history, logs[lineage.value], guard.window, clock)
      modifies this`children, this`pidToId, this`nextId, this`records, this`logs, this`unstarted
      ensures Valid() && Extends(old(records), records)
      ensures old(nextId) <= nextId <= old(nextId) + 1
      ensures r.Err? ==>
                children == old(children) && pidToId == old(pidToId) && records == old(records) && logs == old(logs)
      ensures r.Ok? ==> && r.value.id == old(nextId) && nextId == old(nextId) + 1 && r.value.pid !in old(pidToId)
                        && children == old(children)[r.value.id := ManagedChild(r.value, options, restartable, history)]
                        && pidToId == old(pidToId)[r.value.pid := r.value.id]
                        && (r.value.pgid.Some? <==> options.dedicated)
                        && r.value.id in records && records[r.value.id].options == options
                        && r.value.id !in old(records) && records == old(records)[r.value.id := records[r.value.id]]
      ensures r.Ok? && lineage.Some? ==> logs == old(logs) && records[r.value.id].origin == lineage.value
      ensures r.Ok? && lineage.None? ==> logs == old(logs)[r.value.id := []] && records[r.value.id].origin == r.value.id
      ensures r == Err(DedicatedNotOwned) <==> options.dedicated && !options.sessionOwned
      ensures r == Err(IdsExhausted) <==> (options.dedicated ==> options.sessionOwned) && old(nextId) >= MAX_U64
      ensures r.Ok? <==> Spawnable(options, old(nextId)) && unstarted == old(unstarted)
      ensures reliable ==> unstarted == old(unstarted)
      ensures lineage.None? ==> Later(old(Snap()), Snap())
    {
      hide Inverse, GroupsOwned, OnRecord, Limited, Orphaned, Tracks, OneKillBatch, Later;
      ghost var before := Snap();
      QuietStep(before, before);
      QuietStep(before, before.(nextId := nextId + 1));
      NextIdIsNew(children, records, nextId);
      if options.dedicated && !options.sessionOwned {
        return Err(DedicatedNotOwned);
      }
      var id := nextId;
      if nextId >= MAX_U64 {
        return Err(IdsExhausted);
      }
      nextId := nextId + 1;
      r := Start(options, id);
      if r.Ok? {
        Register(ManagedChild(r.value, options, restartable, history), lineage);
        if lineage.None? { FreshStep(before, id, Record(options, id)); }
      }
    }

    /** Starts the process; a dedicated group must be known. */
    method Start(options: Options, id: nat) returns (r: Result<Spawned, Error>)
      modifies this`unstarted
      ensures r.Ok? <==> unstarted == old(unstarted)
      ensures r.Err? ==> r.error in {SpawnFailed, GroupUnknown}
      ensures r.Ok? ==> r.value.id == id && r.value.pid !in pidToId && (r.value.pgid.Some? <==> options.dedicated)
      ensures reliable ==> r.Ok?
    {
      var pid := Launch();
      if pid.None? {
        return Err(SpawnFailed);
      }
      var pgid := None;
      if options.dedicated {
        pgid := GroupOf(pid.value);
        if pgid.None? {
          return Err(GroupUnknown);
        }
      }
      r := Ok(Spawned(id, pid.value, pgid));
    }

    method Register(child: ManagedChild, ghost lineage: Option<nat>)
      requires nextId > 0 && child.spawned.id == nextId - 1 && child.spawned.pid !in pidToId
      requires child.spawned.pgid.Some? ==> child.options.sessionOwned
      requires Inverse(children, pidToId) && GroupsOwned(children) && OnRecord(children, records, nextId - 1)
      requires Limited(children, records, logs, guard, clock)
      requires lineage.None? ==> child.history == []
      requires lineage.Some? ==> && lineage.value in logs && Orphaned(children, records, lineage.value)
                                 && Tracks(child.history, logs[lineage.value], guard.window, clock)
      modifies this`children, this`pidToId, this`records, this`logs
      ensures Inverse(children, pidToId) && GroupsOwned(children) && OnRecord(children, records, nextId)
      ensures Limited(children, records, logs, guard, clock) && Extends(old(records), records)
                && child.spawned.id !in old(records)
      ensures children == old(children)[child.spawned.id := child]
                && pidToId == old(pidToId)[child.spawned.pid := child.spawned.id]
      ensures lineage.Some? ==>
                logs == old(logs) && records == old(records)[child.spawned.id := Record(child.options, lineage.value)]
      ensures lineage.None? ==> child.spawned.id !in old(logs) && logs == old(logs)[child.spawned.id := []]
                                && records == old(records)[child.spawned.id := Record(child.options, child.spawned.id)]
    {
      hide Inverse, GroupsOwned, OnRecord, Limited, Orphaned, Extends, Tracks;
      ghost var id := child.spawned.id;
      NextIdIsNew(children, records, id);
      InsertionKeepsGroups(children, child);
      ghost var origin := if lineage.Some? then lineage.value else id;
      InsertionKeepsTables(children, pidToId, child);
      if lineage.None? {
        NewLineage(children, records, logs, guard, clock, id, child);
        logs := logs[id := []];
      } else {
        InsertionKeepsLimits(children, records, logs, guard, clock, id, child, origin);
      }
      InsertionKeepsRecords(children, records, nextId - 1, child, origin);
      InsertionExtends(records, id, Record(child.options, origin));
      children := children[child.spawned.id := child];
      pidToId := pidToId[child.spawned.pid := child.spawned.id];
      records := records[id := Record(child.options, origin)];
    }

    method Spawn(options: Options) returns (r: Result<Spawned, Error>)
      requires Valid()
      modifies this`children, this`pidToId, this`nextId, this`records, this`logs, this`unstarted
      ensures Valid() && Extends(old(records), records) && Later(old(Snap()), Snap())
      ensures r.Err? ==> children == old(children) && pidToId == old(pidToId) && logs == old(logs)
      ensures r.Ok? ==> && r.value.id == old(nextId) && r.value.id !in old(records) && r.value.id in records
                        && children == old(children)[r.value.id := ManagedChild(r.value, options, false, [])]
                        && records[r.value.id].options == options
      ensures r.Ok? <==> Spawnable(options, old(nextId)) && unstarted == old(unstarted)
      ensures reliable ==> unstarted == old(unstarted)
    {
      hide Inverse, GroupsOwned, OnRecord, Limited, OneKillBatch, Extends, Later;
      NextIdIsNew(children, records, nextId);
      r := SpawnChild(options, false, [], None);
    }

    method SpawnRestartable(options: Options) returns (r: Result<Spawned, Error>)
      requires Valid()
      modifies this`children, this`pidToId, this`nextId, this`records, this`logs, this`unstarted
      ensures Valid() && Extends(old(records), records) && Later(old(Snap()), Snap())
      ensures r.Err? ==> children == old(children) && pidToId == old(pidToId) && logs == old(logs)
      ensures r.Ok? ==> && r.value.id == old(nextId) && r.value.id !in old(records)
                        && children == old(children)[r.value.id := ManagedChild(r.value, options, true, [])]
      ensures r.Ok? <==> Spawnable(options, old(nextId)) && unstarted == old(unstarted)
      ensures reliable ==> unstarted == old(unstarted)
    {
      hide Inverse, GroupsOwned, OnRecord, Limited, OneKillBatch, Later;
      LaterItself(Snap());
      NextIdIsNew(children, records, nextId);
      var made := MakeCommand();
      if !made {
        return Err(SpawnFailed);
      }
      r := SpawnChild(options, true, [], None);
    }

    /** Reads the monotone clock. */
    method Now() returns (now: nat)
      requires Valid()
      modifies this`clock
      ensures Valid() && old(clock) <= clock == now
    {
      hide Inverse, GroupsOwned, OnRecord, Limited, OneKillBatch;
      var passed: int := *;
      passed := if passed < 0 then 0 else passed;
      ClockKeeps(children, records, logs, guard, clock, clock + passed);
      clock := clock + passed;
      now := clock;
    }

    /** Asks the limiter; an admitted attempt is logged at once. */
    method Admit(history: seq<nat>, ghost origin: nat) returns (r: Option<seq<nat>>)
      requires Valid()
      requires origin in logs && Orphaned(children, records, origin)
                && Tracks(history, logs[origin], guard.window, clock)
      modifies this`logs, this`suppressions, this`clock
      ensures Valid() && old(clock) <= clock && origin in logs
      ensures r.Some? <==> |Pruned(history, clock, guard.window)| < guard.max
      ensures r.Some? ==> && r.value == Pruned(history, clock, guard.window) + [clock]
                          && logs == old(logs)[origin := old(logs)[origin] + [clock]]
                          && suppressions == old(suppressions)
                          && Tracks(r.value, logs[origin], guard.window, clock)
      ensures r.None? ==> logs == old(logs) && suppressions == Increment(old(suppressions))
      // a decision about the lineage: refused exactly while its last max attempts are all within the window
      ensures 0 < guard.max <= |old(logs)[origin]| ==> (r.None? <==> WindowIsFull(old(logs)[origin], guard, clock))
    {
      hide WindowIsFull, Inverse, GroupsOwned, OnRecord, Limited, OneKillBatch, Orphaned, Tracks, Pruned;
      ghost var before := clock;
      var now := Now();
      var kept := Prune(history, now, guard.window);
      if 0 < guard.max <= |logs[origin]| { RefusalIsDue(history, logs[origin], guard, before, now); }
      if |kept| >= guard.max {
        suppressions := Increment(suppressions);
        return None;
      }
      AttemptIsLimited(children, records, logs, guard, before, now, origin, history);
      logs := logs[origin := logs[origin] + [now]];
      r := Some(kept + [now]);
    }

    /**
     Restarts an exited child unless the supervisor is quiescing, the policy or
     a missing factory forbids it, or the limiter refuses.  Every admitted
     attempt is logged, whether or not its spawn succeeds.
     */
    method MaybeRestart(child: ManagedChild, success: bool, ghost origin: nat)
      returns (r: Option<Spawned>, ghost attempted: bool)
      requires Valid()
      requires origin in logs && Orphaned(children, records, origin)
                && Tracks(child.history, logs[origin], guard.window, clock)
      modifies this`children, this`pidToId, this`nextId, this`records, this`logs, this`suppressions, this`clock,
               this`unstarted
      ensures Valid() && old(nextId) <= nextId && old(clock) <= clock
      ensures attempted <==> && Eligible(quiescing, pending, child, success)
                             && |Pruned(child.history, clock, guard.window)| < guard.max
      ensures logs == if attempted then old(logs)[origin := old(logs)[origin] + [clock]] else old(logs)
      ensures !attempted ==> r.None? && nextId == old(nextId)
      ensures r.None? ==> children == old(children) && pidToId == old(pidToId)
      ensures r.Some? ==> && attempted && r.value.id == old(nextId)
                          && children == old(children)[r.value.id := ManagedChild(r.value, child.options, true,
                                                         Pruned(child.history, clock, guard.window) + [clock])]
      ensures suppressions ==
                if Eligible(quiescing, pending, child, success) && r.None? then Increment(old(suppressions)) else old(suppressions)
      ensures attempted ==> (r.Some? <==> Spawnable(child.options, old(nextId)) && unstarted == old(unstarted))
      ensures reliable || !attempted ==> unstarted == old(unstarted)
      ensures Later(old(Snap()), Snap())
    {
      PolicyIs(child.options.policy, success);
      hide Inverse, GroupsOwned, OnRecord, Limited, OneKillBatch, Orphaned, Tracks, Pruned, Extends, ShouldRestart;
      hide Deserves, LogsGrow, Later, WindowIsFull, Increment, Spawnable;
      LaterItself(Snap());
      if quiescing || pending.Some? || !ShouldRestart(child.options.policy, success) || !child.restartable {
        return None, false;
      }
      r, attempted := AttemptRestart(child, origin);
    }

    /** Asks the limiter, and restarts if it admits. */
    method AttemptRestart(child: ManagedChild, ghost origin: nat) returns (r: Option<Spawned>, ghost attempted: bool)
      requires Valid() && !quiescing
      requires origin in logs && Orphaned(children, records, origin)
                && Tracks(child.history, logs[origin], guard.window, clock)
      modifies this`children, this`pidToId, this`nextId, this`records, this`logs, this`suppressions, this`clock,
               this`unstarted
      ensures Valid() && old(nextId) <= nextId && old(clock) <= clock
      ensures attempted <==> |Pruned(child.history, clock, guard.window)| < guard.max
      ensures logs == if attempted then old(logs)[origin := old(logs)[origin] + [clock]] else old(logs)
      ensures !attempted ==> r.None? && nextId == old(nextId) && unstarted == old(unstarted)
      ensures r.None? ==> children == old(children) && pidToId == old(pidToId)
      ensures r.Some? ==> && attempted && r.value.id == old(nextId)
                          && children == old(children)[r.value.id := ManagedChild(r.value, child.options, true,
                                                         Pruned(child.history, clock, guard.window) + [clock])]
      ensures suppressions == if r.None? then Increment(old(suppressions)) else old(suppressions)
      ensures attempted ==> (r.Some? <==> Spawnable(child.options, old(nextId)) && unstarted == old(unstarted))
      ensures reliable ==> unstarted == old(unstarted)
      ensures Later(old(Snap()), Snap())
    {
      hide Inverse, GroupsOwned, OnRecord, Limited, OneKillBatch, Orphaned, Tracks, Pruned, Extends;
      hide LogsGrow, Later, WindowIsFull, Increment, Spawnable;
      ghost var before := Snap();
      var history := Admit(child.history, origin);
      if history.None? {
        QuietStep(before, Snap());
        return None, false;
      }
      attempted := true;
      ghost var admitted := Snap();
      r := Relaunch(child.options, history.value, origin);
      Attempted(before, admitted, Snap(), origin);
    }

    /** An admitted attempt: the factory and the spawn may each fail. */
    method Relaunch(options: Options, history: seq<nat>, ghost origin: nat) returns (r: Option<Spawned>)
      requires Valid()
      requires origin in logs && Orphaned(children, records, origin)
                && Tracks(history, logs[origin], guard.window, clock)
      modifies this`children, this`pidToId, this`nextId, this`records, this`logs, this`suppressions,
               this`unstarted
      ensures Valid() && Extends(old(records), records) && old(nextId) <= nextId && logs == old(logs)
      ensures r.None? ==> children == old(children) && pidToId == old(pidToId) && records == old(records)
      ensures r.Some? ==> && r.value.id == old(nextId) && r.value.id in records && r.value.id !in old(records)
                          && records == old(records)[r.value.id := records[r.value.id]]
      ensures r.Some? ==> children == old(children)[r.value.id := ManagedChild(r.value, options, true, history)]
      ensures suppressions == if r.None? then Increment(old(suppressions)) else old(suppressions)
      ensures r.Some? <==> Spawnable(options, old(nextId)) && unstarted == old(unstarted)
      ensures reliable ==> unstarted == old(unstarted)
    {
      hide Inverse, GroupsOwned, OnRecord, Limited, OneKillBatch, Orphaned, Tracks;
      var made := MakeCommand();
      if !made {
        suppressions := Increment(suppressions);
        return None;
      }
      var spawned := SpawnChild(options, true, history, Some(origin));
      if spawned.Err? {
        suppressions := Increment(suppressions);
        return None;
      }
      r := Some(spawned.value);
    }

    /** Waits for one child without blocking; an exited child leaves both tables and may be restarted. */
    method ReapOne(id: nat) returns (r: Result<Option<Exit>, Error>)
      requires Valid() && id in children
      modifies this`children, this`pidToId, this`nextId, this`records, this`logs, this`suppressions, this`clock,
               this`exited, this`refused, this`unstarted
      ensures Valid() && old(nextId) <= nextId
                && old(clock) <= clock
      ensures Later(old(Snap()), Snap())
      ensures r.Err? || r.value.None? ==>
                children == old(children) && pidToId == old(pidToId) && nextId == old(nextId) && logs == old(logs)
      ensures r.Ok? && r.value.Some? ==>
                r.value.value.child.id == id && Reaped(r.value.value, old(children), children, old(nextId))
      ensures r.Ok? && r.value.Some? && quiescing ==>
                r.value.value.restarted.None? && nextId == old(nextId) && logs == old(logs)
      // an ended child is always found, with its status, and restarted if it is to be and can be
      ensures r.Err? ==> r.error == WaitFailed
      ensures refused == if r.Err? then old(refused) + 1 else old(refused)
      ensures reliable ==> r.Ok?
      ensures Spared(old(exited), exited, old(children)[id].spawned.pid)
      ensures reliable && old(children)[id].spawned.pid in old(exited) ==>
                r.value.Some? && r.value.value.success == old(exited)[old(children)[id].spawned.pid]
      ensures reliable && r.value.Some? && Eligible(quiescing, pending, old(children)[id], r.value.value.success)
                && |Pruned(old(children)[id].history, clock, guard.window)| < guard.max ==>
                (r.value.value.restarted.Some? <==> Spawnable(old(children)[id].options, old(nextId)))
    {
      hide Inverse, GroupsOwned, OnRecord, Limited, OneKillBatch, Pruned, Reaped, Later, Eligible, Spawnable, Spared;
      LaterItself(Snap());
      var status := Wait(children[id].spawned.pid);
      if status.Refused? {
        return Err(WaitFailed);
      }
      if status.Running? {
        return Ok(None);
      }
      var exit := Remove(id, status.success);
      r := Ok(Some(exit));
    }

    /** An ended child leaves both tables and may be restarted. */
    method Remove(id: nat, success: bool) returns (exit: Exit)
      requires Valid() && id in children
      modifies this`children, this`pidToId, this`nextId, this`records, this`logs, this`suppressions, this`clock,
               this`unstarted
      ensures Valid() && old(nextId) <= nextId && old(clock) <= clock && Later(old(Snap()), Snap())
      ensures exit.child.id == id && exit.success == success && Reaped(exit, old(children), children, old(nextId))
      ensures quiescing ==> exit.restarted.None? && nextId == old(nextId) && logs == old(logs)
      ensures reliable && Eligible(quiescing, pending, old(children)[id], success)
                && |Pruned(old(children)[id].history, clock, guard.window)| < guard.max ==>
                (exit.restarted.Some? <==> Spawnable(old(children)[id].options, old(nextId)))
    {
      hide Inverse, GroupsOwned, OnRecord, Limited, OneKillBatch, Orphaned, Tracks, Pruned, Extends, Deserves, Later;
      hide Spawnable;
      var child := children[id];
      IdsAreOld(children, pidToId, records, nextId, id);
      RemovalKeepsTables(children, pidToId, id);
      RemovalKeepsRest(children, records, nextId, logs, guard, clock, id);
      children := children - {id};
      pidToId := pidToId - {child.spawned.pid};
      var restarted, attempted := MaybeRestart(child, success, records[id].origin);
      exit := Exit(child.spawned, success, restarted);
    }

    /**
     Reaps every child that has exited.  Each child found on entry is still
     there unchanged or is reported exactly once; every other child is the
     restart of a reported one.  While quiescing nothing is restarted.
     */
    method ReapAfterPoll() returns (r: Result<seq<Exit>, Error>)
      requires Valid()
      modifies this`children, this`pidToId, this`nextId, this`records, this`logs, this`suppressions, this`clock,
               this`exited, this`refused, this`unstarted
      ensures Valid() && old(nextId) <= nextId
      ensures Later(old(Snap()), Snap())
      ensures r.Ok? ==> Report(r.value, old(children), children, old(nextId))
      ensures forall id <- children :: id < old(nextId) ==> id in old(children) && children[id] == old(children)[id]
      ensures quiescing ==> nextId == old(nextId) && logs == old(logs)
      ensures quiescing && r.Ok? ==> NoneRestarted(r.value)
      ensures r.Err? ==> r.error == WaitFailed
      ensures refused == if r.Err? then old(refused) + 1 else old(refused)
      ensures reliable ==> r.Ok? && AllReported(r.value, old(children), old(exited))
    {
      hide Inverse, GroupsOwned, OnRecord, Limited, OneKillBatch, Reaped, Report, Later, Reaping, AllReported, Spared;
      hide NoneRestarted;
      LaterItself(Snap());
      IdsBelow(children, records, nextId);
      ReapingStarts(children, nextId, exited);
      var exits: seq<Exit> := [];
      var ids := children.Keys;
      while ids != {}
        invariant ids <= children.Keys
        invariant Valid() && old(nextId) <= nextId && refused == old(refused)
        invariant Later(old(Snap()), Snap())
        invariant Reaping(exits, ids, old(children), children, old(nextId), reliable, old(exited), exited, quiescing)
        invariant quiescing ==> nextId == old(nextId) && logs == old(logs)
        decreases |ids|
      {
        var id :| id in ids;
        ghost var middle, bound, before, ended := children, nextId, Snap(), exited;
        var reaped := ReapOne(id);
        LaterTransitive(old(Snap()), before, Snap());
        if reaped.Err? {
          ReapingSpares(exits, ids, old(children), children, old(nextId), reliable, old(exited), ended, quiescing);
          return Err(reaped.error);
        }
        ReapingStep(exits, ids, old(children), old(pidToId), middle, children, old(nextId), bound, reliable, old(exited), ended, exited,
                    quiescing, id, reaped.value);
        ids := ids - {id};
        if reaped.value.Some? {
          exits := exits + [reaped.value.value];
        }
      }
      ReapingEnds(exits, old(children), children, old(nextId), reliable, old(exited), exited, quiescing);
      r := Ok(exits);
    }

    method BeginQuiesce()
      requires Valid()
      modifies this`quiescing
      ensures Valid() && quiescing && Later(old(Snap()), Snap())
    {
      hide Inverse, GroupsOwned, OnRecord, Limited, OneKillBatch, Later;
      QuietStep(Snap(), Snap().(quiescing := true));
      quiescing := true;
    }

    /**
     Drains the signal descriptor.  The first termination request stays pending
     until it is taken, and any request starts quiescing, however the drain
     ends.
     */
    method DrainSignals(script: seq<Read>) returns (r: Result<(), Error>)
      requires Valid()
      modifies this`pending, this`quiescing, this`refused
      ensures Valid() && Later(old(Snap()), Snap())
      ensures hasSignalFd ==> && pending == FirstRequest(old(pending), Requests(script))
                              && quiescing == (old(quiescing) || Requests(script) != [])
                              && (if LastRead(script).WouldBlock?
                                    || LastRead(script).EndOfFile? then r.Ok? else r == Err(ReadFailed))
      ensures !hasSignalFd ==> pending == old(pending) && quiescing == old(quiescing) && r.Ok?
      ensures refused == if r.Err? then old(refused) + 1 else old(refused)
      // by signal number
      ensures hasSignalFd ==>
                forall k: nat, request :: ReachesFirst(script, k) && script[k] == Delivered(NumberOf(request)) ==>
                  quiescing && (old(pending).None? ==> pending == Some(request))
      ensures (forall read <- script :: !Asks(read)) ==> pending == old(pending) && quiescing == old(quiescing)
    {
      hide Inverse, GroupsOwned, OnRecord, Limited, OneKillBatch, Later, ReachesFirst, Asks, NumberOf;
      RequestsAre(script);
      QuietStep(Snap(), Snap());
      QuietStep(Snap(), Snap().(quiescing := true));
      if !hasSignalFd {
        return Ok(());
      }
      var i := 0;
      while i < |script|
        invariant 0 <= i <= |script| && Valid() && (old(quiescing) ==> quiescing) && refused == old(refused)
        invariant FirstRequest(pending, Requests(script[i..])) == FirstRequest(old(pending), Requests(script))
        invariant (quiescing || Requests(script[i..]) != []) == (old(quiescing) || Requests(script) != [])
        invariant LastRead(script[i..]) == LastRead(script)
      {
        var read := script[i];
        assert script[i..][1..] == script[i + 1..];
        match read {
          case WouldBlock => return Ok(());
          case EndOfFile => return Ok(());
          case Short =>
            refused := refused + 1;
            return Err(ReadFailed);
          case Broken =>
            refused := refused + 1;
            return Err(ReadFailed);
          case Interrupted =>
          case Delivered(number) =>
            var request := FromRaw(number);
            if request.Some? {
              pending := if pending.Some? then pending else request;
              quiescing := true;
            }
        }
        i := i + 1;
      }
      r := Ok(());
    }

    /** Reads the pending signals, then reaps; a request read here already prevents restarts. */
    method ReapExited() returns (r: Result<seq<Exit>, Error>, ghost script: seq<Read>)
      requires Valid()
      modifies this`children, this`pidToId, this`nextId, this`records, this`logs, this`suppressions, this`clock,
               this`pending, this`quiescing, this`exited, this`refused, this`unstarted
      ensures Valid() && old(nextId) <= nextId
      ensures Later(old(Snap()), Snap())
      ensures old(quiescing) ==> quiescing
      ensures old(pending).Some? ==> pending == old(pending)
      ensures r.Ok? ==> Report(r.value, old(children), children, old(nextId))
      ensures forall id <- children :: id < old(nextId) ==> id in old(children) && children[id] == old(children)[id]
      ensures quiescing ==> nextId == old(nextId) && logs == old(logs)
      ensures quiescing && r.Ok? ==> NoneRestarted(r.value)
      ensures hasSignalFd ==> && pending == FirstRequest(old(pending), Requests(script))
                              && quiescing == (old(quiescing) || Requests(script) != [])
      ensures hasSignalFd && !LastRead(script).WouldBlock? && !LastRead(script).EndOfFile? ==>
                r == Err(ReadFailed) && children == old(children)
      ensures r.Err? ==> r.error in {ReadFailed, WaitFailed}
      ensures refused == if r.Err? then old(refused) + 1 else old(refused)
      ensures reliable ==> r.Ok? && AllReported(r.value, old(children), old(exited))
    {
      hide Inverse, GroupsOwned, OnRecord, Limited, OneKillBatch, Report, Requests, Extends, LogsGrow, Later;
      hide AllReported, LastRead, ReachesFirst, Asks;
      var read := ReadSignals();
      script := read;
      var polled := DrainSignals(read);
      if polled.Err? {
        return Err(polled.error), script;
      }
      ghost var drained := Snap();
      r := ReapAfterPoll();
      LaterTransitive(old(Snap()), drained, Snap());
    }

    /** Signals each session-owned child once and nothing else; a strict round stops at the first refusal. */
    method SignalOwned(signal: Signal, strict: bool) returns (ok: bool, ghost batch: seq<Sent>)
      requires Valid()
      modifies this`signals, this`refused, this`exited
      ensures Valid() && signals == old(signals) + batch
      ensures forall s <- batch :: s.signal == signal && OwnedTarget(children, s.target)
      ensures forall i, j :: 0 <= i < j < |batch| ==> batch[i].target.id != batch[j].target.id
      ensures ok || !strict ==>
                forall id <- children :: children[id].options.sessionOwned ==> Sent(children[id].spawned, signal) in batch
      ensures refused >= old(refused)
      ensures if strict then (ok <==> refused == old(refused)) else ok
      ensures reliable ==> ok && refused == old(refused)
      ensures forall pid <- old(exited) :: pid in exited && exited[pid] == old(exited)[pid]
      ensures reliable && prompt && signal.Kill? ==>
                forall id <- children :: children[id].options.sessionOwned ==> children[id].spawned.pid in exited
    {
      hide Inverse, GroupsOwned, OnRecord, Limited, OneKillBatch, Round, OwnedTarget;
      RoundStarts(children, signal);
      batch, ok := [], true;
      var ids := children.Keys;
      while ids != {}
        invariant ids <= children.Keys
        invariant Valid() && signals == old(signals) + batch && Round(children, ids, batch, signal)
        invariant refused >= old(refused) && (strict || reliable ==> refused == old(refused))
        invariant forall pid <- old(exited) :: pid in exited && exited[pid] == old(exited)[pid]
        invariant reliable && prompt && signal.Kill? ==> Struck(children, ids, exited)
        decreases |ids|
      {
        var id :| id in ids;
        RoundStep(children, pidToId, ids, batch, signal, id);
        ids := ids - {id};
        if children[id].options.sessionOwned {
          ok := Send(children[id].spawned, signal);
          batch := batch + [Sent(children[id].spawned, signal)];
          if !ok && strict {
            RoundEnds(children, ids, batch, signal);
            return;
          }
        }
      }
      RoundEnds(children, ids, batch, signal);
      ok := true;
    }

    /** Starts the shutdown once: session-owned children get SIGTERM; nothing is restarted from here on. */
    method BeginShutdown(now: nat) returns (r: Result<(), Error>, ghost batch: seq<Sent>)
      requires Valid()
      modifies this`quiescing, this`shutdown, this`signals, this`refused, this`exited
      ensures Valid() && quiescing && signals == old(signals) + batch
      ensures old(shutdown).Some? ==> r.Ok? && shutdown == old(shutdown) && batch == []
      ensures old(shutdown).None? ==> shutdown == Some(Shutdown(now, false))
      ensures forall s <- batch :: s.signal.Term? && OwnedTarget(children, s.target)
      ensures old(shutdown).None? && r.Ok? ==>
        forall id <- children :: children[id].options.sessionOwned ==> Sent(children[id].spawned, Term) in batch
      ensures r.Ok? <==> refused == old(refused)
      ensures Later(old(Snap()), Snap())
    {
      hide Inverse, GroupsOwned, OnRecord, Limited, Later;
      batch := [];
      BeginQuiesce();
      if shutdown.Some? {
        return Ok(()), [];
      }
      shutdown := Some(Shutdown(now, false));
      var ok: bool;
      ok, batch := SignalOwned(Term, true);
      QuietStep(old(Snap()), Snap());
      r := if ok then Ok(()) else Err(SignalFailed);
    }

    /** Once the grace period is over, kills every session-owned child; this happens once. */
    method KillWhenDue(now: nat) returns (ok: bool, ghost batch: seq<Sent>)
      requires Valid() && shutdown.Some?
      modifies this`shutdown, this`kills, this`signals, this`refused, this`exited
      ensures Valid() && Later(old(Snap()), Snap()) && signals == old(signals) + batch
      ensures shutdown == if KillIsDue(old(shutdown), now) then Some(old(shutdown).value.(killSent := true)) else old(shutdown)
      ensures !KillIsDue(old(shutdown), now) ==> kills == old(kills) && batch == [] && exited == old(exited) && ok
      ensures KillIsDue(old(shutdown), now) ==> kills == [now] && old(kills) == []
      ensures forall s <- batch :: s.signal.Kill? && OwnedTarget(children, s.target)
      ensures refused >= old(refused) && (ok <==> refused == old(refused))
      ensures KillIsDue(old(shutdown), now) && ok ==>
                forall id <- children :: children[id].options.sessionOwned ==> Sent(children[id].spawned, Kill) in batch
      ensures reliable ==> ok
      ensures reliable && prompt && KillIsDue(old(shutdown), now) ==>
                forall id <- children :: children[id].options.sessionOwned ==> children[id].spawned.pid in exited
    {
      hide Inverse, GroupsOwned, OnRecord, Limited, Later;
      QuietStep(Snap(), Snap());
      ok, batch := true, [];
      if !shutdown.value.killSent && Since(now, shutdown.value.startedAt) >= TERM_GRACE {
        shutdown := Some(shutdown.value.(killSent := true));
        kills := kills + [now];
        ok, batch := SignalOwned(Kill, true);
        QuietStep(old(Snap()), Snap());
      }
    }

    /** Kills what is to be killed, reaps again, and tells whether anything is left. */
    method KillAndReap(now: nat) returns (r: Result<bool, Error>, ghost batch: seq<Sent>)
      requires Valid() && shutdown.Some?
      modifies this`children, this`pidToId, this`nextId, this`records, this`logs, this`suppressions, this`clock,
               this`pending, this`quiescing, this`shutdown, this`signals, this`kills, this`refused, this`unstarted,
               this`exited
      ensures Valid() && Later(old(Snap()), Snap()) && quiescing && nextId == old(nextId) && logs == old(logs)
      ensures forall id <- children :: id in old(children) && children[id] == old(children)[id]
      ensures signals == old(signals) + batch
      ensures forall s <- batch :: s.signal.Kill? && OwnedTarget(old(children), s.target)
      ensures shutdown == if KillIsDue(old(shutdown), now) then Some(old(shutdown).value.(killSent := true)) else old(shutdown)
      ensures if KillIsDue(old(shutdown), now) then kills == [now] && old(kills) == []
              else kills == old(kills) && batch == []
      ensures KillIsDue(old(shutdown), now) && r != Err(SignalFailed) ==>
                forall id <- old(children) :: old(children)[id].options.sessionOwned ==>
                  Sent(old(children)[id].spawned, Kill) in batch
      ensures r.Ok? ==> (r.value <==> NoneOwned(children))
      ensures refused >= old(refused) && (r.Err? <==> refused != old(refused)) && (reliable ==> r.Ok?)
      ensures r == Err(SignalFailed) ==> KillIsDue(old(shutdown), now)
      ensures reliable && prompt && KillIsDue(old(shutdown), now) ==> NoneOwned(children)
    {
      hide Inverse, GroupsOwned, OnRecord, Limited, OneKillBatch, Report, Extends, LogsGrow, Later, AllReported;
      hide Requests, LastRead;
      IdsBelow(children, records, nextId);
      var ok: bool;
      ok, batch := KillWhenDue(now);
      if !ok {
        return Err(SignalFailed), batch;
      }
      ghost var killed, ended := Snap(), exited;
      var reaped, _ := ReapExited();
      LaterTransitive(old(Snap()), killed, Snap());
      IdsBelow(children, records, nextId);
      if reaped.Err? {
        return Err(reaped.error), batch;
      }
      if reliable { EndedAreGone(reaped.value, old(children), children, nextId, ended); }
      if reliable && prompt && KillIsDue(old(shutdown), now) { NoneOwnedLeft(old(children), children, ended); }
      r := Ok(NoneOwned(children));
    }

    /**
     One step of the shutdown: reap, kill what is left once the grace period is
     over, reap again.  It reports true only when a shutdown is under way and no
     session-owned child remains.
     */
    method AdvanceShutdown(now: nat) returns (r: Result<bool, Error>, ghost batch: seq<Sent>,
                           ghost left: Option<Children>)
      requires Valid()
      modifies this`children, this`pidToId, this`nextId, this`records, this`logs, this`suppressions, this`clock,
               this`pending, this`quiescing, this`shutdown, this`signals, this`kills, this`refused, this`unstarted,
               this`exited
      ensures Valid() && Later(old(Snap()), Snap())
      ensures quiescing ==> nextId == old(nextId) && logs == old(logs)
      ensures r.Ok? ==> (r.value <==> shutdown.Some? && NoneOwned(children))
      ensures shutdown.Some? == old(shutdown).Some?
                && (shutdown.Some? ==> shutdown.value.startedAt == old(shutdown).value.startedAt)
      ensures shutdown.Some? ==>
                nextId == old(nextId) && forall id <- children :: id in old(children) && children[id] == old(children)[id]
      ensures signals == old(signals) + batch
      ensures kills == old(kills) ==> batch == []
      ensures kills != old(kills) ==> kills == [now] && old(kills) == [] && now >= shutdown.value.startedAt + TERM_GRACE
      ensures forall s <- batch :: s.signal.Kill? && OwnedTarget(old(children), s.target)
      // `left` is what the first reap leaves; once the grace is over, all that is session-owned in it is killed
      ensures left.None? ==> r.Err? && kills == old(kills)
      ensures left.Some? && shutdown.Some? ==>
                forall id <- children :: id in left.value && children[id] == left.value[id]
      ensures left.Some? && KillIsDue(old(shutdown), now) && !NoneOwned(left.value) ==>
                && kills == [now] && shutdown.value.killSent
                && (r != Err(SignalFailed) ==>
                      forall id <- left.value :: left.value[id].options.sessionOwned ==>
                        Sent(left.value[id].spawned, Kill) in batch)
      ensures left.Some? && NoneOwned(left.value) ==> kills == old(kills)
      ensures r.Err? <==> refused != old(refused)
      ensures r == Err(SignalFailed) ==> kills == [now] && old(kills) == []
      ensures reliable ==>
                r.Ok? && forall id <- old(children) :: old(children)[id].spawned.pid in old(exited) ==> id !in children
      // the shutdown ends: what was killed has ended and is reaped by the same step
      ensures reliable && prompt && KillIsDue(old(shutdown), now) ==> r == Ok(true)
    {
      hide Inverse, GroupsOwned, OnRecord, Limited, Report, Extends, LogsGrow, Later, AllReported, Requests, LastRead;
      batch, left := [], None;
      IdsBelow(children, records, nextId);
      var reaped, script := ReapExited();
      IdsBelow(children, records, nextId);
      if reaped.Err? {
        return Err(reaped.error), [], None;
      }
      if reliable { EndedAreGone(reaped.value, old(children), children, old(nextId), old(exited)); }
      left := Some(children);
      if shutdown.None? {
        return Ok(false), [], left;
      }
      if NoneOwned(children) {
        return Ok(true), [], left;
      }
      ghost var first := Snap();
      r, batch := KillAndReap(now);
      TargetsWereThere(old(children), left.value, batch);
      LaterTransitive(old(Snap()), first, Snap());
    }

    /** Asks every session-owned child to end and ignores refusals. */
    method BeginEmergencyCleanup() returns (ghost batch: seq<Sent>)
      requires Valid()
      modifies this`quiescing, this`signals, this`refused, this`exited
      ensures Valid() && quiescing && signals == old(signals) + batch
      ensures forall s <- batch :: s.signal.Term? && OwnedTarget(children, s.target)
      ensures forall id <- children :: children[id].options.sessionOwned ==> Sent(children[id].spawned, Term) in batch
      ensures refused >= old(refused) && (reliable ==> refused == old(refused))
      ensures forall pid <- old(exited) :: pid in exited && exited[pid] == old(exited)[pid]
      ensures Later(old(Snap()), Snap())
    {
      hide Inverse, GroupsOwned, OnRecord, Limited, OneKillBatch, Later;
      BeginQuiesce();
      var ok: bool;
      ok, batch := SignalOwned(Term, false);
      QuietStep(old(Snap()), Snap());
    }

    method KillSessionOwnedNow() returns (r: Result<(), Error>, ghost batch: seq<Sent>)
      requires Valid()
      modifies this`children, this`pidToId, this`nextId, this`records, this`logs, this`suppressions, this`clock,
               this`pending, this`quiescing, this`signals, this`refused, this`unstarted, this`exited
      ensures Valid() && Later(old(Snap()), Snap()) && quiescing && nextId == old(nextId) && logs == old(logs)
      ensures signals == old(signals) + batch && forall s <- batch :: OwnedTarget(old(children), s.target)
      ensures r.Ok? ==> forall id <- old(children) :: old(children)[id].options.sessionOwned ==>
        Sent(old(children)[id].spawned, Term) in batch && Sent(old(children)[id].spawned, Kill) in batch
      ensures refused == old(refused) ==> r.Ok?
      ensures reliable ==> r.Ok? && (prompt ==> NoneOwned(children))
    {
      hide Inverse, GroupsOwned, OnRecord, Limited, OneKillBatch, Report, Extends, LogsGrow, Later, AllReported;
      hide Requests, LastRead;
      batch := BeginEmergencyCleanup();
      ghost var more;
      var ok: bool;
      ok, more := SignalOwned(Kill, true);
      batch := batch + more;
      ghost var signalled := Snap();
      QuietStep(old(Snap()), signalled);
      if !ok {
        return Err(SignalFailed), batch;
      }
      IdsBelow(children, records, nextId);
      ghost var ended := exited;
      var reaped, _ := ReapExited();
      LaterTransitive(old(Snap()), signalled, Snap());
      IdsBelow(children, records, nextId);
      if reliable { EndedAreGone(reaped.value, old(children), children, nextId, ended); }
      if reliable && prompt { NoneOwnedLeft(old(children), children, ended); }
      r := if reaped.Ok? then Ok(()) else Err(reaped.error);
    }

    /** Kills one managed child, whoever owns it, and nothing else. */
    method KillManagedNow(id: nat) returns (r: Result<bool, Error>)
      requires Valid()
      modifies this`children, this`pidToId, this`nextId, this`records, this`logs, this`suppressions, this`clock,
               this`pending, this`quiescing, this`signals, this`refused, this`unstarted, this`exited
      ensures Valid() && Later(old(Snap()), Snap())
      ensures quiescing ==> nextId == old(nextId) && logs == old(logs)
      ensures signals == old(signals) + if id in old(children) then [Sent(old(children)[id].spawned, Kill)] else []
      ensures r.Ok? ==> (r.value <==> id in old(children) && id !in children)
      ensures r.Err? <==> refused != old(refused)
      ensures reliable ==> r.Ok? && (prompt ==> r.value == (id in old(children)))
    {
      hide Inverse, GroupsOwned, OnRecord, Limited, OneKillBatch, Report, Extends, LogsGrow, Later, AllReported;
      hide Requests, LastRead;
      LaterItself(Snap());
      if id !in children {
        return Ok(false);
      }
      var sent := Send(children[id].spawned, Kill);
      ghost var signalled := Snap();
      QuietStep(old(Snap()), signalled);
      if !sent {
        return Err(SignalFailed);
      }
      ghost var ended := exited;
      var reaped, _ := ReapExited();
      LaterTransitive(old(Snap()), signalled, Snap());
      if reliable { EndedAreGone(reaped.value, old(children), children, old(nextId), ended); }
      r := if reaped.Ok? then Ok(id !in children) else Err(reaped.error);
    }

    method TerminateManaged(id: nat) returns (r: Result<bool, Error>)
      requires Valid()
      modifies this`signals, this`refused, this`exited
      ensures Valid() && signals == old(signals) + if id in children then [Sent(children[id].spawned, Term)] else []
      ensures r == if refused != old(refused) then Err(SignalFailed) else Ok(id in children)
      ensures exited == old(exited)
      ensures Later(old(Snap()), Snap())
    {
      hide Inverse, GroupsOwned, OnRecord, Limited, OneKillBatch, Later;
      LaterItself(Snap());
      if id !in children {
        return Ok(false);
      }
      var sent := Send(children[id].spawned, Term);
      QuietStep(old(Snap()), Snap());
      r := if sent then Ok(true) else Err(SignalFailed);
    }

    /** What happens when the supervisor is dropped. */
    method Drop() returns (ghost batch: seq<Sent>)
      requires Valid()
      modifies this`children, this`pidToId, this`nextId, this`records, this`logs, this`suppressions, this`clock,
               this`pending, this`quiescing, this`signals, this`refused, this`unstarted, this`exited
      ensures Valid() && signals == old(signals) + batch && nextId == old(nextId) && logs == old(logs)
      ensures Later(old(Snap()), Snap())
      ensures forall s <- batch :: s.signal.Kill? && OwnedTarget(old(children), s.target)
      ensures forall id <- old(children) :: old(children)[id].options.sessionOwned ==>
                Sent(old(children)[id].spawned, Kill) in batch
      ensures if old(children) == map[] then quiescing == old(quiescing) && pending == old(pending) else quiescing
      ensures reliable && prompt ==> NoneOwned(children)
    {
      hide Inverse, GroupsOwned, OnRecord, Limited, OneKillBatch, Report, Extends, LogsGrow, Later, AllReported;
      hide Requests, LastRead;
      LaterItself(Snap());
      batch := [];
      if children == map[] {
        return;
      }
      BeginQuiesce();
      var ok: bool;
      ok, batch := SignalOwned(Kill, false);
      ghost var signalled := Snap();
      QuietStep(old(Snap()), signalled);
      IdsBelow(children, records, nextId);
      ghost var ended := exited;
      var reaped, _ := ReapExited();
      LaterTransitive(old(Snap()), signalled, Snap());
      IdsBelow(children, records, nextId);
      if reliable { EndedAreGone(reaped.value, old(children), children, nextId, ended); }
      if reliable && prompt { NoneOwnedLeft(old(children), children, ended); }
    }
  }

  lemma TrackedIsOwned(children: Children, pidToId: map<nat, nat>, records: map<nat, Record>, nextId: nat, id: nat)
    requires Inverse(children, pidToId) && OnRecord(children, records, nextId)
    requires id in children && id in records && records[id].options.sessionOwned
    ensures OwnedTarget(children, children[id].spawned)
  {
  }

  lemma TargetsWereThere(before: Children, after: Children, batch: seq<Sent>)
    requires forall id <- after :: id in before && after[id] == before[id]
    requires forall s <- batch :: OwnedTarget(after, s.target)
    ensures forall s <- batch :: OwnedTarget(before, s.target)
  {
  }

  /** Children started during bootstrap, ended again unless the bootstrap is committed. */
  class BootstrapGuard {
    const supervisor: ChildSupervisor
    var tracked: seq<nat>
    var committed: bool

    ghost predicate Valid()
      reads this, supervisor
    {
      && supervisor.Valid()
      && (forall id <- tracked :: id in supervisor.records && supervisor.records[id].options.sessionOwned)
    }

    constructor (supervisor: ChildSupervisor)
      requires supervisor.Valid()
      ensures Valid() && this.supervisor == supervisor && tracked == [] && !committed
    {
      this.supervisor := supervisor;
      tracked, committed := [], false;
    }

    method Spawn(options: Options) returns (r: Result<Spawned, Error>)
      requires Valid()
      modifies this`tracked, supervisor`children, supervisor`pidToId, supervisor`nextId, supervisor`records, supervisor`logs,
               supervisor`unstarted
      ensures Valid() && Later(old(supervisor.Snap()), supervisor.Snap())
      ensures tracked == if r.Ok? && options.sessionOwned then old(tracked) + [r.value.id] else old(tracked)
    {
      hide Inverse, GroupsOwned, OnRecord, Limited, OneKillBatch, Later;
      r := supervisor.Spawn(options);
      if r.Ok? && options.sessionOwned {
        tracked := tracked + [r.value.id];
      }
    }

    method Commit()
      requires Valid()
      modifies this`committed
      ensures Valid() && committed
    {
      committed := true;
    }

    method KillTracked() returns (ghost batch: seq<Sent>)
      requires Valid()
      modifies supervisor`signals, supervisor`refused, supervisor`exited
      ensures Valid() && supervisor.signals == old(supervisor.signals) + batch
      ensures forall s <- batch :: s.signal.Kill? && OwnedTarget(supervisor.children, s.target)
      ensures forall id <- tracked :: id in supervisor.children ==> Sent(supervisor.children[id].spawned, Kill) in batch
      ensures supervisor.reliable && supervisor.prompt ==>
                forall id <- tracked :: id in supervisor.children ==> supervisor.children[id].spawned.pid in supervisor.exited
    {
      hide Inverse, GroupsOwned, OnRecord, Limited, OneKillBatch, OwnedTarget;
      batch := [];
      for i := 0 to |tracked|
        invariant Valid() && supervisor.signals == old(supervisor.signals) + batch
        invariant forall s <- batch :: s.signal.Kill? && OwnedTarget(supervisor.children, s.target)
        invariant forall k :: 0 <= k < i && tracked[k] in supervisor.children ==>
                  Sent(supervisor.children[tracked[k]].spawned, Kill) in batch
        invariant supervisor.reliable && supervisor.prompt ==>
                  forall k :: 0 <= k < i && tracked[k] in supervisor.children ==>
                    supervisor.children[tracked[k]].spawned.pid in supervisor.exited
      {
        if tracked[i] in supervisor.children {
          var child := supervisor.children[tracked[i]];
          TrackedIsOwned(supervisor.children, supervisor.pidToId, supervisor.records, supervisor.nextId, tracked[i]);
          var sent := supervisor.Send(child.spawned, Kill);
          batch := batch + [Sent(child.spawned, Kill)];
        }
      }
    }

    /** Signals only session-owned children, and none at all after a commit. */
    method Drop() returns (ghost batch: seq<Sent>)
      requires Valid()
      modifies supervisor`children, supervisor`pidToId, supervisor`nextId, supervisor`records, supervisor`logs, supervisor`suppressions,
               supervisor`clock, supervisor`pending, supervisor`quiescing, supervisor`signals,
               supervisor`refused, supervisor`unstarted, supervisor`exited
      ensures Valid() && Later(old(supervisor.Snap()), supervisor.Snap())
      ensures supervisor.nextId == old(supervisor.nextId) && supervisor.logs == old(supervisor.logs)
      ensures supervisor.signals == old(supervisor.signals) + batch
      ensures committed || tracked == [] ==> batch == [] && supervisor.children == old(supervisor.children)
      ensures forall s <- batch :: OwnedTarget(old(supervisor.children), s.target)
      ensures !committed ==> forall id <- tracked :: id in old(supervisor.children) ==>
        Sent(old(supervisor.children)[id].spawned, Kill) in batch
      ensures !committed && supervisor.reliable && supervisor.prompt ==>
                forall id <- tracked :: id !in supervisor.children
    {
      hide Inverse, GroupsOwned, OnRecord, Limited, OneKillBatch, Report, LogsGrow, Later, AllReported, Requests;
      hide LastRead;
      LaterItself(supervisor.Snap());
      batch := [];
      if committed || tracked == [] {
        return;
      }
      batch := supervisor.BeginEmergencyCleanup();
      ghost var more := KillTracked();
      batch := batch + more;
      ghost var signalled := supervisor.Snap();
      QuietStep(old(supervisor.Snap()), signalled);
      IdsBelow(supervisor.children, supervisor.records, supervisor.nextId);
      ghost var ended := supervisor.exited;
      var reaped, _ := supervisor.ReapExited();
      LaterTransitive(old(supervisor.Snap()), signalled, supervisor.Snap());
      GuardLasts(old(supervisor.Snap()), supervisor.Snap(), tracked);
      IdsBelow(supervisor.children, supervisor.records, supervisor.nextId);
      if supervisor.reliable {
        EndedAreGone(reaped.value, old(supervisor.children), supervisor.children, supervisor.nextId, ended);
      }
    }
  }

  // ----- whole runs -----

  /** What holds at every moment. */
  ghost predicate Sound(a: Snapshot) {
    && (forall id <- a.records :: id < a.nextId)
    && (forall origin <- a.logs :: Spaced(a.logs[origin], a.guard))
    && OneKillBatch(a.shutdown, a.kills) && (a.shutdown.Some? ==> a.quiescing)
  }

  /** A run as seen at some of its moments, in order. */
  ghost predicate Run(history: seq<Snapshot>) {
    && (forall k :: 0 <= k < |history| ==> Sound(history[k]))
    && (forall k :: 0 < k < |history| ==> Later(history[k - 1], history[k]))
  }

  lemma {:induction false} RunIsLater(history: seq<Snapshot>, i: nat, j: nat)
    requires Run(history) && i <= j < |history|
    ensures Later(history[i], history[j])
    decreases j
  {
    hide Later, Sound;
    if i == j {
      LaterItself(history[i]);
    } else {
      RunIsLater(history, i, j - 1);
      LaterTransitive(history[i], history[j - 1], history[j]);
    }
  }

  /**
   Of any two moments of any run: while the guard is not set anew, every
   attempt a lineage has made stays in its log, and any max + 1 consecutive
   ones span more than the window, whichever children made them; ids keep
   their meaning; there is one batch of kills at most, and not before the grace
   period; and a supervisor that quiesces does so forever and restarts nothing.
   */
  lemma RestartsAreSpaced(history: seq<Snapshot>, i: nat, j: nat, origin: nat, n: nat)
    requires Run(history) && i <= j < |history|
    ensures var a, b := history[i], history[j];
            && (a.epoch == b.epoch && origin in a.logs ==>
                  origin in b.logs && a.logs[origin] <= b.logs[origin] && a.guard == b.guard)
            && (origin in b.logs && n + b.guard.max < |b.logs[origin]| ==>
                  b.logs[origin][n + b.guard.max] - b.logs[origin][n] > b.guard.window)
            && (n in a.records ==> n in b.records && b.records[n] == a.records[n])
            && (n in b.records && n !in a.records ==> n >= a.nextId)
            && a.kills <= b.kills && |b.kills| <= 1
            && (b.kills != [] ==> b.shutdown.Some? && b.kills[0] >= b.shutdown.value.startedAt + TERM_GRACE)
            && (a.quiescing ==> b.quiescing && NoRestart(a, b))
  {
    RunIsLater(history, i, j);
  }

  datatype Action =
    | DoSpawn(options: Options)
    | DoSpawnRestartable(options: Options)
    | DoSetGuard(guard: Guard)
    | DoPoll(script: seq<Read>)
    | DoTakeSignal
    | DoReap
    | DoReapAfterPoll
    | DoQuiesce
    | DoBeginShutdown(now: nat)
    | DoAdvanceShutdown(now: nat)
    | DoEmergencyCleanup
    | DoKillSessionOwned
    | DoKillManaged(id: nat)
    | DoTerminateManaged(id: nat)
    | DoDrop
    | DoBeginBootstrap
    | DoBootstrapSpawn(options: Options)
    | DoBootstrapCommit
    | DoBootstrapDrop

  lemma RunExtends(history: seq<Snapshot>, next: Snapshot)
    requires Run(history) && history != [] && Sound(next) && Later(history[|history| - 1], next)
    ensures Run(history + [next])
  {
    hide Later, Sound;
  }

  /** Any sequence of calls of the public operations, of the supervisor and of its bootstrap guards, is such a run. */
  method Drive(g: BootstrapGuard, script: seq<Action>) returns (ghost history: seq<Snapshot>)
    requires g.Valid()
    modifies g, g.supervisor
    ensures g.supervisor.Valid() && Run(history) && |history| == |script| + 1
    ensures history[0] == old(g.supervisor.Snap()) && history[|script|] == g.supervisor.Snap()
  {
    hide Later;
    var s, guard := g.supervisor, g;
    history := [s.Snap()];
    for i := 0 to |script|
      invariant guard.supervisor == s && guard.Valid() && (guard == g || fresh(guard))
      invariant Run(history) && |history| == i + 1
      invariant history[0] == old(g.supervisor.Snap()) && history[i] == s.Snap()
    {
      guard := Perform(guard, script[i]);
      RunExtends(history, s.Snap());
      history := history + [s.Snap()];
    }
  }

  method Perform(g: BootstrapGuard, action: Action) returns (next: BootstrapGuard)
    requires g.Valid()
    modifies g, g.supervisor
    ensures next.supervisor == g.supervisor && next.Valid() && (next == g || fresh(next))
    ensures Later(old(g.supervisor.Snap()), g.supervisor.Snap()) && Sound(g.supervisor.Snap())
  {
    hide Later, Inverse, GroupsOwned, Report, LogsGrow, Extends, OnRecord, Limited, OneKillBatch;
    next := g;
    LaterItself(g.supervisor.Snap());
    match action {
      case DoBeginBootstrap => next := new BootstrapGuard(g.supervisor);
      case DoBootstrapSpawn(options) => var _ := g.Spawn(options);
      case DoBootstrapCommit => g.Commit();
      case DoBootstrapDrop => ghost var _ := g.Drop();
      case _ => Operate(g.supervisor, action);
    }
    GuardLasts(old(g.supervisor.Snap()), g.supervisor.Snap(), old(g.tracked));
    ValidIsSound(g.supervisor);
  }

  /** Children that a guard tracks stay on record. */
  lemma GuardLasts(a: Snapshot, b: Snapshot, tracked: seq<nat>)
    requires Later(a, b)
    ensures (forall id <- tracked :: id in a.records && a.records[id].options.sessionOwned) ==>
              forall id <- tracked :: id in b.records && b.records[id].options.sessionOwned
  {
  }

  lemma ValidIsSound(s: ChildSupervisor)
    requires s.Valid()
    ensures Sound(s.Snap())
  {
  }

  /** The operations of the supervisor itself. */
  method Operate(s: ChildSupervisor, action: Action)
    requires s.Valid()
    modifies s
    ensures s.Valid() && Later(old(s.Snap()), s.Snap())
  {
    hide Later, Inverse, GroupsOwned, Report, LogsGrow, Extends, OnRecord, Limited, OneKillBatch;
    LaterItself(s.Snap());
    match action {
      case DoSpawn(options) => var _ := s.Spawn(options);
      case DoSpawnRestartable(options) => var _ := s.SpawnRestartable(options);
      case DoSetGuard(guard) => s.SetRestartGuard(guard);
      case DoPoll(script) => var _ := s.DrainSignals(script);
      case DoTakeSignal => var _ := s.TakeTerminationSignal();
      case DoReap => var _, _ := s.ReapExited();
      case DoReapAfterPoll => var _ := s.ReapAfterPoll();
      case DoQuiesce => s.BeginQuiesce();
      case DoBeginShutdown(now) => var _, _ := s.BeginShutdown(now);
      case DoAdvanceShutdown(now) => var _, _, _ := s.AdvanceShutdown(now);
      case DoEmergencyCleanup => ghost var _ := s.BeginEmergencyCleanup();
      case DoKillSessionOwned => var _, _ := s.KillSessionOwnedNow();
      case DoKillManaged(id) => var _ := s.KillManagedNow(id);
      case DoTerminateManaged(id) => var _ := s.TerminateManaged(id);
      case DoDrop => ghost var _ := s.Drop();
      case _ =>
    }
  }

  /**
   In every reachable state: pids and ids name each other, only session-owned
   children have a recorded group, and at most one batch of kills was sent, not
   before the grace period.
   */
  lemma TablesAgree(s: ChildSupervisor, id: nat, pid: nat)
    requires s.Valid()
    ensures (pid in s.pidToId && s.pidToId[pid] == id) <==> (id in s.children && s.children[id].spawned.pid == pid)
    ensures id in s.children && s.children[id].spawned.pgid.Some? ==> s.children[id].options.sessionOwned
    ensures |s.kills| <= 1
              && (s.kills != [] ==> s.shutdown.Some? && s.kills[0] >= s.shutdown.value.startedAt + TERM_GRACE)
  {
  }

  lemma SurvivorsAreUntouched(exits: seq<Exit>, before: Children, after: Children, nextId: nat)
    requires Report(exits, before, after, nextId)
    ensures forall id <- after :: id < nextId ==> id in before && after[id] == before[id]
  {
  }

  lemma IdsAreOld(children: Children, pidToId: map<nat, nat>, records: map<nat, Record>, nextId: nat, id: nat)
    requires Inverse(children, pidToId) && OnRecord(children, records, nextId) && id in children
    ensures id < nextId && nextId !in children && children[id].spawned.id == id
  {
  }

  lemma IdsBelow(children: Children, records: map<nat, Record>, nextId: nat)
    requires OnRecord(children, records, nextId)
    ensures forall id <- children :: id < nextId
  {
  }

  /** A reap of an old child is a reap as seen from the start of the loop. */
  lemma ReapedLater(e: Exit, middle: Children, after: Children, first: nat, bound: nat)
    requires Reaped(e, middle, after, bound) && first <= bound && e.child.id < first
    ensures Reaped(e, middle, after, first)
  {
  }

  /** The report so far, with at most one more exit. */
  lemma ReapExtends(exits: seq<Exit>, before: Children, middle: Children, after: Children, first: nat, bound: nat,
                    ids: set<nat>,
                    reaped: Option<Exit>)
    requires Report(exits, before, middle, first) && (forall id <- before :: id < first) && ids <= middle.Keys
              && first <= bound
    requires reaped.None? ==> after == middle
    requires reaped.Some? ==>
               Reaped(reaped.value, middle, after, bound) && reaped.value.child.id < first && reaped.value.child.id !in ids
    ensures Report(With(exits, reaped), before, after, first) && ids <= after.Keys
    ensures NoneRestarted(exits) && (reaped.Some? ==> reaped.value.restarted.None?) ==>
              NoneRestarted(With(exits, reaped))
  {
    hide Report, Reaped;
    if reaped.Some? {
      ReapedLater(reaped.value, middle, after, first, bound);
      ReportExtends(exits, before, middle, after, first, reaped.value);
      OthersRemain(reaped.value, middle, after, first, ids);
    }
  }

  /** In the course of a reap; `sure` if nothing is refused, `quiet` if nothing is restarted. */
  ghost predicate Reaping(exits: seq<Exit>, ids: set<nat>, before: Children, after: Children, first: nat, sure: bool,
                          was: map<nat, bool>, exited: map<nat, bool>, quiet: bool) {
    && Report(exits, before, after, first) && ids <= after.Keys && (forall id <- before :: id < first)
    && ids <= before.Keys && (sure ==> Owed(exits, ids, before, was, exited)) && (quiet ==> NoneRestarted(exits))
  }

  lemma ReapingStarts(children: Children, nextId: nat, exited: map<nat, bool>)
    requires forall id <- children :: id < nextId
    ensures forall sure, quiet :: Reaping([], children.Keys, children, children, nextId, sure, exited, exited, quiet)
  {
  }

  lemma ReapingStep(exits: seq<Exit>, ids: set<nat>, before: Children, pidToId: map<nat, nat>, middle: Children,
                    after: Children,
                    first: nat, bound: nat, sure: bool, was: map<nat, bool>, ended: map<nat, bool>, exited: map<nat, bool>,
                    quiet: bool, id: nat, reaped: Option<Exit>)
    requires Reaping(exits, ids, before, middle, first, sure, was, ended, quiet) && Inverse(before, pidToId)
              && id in ids
    requires first <= bound && id in middle && Spared(ended, exited, middle[id].spawned.pid)
    requires reaped.None? ==> after == middle
    requires reaped.Some? ==> reaped.value.child.id == id && Reaped(reaped.value, middle, after, bound)
    requires sure && middle[id].spawned.pid in ended ==>
              reaped.Some? && reaped.value.success == ended[middle[id].spawned.pid]
    requires quiet && reaped.Some? ==> reaped.value.restarted.None?
    ensures Reaping(With(exits, reaped), ids - {id}, before, after, first, sure, was, exited, quiet)
              && ids - {id} <= after.Keys
  {
    hide Report, Reaped, Owed, Spared, Inverse, With, NoneRestarted;
    SurvivorsAreUntouched(exits, before, middle, first);
    OwedStep(sure, exits, ids, before, pidToId, was, ended, exited, id, reaped);
    ReapExtends(exits, before, middle, after, first, bound, ids - {id}, reaped);
  }

  lemma ReapingSpares(exits: seq<Exit>, ids: set<nat>, before: Children, after: Children, first: nat, sure: bool,
                      was: map<nat, bool>, exited: map<nat, bool>, quiet: bool)
    requires Reaping(exits, ids, before, after, first, sure, was, exited, quiet)
    ensures forall id <- after :: id < first ==> id in before && after[id] == before[id]
  {
    SurvivorsAreUntouched(exits, before, after, first);
  }

  lemma ReapingEnds(exits: seq<Exit>, before: Children, after: Children, first: nat, sure: bool, was: map<nat, bool>,
                    exited: map<nat, bool>, quiet: bool)
    requires Reaping(exits, {}, before, after, first, sure, was, exited, quiet)
    ensures Report(exits, before, after, first) && (quiet ==> NoneRestarted(exits))
              && (sure ==> AllReported(exits, before, was))
    ensures forall id <- after :: id < first ==> id in before && after[id] == before[id]
  {
    SurvivorsAreUntouched(exits, before, after, first);
  }

  lemma OthersRemain(e: Exit, middle: Children, after: Children, nextId: nat, ids: set<nat>)
    requires Reaped(e, middle, after, nextId) && ids <= middle.Keys && e.child.id !in ids
    ensures ids <= after.Keys
  {
  }

  lemma NewLineage(children: Children, records: map<nat, Record>, logs: map<nat, seq<nat>>, guard: Guard, clock: nat,
                   id: nat, child: ManagedChild)
    requires Limited(children, records, logs, guard, clock) && OnRecord(children, records, id)
    requires child.history == []
    ensures Limited(children[id := child], records[id := Record(child.options, id)], logs[id := []], guard, clock)
    ensures Orphaned(children, records, id) && id !in logs
  {
  }
}
