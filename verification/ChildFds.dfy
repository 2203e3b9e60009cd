/** File descriptors handed to a child process: src/process.rs, between fork and exec. */
module ChildFds {
  import opened Common

  /** An open descriptor: the file it refers to and its close-on-exec flag. */
  datatype Slot = Slot(file: nat, cloexec: bool)

  type Slots = map<int, Slot>

  const MAX_MAPPED_CHILD_FDS := 32
  const TEMPORARY_FLOOR := 100
  const FALLBACK_LIMIT := 65535

  datatype Mapping = Mapping(source: int, target: int)

  /** F_DUPFD returns the lowest unused number from the floor up. */
  function LowestFree(used: set<int>, floor: int): (fd: int)
    ensures fd >= floor && fd !in used
    ensures forall x :: floor <= x < fd ==> x in used
    decreases |used|
  {
    if floor !in used then floor
    else
      var fd := LowestFree(used - {floor}, floor + 1);
      assert forall x :: floor <= x < fd ==> x in used by {
        forall x | floor <= x < fd ensures x in used {
          assert x == floor || x in used - {floor};
        }
      }
      fd
  }

  datatype RangeResult = Applied | Unsupported | RangeFailed

  /**
   With `reliable` set fcntl and dup2 fail only for descriptors that are not
   open; `range` is what close_range does.
   */
  class FdTable {
    var slots: Slots
    const reliable: bool
    const range: RangeResult

    constructor (slots: Slots, reliable: bool, range: RangeResult)
      ensures this.slots == slots && this.reliable == reliable && this.range == range
    {
      this.slots, this.reliable, this.range := slots, reliable, range;
    }

    /** fcntl(F_DUPFD_CLOEXEC, floor); -1 on failure. */
    method DupCloexec(source: int, floor: int) returns (fd: int)
      requires floor >= 0
      modifies this
      ensures fd < 0 ==> slots == old(slots)
      ensures fd >= 0 ==> source in old(slots) && fd == LowestFree(old(slots).Keys, floor)
      ensures fd >= 0 ==> slots == old(slots)[fd := Slot(old(slots)[source].file, true)]
      ensures reliable && source in old(slots) ==> fd >= 0
    {
      var ok: bool := *;
      if (!reliable && !ok) || source !in slots {
        return -1;
      }
      fd := LowestFree(slots.Keys, floor);
      slots := slots[fd := Slot(slots[source].file, true)];
    }

    /** close_range(3, UINT_MAX, CLOSE_RANGE_CLOEXEC). */
    method CloseRangeCloexec() returns (r: RangeResult)
      modifies this
      ensures r == range && slots == if r.Applied? then Sealed(old(slots), None) else old(slots)
    {
      r := range;
      if r.Applied? {
        slots := Sealed(slots, None);
      }
    }

    /** dup2; a descriptor duplicated onto itself is left alone. */
    method Dup2(from: int, to: int) returns (ok: bool)
      modifies this
      ensures !ok ==> slots == old(slots)
      ensures ok ==> from in old(slots)
      ensures reliable && from in old(slots) ==> ok
      ensures ok ==> slots == if from == to then old(slots) else old(slots)[to := Slot(old(slots)[from].file, false)]
    {
      ok := *;
      ok := (ok || reliable) && from in slots;
      if ok && from != to {
        slots := slots[to := Slot(slots[from].file, false)];
      }
    }

    /** fcntl(F_SETFD) with the close-on-exec bit; fails exactly when the descriptor is not open. */
    method SetCloexec(fd: int, cloexec: bool) returns (ok: bool)
      modifies this
      ensures ok <==> fd in old(slots)
      ensures slots == if ok then old(slots)[fd := old(slots)[fd].(cloexec := cloexec)] else old(slots)
    {
      ok := fd in slots;
      if ok {
        slots := slots[fd := slots[fd].(cloexec := cloexec)];
      }
    }

    method Close(fd: int)
      modifies this
      ensures slots == old(slots) - {fd}
    {
      slots := slots - {fd};
    }
  }

  predicate InRange(fd: int, limit: Option<int>) {
    fd >= 3 && (limit.Some? ==> fd <= limit.value)
  }

  /** Every descriptor of the range made close-on-exec. */
  function Sealed(slots: Slots, limit: Option<int>): Slots {
    map fd | fd in slots :: Seal(slots[fd], fd, limit)
  }

  function Seal(slot: Slot, fd: int, limit: Option<int>): Slot {
    Slot(slot.file, slot.cloexec || InRange(fd, limit))
  }

  /** The numbers `n` successive duplications from the floor up obtain. */
  function Temporaries(used: set<int>, n: nat): (fds: seq<int>)
    ensures |fds| == n
  {
    if n == 0 then []
    else
      var rest := Temporaries(used, n - 1);
      rest + [LowestFree(used + Members(rest), TEMPORARY_FLOOR)]
  }

  function Members(fds: seq<int>): set<int> {
    set fd | fd in fds
  }

  lemma {:induction false} TemporariesAreFresh(used: set<int>, n: nat)
    ensures forall i :: 0 <= i < n ==> Temporaries(used, n)[i] >= TEMPORARY_FLOOR && Temporaries(used, n)[i] !in used
    ensures forall i, j :: 0 <= i < j < n ==> Temporaries(used, n)[i] != Temporaries(used, n)[j]
  {
    if n > 0 {
      TemporariesAreFresh(used, n - 1);
    }
  }

  /** What validation guarantees about the mappings of a command. */
  ghost predicate Validated(mappings: seq<Mapping>) {
    && |mappings| <= MAX_MAPPED_CHILD_FDS
    && (forall i :: 0 <= i < |mappings| ==> mappings[i].source >= 0 && mappings[i].target >= 3)
    && (forall i, j :: 0 <= i < j < |mappings| ==> mappings[i].target != mappings[j].target)
  }

  function Targets(mappings: seq<Mapping>): set<int> {
    set i | 0 <= i < |mappings| :: mappings[i].target
  }

  predicate Untargeted(fd: int, mappings: seq<Mapping>) {
    forall i :: 0 <= i < |mappings| ==> mappings[i].target != fd
  }

  /** None of the descriptors is a target. */
  predicate Apart(fds: seq<int>, mappings: seq<Mapping>) {
    forall i :: 0 <= i < |fds| ==> Untargeted(fds[i], mappings)
  }

  /**
   A correct parallel move: targets hold what their sources held on entry and
   survive exec; all else is only sealed.
   */
  ghost predicate IsParallelMove(after: Slots, before: Slots, mappings: seq<Mapping>, limit: Option<int>) {
    && after.Keys == before.Keys + Targets(mappings)
    && Delivered(after, before, mappings)
    && (forall fd :: fd in before && Untargeted(fd, mappings) ==> after[fd] == Seal(before[fd], fd, limit))
  }

  ghost predicate Delivered(after: Slots, before: Slots, mappings: seq<Mapping>) {
    forall i :: 0 <= i < |mappings| ==>
      && mappings[i].source in before && mappings[i].target in after
      && after[mappings[i].target] == Slot(before[mappings[i].source].file, false)
  }

  /** The table while the first temporaries of the mappings are open. */
  ghost predicate Duplicated(slots: Slots, start: Slots, mappings: seq<Mapping>, temporaries: seq<int>) {
    && |temporaries| <= |mappings|
    && slots.Keys == start.Keys + Members(temporaries)
    && (forall fd :: fd in start ==> slots[fd] == start[fd])
    && (forall i :: 0 <= i < |temporaries| ==>
          mappings[i].source in start && slots[temporaries[i]] == Slot(start[mappings[i].source].file, true))
  }

  method CloseAll(table: FdTable, fds: array<int>, count: nat)
    requires count <= fds.Length
    modifies table
    ensures table.slots == old(table.slots) - Members(fds[..count])
  {
    var i := 0;
    while i < count
      invariant 0 <= i <= count
      invariant table.slots == old(table.slots) - Members(fds[..i])
    {
      table.Close(fds[i]);
      assert Members(fds[..i + 1]) == Members(fds[..i]) + {fds[i]};
      i := i + 1;
    }
  }

  lemma {:induction false} DuplicateStarts(start: Slots, mappings: seq<Mapping>)
    ensures Temporaries(start.Keys, 0) == [] && Duplicated(start, start, mappings, [])
  {
    assert Members([]) == {};
  }

  lemma {:induction false} DuplicateStep(slots: Slots, start: Slots, mappings: seq<Mapping>, temporaries: seq<int>)
    requires Duplicated(slots, start, mappings, temporaries) && |temporaries| < |mappings|
    requires temporaries == Temporaries(start.Keys, |temporaries|)
    requires mappings[|temporaries|].source in start
    ensures var fd := LowestFree(slots.Keys, TEMPORARY_FLOOR);
            && temporaries + [fd] == Temporaries(start.Keys, |temporaries| + 1)
            && Duplicated(slots[fd := Slot(slots[mappings[|temporaries|].source].file, true)], start, mappings, temporaries + [fd])
  {
    hide LowestFree;
    var fd := LowestFree(slots.Keys, TEMPORARY_FLOOR);
    assert Members(temporaries + [fd]) == Members(temporaries) + {fd};
    assert forall i :: 0 <= i < |temporaries| ==> temporaries[i] in Members(temporaries);
  }

  lemma {:induction false} UndoDuplicates(slots: Slots, start: Slots, mappings: seq<Mapping>, temporaries: seq<int>)
    requires Duplicated(slots, start, mappings, temporaries)
    requires temporaries == Temporaries(start.Keys, |temporaries|)
    ensures slots - Members(temporaries) == start
  {
    TemporariesAreFresh(start.Keys, |temporaries|);
    var rest := slots - Members(temporaries);
    assert Members(temporaries) !! start.Keys;
    forall fd ensures fd in rest <==> fd in start {
      assert fd in slots <==> fd in start.Keys + Members(temporaries);
    }
    assert rest.Keys == start.Keys;
    assert forall fd :: fd in rest ==> rest[fd] == start[fd];
  }

  lemma StillOpen(slots: Slots, start: Slots, mappings: seq<Mapping>, temporaries: seq<int>, fd: int)
    requires Duplicated(slots, start, mappings, temporaries) && fd in start
    ensures fd in slots
  {
    assert fd in start.Keys + Members(temporaries);
  }

  /** Duplicate every source above the floor, so that no target can clobber a source. */
  method DuplicateSources(table: FdTable, mappings: seq<Mapping>, temporaries: array<int>) returns (ok: bool)
    requires |mappings| <= temporaries.Length
    requires forall i :: 0 <= i < |mappings| ==> mappings[i].source in table.slots
    modifies table, temporaries
    ensures ok ==> temporaries[..|mappings|] == Temporaries(old(table.slots).Keys, |mappings|)
    ensures ok ==> Duplicated(table.slots, old(table.slots), mappings, temporaries[..|mappings|])
    ensures !ok ==> table.slots == old(table.slots)
    ensures table.reliable ==> ok
  {
    hide Duplicated, Temporaries, LowestFree;
    DuplicateStarts(table.slots, mappings);
    ghost var start := table.slots;
    var index := 0;
    while index < |mappings|
      invariant 0 <= index <= |mappings|
      invariant temporaries[..index] == Temporaries(start.Keys, index)
      invariant Duplicated(table.slots, start, mappings, temporaries[..index])
    {
      StillOpen(table.slots, start, mappings, temporaries[..index], mappings[index].source);
      ghost var before, was := temporaries[..index], table.slots;
      var temporary := table.DupCloexec(mappings[index].source, TEMPORARY_FLOOR);
      if temporary < 0 {
        CloseAll(table, temporaries, index);
        UndoDuplicates(was, start, mappings, before);
        return false;
      }
      temporaries[index] := temporary;
      assert temporaries[..index + 1] == before + [temporary];
      DuplicateStep(was, start, mappings, before);
      index := index + 1;
    }
    return true;
  }

  /** Make everything else close-on-exec, descriptor by descriptor where close_range is missing. */
  method SealOthers(table: FdTable) returns (limit: Option<int>, ok: bool)
    modifies table
    ensures ok <==> !table.range.RangeFailed?
    ensures limit == if table.range.Unsupported? then Some(FALLBACK_LIMIT) else None
    ensures table.slots == if ok then Sealed(old(table.slots), limit) else old(table.slots)
  {
    var sealed := table.CloseRangeCloexec();
    match sealed {
      case Applied => return None, true;
      case RangeFailed => return None, false;
      case Unsupported =>
    }
    ghost var start := table.slots;
    var fd := 3;
    assert Sealed(start, Some(2)) == start by {
      assert forall fd :: fd in start ==> Sealed(start, Some(2))[fd] == start[fd];
    }
    while fd <= FALLBACK_LIMIT
      invariant 3 <= fd <= FALLBACK_LIMIT + 1
      invariant table.slots == Sealed(start, Some(fd - 1))
    {
      var _ := table.SetCloexec(fd, true);
      fd := fd + 1;
    }
    return Some(FALLBACK_LIMIT), true;
  }

  /** While targets are being filled: the first `k` targets are done, the temporaries still hold every file. */
  ghost predicate Filling(slots: Slots, start: Slots, mappings: seq<Mapping>, temporaries: seq<int>,
                          limit: Option<int>, k: int) {
    && 0 <= k <= |mappings| == |temporaries|
    && slots.Keys == start.Keys + Members(temporaries) + Targets(mappings[..k])
    && (Apart(temporaries, mappings) ==> Exact(slots, start, mappings, temporaries, limit, k))
  }

  ghost predicate Exact(slots: Slots, start: Slots, mappings: seq<Mapping>, temporaries: seq<int>, limit: Option<int>,
                        k: int)
    requires 0 <= k <= |mappings| == |temporaries|
  {
    && (forall i :: 0 <= i < |mappings| ==> Carries(slots, temporaries[i], start, mappings[i].source))
    && (forall i :: 0 <= i < k ==>
          Carries(slots, mappings[i].target, start, mappings[i].source) && !slots[mappings[i].target].cloexec)
    && (forall fd :: fd in start && Untargeted(fd, mappings) ==> fd in slots && slots[fd] == Seal(start[fd], fd, limit))
  }

  predicate Carries(slots: Slots, fd: int, start: Slots, source: int) {
    source in start && fd in slots && slots[fd].file == start[source].file
  }

  lemma {:induction false} TargetsExtend(mappings: seq<Mapping>, k: nat)
    requires k < |mappings|
    ensures Targets(mappings[..k + 1]) == Targets(mappings[..k]) + {mappings[k].target}
  {
    assert forall i :: 0 <= i < k ==> mappings[..k + 1][i] == mappings[..k][i];
    assert mappings[..k + 1][k] == mappings[k];
  }

  lemma {:induction false} ExactStep(slots: Slots, start: Slots, mappings: seq<Mapping>, temporaries: seq<int>,
                                     limit: Option<int>, k: int)
    requires Validated(mappings) && 0 <= k < |mappings| == |temporaries|
    requires Apart(temporaries, mappings)
    requires Exact(slots, start, mappings, temporaries, limit, k)
    ensures Exact(slots[mappings[k].target := Slot(slots[temporaries[k]].file, false)], start, mappings, temporaries, limit, k + 1)
  {
    hide Seal;
    var target := mappings[k].target;
    var next := slots[target := Slot(slots[temporaries[k]].file, false)];
    assert Carries(slots, temporaries[k], start, mappings[k].source);
    forall i | 0 <= i < |mappings| ensures Carries(next, temporaries[i], start, mappings[i].source) {
      assert Carries(slots, temporaries[i], start, mappings[i].source);
      assert Untargeted(temporaries[i], mappings);
    }
    forall i | 0 <= i < k + 1 ensures Carries(next, mappings[i].target, start, mappings[i].source) && !next[mappings[i].target].cloexec {
      assert i < k ==> Carries(slots, mappings[i].target, start, mappings[i].source) && mappings[i].target != target;
    }
    forall fd | fd in start && Untargeted(fd, mappings) ensures fd in next && next[fd] == Seal(start[fd], fd, limit) {
      assert fd != target;
    }
  }

  lemma {:induction false} FillStep(slots: Slots, start: Slots, mappings: seq<Mapping>, temporaries: seq<int>,
                                    limit: Option<int>, k: int)
    requires Validated(mappings) && k < |mappings|
    requires Filling(slots, start, mappings, temporaries, limit, k)
    ensures temporaries[k] in slots
    ensures Filling(slots[mappings[k].target := Slot(slots[temporaries[k]].file, false)], start, mappings, temporaries, limit, k + 1)
  {
    assert temporaries[k] in Members(temporaries);
    TargetsExtend(mappings, k);
    if Apart(temporaries, mappings) {
      ExactStep(slots, start, mappings, temporaries, limit, k);
    }
  }

  /** Move each temporary onto its target and let it survive exec. */
  method FillTargets(table: FdTable, mappings: seq<Mapping>, temporaries: array<int>, ghost start: Slots,
                     ghost limit: Option<int>)
    returns (ok: bool, ghost done: int)
    requires Validated(mappings) && |mappings| <= temporaries.Length
    requires Filling(table.slots, start, mappings, temporaries[..|mappings|], limit, 0)
    modifies table
    ensures Filling(table.slots, start, mappings, temporaries[..|mappings|], limit, done)
    ensures ok ==> done == |mappings|
    ensures table.reliable ==> ok
  {
    var index := 0;
    while index < |mappings|
      invariant 0 <= index <= |mappings|
      invariant Filling(table.slots, start, mappings, temporaries[..|mappings|], limit, index)
    {
      FillStep(table.slots, start, mappings, temporaries[..|mappings|], limit, index);
      ghost var before := table.slots;
      var moved := table.Dup2(temporaries[index], mappings[index].target);
      if !moved {
        return false, index;
      }
      var cleared := table.SetCloexec(mappings[index].target, false);
      assert table.slots == before[mappings[index].target := Slot(before[temporaries[index]].file, false)];
      index := index + 1;
      if !cleared {
        return false, index;
      }
    }
    return true, index;
  }

  lemma {:induction false} SealedKeepsDuplicates(duplicated: Slots, start: Slots, mappings: seq<Mapping>,
                                                 temporaries: seq<int>, limit: Option<int>)
    requires Duplicated(duplicated, start, mappings, temporaries) && |temporaries| == |mappings|
    ensures Filling(Sealed(duplicated, limit), start, mappings, temporaries, limit, 0)
  {
    assert Targets(mappings[..0]) == {};
    assert forall i :: 0 <= i < |temporaries| ==> temporaries[i] in Members(temporaries);
  }

  /** Closing the temporaries ends the move. */
  lemma {:induction false} ClosingEndsMove(slots: Slots, start: Slots, mappings: seq<Mapping>, temporaries: seq<int>,
                                           limit: Option<int>)
    requires Filling(slots, start, mappings, temporaries, limit, |mappings|)
    requires Members(temporaries) !! start.Keys
    ensures Apart(temporaries, mappings) ==> IsParallelMove(slots - Members(temporaries), start, mappings, limit)
    ensures Delivered(slots - Members(temporaries), start, mappings) ==> Apart(temporaries, mappings)
  {
    assert mappings[..|mappings|] == mappings;
  }

  /**
   Give the child exactly the mapped descriptors.  The move is correct if and
   only if no target is one of the numbers the temporaries take, the lowest
   unused ones from 100 up.
   */
  method ConfigureChildFds(table: FdTable, mappings: seq<Mapping>) returns (ok: bool, ghost limit: Option<int>)
    requires Validated(mappings)
    requires forall i :: 0 <= i < |mappings| ==> mappings[i].source in table.slots
    modifies table
    ensures ok ==> (Delivered(table.slots, old(table.slots), mappings)
                    <==> Apart(Temporaries(old(table.slots).Keys, |mappings|), mappings))
    ensures ok && Apart(Temporaries(old(table.slots).Keys, |mappings|), mappings) ==>
              IsParallelMove(table.slots, old(table.slots), mappings, limit)
    // without a failing call it succeeds, with or without close_range; and a refusing close_range always fails it
    ensures table.reliable && !table.range.RangeFailed? ==> ok
    ensures ok ==> !table.range.RangeFailed? && limit == if table.range.Unsupported? then Some(FALLBACK_LIMIT) else None
    ensures Members(Temporaries(old(table.slots).Keys, |mappings|)) !! table.slots.Keys
  {
    hide Duplicated, Temporaries, Filling, Delivered, IsParallelMove, Apart, Sealed;
    ghost var start := table.slots;
    ghost var names := Temporaries(start.Keys, |mappings|);
    assert Members(names) !! start.Keys by { TemporariesAreFresh(start.Keys, |mappings|); }
    limit := None;
    var temporaries := new int[MAX_MAPPED_CHILD_FDS](_ => -1);
    ok := DuplicateSources(table, mappings, temporaries);
    if !ok {
      return;
    }
    ghost var duplicated := table.slots;
    var range, sealed := SealOthers(table);
    if !sealed {
      CloseAll(table, temporaries, |mappings|);
      return false, limit;
    }
    limit := range;
    SealedKeepsDuplicates(duplicated, start, mappings, names, limit);
    ghost var done;
    ok, done := FillTargets(table, mappings, temporaries, start, limit);
    if ok { ClosingEndsMove(table.slots, start, mappings, names, limit); }
    CloseAll(table, temporaries, |mappings|);
  }

  /** Targets below the floor are always safe. */
  lemma {:induction false} BelowFloorIsApart(used: set<int>, mappings: seq<Mapping>)
    requires forall i :: 0 <= i < |mappings| ==> mappings[i].target < TEMPORARY_FLOOR
    ensures Apart(Temporaries(used, |mappings|), mappings)
  {
    TemporariesAreFresh(used, |mappings|);
  }

  /** A single mapping onto the first free number from the floor up is closed again before exec. */
  lemma {:induction false} TargetOnTemporary()
    ensures !Apart(Temporaries({0, 1, 2, 5}, 1), [Mapping(5, TEMPORARY_FLOOR)])
  {
    var fds := Temporaries({0, 1, 2, 5}, 1);
    assert Temporaries({0, 1, 2, 5}, 0) == [];
    assert fds[0] == TEMPORARY_FLOOR;
    assert !Untargeted(fds[0], [Mapping(5, TEMPORARY_FLOOR)]) by { assert [Mapping(5, TEMPORARY_FLOOR)][0].target == fds[0]; }
  }

  datatype MapError = NotADescriptor | DuplicateTarget | TooMany

  /** Descriptors to hand to one child. */
  class SpawnCommand {
    var inherited: seq<Mapping>

    constructor ()
      ensures inherited == []
    {
      inherited := [];
    }

    /** Only mappings that keep the command valid are added; an invalid one is refused and changes nothing. */
    method MapFd(mapping: Mapping) returns (r: Result<(), MapError>)
      requires Validated(inherited)
      modifies this
      ensures Validated(inherited)
      ensures r.Ok? <==> Validated(old(inherited) + [mapping])
      ensures inherited == if r.Ok? then old(inherited) + [mapping] else old(inherited)
    {
      ghost var longer := inherited + [mapping];
      assert longer[|inherited|] == mapping && forall i :: 0 <= i < |inherited| ==> longer[i] == inherited[i];
      if mapping.source < 0 || mapping.target < 3 {
        return Err(NotADescriptor);
      }
      var i := 0;
      while i < |inherited|
        invariant 0 <= i <= |inherited|
        invariant forall j :: 0 <= j < i ==> inherited[j].target != mapping.target
      {
        if inherited[i].target == mapping.target {
          assert longer[i].target == longer[|inherited|].target;
          return Err(DuplicateTarget);
        }
        i := i + 1;
      }
      if |inherited| >= MAX_MAPPED_CHILD_FDS {
        return Err(TooMany);
      }
      inherited := inherited + [mapping];
      return Ok(());
    }
  }

  /** The check made once more before spawning. */
  method ValidateMappings(mappings: seq<Mapping>) returns (r: Result<(), MapError>)
    ensures r.Ok? <==> Validated(mappings)
  {
    if |mappings| > MAX_MAPPED_CHILD_FDS {
      return Err(TooMany);
    }
    var index := 0;
    while index < |mappings|
      invariant 0 <= index <= |mappings|
      invariant Validated(mappings[..index])
    {
      var mapping := mappings[index];
      if mapping.source < 0 || mapping.target < 3 {
        return Err(NotADescriptor);
      }
      var earlier := 0;
      while earlier < index
        invariant 0 <= earlier <= index
        invariant forall j :: 0 <= j < earlier ==> mappings[j].target != mapping.target
      {
        if mappings[earlier].target == mapping.target {
          return Err(DuplicateTarget);
        }
        earlier := earlier + 1;
      }
      index := index + 1;
    }
    assert mappings[..index] == mappings;
    return Ok(());
  }
}
