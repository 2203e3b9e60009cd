/**
 The playback clock of src/cursor_theme.rs.  Instants are nanoseconds; a cursor
 image is an object because the clock compares bases by reference.
 */
module CursorClock {
  import opened Common

  const NANOS_PER_MS: nat := 1_000_000

  class CursorImage {
    const animation: seq<Frame>

    constructor (animation: seq<Frame>)
      ensures this.animation == animation
    {
      this.animation := animation;
    }
  }

  datatype Frame = Frame(image: CursorImage, delayMs: nat)

  // ----- what is shown when -----

  /** When the first n frames have all been shown once, in milliseconds. */
  function Prefix(animation: seq<Frame>, n: nat): nat
    requires n <= |animation|
  {
    if n == 0 then 0 else Prefix(animation, n - 1) + animation[n - 1].delayMs
  }

  function Total(animation: seq<Frame>): nat { Prefix(animation, |animation|) }

  function RawMs(start: nat, now: nat): nat {
    if now > start then (now - start) / NANOS_PER_MS else 0
  }

  function Cycle(animation: seq<Frame>): nat { if Total(animation) == 0 then 1 else Total(animation) }

  function Mod(x: nat, t: nat): (r: nat)
    requires t > 0
    ensures r < t
  {
    x % t
  }

  /** Milliseconds into the current cycle. */
  function Phase(animation: seq<Frame>, start: nat, now: nat): nat {
    Mod(Saturated(RawMs(start, now)), Cycle(animation))
  }

  /** Frame i is on screen in the half-open interval between its prefix sums. */
  predicate Holds(animation: seq<Frame>, i: nat, phase: nat) {
    i < |animation| && Prefix(animation, i) <= phase < Prefix(animation, i + 1)
  }

  function Deadline(animation: seq<Frame>, i: nat, phase: nat, now: nat): nat
    requires Holds(animation, i, phase)
  {
    now + (Prefix(animation, i + 1) - phase) * NANOS_PER_MS
  }

  predicate Playable(animation: seq<Frame>) {
    |animation| > 1 && forall i :: 0 <= i < |animation| ==> animation[i].delayMs > 0
  }

  lemma {:induction false} PrefixGrows(animation: seq<Frame>, m: nat, n: nat)
    requires m <= n <= |animation|
    ensures Prefix(animation, m) <= Prefix(animation, n)
    ensures Playable(animation) && m < n ==> Prefix(animation, m) < Prefix(animation, n)
  {
    if m < n { PrefixGrows(animation, m, n - 1); }
  }

  /** At most one frame is on screen. */
  lemma HoldsIsUnique(animation: seq<Frame>, i: nat, j: nat, phase: nat)
    requires Holds(animation, i, phase) && Holds(animation, j, phase)
    ensures i == j
  {
    if i < j { PrefixGrows(animation, i + 1, j); } else if j < i { PrefixGrows(animation, j + 1, i); }
  }

  class CursorAnimationClock {
    var base: Option<CursorImage>
    var startedAt: Option<nat>
    var nextDeadline: Option<nat>

    constructor ()
      ensures base == None && startedAt == None && nextDeadline == None
    {
      base, startedAt, nextDeadline := None, None, None;
    }

    /**
     Shows the frame whose interval holds the time elapsed in the cycle, with
     the deadline at the end of that interval.  The clock starts over on another
     base.  The fall-through to the base is taken exactly when all delays are 0.
     */
    method Show(image: CursorImage, now: nat) returns (shown: CursorImage, ghost i: nat)
      modifies this
      ensures |image.animation| <= 1 ==> shown == image && base == None && startedAt == None && nextDeadline == None
      ensures |image.animation| > 1 ==>
        && base == Some(image)
        && startedAt == (if old(base) == Some(image) && old(startedAt).Some? then old(startedAt) else Some(now))
        && (Total(image.animation) == 0 ==> shown == image && nextDeadline == None)
        && (Total(image.animation) > 0 ==>
              var phase := Phase(image.animation, startedAt.value, now);
              && Holds(image.animation, i, phase)
              && shown == image.animation[i].image
              && nextDeadline == Some(Deadline(image.animation, i, phase, now))
              && nextDeadline.value > now)
    {
      i := 0;
      var animation := image.animation;
      if |animation| <= 1 {
        base, startedAt, nextDeadline := None, None, None;
        return image, 0;
      }
      var start := now;
      if base == Some(image) && startedAt.Some? {
        start := startedAt.value;
      } else {
        base, startedAt := Some(image), Some(now);
      }
      var total := 0;
      for k := 0 to |animation|
        invariant total == Prefix(animation, k)
      {
        total := total + animation[k].delayMs;
      }
      var cycle := if total == 0 then 1 else total;
      var phase := Mod(Saturated(RawMs(start, now)), cycle);
      var end := 0;
      for k := 0 to |animation|
        invariant end == Prefix(animation, k) <= phase
      {
        end := end + animation[k].delayMs;
        if phase < end {
          PrefixGrows(animation, k + 1, |animation|);
          nextDeadline := Some(now + (end - phase) * NANOS_PER_MS);
          return animation[k].image, k;
        }
      }
      nextDeadline := None;
      shown := image;
    }
  }

  // ----- playing in order -----

  lemma MulGap(t: nat, a: nat, b: nat)
    requires a < b
    ensures t * a + t <= t * b
  {
    var d: nat := b - a - 1;
    assert t * b == t * a + t + t * d;
  }

  lemma ModIs(x: nat, q: nat, t: nat, r: nat)
    requires r < t && x == t * q + r
    ensures Mod(x, t) == r
  {
    var q', r' := x / t, x % t;
    assert x == t * q' + r';
    if q' > q { MulGap(t, q, q'); } else if q' < q { MulGap(t, q', q); }
  }

  lemma IndexAfter(i: nat, n: nat)
    requires i < n
    ensures Mod(i + 1, n) == if i + 1 == n then 0 else i + 1
  {
    if i + 1 == n { ModIs(i + 1, 1, n, 0); } else { ModIs(i + 1, 0, n, i + 1); }
  }

  /** Advancing within a cycle, or exactly to its end. */
  lemma ModAdvance(a: nat, d: nat, t: nat)
    requires t > 0 && Mod(a, t) + d <= t
    ensures Mod(a + d, t) == if Mod(a, t) + d == t then 0 else Mod(a, t) + d
  {
    var q := a / t;
    assert a == t * q + a % t;
    if a % t + d == t {
      assert t * (q + 1) == t * q + t;
      ModIs(a + d, q + 1, t, 0);
    } else {
      ModIs(a + d, q, t, a % t + d);
    }
  }

  /** Truncation to milliseconds does not disturb a wait of whole milliseconds. */
  lemma WholeMillis(start: nat, now: nat, wait: nat)
    requires start <= now
    ensures RawMs(start, now + wait * NANOS_PER_MS) == RawMs(start, now) + wait
  {
  }

  lemma {:induction false} PhaseExists(animation: seq<Frame>, n: nat, phase: nat) returns (i: nat)
    requires n <= |animation| && phase < Prefix(animation, n)
    ensures Holds(animation, i, phase)
  {
    if Prefix(animation, n - 1) <= phase { i := n - 1; } else { i := PhaseExists(animation, n - 1, phase); }
  }

  /** The frame after i in the cycle begins where i ends. */
  lemma NextHolds(animation: seq<Frame>, i: nat)
    requires Playable(animation) && i < |animation|
    ensures var end := Prefix(animation, i + 1);
            Holds(animation, Mod(i + 1, |animation|), if end == Total(animation) then 0 else end)
  {
    hide Mod;
    IndexAfter(i, |animation|);
    if i + 1 < |animation| {
      PrefixGrows(animation, i + 1, |animation|);
      PrefixGrows(animation, i + 1, i + 2);
    } else {
      PrefixGrows(animation, 0, 1);
    }
  }

  /**
   Sampled exactly at its deadline the clock shows the next frame of the cycle,
   if and only if the elapsed milliseconds still fit in 64 bits then; after
   that the clock stays on the same frame.
   */
  lemma NextFrameAtDeadline(animation: seq<Frame>, start: nat, now: nat, i: nat)
    requires Playable(animation) && start <= now && Holds(animation, i, Phase(animation, start, now))
    ensures var deadline := Deadline(animation, i, Phase(animation, start, now), now);
            && (Holds(animation, Mod(i + 1, |animation|), Phase(animation, start, deadline)) <==>
                  RawMs(start, deadline) <= MAX_U64)
            && (RawMs(start, deadline) > MAX_U64 ==> Holds(animation, i, Phase(animation, start, deadline)))
  {
    hide Mod;
    var total := Total(animation);
    PrefixGrows(animation, 0, |animation|);
    PrefixGrows(animation, i + 1, |animation|);
    var phase := Phase(animation, start, now);
    var wait := Prefix(animation, i + 1) - phase;
    var deadline := Deadline(animation, i, phase, now);
    WholeMillis(start, now, wait);
    var raw := RawMs(start, now);
    if raw + wait <= MAX_U64 {
      ModAdvance(raw, wait, total);
      NextHolds(animation, i);
    } else {
      var short := if raw > MAX_U64 then 0 else MAX_U64 - raw;
      assert short < wait;
      IndexAfter(i, |animation|);
      ModAdvance(Saturated(raw), short, total);
      assert Phase(animation, start, deadline) == phase + short;
      if Holds(animation, Mod(i + 1, |animation|), phase + short) {
        HoldsIsUnique(animation, i, Mod(i + 1, |animation|), phase + short);
      }
    }
  }

  /**
   The failing input, for every animation: a clock that has run for 2^64 - 1
   milliseconds wakes at its deadline and shows the same frame.
   */
  lemma StuckAtDeadline(animation: seq<Frame>, start: nat) returns (now: nat, i: nat)
    requires Playable(animation)
    ensures start <= now && Holds(animation, i, Phase(animation, start, now))
    ensures var deadline := Deadline(animation, i, Phase(animation, start, now), now);
            && deadline > now && RawMs(start, deadline) > MAX_U64
            && Holds(animation, i, Phase(animation, start, deadline))
            && !Holds(animation, Mod(i + 1, |animation|), Phase(animation, start, deadline))
  {
    hide Mod;
    now := start + MAX_U64 * NANOS_PER_MS;
    PrefixGrows(animation, 1, |animation|);
    assert Prefix(animation, 1) > 0 by { assert Prefix(animation, 0) == 0; }
    i := PhaseExists(animation, |animation|, Phase(animation, start, now));
    WholeMillis(start, start, MAX_U64);
    WholeMillis(start, now, Prefix(animation, i + 1) - Phase(animation, start, now));
    NextFrameAtDeadline(animation, start, now, i);
  }

  /** When the interval of the shown frame ends. */
  function IntervalEnd(animation: seq<Frame>, start: nat, now: nat, i: nat): nat
    requires Holds(animation, i, Phase(animation, start, now))
  {
    start + (RawMs(start, now) + Prefix(animation, i + 1) - Phase(animation, start, now)) * NANOS_PER_MS
  }

  /** Truncation makes the deadline late by less than a millisecond; until the interval ends the same frame is shown. */
  lemma DeadlineIsTight(animation: seq<Frame>, start: nat, now: nat, i: nat, later: nat)
    requires Playable(animation) && start <= now <= later && Holds(animation, i, Phase(animation, start, now))
    ensures var end, deadline := IntervalEnd(animation, start, now, i), Deadline(animation, i, Phase(animation, start, now), now);
            end <= deadline < end + NANOS_PER_MS && (later < end ==> Holds(animation, i, Phase(animation, start, later)))
  {
    hide Mod;
    PrefixGrows(animation, 0, |animation|);
    PrefixGrows(animation, i + 1, |animation|);
    var phase := Phase(animation, start, now);
    var raw, raw' := RawMs(start, now), RawMs(start, later);
    if later < IntervalEnd(animation, start, now, i) {
      assert raw <= raw' < raw + (Prefix(animation, i + 1) - phase);
      ModAdvance(Saturated(raw), Saturated(raw') - Saturated(raw), Total(animation));
    }
  }

  /** The k-th wake-up of a clock that is sampled at its start and then at each of its deadlines. */
  function WakeUp(animation: seq<Frame>, start: nat, k: nat): nat
    requires Playable(animation)
  {
    if k == 0 then start
    else WakeUp(animation, start, k - 1) + animation[Mod(k - 1, |animation|)].delayMs * NANOS_PER_MS
  }

  /** A clock sampled at the beginning of frame i and again one delay later is at the beginning of the next frame. */
  lemma PlayStep(animation: seq<Frame>, start: nat, now: nat, i: nat)
    requires Playable(animation) && start <= now && i < |animation|
              && Phase(animation, start, now) == Prefix(animation, i)
    requires RawMs(start, now + animation[i].delayMs * NANOS_PER_MS) <= MAX_U64
    ensures Phase(animation, start, now + animation[i].delayMs * NANOS_PER_MS) == Prefix(animation, Mod(i + 1, |animation|))
  {
    hide Mod;
    PrefixGrows(animation, i + 1, |animation|);
    if i + 1 < |animation| { PrefixGrows(animation, i + 1, |animation|); }
    WholeMillis(start, now, animation[i].delayMs);
    ModAdvance(RawMs(start, now), animation[i].delayMs, Total(animation));
    IndexAfter(i, |animation|);
  }

  /** Woken at each deadline the clock shows the frames in order, cycle after cycle, each for its own delay. */
  lemma {:induction false} PlaysInOrder(animation: seq<Frame>, start: nat, k: nat)
    requires Playable(animation) && RawMs(start, WakeUp(animation, start, k)) <= MAX_U64
    ensures WakeUp(animation, start, k) >= start
    ensures var now, i := WakeUp(animation, start, k), Mod(k, |animation|);
            && Holds(animation, i, Phase(animation, start, now))
            && Deadline(animation, i, Phase(animation, start, now), now) == WakeUp(animation, start, k + 1)
    ensures Phase(animation, start, WakeUp(animation, start, k)) == Prefix(animation, Mod(k, |animation|))
  {
    hide Mod;
    PrefixGrows(animation, 0, |animation|);
    if k == 0 {
      IndexZero(|animation|);
      IndexZero(Total(animation));
      PrefixGrows(animation, 0, 1);
    } else {
      var before, i := WakeUp(animation, start, k - 1), Mod(k - 1, |animation|);
      assert WakeUp(animation, start, k) == before + animation[i].delayMs * NANOS_PER_MS;
      RawGrows(start, before, WakeUp(animation, start, k));
      hide Phase, RawMs;
      PlaysInOrder(animation, start, k - 1);
      PlayStep(animation, start, before, i);
      NextIndex(k, |animation|);
    }
  }

  lemma RawGrows(start: nat, s: nat, t: nat)
    requires s <= t
    ensures RawMs(start, s) <= RawMs(start, t)
  {
    hide Mod;
  }

  lemma IndexZero(n: nat)
    requires n > 0
    ensures Mod(0, n) == 0
  {
    ModIs(0, 0, n, 0);
  }

  lemma NextIndex(k: nat, n: nat)
    requires k > 0 && n > 1
    ensures Mod(k, n) == Mod(Mod(k - 1, n) + 1, n)
  {
    ModAdvance(k - 1, 1, n);
    IndexAfter(Mod(k - 1, n), n);
  }
}
