/**
 The reversible minimise/restore transitions of src/window_lifecycle_animation.rs.
 Times are nanoseconds; progress is an exact real.
 */
module LifecycleAnimator {
  import opened Common
  import opened Geometry
  import Lamp
  import Squash

  datatype Kind = WindowLifecycle | OtherKind

  datatype Identity = Identity(node: nat, kind: Kind, serial: nat)

  datatype Heading = Minimize | Restore {
    function Target(): real { if Minimize? then 1.0 else 0.0 }
    function Origin(): real { 1.0 - Target() }
  }

  datatype Request = Request(identity: Identity, heading: Heading, effect: Lamp.Effect, opacity: real)

  datatype Motion = Motion(
    identity: Identity,
    heading: Heading,
    effect: Lamp.Effect,
    opacity: real,
    start: real,
    target: real,
    startedAt: nat,
    duration: nat)

  function BaseMillis(effect: Lamp.Effect): nat { if effect.LampEffect? then 280 else 250 }

  function Speed(speed: Lamp.Float): real {
    if speed.Finite? then Clamp(speed.value, 0.5, 2.0) else 1.0
  }

  /** Half up, which on these non-negative values is half away from zero. */
  function Rounded(x: real): int { (x + 0.5).Floor }

  /** Nanoseconds for the whole way. */
  function WholeNanos(effect: Lamp.Effect, speed: Lamp.Float): (r: real)
    ensures r >= 125000000.0
  {
    var base, v := BaseMillis(effect) as real * 1000000.0, Speed(speed);
    assert base / v >= base / 2.0;
    base / v
  }

  function DurationNanos(effect: Lamp.Effect, speed: Lamp.Float, remaining: real): nat {
    Rounded(Part(WholeNanos(effect, speed), Clamp01(remaining)))
  }

  /**
   Every duration is the nearest nanosecond to its share of the whole way, which
   is 280 ms for the lamp and 250 ms for the squash over the speed, at most twice
   that.
   */
  lemma DurationIsNearest(effect: Lamp.Effect, speed: Lamp.Float, remaining: real)
    requires 0.0 <= remaining <= 1.0
    ensures Abs(DurationNanos(effect, speed, remaining) as real - Part(WholeNanos(effect, speed), remaining)) <= 0.5
    ensures WholeNanos(effect, speed) * Speed(speed) == if effect.LampEffect? then 280000000.0 else 250000000.0
    ensures DurationNanos(effect, speed, remaining) <= 2 * BaseMillis(effect) * 1000000
  {
    var base, v := BaseMillis(effect) as real * 1000000.0, Speed(speed);
    assert base / v <= base / 0.5;
    assert base / v * v == base;
    var share := Part(WholeNanos(effect, speed), remaining);
    hide Part, WholeNanos;
    assert share <= base / 0.5;
  }

  function Timeline(m: Motion, now: nat): (r: real)
    requires m.duration > 0
    ensures 0.0 <= r <= 1.0
  {
    var elapsed := if now > m.startedAt then now - m.startedAt else 0;
    Clamp01(elapsed as real / m.duration as real)
  }

  function Progress(m: Motion, now: nat): real {
    if m.duration == 0 then m.target
    else Clamp01(Lerp(m.start, m.target, Timeline(m, now)))
  }

  /** What every motion held by the animator satisfies. */
  predicate Sound(m: Motion) {
    0.0 <= m.start <= 1.0 && m.target == m.heading.Target()
  }

  // ----- one motion over time -----

  lemma ProgressIsBlend(m: Motion, now: nat)
    requires Sound(m) && m.duration > 0
    ensures 0.0 <= Lerp(m.start, m.target, Timeline(m, now)) <= 1.0
    ensures Progress(m, now) == Lerp(m.start, m.target, Timeline(m, now))
  {
    LerpBetween(m.start, m.target, Timeline(m, now));
  }

  lemma TimelineRises(m: Motion, s: nat, t: nat)
    requires m.duration > 0 && s <= t
    ensures Timeline(m, s) <= Timeline(m, t)
  {
    var a, b := if s > m.startedAt then s - m.startedAt else 0, if t > m.startedAt then t - m.startedAt else 0;
    QuotientMonotone(a as real, b as real, m.duration as real);
  }

  lemma QuotientMonotone(a: real, b: real, d: real)
    requires a <= b && d > 0.0
    ensures a / d <= b / d
  {
  }

  lemma TimelineEnds(m: Motion, t: nat)
    requires m.duration > 0 && t >= m.startedAt + m.duration
    ensures Timeline(m, t) == 1.0
  {
    QuotientMonotone(m.duration as real, (t - m.startedAt) as real, m.duration as real);
  }

  /**
   Progress stays in [0, 1], never moves away from the target, and has reached
   it once the duration has passed.
   */
  lemma MotionAdvances(m: Motion, s: nat, t: nat)
    requires Sound(m) && s <= t
    ensures 0.0 <= Progress(m, s) <= 1.0
    ensures m.heading.Minimize? ==> Progress(m, s) <= Progress(m, t)
    ensures m.heading.Restore? ==> Progress(m, s) >= Progress(m, t)
    ensures t >= m.startedAt + m.duration ==> Progress(m, t) == m.target
  {
    if m.duration > 0 {
      ProgressIsBlend(m, s);
      ProgressIsBlend(m, t);
      TimelineRises(m, s, t);
      BlendAdvances(m.start, m.target, Timeline(m, s), Timeline(m, t));
      if t >= m.startedAt + m.duration { TimelineEnds(m, t); }
    }
  }

  lemma BlendAdvances(a: real, b: real, s: real, t: real)
    requires s <= t
    ensures a <= b ==> Lerp(a, b, s) <= Lerp(a, b, t)
    ensures a >= b ==> Lerp(a, b, s) >= Lerp(a, b, t)
  {
    if a <= b { ProductSign(b - a, t - s); } else { ProductSign(a - b, t - s); }
    assert Lerp(a, b, t) - Lerp(a, b, s) == (b - a) * (t - s) == -((a - b) * (t - s));
  }

  // ----- sampling -----

  datatype Sample = Sample(identity: Identity, progress: real, opacity: real, effect: Lamp.Effect, heading: Heading, settled: bool)

  function SampleAt(m: Motion, now: nat): Sample {
    var progress := Progress(m, now);
    var opacity := match m.effect
      case LampEffect => Lamp.Opacity(Lamp.Finite(progress))
      case SquashEffect => Squash.Opacity(progress, m.opacity);
    Sample(m.identity, progress, opacity, m.effect, m.heading, Abs(progress - m.target) <= Lamp.EPSILON)
  }

  /**
   A minimising window only fades, a restoring one only brightens, and once the
   duration has passed the sample is settled at the end.
   */
  lemma SamplesFade(m: Motion, s: nat, t: nat)
    requires Sound(m) && s <= t
    ensures 0.0 <= SampleAt(m, s).opacity <= 1.0
    ensures m.heading.Minimize? ==> SampleAt(m, s).opacity >= SampleAt(m, t).opacity
    ensures m.heading.Restore? ==> SampleAt(m, s).opacity <= SampleAt(m, t).opacity
    ensures t >= m.startedAt + m.duration ==>
              SampleAt(m, t).settled && (m.heading.Minimize? ==> SampleAt(m, t).opacity == 0.0)
  {
    hide Progress, Lamp.Opacity, Squash.Opacity;
    MotionAdvances(m, s, t);
    var a, b := Progress(m, s), Progress(m, t);
    var low, high := if m.heading.Minimize? then a else b, if m.heading.Minimize? then b else a;
    Lamp.OpacityFades(low, high);
    Squash.OpacityFades(low, high, m.opacity);
  }

  // ----- starting and reversing -----

  /** The motion that follows: effect and opacity come from the reversed motion, and so does the starting progress. */
  function Next(previous: Option<Motion>, request: Request, now: nat, speed: Lamp.Float, enabled: bool): Motion {
    var effect := if previous.Some? then previous.value.effect else request.effect;
    var opacity := if previous.Some? then previous.value.opacity else request.opacity;
    var start := if previous.Some? then Progress(previous.value, now) else request.heading.Origin();
    var target := request.heading.Target();
    var duration := if enabled then DurationNanos(effect, speed, Abs(target - start)) else 0;
    Motion(request.identity, request.heading, effect, opacity, start, target, now, duration)
  }

  /** Disabling settles a motion: it shows its target from then on. */
  function Settled(m: Motion, now: nat): Motion {
    m.(start := Progress(m, now), target := m.heading.Target(), startedAt := now, duration := 0)
  }

  function Snapped(m: Motion, now: nat): Motion {
    m.(start := m.heading.Target(), target := m.heading.Target(), startedAt := now, duration := 0)
  }

  lemma SmallShare(whole: real, share: real)
    requires whole >= 125000000.0 && 0.0 <= share <= 1.0 && Part(whole, share) < 0.5
    ensures share < 0.000000004
  {
    ProductSign(whole - 125000000.0, share);
    assert (whole - 125000000.0) * share == whole * share - 125000000.0 * share;
  }

  /** A duration rounds to zero only for an invisible rest of the way. */
  lemma ZeroDuration(effect: Lamp.Effect, speed: Lamp.Float, remaining: real)
    requires 0.0 <= remaining <= 1.0 && DurationNanos(effect, speed, remaining) == 0
    ensures remaining < 0.000000004
  {
    hide WholeNanos, Part;
    SmallShare(WholeNanos(effect, speed), remaining);
  }

  /**
   Reversing does not jump: while enabled the progress sampled at the moment of
   the reversal is the same before and after, or, exactly when the duration
   rounds to zero, is the target and less than 4e-9 away.  While disabled it is
   the target.
   */
  lemma ReversalIsContinuous(m: Motion, request: Request, now: nat, speed: Lamp.Float, enabled: bool)
    requires Sound(m)
    ensures Sound(Next(Some(m), request, now, speed, enabled))
    ensures var n := Next(Some(m), request, now, speed, enabled);
            && (n.duration != 0 ==> Progress(n, now) == Progress(m, now))
            && (n.duration == 0 ==> Progress(n, now) == request.heading.Target())
            && (enabled ==> Abs(Progress(n, now) - Progress(m, now)) < 0.000000004)
            && (!enabled ==> n.duration == 0)
  {
    MotionAdvances(m, now, now);
    var n := Next(Some(m), request, now, speed, enabled);
    if n.duration > 0 {
      ProgressIsBlend(n, now);
      assert Timeline(n, now) == 0.0;
    } else if enabled {
      ZeroDuration(m.effect, speed, Abs(request.heading.Target() - Progress(m, now)));
    }
  }

  /**
   The whole way takes its whole time, and a reversal the share of it that is
   left to go: with every motion the progress changes at the same speed.
   */
  lemma SpeedIsConstant(previous: Option<Motion>, request: Request, now: nat, speed: Lamp.Float)
    requires previous.Some? ==> Sound(previous.value)
    ensures var n := Next(previous, request, now, speed, true);
            var from := if previous.Some? then Progress(previous.value, now) else request.heading.Origin();
            && n.start == from && 0.0 <= from <= 1.0
            && Abs(n.duration as real - Part(WholeNanos(n.effect, speed), Abs(n.target - from))) <= 0.5
  {
    hide Progress, WholeNanos, DurationNanos, Part;
    if previous.Some? { MotionAdvances(previous.value, now, now); }
    var n := Next(previous, request, now, speed, true);
    DurationIsNearest(n.effect, speed, Abs(n.target - n.start));
  }

  /** A motion as `request` asks for it. */
  predicate Asked(m: Motion, request: Request) {
    m.identity == request.identity && m.heading == request.heading && m.effect == request.effect && m.opacity == request.opacity
  }

  /**
   Without a previous motion a minimise starts shown and ends hidden, a restore
   the other way round; while disabled the end shows at once.
   */
  lemma FreshStart(request: Request, now: nat, speed: Lamp.Float, enabled: bool)
    ensures var m := Next(None, request, now, speed, enabled);
            && Sound(m) && Asked(m, request)
            && (enabled ==> m.duration > 0 && Progress(m, now) == if request.heading.Minimize? then 0.0 else 1.0)
            && forall at: nat :: !enabled || at >= now + m.duration ==>
                 Progress(m, at) == if request.heading.Minimize? then 1.0 else 0.0
  {
    var m := Next(None, request, now, speed, enabled);
    if enabled {
      if m.duration == 0 { ZeroDuration(request.effect, speed, 1.0); }
      ProgressIsBlend(m, now);
    }
    forall at: nat | !enabled || at >= now + m.duration
      ensures Progress(m, at) == m.target
    {
      MotionAdvances(m, at, at);
    }
  }

  // ----- whole runs of one window -----

  datatype Turn =
    | Reverse(request: Request, now: nat, speed: Lamp.Float, enabled: bool)
    | Disable(now: nat)
    | Snap(now: nat)

  function After(m: Motion, turn: Turn): Motion {
    match turn
    case Reverse(request, now, speed, enabled) => Next(Some(m), request, now, speed, enabled)
    case Disable(now) => Settled(m, now)
    case Snap(now) => Snapped(m, now)
  }

  function Run(m: Motion, turns: seq<Turn>): Motion
    decreases |turns|
  {
    if turns == [] then m else After(Run(m, turns[..|turns| - 1]), turns[|turns| - 1])
  }

  /**
   Over any run: the motion stays sound, its progress stays in [0, 1], and
   effect and opacity are those of the first start.
   */
  lemma {:induction false} RunInherits(first: Motion, turns: seq<Turn>, at: nat)
    requires Sound(first)
    ensures Sound(Run(first, turns)) && 0.0 <= Progress(Run(first, turns), at) <= 1.0
    ensures Run(first, turns).effect == first.effect && Run(first, turns).opacity == first.opacity
    decreases |turns|
  {
    if turns != [] {
      var turn := turns[|turns| - 1];
      var before := Run(first, turns[..|turns| - 1]);
      RunInherits(first, turns[..|turns| - 1], turn.now);
    }
    MotionAdvances(Run(first, turns), at, at);
  }

  /** Over any run, every reversal made while enabled is invisible at the moment it is made. */
  lemma RunHasNoJumps(first: Motion, turns: seq<Turn>, i: nat)
    requires Sound(first) && i < |turns| && turns[i].Reverse? && turns[i].enabled
    ensures var now := turns[i].now;
            Abs(Progress(Run(first, turns[..i + 1]), now) - Progress(Run(first, turns[..i]), now)) < 0.000000004
  {
    RunInherits(first, turns[..i], 0);
    assert turns[..i + 1][..i] == turns[..i];
    ReversalIsContinuous(Run(first, turns[..i]), turns[i].request, turns[i].now, turns[i].speed, true);
  }

  // ----- the animator -----

  type Transitions = map<Identity, Motion>

  ghost predicate Consistent(transitions: Transitions) {
    forall id <- transitions :: transitions[id].identity == id && id.kind.WindowLifecycle? && Sound(transitions[id])
  }

  function WithoutPrevious(transitions: Transitions, previous: Option<Identity>): Transitions {
    if previous.Some? then transitions - {previous.value} else transitions
  }

  /** The transitions after disabling with the given active identities, taken in order. */
  function Disabled(transitions: Transitions, active: seq<Identity>, now: nat): Transitions
    decreases |active|
  {
    if active == [] then transitions
    else
      var before, id := Disabled(transitions, active[..|active| - 1], now), active[|active| - 1];
      if id in before then before[id := Settled(before[id], now)] else before
  }

  lemma {:induction false} DisabledIsConsistent(transitions: Transitions, active: seq<Identity>, now: nat)
    requires Consistent(transitions)
    ensures Disabled(transitions, active, now).Keys == transitions.Keys
              && Consistent(Disabled(transitions, active, now))
    decreases |active|
  {
    if active != [] {
      var last, rest := active[|active| - 1], active[..|active| - 1];
      DisabledIsConsistent(transitions, rest, now);
      if last in transitions { MotionAdvances(Disabled(transitions, rest, now)[last], now, now); }
    }
  }

  /**
   Disabling touches the active transitions only; each of them shows its target
   from then on and keeps its identity, heading, effect and opacity.
   */
  lemma {:induction false} DisabledSettles(transitions: Transitions, active: seq<Identity>, now: nat, id: Identity,
                                           at: nat)
    requires Consistent(transitions) && id in transitions
    ensures id in Disabled(transitions, active, now)
    ensures var m, n := transitions[id], Disabled(transitions, active, now)[id];
            if id in active then
              Progress(n, at) == m.target && n.startedAt == now && n == m.(start := n.start, startedAt := now, duration := 0)
            else n == m
    decreases |active|
  {
    if active != [] {
      var last, rest := active[|active| - 1], active[..|active| - 1];
      assert active == rest + [last];
      DisabledIsConsistent(transitions, rest, now);
      DisabledSettles(transitions, rest, now, id, at);
    }
  }

  class WindowLifecycleAnimator {
    var enabled: bool
    var transitions: Transitions

    ghost predicate Valid()
      reads this
    {
      Consistent(transitions)
    }

    constructor (enabled: bool)
      ensures Valid() && this.enabled == enabled && transitions == map[]
    {
      this.enabled := enabled;
      transitions := map[];
    }

    method SetEnabled(enabled: bool, active: seq<Identity>, now: nat)
      requires Valid()
      modifies this
      ensures Valid() && this.enabled == enabled
      ensures transitions ==
                if old(this.enabled) && !enabled then Disabled(old(transitions), active, now) else old(transitions)
    {
      if this.enabled && !enabled {
        var i := 0;
        while i < |active|
          invariant 0 <= i <= |active|
          invariant this.enabled == old(this.enabled)
          invariant transitions == Disabled(old(transitions), active[..i], now)
        {
          var id := active[i];
          assert active[..i + 1][..i] == active[..i];
          if id in transitions {
            transitions := transitions[id := Settled(transitions[id], now)];
          }
          i := i + 1;
        }
        assert active[..i] == active;
        DisabledIsConsistent(old(transitions), active, now);
      }
      this.enabled := enabled;
    }

    /**
     Starts a transition, or reverses the named previous one.  Refused without
     any change when the identity is of another kind or already in use, or when
     the previous identity is of another window, of another kind or not running.
     */
    method StartOrReverse(request: Request, previous: Option<Identity>, now: nat,
                          speed: Lamp.Float) returns (r: Option<Identity>)
      requires Valid()
      modifies this
      ensures Valid() && enabled == old(enabled)
      ensures r == if request.identity.kind.WindowLifecycle? && request.identity !in old(transitions)
                      && (previous.Some? ==> && previous.value.node == request.identity.node
                                             && previous.value.kind == request.identity.kind
                                             && previous.value in old(transitions))
                   then Some(request.identity) else None
      ensures r.None? ==> transitions == old(transitions)
      ensures r.Some? ==>
        var reversed := if previous.Some? then Some(old(transitions)[previous.value]) else None;
        transitions == WithoutPrevious(old(transitions), previous)[request.identity := Next(reversed, request, now, speed, enabled)]
      // a fresh minimise shows 0 and a fresh restore 1 at its moment; a reversal keeps what is shown, effect
      // and opacity
      ensures r.Some? && previous.None? ==>
        var m := transitions[request.identity];
        Asked(m, request) && (enabled ==> Progress(m, now) == if request.heading.Minimize? then 0.0 else 1.0)
      ensures r.Some? && previous.Some? ==>
        var was, m := old(transitions)[previous.value], transitions[request.identity];
        && m.effect == was.effect && m.opacity == was.opacity && m.heading == request.heading
        && (enabled ==> Abs(Progress(m, now) - Progress(was, now)) < 0.000000004)
    {
      hide Progress;
      if !request.identity.kind.WindowLifecycle? || request.identity in transitions {
        return None;
      }
      var reversed: Option<Motion> := None;
      if previous.Some? {
        var id := previous.value;
        if id.node != request.identity.node || id.kind != request.identity.kind || id !in transitions {
          return None;
        }
        reversed := Some(transitions[id]);
        ReversalIsContinuous(transitions[id], request, now, speed, enabled);
      } else {
        FreshStart(request, now, speed, enabled);
      }
      var motion := Next(reversed, request, now, speed, enabled);
      if previous.Some? {
        transitions := transitions - {previous.value};
      }
      transitions := transitions[request.identity := motion];
      r := Some(request.identity);
    }

    method Cancel(id: Identity) returns (r: Option<Identity>)
      requires Valid()
      modifies this`transitions
      ensures Valid() && transitions == old(transitions) - {id}
      ensures r == if id in old(transitions) then Some(id) else None
    {
      r := if id in transitions then Some(transitions[id].identity) else None;
      transitions := transitions - {id};
    }

    /** Only a settled transition is retired by its acknowledgement. */
    method Acknowledge(id: Identity, settled: bool) returns (r: Option<Identity>)
      requires Valid()
      modifies this`transitions
      ensures Valid() && transitions == if settled then old(transitions) - {id} else old(transitions)
      ensures r == if settled && id in old(transitions) then Some(id) else None
    {
      if !settled {
        return None;
      }
      r := Cancel(id);
    }

    /**
     From now on the transition shows the end of its way at every moment, in
     either direction of time; it stays owned, and so do all others unchanged.
     */
    method SnapToEndpoint(id: Identity, now: nat) returns (found: bool)
      requires Valid()
      modifies this`transitions
      ensures Valid() && found == (id in old(transitions))
      ensures transitions.Keys == old(transitions).Keys && transitions - {id} == old(transitions) - {id}
      ensures found ==> forall at :: Progress(transitions[id], at) == old(transitions)[id].heading.Target()
      ensures found ==> && transitions[id].heading == old(transitions)[id].heading
                        && transitions[id].effect == old(transitions)[id].effect
                            && transitions[id].opacity == old(transitions)[id].opacity
                        && transitions[id].startedAt + transitions[id].duration <= now
    {
      found := id in transitions;
      if found {
        transitions := transitions[id := Snapped(transitions[id], now)];
      }
    }
  }

  // ----- the rectangle a window group covers -----

  predicate Covers(r: Rect, client: Rect, owned: seq<Rect>, decoration: Option<Rect>) {
    && Contains(r, client)
    && (forall i :: 0 <= i < |owned| ==> Contains(r, owned[i]))
    && (decoration.Some? ==> Contains(r, decoration.value))
  }

  ghost predicate IsSmallest(r: Rect, client: Rect, owned: seq<Rect>, decoration: Option<Rect>) {
    && Covers(r, client, owned, decoration)
    && forall outer: Rect :: Covers(outer, client, owned, decoration) ==> Contains(outer, r)
  }

  function Corners(left: real, top: real, right: real, bottom: real): Rect {
    Rect(left, top, right - left, bottom - top)
  }

  function Grown(r: Rect, rect: Rect): Rect {
    Corners(Min(r.x, rect.x), Min(r.y, rect.y), Max(r.Right(), rect.Right()), Max(r.Bottom(), rect.Bottom()))
  }

  lemma GrowsOwned(r: Rect, client: Rect, owned: seq<Rect>, rect: Rect)
    requires IsSmallest(r, client, owned, None)
    ensures IsSmallest(Grown(r, rect), client, owned + [rect], None)
  {
    forall outer: Rect | Covers(outer, client, owned + [rect], None) ensures Contains(outer, Grown(r, rect)) {
      assert forall i :: 0 <= i < |owned| ==> owned[i] == (owned + [rect])[i];
      assert Contains(outer, (owned + [rect])[|owned|]);
      assert Covers(outer, client, owned, None);
    }
  }

  lemma GrowsDecoration(r: Rect, client: Rect, owned: seq<Rect>, rect: Rect)
    requires IsSmallest(r, client, owned, None)
    ensures IsSmallest(Grown(r, rect), client, owned, Some(rect))
  {
    forall outer: Rect | Covers(outer, client, owned, Some(rect)) ensures Contains(outer, Grown(r, rect)) {
      assert Covers(outer, client, owned, None);
    }
  }

  /**
   The smallest rectangle around the client, the owned visuals and the
   decoration; refused exactly when one of them is not a proper rectangle.
   */
  method CanonicalVisualRect(client: Rect, owned: seq<Rect>, decoration: Option<Rect>) returns (r: Option<Rect>)
    ensures r.Some? <==> && ValidRect(client)
                         && (forall i :: 0 <= i < |owned| ==> ValidRect(owned[i]))
                         && (decoration.Some? ==> ValidRect(decoration.value))
    ensures r.Some? ==> ValidRect(r.value) && IsSmallest(r.value, client, owned, decoration)
  {
    if !ValidRect(client) {
      return None;
    }
    var left, top, right, bottom := client.x, client.y, client.Right(), client.Bottom();
    for i := 0 to |owned|
      invariant forall k :: 0 <= k < i ==> ValidRect(owned[k])
      invariant IsSmallest(Corners(left, top, right, bottom), client, owned[..i], None)
    {
      var rect := owned[i];
      if !ValidRect(rect) {
        return None;
      }
      GrowsOwned(Corners(left, top, right, bottom), client, owned[..i], rect);
      assert owned[..i + 1] == owned[..i] + [rect];
      left, top := Min(left, rect.x), Min(top, rect.y);
      right, bottom := Max(right, rect.Right()), Max(bottom, rect.Bottom());
    }
    assert owned[..|owned|] == owned;
    if decoration.Some? {
      var rect := decoration.value;
      if !ValidRect(rect) {
        return None;
      }
      GrowsDecoration(Corners(left, top, right, bottom), client, owned, rect);
      left, top := Min(left, rect.x), Min(top, rect.y);
      right, bottom := Max(right, rect.Right()), Max(bottom, rect.Bottom());
    }
    r := MakeRect(left, top, right - left, bottom - top);
  }
}
