/**
 Applying cursor configurations, from src/cursor_manager.rs: load the theme,
 persist the configuration, then publish.  A configuration is identified with
 the document it is stored as.
 */
module CursorManager {
  import opened Common
  import opened Filesystem
  import opened CursorTransaction
  import opened CursorPublication
  import CursorStore

  const MAX_RETIRED: nat := 16

  type Configuration = Document

  /** A loaded theme; the serial tells apart two loads of the same configuration. */
  datatype Theme = Theme(configuration: Configuration, serial: nat, hasMove: bool)

  /** An image that came with a theme, or one loaded later for a protocol shape. */
  datatype Image = PointerImage(theme: Theme) | MoveImage(theme: Theme) | Loaded(configuration: Configuration, shape: nat, serial: nat)

  datatype Source = DefaultSource | ConfigSource | ControlSource

  datatype Persisted = Saved | MissingFile | InvalidFile | InsecureFile | WriteFailure

  const MAX_SHAPES: nat := 16
  const GRABBING: nat := 17

  predicate KnownShape(shape: nat) { 1 <= shape <= 36 }

  /** What a shape without an image of its own shows. */
  function Fallback(theme: Theme, shape: nat): Image {
    if shape == GRABBING && theme.hasMove then MoveImage(theme) else PointerImage(theme)
  }

  /** The image belongs to the theme. */
  predicate Of(image: Image, theme: Theme) {
    match image
    case PointerImage(t) => t == theme
    case MoveImage(t) => t == theme
    case Loaded(configuration, _, _) => configuration == theme.configuration
  }

  datatype ManagerError = LoadFailed | ResourceBusy | Persistence(error: PersistenceError)

  datatype Change = Change(published: bool, generation: nat, image: Image)

  /** The themes something outside still uses, in order. */
  function StillOwned(themes: seq<Theme>, owned: Theme -> bool): (r: seq<Theme>)
    ensures |r| <= |themes|
    ensures multiset(r) <= multiset(themes)
    ensures forall t :: t in themes && owned(t) ==> t in r
    ensures forall t :: t in r ==> t in themes && owned(t)
  {
    if themes == [] then []
    else
      var last := |themes| - 1;
      assert themes == themes[..last] + [themes[last]];
      StillOwned(themes[..last], owned) + if owned(themes[last]) then [themes[last]] else []
  }

  /** Every theme ever activated is the active one, is retired, or was released. */
  ghost predicate Accounted(activated: seq<Theme>, active: Theme, retired: seq<Theme>, released: multiset<Theme>) {
    && activated != [] && activated[|activated| - 1] == active
    && multiset(activated) == multiset{active} + multiset(retired) + released
  }

  /** No cached image outlives its theme. */
  predicate Cached(shapes: map<nat, Image>, plain: set<nat>, active: Theme) {
    && (forall shape <- shapes :: Of(shapes[shape], active) && shapes[shape] != PointerImage(active))
    && |shapes| <= MAX_SHAPES && shapes.Keys !! plain
  }

  class CursorThemeManager {
    var desired: Configuration
    var active: Theme
    var generation: nat
    var source: Source
    var persisted: Persisted
    var retired: seq<Theme>
    var shapes: map<nat, Image>   // images of protocol shapes, loaded on demand
    var plain: set<nat>           // shapes known to show their fallback
    var attached: bool            // store and loader have not been handed to the worker
    const dir: Directory
    ghost var activated: seq<Theme>
    ghost var released: multiset<Theme>

    ghost predicate Valid()
      reads this
    {
      Accounted(activated, active, retired, released) && Cached(shapes, plain, active)
    }

    constructor (desired: Configuration, active: Theme, source: Source, persisted: Persisted, dir: Directory)
      ensures Valid() && this.desired == desired && this.active == active && this.dir == dir && retired == []
                && generation == 1 && attached
    {
      this.desired, this.active, this.dir, generation, retired := desired, active, dir, 1, [];
      this.source, this.persisted, shapes, plain := source, persisted, map[], {};
      attached, activated, released := true, [active], multiset{};
    }

    /** Releases exactly the retired themes that nothing outside uses. */
    method CollectRetired(owned: Theme -> bool)
      requires Valid()
      modifies this`retired, this`released
      ensures Valid() && retired == StillOwned(old(retired), owned)
      ensures forall t :: released[t] > old(released)[t] ==> !owned(t)
    {
      hide StillOwned;
      retired := StillOwned(retired, owned);
      released := released + (multiset(old(retired)) - multiset(retired));
      forall t | released[t] > old(released)[t] ensures !owned(t) { ReleasedIsUnowned(old(retired), owned, t); }
    }

    method EnsureCapacity(owned: Theme -> bool) returns (ok: bool)
      requires Valid()
      modifies this`retired, this`released
      ensures Valid() && retired == StillOwned(old(retired), owned)
      ensures forall t :: released[t] > old(released)[t] ==> !owned(t)
      ensures ok <==> |retired| < MAX_RETIRED
    {
      hide StillOwned;
      CollectRetired(owned);
      ok := |retired| < MAX_RETIRED;
    }

    /**
     The new theme is active, the previous one retired, and nothing loaded for
     the previous one is left in the caches.
     */
    method Publish(configuration: Configuration, candidate: Theme, source: Source,
                   persisted: Persisted) returns (change: Change)
      requires Valid()
      modifies this`active, this`desired, this`retired, this`generation, this`activated, this`source,
               this`persisted, this`shapes, this`plain
      ensures Valid() && active == candidate && desired == configuration && retired == old(retired) + [old(active)]
      ensures this.source == source && this.persisted == persisted && shapes == map[] && plain == {}
      ensures generation == Increment(old(generation)) && change == Change(true, generation, PointerImage(candidate))
      ensures activated == old(activated) + [candidate]
    {
      hide Accounted;
      AccountedGrows(activated, active, retired, released, candidate);
      retired := retired + [active];
      active, desired := candidate, configuration;
      this.source, this.persisted := source, persisted;
      generation := Increment(generation);
      shapes, plain := map[], {};
      activated := activated + [candidate];
      change := Change(true, generation, PointerImage(active));
    }

    /** The shape has been asked for since the theme was activated. */
    predicate Decided(shape: nat)
      reads this
    {
      !KnownShape(shape) || shape in shapes || shape in plain
    }

    /** What the shape shows from then on. */
    function Shown(shape: nat): Image
      reads this
    {
      if !KnownShape(shape) then PointerImage(active) else if shape in shapes then shapes[shape] else Fallback(active, shape)
    }

    /**
     The image of a protocol shape always belongs to the active theme, and a
     decided shape shows the same image again.  The first request decides: it
     shows the image that the loader finds, or else the fallback, and that is
     what later ones will show if and only if there was room for it in the
     cache or the loader found none.
     */
    method ImageFor(shape: nat, found: Option<nat>) returns (image: Image)
      requires Valid()
      modifies this`shapes, this`plain
      ensures Valid() && Of(image, active) && Decided(shape)
      ensures old(Decided(shape)) ==> image == old(Shown(shape)) && shapes == old(shapes) && plain == old(plain)
      ensures !old(Decided(shape)) ==>
                image == if found.Some? then Loaded(active.configuration, shape, found.value) else Fallback(active, shape)
      // protocol shapes are 1 to 36; a grabbing hand falls back to the move image, everything else to the pointer
      ensures shape == 0 || shape > 36 ==> image == PointerImage(active)
      ensures 1 <= shape <= 36 && !old(Decided(shape)) && found.None? ==>
                image == if shape == GRABBING && active.hasMove then MoveImage(active) else PointerImage(active)
      ensures image == Shown(shape) <==> old(Decided(shape)) || |old(shapes)| < MAX_SHAPES || found.None?
      ensures forall other :: other != shape && old(Decided(other)) ==>
                Decided(other) && Shown(other) == old(Shown(other))
    {
      hide Accounted;
      if !KnownShape(shape) {
        return PointerImage(active);
      }
      var fallback := Fallback(active, shape);
      if shape in shapes {
        return shapes[shape];
      }
      if shape in plain {
        return fallback;
      }
      image := if found.Some? then Loaded(active.configuration, shape, found.value) else fallback;
      if image == PointerImage(active) || |shapes| >= MAX_SHAPES {
        plain := plain + {shape};
      } else {
        shapes := shapes[shape := image];
      }
    }

    /** The loader may fail, or give any theme of that configuration. */
    method Load(configuration: Configuration) returns (r: Result<Theme, ManagerError>)
      ensures !attached ==> r == Err(ResourceBusy)
      ensures attached ==> r.Ok? || r == Err(LoadFailed)
      ensures r.Ok? ==> r.value.configuration == configuration
    {
      if !attached {
        return Err(ResourceBusy);
      }
      var loaded: bool, theme: Theme := *, *;
      r := if loaded then Ok(theme.(configuration := configuration)) else Err(LoadFailed);
    }

    /** Writes the configuration file; success means it is in place, verified, with the directory synced after it. */
    method Persist(configuration: Configuration, fault: Option<Fault>)
      returns (r: Result<WriteOutcome, PersistenceError>, ghost made: nat, ghost events: seq<Event>)
      modifies dir
      ensures old(dir.Recorded()) ==> dir.Recorded()
      ensures dir.trace == old(dir.trace) + events && made >= old(dir.fs.next)
      ensures r.Ok? ==> r.value.committed && PublishedAs(dir.fs, made, configuration)
      ensures if r.Ok? then Durable(events, made) && Committed(events, |events|, made) else Unsynced(events)
      ensures dir.solitary ==> Safe(dir.fs, old(dir.fs), configuration)
      ensures dir.Tame() && !dir.blind && CursorStore.Healthy(old(dir.fs)) && fault.None? ==>
                r.Ok? || r == Err(Insecure)
    {
      hide *;
      ghost var lost, own, p;
      r, lost, events, made, own, p := CursorStore.Write(dir, None, configuration, fault);
    }

    /**
     Memory never runs ahead of the disk: a change is published only after the
     configuration file holds it, committed; a failed request leaves the active
     theme, the desired configuration and the generation alone; a request for
     what is already active touches nothing.  The retired themes stay within
     their bound.
     */
    method Apply(configuration: Configuration, owned: Theme -> bool, fault: Option<Fault>)
      returns (r: Result<Change, ManagerError>, ghost made: nat, ghost events: seq<Event>)
      requires Valid()
      modifies this`active, this`desired, this`retired, this`generation, this`activated, this`released, this`source,
               this`persisted, this`shapes, this`plain, dir
      ensures Valid() && dir.trace == old(dir.trace) + events && (old(dir.Recorded()) ==> dir.Recorded())
      ensures r.Ok? && r.value.published ==>
        && desired == configuration == active.configuration && generation == Increment(old(generation))
            && activated == old(activated) + [active]
        && source == ControlSource && persisted == Saved && r.value.image == PointerImage(active) && shapes == map[]
            && plain == {}
        && PublishedAs(dir.fs, made, configuration) && made >= old(dir.fs.next)
        && Durable(events, made) && Committed(events, |events|, made)
      ensures r.Err? || !r.value.published ==> Unsynced(events)
      ensures r.Ok? && !r.value.published ==>
        && configuration == desired == active.configuration && dir.fs == old(dir.fs) && retired == old(retired)
      ensures r.Err? || !r.value.published ==>
                active == old(active) && desired == old(desired) && generation == old(generation)
                                                 && source == old(source) && persisted == old(persisted)
                                                     && shapes == old(shapes)
      // what is active already is not even loaded
      ensures old(desired) == configuration == old(active).configuration ==> r.Ok? && !r.value.published && events == []
      // busy means that nothing may be loaded, or that there is no room to retire the active theme
      ensures r == Err(ResourceBusy) ==> !attached || |StillOwned(old(retired), owned)| >= MAX_RETIRED
      ensures r.Err? ==> r.error in {ResourceBusy, LoadFailed} || r.error.Persistence?
      ensures dir.Tame() && !dir.blind && CursorStore.Healthy(old(dir.fs)) && fault.None? && r.Err?
                && r.error.Persistence? ==>
                r.error == Persistence(Insecure)
      ensures !attached ==> (r == Err(ResourceBusy) || r.Ok?) && dir.fs == old(dir.fs) && retired == old(retired)
      ensures dir.solitary ==> Safe(dir.fs, old(dir.fs), configuration)
      ensures |old(retired)| <= MAX_RETIRED ==> |retired| <= MAX_RETIRED
      ensures forall t :: released[t] > old(released)[t] ==> !owned(t)
    {
      hide Safe, PublishedAs, StillOwned, Durable, Committed, Unsynced, Chain, Accounted, Cached;
      SafeAtFirst(dir.fs, configuration);
      made, events := 0, [];
      if desired == configuration && active.configuration == configuration {
        return Ok(Change(false, generation, PointerImage(active))), made, events;
      }
      var candidate := Load(configuration);
      if candidate.Err? {
        return Err(candidate.error), made, events;
      }
      var room := EnsureCapacity(owned);
      if !room {
        return Err(ResourceBusy), made, events;
      }
      var written;
      written, made, events := Persist(configuration, fault);
      if written.Err? {
        return Err(Persistence(written.error)), made, events;
      }
      var change := Publish(configuration, candidate.value, ControlSource, Saved);
      r := Ok(change);
    }
  }

  lemma AccountedGrows(activated: seq<Theme>, active: Theme, retired: seq<Theme>, released: multiset<Theme>,
                       candidate: Theme)
    requires Accounted(activated, active, retired, released)
    ensures Accounted(activated + [candidate], candidate, retired + [active], released)
  {
  }

  lemma SafeAtFirst(f: Fs, document: Document)
    ensures Safe(f, f, document) && Unsynced([])
  {
  }

  lemma ReleasedIsUnowned(themes: seq<Theme>, owned: Theme -> bool, t: Theme)
    requires multiset(themes)[t] > multiset(StillOwned(themes, owned))[t]
    ensures !owned(t)
  {
    if themes != [] {
      var last := |themes| - 1;
      assert themes == themes[..last] + [themes[last]];
      if themes[last] != t || owned(t) { ReleasedIsUnowned(themes[..last], owned, t); }
    }
  }
}
