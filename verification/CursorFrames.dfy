/** Choice of a frame, the picture made of it and its animation, from src/cursor_theme.rs. */
module CursorFrames {
  import opened Common
  import opened Bytes

  const MIN_DELAY_MS: nat := 10
  const MAX_I32: nat := 0x7fff_ffff

  datatype Image = Image(size: nat, width: nat, height: nat, xhot: nat, yhot: nat, delay: nat, pixels: seq<Byte>)

  datatype Picture = Picture(width: nat, height: nat, hotspotX: nat, hotspotY: nat, requested: nat, pixels: seq<nat>)

  datatype Shown = Shown(picture: Picture, delayMs: nat)

  datatype Cursor = Cursor(picture: Picture, animation: seq<Shown>)

  datatype Error = NoFrames | BadDimensions | BadPixelCount | HotspotOverflow

  function AbsDiff(a: nat, b: nat): (r: nat)
    ensures r == a - b || r == b - a
  {
    if a >= b then a - b else b - a
  }

  /** Strictly nearer to the requested size, or as near and smaller. */
  predicate Preferred(a: Image, b: Image, requested: nat) {
    || AbsDiff(a.size, requested) < AbsDiff(b.size, requested)
    || (AbsDiff(a.size, requested) == AbsDiff(b.size, requested) && a.size < b.size)
  }

  /** The frame at k is preferred to every frame before it, and none after it is preferred to it. */
  ghost predicate IsNearest(frames: seq<Image>, requested: nat, k: nat) {
    && k < |frames|
    && (forall j :: 0 <= j < k ==> Preferred(frames[k], frames[j], requested))
    && (forall j :: k <= j < |frames| ==> !Preferred(frames[j], frames[k], requested))
  }

  method SelectNearest(frames: seq<Image>, requested: nat) returns (r: Result<Image, Error>, ghost k: nat)
    ensures frames == [] ==> r == Err(NoFrames)
    ensures frames != [] ==> IsNearest(frames, requested, k) && r == Ok(frames[k])
  {
    var selected: Option<Image> := None;
    k := 0;
    for i := 0 to |frames|
      invariant i == 0 ==> selected.None?
      invariant i > 0 ==> IsNearest(frames[..i], requested, k) && selected == Some(frames[k])
    {
      var replace := selected.None? || Preferred(frames[i], selected.value, requested);
      assert frames[..i + 1] == frames[..i] + [frames[i]];
      if replace {
        selected := Some(frames[i]);
        k := i;
      }
    }
    assert frames[..|frames|] == frames;
    r := if selected.Some? then Ok(selected.value) else Err(NoFrames);
  }

  /**
   The chosen frame is at least as near as every other; among the equally near
   it is of the smaller size, and it is the first frame of its size.
   */
  lemma NearestIsFirstOfItsSize(frames: seq<Image>, requested: nat, k: nat, j: nat)
    requires IsNearest(frames, requested, k) && j < |frames|
    ensures AbsDiff(frames[k].size, requested) <= AbsDiff(frames[j].size, requested)
    ensures AbsDiff(frames[k].size, requested) == AbsDiff(frames[j].size, requested) ==>
              frames[k].size <= frames[j].size
    ensures frames[j].size == frames[k].size ==> k <= j
  {
    assert j < k ==> Preferred(frames[k], frames[j], requested);
    assert j >= k ==> !Preferred(frames[j], frames[k], requested);
  }

  /** Only one frame can be chosen. */
  lemma NearestIsUnique(frames: seq<Image>, requested: nat, k: nat, l: nat)
    requires IsNearest(frames, requested, k) && IsNearest(frames, requested, l)
    ensures k == l
  {
    NearestIsFirstOfItsSize(frames, requested, k, l);
    NearestIsFirstOfItsSize(frames, requested, l, k);
  }

  // ----- pictures -----

  function BigEndian(a: Byte, b: Byte, c: Byte, d: Byte): nat { ((a * 256 + b) * 256 + c) * 256 + d }

  function Argb(bytes: seq<Byte>): (r: seq<nat>)
    ensures |r| == |bytes| / 4
    ensures forall i :: 0 <= i < |r| ==>
              r[i] == BigEndian(bytes[4 * i], bytes[4 * i + 1], bytes[4 * i + 2], bytes[4 * i + 3])
  {
    if |bytes| < 4 then [] else [BigEndian(bytes[0], bytes[1], bytes[2], bytes[3])] + Argb(bytes[4..])
  }

  function PictureOf(frame: Image, requested: nat): (r: Result<Picture, Error>)
    ensures r.Ok? <==> && frame.xhot < frame.width && frame.yhot < frame.height
                       && |frame.pixels| == frame.width * frame.height * 4 && frame.xhot <= MAX_I32
                           && frame.yhot <= MAX_I32
    ensures r.Ok? ==>
              && r.value.width == frame.width && r.value.height == frame.height
              && r.value.hotspotX == frame.xhot && r.value.hotspotY == frame.yhot && r.value.requested == requested
              && |r.value.pixels| == frame.width * frame.height
              && forall i :: 0 <= i < |r.value.pixels| ==>
                   r.value.pixels[i] == BigEndian(frame.pixels[4 * i], frame.pixels[4 * i + 1],
                                                  frame.pixels[4 * i + 2], frame.pixels[4 * i + 3])
  {
    if frame.width == 0 || frame.height == 0 || frame.xhot >= frame.width || frame.yhot >= frame.height then Err(BadDimensions)
    else if |frame.pixels| != frame.width * frame.height * 4 then Err(BadPixelCount)
    else if frame.xhot > MAX_I32 || frame.yhot > MAX_I32 then Err(HotspotOverflow)
    else Ok(Picture(frame.width, frame.height, frame.xhot, frame.yhot, requested, Argb(frame.pixels)))
  }

  /** The frames of one nominal size, in file order. */
  function OfSize(frames: seq<Image>, size: nat): (r: seq<Image>)
    ensures |r| <= |frames|
  {
    if frames == [] then []
    else
      var last := |frames| - 1;
      OfSize(frames[..last], size) + if frames[last].size == size then [frames[last]] else []
  }

  function Max(a: nat, b: nat): nat { if a >= b then a else b }

  function Sequence(frames: seq<Image>, requested: nat): (r: Result<seq<Shown>, Error>)
    ensures r.Ok? ==> |r.value| == |frames|
    ensures r.Ok? ==> forall i :: 0 <= i < |frames| ==>
      && PictureOf(frames[i], requested) == Ok(r.value[i].picture)
      && r.value[i].delayMs == Max(frames[i].delay, MIN_DELAY_MS)
  {
    if frames == [] then Ok([])
    else
      match PictureOf(frames[0], requested)
      case Err(e) => Err(e)
      case Ok(picture) =>
        match Sequence(frames[1..], requested)
        case Err(e) => Err(e)
        case Ok(rest) => Ok([Shown(picture, Max(frames[0].delay, MIN_DELAY_MS))] + rest)
  }

  function AnimatedImage(frames: seq<Image>, selected: Image, requested: nat): Result<Cursor, Error> {
    match PictureOf(selected, requested)
    case Err(e) => Err(e)
    case Ok(picture) =>
      var sequence := OfSize(frames, selected.size);
      if |sequence| <= 1 then Ok(Cursor(picture, []))
      else
        match Sequence(sequence, requested)
        case Err(e) => Err(e)
        case Ok(animation) => Ok(Cursor(picture, animation))
  }

  /** Where the frames of one size are. */
  ghost function Places(frames: seq<Image>, size: nat): (r: seq<nat>)
    ensures |r| == |OfSize(frames, size)|
    ensures forall i :: 0 <= i < |r| ==>
              r[i] < |frames| && frames[r[i]] == OfSize(frames, size)[i] && frames[r[i]].size == size
    ensures forall i, j :: 0 <= i < j < |r| ==> r[i] < r[j]
  {
    if frames == [] then []
    else
      var last := |frames| - 1;
      Places(frames[..last], size) + if frames[last].size == size then [last] else []
  }

  ghost function Alike(frames: seq<Image>, size: nat): set<int> {
    set i | 0 <= i < |frames| && frames[i].size == size
  }

  lemma {:induction false} OfSizeCounts(frames: seq<Image>, size: nat)
    ensures |OfSize(frames, size)| == |Alike(frames, size)|
  {
    if frames == [] {
      assert Alike(frames, size) == {};
    } else {
      var last := |frames| - 1;
      OfSizeCounts(frames[..last], size);
      assert Alike(frames, size) == Alike(frames[..last], size) + if frames[last].size == size then {last} else {};
    }
  }

  lemma {:induction false} OfSizeStarts(frames: seq<Image>, k: nat)
    requires k < |frames| && forall j :: 0 <= j < k ==> frames[j].size != frames[k].size
    ensures OfSize(frames, frames[k].size) != [] && OfSize(frames, frames[k].size)[0] == frames[k]
  {
    var last := |frames| - 1;
    if k < last {
      OfSizeStarts(frames[..last], k);
    } else {
      OfSizeCounts(frames[..last], frames[k].size);
      assert Alike(frames[..last], frames[k].size) == {};
    }
  }

  /**
   The animation agrees with the displayed image: choosing a frame and building
   the cursor attaches an animation exactly when the file has another frame of
   that size, the animation holds all frames of that size, it begins with the
   displayed picture, and it never waits less than the minimum.
   */
  lemma AnimationBeginsWithDisplayed(frames: seq<Image>, requested: nat, k: nat)
    requires IsNearest(frames, requested, k)
    requires AnimatedImage(frames, frames[k], requested).Ok?
    ensures var cursor := AnimatedImage(frames, frames[k], requested).value;
            var alike := |Alike(frames, frames[k].size)|;
            && Ok(cursor.picture) == PictureOf(frames[k], requested)
            && |cursor.animation| == (if alike > 1 then alike else 0)
            && (forall i :: 0 <= i < |cursor.animation| ==>
                  Ok(cursor.animation[i].picture) == PictureOf(frames[Places(frames, frames[k].size)[i]], requested))
            && (alike > 1 ==> cursor.animation[0].picture == cursor.picture)
            && (forall i :: 0 <= i < |cursor.animation| ==> cursor.animation[i].delayMs >= MIN_DELAY_MS)
  {
    forall j | 0 <= j < k ensures frames[j].size != frames[k].size {
      NearestIsFirstOfItsSize(frames, requested, k, j);
    }
    OfSizeStarts(frames, k);
    OfSizeCounts(frames, frames[k].size);
    hide PictureOf, Alike, Places;
  }

  // ----- shared ownership -----

  /** How many slots hold the image. */
  function Slots(images: seq<nat>, image: nat): nat {
    if images == [] then 0 else (if images[0] == image then 1 else 0) + Slots(images[1..], image)
  }

  method CountSlots(images: seq<nat>, image: nat) returns (n: nat)
    ensures n == Slots(images, image)
  {
    n := 0;
    for i := 0 to |images|
      invariant n + Slots(images[i..], image) == Slots(images, image)
    {
      assert images[i..][1..] == images[i + 1..];
      if images[i] == image { n := n + 1; }
    }
  }

  /** True exactly when some image has more owners than slots; skipping repeated images loses nothing. */
  method HasExternalOwner(images: seq<nat>, strongCount: nat -> nat) returns (r: bool)
    ensures r <==> exists i :: 0 <= i < |images| && strongCount(images[i]) > Slots(images, images[i])
  {
    for index := 0 to |images|
      invariant forall i :: 0 <= i < index ==> strongCount(images[i]) <= Slots(images, images[i])
    {
      if images[index] in images[..index] {
        continue;
      }
      var internal := CountSlots(images, images[index]);
      if strongCount(images[index]) > internal {
        return true;
      }
    }
    r := false;
  }
}
