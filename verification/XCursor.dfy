/** The bounds check on libXcursor files of src/cursor_theme.rs. */
module XCursor {
  import opened Common
  import opened Bytes

  const MAX_DIMENSION: nat := 1024
  const MAX_FRAME_PIXELS: nat := 1024 * 1024
  const MAX_FRAMES: nat := 256
  const MAX_TOTAL_PIXELS: nat := 6 * 1024 * 1024
  const IMAGE_TYPE: nat := 0xfffd_0002
  const HEADER_BYTES: nat := 16
  const TOC_BYTES: nat := 12
  const IMAGE_HEADER_BYTES: nat := 36
  const MAGIC: seq<Byte> := [0x58, 0x63, 0x75, 0x72]

  datatype Error = CursorFileInvalid | FrameBoundsExceeded

  // ----- what the file says -----

  /** The number stored at an offset; 0 outside the file. */
  function U32(content: seq<Byte>, offset: nat): (r: nat)
    ensures r < 0x1_0000_0000
  {
    if offset + 4 <= |content| then
      var bytes := content[offset..offset + 4];
      assert Power256(4) == 256 * Power256(3) == 65536 * Power256(2);
      FromLittleEndian(bytes)
    else 0
  }

  function TocStart(content: seq<Byte>): nat { U32(content, 4) }

  function TocCount(content: seq<Byte>): nat { U32(content, 12) }

  function Entry(content: seq<Byte>, i: nat): nat { TocStart(content) + i * TOC_BYTES }

  predicate IsImage(content: seq<Byte>, i: nat) { U32(content, Entry(content, i)) == IMAGE_TYPE }

  function Position(content: seq<Byte>, i: nat): nat { U32(content, Entry(content, i) + 8) }

  function Width(content: seq<Byte>, i: nat): nat { U32(content, Position(content, i) + 16) }

  function Height(content: seq<Byte>, i: nat): nat { U32(content, Position(content, i) + 20) }

  function Product(a: nat, b: nat): nat { a * b }

  function Area(content: seq<Byte>, i: nat): nat { Product(Width(content, i), Height(content, i)) }

  /** Pixels of the image entries among the first n. */
  function Pixels(content: seq<Byte>, n: nat): nat {
    if n == 0 then 0 else Pixels(content, n - 1) + if IsImage(content, n - 1) then Area(content, n - 1) else 0
  }

  predicate TocFits(content: seq<Byte>) {
    && |content| >= HEADER_BYTES && content[..4] == MAGIC
    && TocStart(content) >= HEADER_BYTES
    && Entry(content, TocCount(content)) <= |content|
  }

  /** The header of an image is inside the file and its hotspot inside the image. */
  predicate HeaderFits(content: seq<Byte>, i: nat) {
    var p := Position(content, i);
    && p + IMAGE_HEADER_BYTES <= |content|
    && U32(content, p + 24) < Width(content, i) && U32(content, p + 28) < Height(content, i)
  }

  /** So are its pixels. */
  predicate ImageFits(content: seq<Byte>, i: nat) {
    HeaderFits(content, i) && Position(content, i) + IMAGE_HEADER_BYTES + Area(content, i) * 4 <= |content|
  }

  predicate ImageSmall(content: seq<Byte>, i: nat) {
    Width(content, i) <= MAX_DIMENSION && Height(content, i) <= MAX_DIMENSION && Area(content, i) <= MAX_FRAME_PIXELS
  }

  /** Everything a file must satisfy. */
  predicate WithinBounds(content: seq<Byte>) {
    && TocFits(content) && TocCount(content) <= MAX_FRAMES
    && (forall i: nat :: i < TocCount(content) && IsImage(content, i) ==>
          ImageFits(content, i) && ImageSmall(content, i))
    && Pixels(content, TocCount(content)) <= MAX_TOTAL_PIXELS
  }

  /** A cap on counts or sizes is broken. */
  predicate BreaksCaps(content: seq<Byte>) {
    || TocCount(content) > MAX_FRAMES
    || (exists i: nat :: i < TocCount(content) && IsImage(content, i) && !ImageSmall(content, i))
    || Pixels(content, TocCount(content)) > MAX_TOTAL_PIXELS
  }

  /** A part of the file is missing or a hotspot is outside its image. */
  predicate Malformed(content: seq<Byte>) {
    || !TocFits(content)
    || (exists i: nat :: i < TocCount(content) && IsImage(content, i) && !ImageFits(content, i))
  }

  lemma {:induction false} PixelsGrow(content: seq<Byte>, m: nat, n: nat)
    requires m <= n
    ensures Pixels(content, m) <= Pixels(content, n)
  {
    if m < n { PixelsGrow(content, m, n - 1); }
  }

  // ----- machine arithmetic -----

  function CheckedAdd(a: nat, b: nat, word: nat): Option<nat> { if a + b <= word then Some(a + b) else None }

  function CheckedMul(a: nat, b: nat, word: nat): Option<nat> {
    if Product(a, b) <= word then Some(Product(a, b)) else None
  }

  lemma MulLeft(a: nat, b: nat, c: nat)
    requires a <= c
    ensures a * b <= c * b
  {
    var d: nat := c - a;
    assert c * b == a * b + d * b;
  }

  lemma SmallProduct(a: nat, b: nat)
    requires a <= MAX_DIMENSION && b <= MAX_DIMENSION
    ensures Product(a, b) <= MAX_FRAME_PIXELS
  {
    MulLeft(a, b, MAX_DIMENSION);
  }

  lemma TimesConstant(a: nat, b: nat)
    ensures Product(a, b) == a * b
  {
  }

  /** Plain addition: callable only where it cannot overflow. */
  function Plus(a: nat, b: nat, word: nat): (r: nat)
    requires a + b <= word
  {
    a + b
  }

  /** A slice never fills the address space. */
  predicate Addressable(content: seq<Byte>, word: nat) { word >= 0xffff_ffff && |content| <= word / 2 }

  /** Reads a number exactly when its four bytes are in the file. */
  function ReadU32(content: seq<Byte>, offset: nat, word: nat): (r: Option<nat>)
    requires Addressable(content, word)
    ensures r == if offset + 4 <= |content| then Some(U32(content, offset)) else None
  {
    var end := CheckedAdd(offset, 4, word);
    if end.Some? && end.value <= |content| then
      assert Power256(4) == 256 * Power256(3) == 65536 * Power256(2);
      Some(FromLittleEndian(content[offset..end.value]))
    else None
  }

  // ----- the validator -----

  /** Reads the header of one image entry: its end, width and height. */
  method ReadImageHeader(content: seq<Byte>, i: nat, word: nat) returns (r: Result<(nat, nat, nat), Error>)
    requires Addressable(content, word) && Entry(content, i) + TOC_BYTES <= |content|
    ensures r.Ok? <==> HeaderFits(content, i)
    ensures r.Ok? ==> r.value == (Position(content, i) + IMAGE_HEADER_BYTES, Width(content, i), Height(content, i))
    ensures r == Err(FrameBoundsExceeded) ==> word < 0x2_0000_0000
  {
    hide U32;
    var position := ReadU32(content, Plus(Entry(content, i), 8, word), word);
    if position.None? { return Err(CursorFileInvalid); }
    var frameEnd := CheckedAdd(position.value, IMAGE_HEADER_BYTES, word);
    if frameEnd.None? { return Err(FrameBoundsExceeded); }
    if frameEnd.value > |content| { return Err(CursorFileInvalid); }
    var width := ReadU32(content, Plus(position.value, 16, word), word);
    if width.None? { return Err(CursorFileInvalid); }
    var height := ReadU32(content, Plus(position.value, 20, word), word);
    if height.None? { return Err(CursorFileInvalid); }
    var xhot := ReadU32(content, Plus(position.value, 24, word), word);
    if xhot.None? { return Err(CursorFileInvalid); }
    var yhot := ReadU32(content, Plus(position.value, 28, word), word);
    if yhot.None? { return Err(CursorFileInvalid); }
    if width.value == 0 || height.value == 0 || xhot.value >= width.value || yhot.value >= height.value {
      return Err(CursorFileInvalid);
    }
    r := Ok((frameEnd.value, width.value, height.value));
  }

  /** Checks one image entry and adds its pixels to the running total. */
  method ValidateImage(content: seq<Byte>, i: nat, total: nat, word: nat) returns (r: Result<nat, Error>)
    requires Addressable(content, word) && Entry(content, i) + TOC_BYTES <= |content| && total <= MAX_TOTAL_PIXELS
    ensures r.Ok? <==> ImageFits(content, i) && ImageSmall(content, i) && total + Area(content, i) <= MAX_TOTAL_PIXELS
    ensures r.Ok? ==> r.value == total + Area(content, i)
    ensures r == Err(CursorFileInvalid) ==> !ImageFits(content, i)
    ensures r == Err(FrameBoundsExceeded) ==>
      !ImageSmall(content, i) || total + Area(content, i) > MAX_TOTAL_PIXELS || (!ImageFits(content, i) && word < 0x2_0000_0000)
  {
    hide U32, Product, HeaderFits;
    var header := ReadImageHeader(content, i, word);
    if header.Err? { return Err(header.error); }
    var (frameEnd, width, height) := header.value;
    if width > MAX_DIMENSION || height > MAX_DIMENSION { return Err(FrameBoundsExceeded); }
    SmallProduct(width, height);
    var pixels := CheckedMul(width, height, word);
    if pixels.None? { return Err(FrameBoundsExceeded); }
    if pixels.value > MAX_FRAME_PIXELS { return Err(FrameBoundsExceeded); }
    var sum := CheckedAdd(total, pixels.value, word);
    if sum.None? { return Err(FrameBoundsExceeded); }
    if sum.value > MAX_TOTAL_PIXELS { return Err(FrameBoundsExceeded); }
    TimesConstant(pixels.value, 4);
    var payload := CheckedMul(pixels.value, 4, word);
    if payload.None? { return Err(FrameBoundsExceeded); }
    var payloadEnd := CheckedAdd(frameEnd, payload.value, word);
    if payloadEnd.None? { return Err(FrameBoundsExceeded); }
    if payloadEnd.value > |content| { return Err(CursorFileInvalid); }
    r := Ok(sum.value);
  }

  /** Reads the place and the length of the table of contents. */
  method ReadToc(content: seq<Byte>, word: nat) returns (r: Result<(nat, nat), Error>)
    requires Addressable(content, word)
    ensures r.Ok? <==> TocFits(content) && TocCount(content) <= MAX_FRAMES
    ensures r.Ok? ==> r.value == (TocStart(content), TocCount(content))
    ensures r == Err(CursorFileInvalid) ==> !TocFits(content)
    ensures r == Err(FrameBoundsExceeded) ==>
              TocCount(content) > MAX_FRAMES || (!TocFits(content) && word < 0x2_0000_0000)
  {
    hide U32, Product;
    if |content| < HEADER_BYTES || content[..4] != MAGIC { return Err(CursorFileInvalid); }
    var header := ReadU32(content, 4, word);
    if header.None? { return Err(CursorFileInvalid); }
    var count := ReadU32(content, 12, word);
    if count.None? { return Err(CursorFileInvalid); }
    if count.value > MAX_FRAMES { return Err(FrameBoundsExceeded); }
    TimesConstant(count.value, TOC_BYTES);
    var table := CheckedMul(count.value, TOC_BYTES, word);
    if table.None? { return Err(FrameBoundsExceeded); }
    var tocEnd := CheckedAdd(header.value, table.value, word);
    if tocEnd.None? { return Err(FrameBoundsExceeded); }
    if header.value < HEADER_BYTES || tocEnd.value > |content| { return Err(CursorFileInvalid); }
    r := Ok((header.value, count.value));
  }

  /**
   Accepts exactly the files within bounds, whatever the word size, and names
   the kind of fault otherwise.  Every plain addition stays within the word.
   */
  method ValidateBounds(content: seq<Byte>, word: nat) returns (r: Result<(), Error>)
    requires Addressable(content, word)
    ensures r.Ok? <==> WithinBounds(content)
    ensures r == Err(CursorFileInvalid) ==> Malformed(content)
    ensures r == Err(FrameBoundsExceeded) ==> BreaksCaps(content) || (Malformed(content) && word < 0x2_0000_0000)
  {
    hide U32, Product, ImageFits, ImageSmall, TocFits;
    var toc := ReadToc(content, word);
    if toc.Err? { return Err(toc.error); }
    var (start, count) := toc.value;
    var frames, total := 0, 0;
    var i := 0;
    while i < count
      invariant 0 <= i <= count && frames <= i
      invariant total == Pixels(content, i) <= MAX_TOTAL_PIXELS
      invariant forall k: nat :: k < i && IsImage(content, k) ==> ImageFits(content, k) && ImageSmall(content, k)
    {
      assert Entry(content, i) + TOC_BYTES <= |content| by { EntryInside(content, i); }
      var kind := ReadU32(content, Plus(start, i * TOC_BYTES, word), word);
      if kind.None? { return Err(CursorFileInvalid); }
      PixelsGrow(content, i + 1, count);
      if kind.value == IMAGE_TYPE {
        frames := frames + 1;
        if frames > MAX_FRAMES { return Err(FrameBoundsExceeded); }
        var checked := ValidateImage(content, i, total, word);
        if checked.Err? { return Err(checked.error); }
        total := checked.value;
      }
      i := i + 1;
    }
    r := Ok(());
  }

  lemma EntryInside(content: seq<Byte>, i: nat)
    requires TocFits(content) && i < TocCount(content)
    ensures Entry(content, i) + TOC_BYTES <= |content|
  {
    hide U32;
  }
}
