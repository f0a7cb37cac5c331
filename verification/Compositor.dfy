/** The display compositor (fox32/src/main.rs): the background is copied from RAM and
    the enabled overlays are merged onto it in order, pixel by pixel, in place. */
module Compositor {
  import opened Words
  import opened Memory

  const WIDTH: nat := 640
  const HEIGHT: nat := 480
  const FRAME_BYTES: nat := 1_228_800
  const BACKGROUND: nat := 0x0200_0000
  const OVERLAYS: nat := 32

  datatype Overlay =
    Overlay(enabled: bool, width: nat, height: nat, x: nat, y: nat, framebufferPointer: u32)

  // ----- what should be on the screen

  /** The index of a byte (0 to 3) of a pixel in the frame. */
  function Flat(px: nat, py: nat, c: nat): (q: nat)
    ensures OnScreen(px, py, c) ==> q < FRAME_BYTES
  {
    4 * (WIDTH * py + px) + c
  }

  predicate OnScreen(px: nat, py: nat, c: nat) {
    px < WIDTH && py < HEIGHT && c < 4
  }

  /** The part of the overlay left of the right edge and above the bottom edge. */
  function VisibleWidth(o: Overlay): (w: nat)
    requires o.x <= WIDTH
    ensures o.x + w <= WIDTH && w <= o.width && (w == o.width || o.x + w == WIDTH)
  {
    if o.x + o.width > WIDTH then WIDTH - o.x else o.width
  }

  function VisibleHeight(o: Overlay): (h: nat)
    requires o.y <= HEIGHT
    ensures o.y + h <= HEIGHT && h <= o.height && (h == o.height || o.y + h == HEIGHT)
  {
    if o.y + o.height > HEIGHT then HEIGHT - o.y else o.height
  }

  function Row(width: nat, row: nat): nat {
    row * (4 * width)
  }

  /** The overlay does not start off screen, and the visible part of its image lies in
      RAM. */
  predicate Blittable(o: Overlay, ram: seq<u8>) {
    && o.x <= WIDTH && o.y <= HEIGHT
    && o.framebufferPointer + Row(VisibleWidth(o), VisibleHeight(o)) <= |ram| < 0x1_0000_0000
  }

  /** The screen position lies inside the overlay. */
  predicate Covers(o: Overlay, px: nat, py: nat) {
    o.x <= px < o.x + o.width && o.y <= py < o.y + o.height
  }

  lemma RowInside(width: nat, height: nat, row: nat)
    requires row < height
    ensures Row(width, row) + 4 * width <= Row(width, height)
    ensures Row(width, row + 1) == Row(width, row) + 4 * width
    decreases height - row
  {
    assert Row(width, row + 1) == Row(width, row) + 4 * width;
    if row + 1 < height {
      RowInside(width, height, row + 1);
    }
  }

  lemma PixelInRam(o: Overlay, ram: seq<u8>, px: nat, py: nat)
    requires Blittable(o, ram) && Covers(o, px, py) && px < WIDTH && py < HEIGHT
    ensures
      o.framebufferPointer + Row(VisibleWidth(o), py - o.y) + 4 * (px - o.x) + 4 <= |ram|
  {
    RowInside(VisibleWidth(o), VisibleHeight(o), py - o.y);
  }

  /** A byte of the overlay's image, with rows as long as its visible width. */
  function OverlayByte(o: Overlay, ram: seq<u8>, px: nat, py: nat, c: nat): u8
    requires Blittable(o, ram) && Covers(o, px, py) && OnScreen(px, py, c)
  {
    PixelInRam(o, ram, px, py);
    ram[o.framebufferPointer + Row(VisibleWidth(o), py - o.y) + 4 * (px - o.x) + c]
  }

  /** The overlay shows something at the position: its alpha byte there is not zero. */
  predicate Opaque(o: Overlay, ram: seq<u8>, px: nat, py: nat)
    requires Blittable(o, ram) && px < WIDTH && py < HEIGHT
  {
    Covers(o, px, py) && OverlayByte(o, ram, px, py, 3) > 0
  }

  predicate AllBlittable(overlays: seq<Overlay>, ram: seq<u8>) {
    forall i :: 0 <= i < |overlays| && overlays[i].enabled ==> Blittable(overlays[i], ram)
  }

  predicate Shows(overlays: seq<Overlay>, ram: seq<u8>, i: nat, px: nat, py: nat)
    requires AllBlittable(overlays, ram) && i < |overlays| && px < WIDTH && py < HEIGHT
  {
    overlays[i].enabled && Opaque(overlays[i], ram, px, py)
  }

  /** A byte of the screen after merging the first n overlays onto the background. */
  function Composed(overlays: seq<Overlay>, ram: seq<u8>, n: nat, px: nat, py: nat, c: nat): u8
    requires AllBlittable(overlays, ram) && n <= |overlays| && OnScreen(px, py, c)
    requires BACKGROUND + FRAME_BYTES <= |ram|
  {
    if n == 0 then ram[BACKGROUND + Flat(px, py, c)]
    else if Shows(overlays, ram, n - 1, px, py) then OverlayByte(overlays[n - 1], ram, px, py, c)
    else Composed(overlays, ram, n - 1, px, py, c)
  }

  /** The screen shows the topmost opaque pixel: the highest-numbered overlay that is
      opaque at the position, and the background where there is none. */
  lemma {:induction false} TopmostIsShown(
    overlays: seq<Overlay>, ram: seq<u8>, n: nat, px: nat, py: nat, c: nat, i: nat)
    requires AllBlittable(overlays, ram) && n <= |overlays| && OnScreen(px, py, c)
    requires BACKGROUND + FRAME_BYTES <= |ram|
    requires i < n && Shows(overlays, ram, i, px, py)
    requires forall j :: i < j < n ==> !Shows(overlays, ram, j, px, py)
    ensures Composed(overlays, ram, n, px, py, c) == OverlayByte(overlays[i], ram, px, py, c)
    decreases n
  {
    hide OverlayByte, AllBlittable, Opaque;
    if i < n - 1 {
      assert !Shows(overlays, ram, n - 1, px, py);
      TopmostIsShown(overlays, ram, n - 1, px, py, c, i);
    }
  }

  lemma {:induction false} BackgroundIsShown(
    overlays: seq<Overlay>, ram: seq<u8>, n: nat, px: nat, py: nat, c: nat)
    requires AllBlittable(overlays, ram) && n <= |overlays| && OnScreen(px, py, c)
    requires BACKGROUND + FRAME_BYTES <= |ram|
    requires forall i :: 0 <= i < n ==> !Shows(overlays, ram, i, px, py)
    ensures Composed(overlays, ram, n, px, py, c) == ram[BACKGROUND + Flat(px, py, c)]
  {
    hide OverlayByte, AllBlittable, Shows;
    if n > 0 {
      BackgroundIsShown(overlays, ram, n - 1, px, py, c);
    }
  }

  /** Where the byte shown at a covered position is read from. */
  function ShownAddress(o: Overlay, px: nat, py: nat, c: nat): nat
    requires o.x <= px && o.y <= py && o.x <= WIDTH
  {
    o.framebufferPointer + Row(VisibleWidth(o), py - o.y) + 4 * (px - o.x) + c
  }

  /** Where the byte at that row and column of the overlay's own image is, whose rows are
      `width` pixels long. */
  function OwnAddress(o: Overlay, px: nat, py: nat, c: nat): nat
    requires o.x <= px && o.y <= py
  {
    o.framebufferPointer + Row(o.width, py - o.y) + 4 * (px - o.x) + c
  }

  lemma LongerRows(width: nat, longer: nat, row: nat)
    requires width < longer
    ensures Row(width, row) == Row(longer, row) <==> row == 0
  {
    if row > 0 {
      assert Row(longer, row) - Row(width, row) == row * (4 * (longer - width));
      assert row * (4 * (longer - width)) > 0;
    }
  }

  /** An overlay shows its own image at a position if and only if it fits the screen's
      width or the position is in its first row. */
  lemma OwnImage(o: Overlay, ram: seq<u8>, px: nat, py: nat, c: nat)
    requires Blittable(o, ram) && Covers(o, px, py) && OnScreen(px, py, c)
    ensures ShownAddress(o, px, py, c) < |ram|
    ensures OverlayByte(o, ram, px, py, c) == ram[ShownAddress(o, px, py, c)]
    ensures ShownAddress(o, px, py, c) == OwnAddress(o, px, py, c) <==> o.x + o.width <= WIDTH || py == o.y
  {
    hide Row;
    PixelInRam(o, ram, px, py);
    if VisibleWidth(o) < o.width {
      LongerRows(VisibleWidth(o), o.width, py - o.y);
    }
  }

  /** A two by two overlay whose right column is off screen, with an image of four
      opaque pixels of shades 1 to 4. */
  const CLIPPED := Overlay(true, 2, 2, 639, 0, 0)
  const SHADES: seq<u8> := [1, 1, 1, 255, 2, 2, 2, 255, 3, 3, 3, 255, 4, 4, 4, 255]

  /** With that image at the start of RAM, its second row shows the second pixel of the
      first row instead of the first pixel of the second. */
  lemma ClippedOverlayIsSkewed(frame: seq<u8>, before: seq<u8>, ram: seq<u8>)
    requires |ram| == RAM_SIZE && SHADES <= ram
    ensures Blittable(CLIPPED, ram)
    ensures
      && Covers(CLIPPED, 639, 1) && Opaque(CLIPPED, ram, 639, 1)
      && ram[OwnAddress(CLIPPED, 639, 1, 0)] == 3
      && OverlayByte(CLIPPED, ram, 639, 1, 0) == 2
    ensures Blitted(frame, before, CLIPPED, ram) ==> frame[Flat(639, 1, 0)] == 2
  {
    assert VisibleWidth(CLIPPED) == 1 && VisibleHeight(CLIPPED) == 2;
    assert Row(1, 2) == 8 && Row(1, 1) == 4 && Row(2, 1) == 8;
    assert Blittable(CLIPPED, ram);
    assert ram[4] == SHADES[4] && ram[7] == SHADES[7] && ram[8] == SHADES[8];
    assert OnScreen(639, 1, 0);
  }

  // ----- merging one overlay

  /** One pixel: copied if its alpha byte is not zero. */
  method BlitPixel(framebuffer: array<u8>, left: nat, ram: array<u8>, right: nat)
    requires left + 4 <= framebuffer.Length && right + 4 <= ram.Length && framebuffer != ram
    modifies framebuffer
    ensures forall q :: 0 <= q < framebuffer.Length ==>
      framebuffer[q]
      == if left <= q < left + 4 && ram[right + 3] > 0 then ram[right + (q - left)] else old(framebuffer[q])
  {
    var right0, right1, right2, right3 := ram[right], ram[right + 1], ram[right + 2], ram[right + 3];
    if right3 > 0 {
      framebuffer[left] := right0;
      framebuffer[left + 1] := right1;
      framebuffer[left + 2] := right2;
      framebuffer[left + 3] := right3;
    }
  }

  /** The position comes before row `rows`, column `columns` of the overlay. */
  predicate Reached(o: Overlay, px: nat, py: nat, rows: nat, columns: nat) {
    py < o.y + rows || (py == o.y + rows && px < o.x + columns)
  }

  /** The frame with the overlay merged up to some position. */
  ghost predicate Merged(
    frame: seq<u8>, before: seq<u8>, o: Overlay, ram: seq<u8>, rows: nat, columns: nat)
    requires Blittable(o, ram)
  {
    && |frame| == |before| == FRAME_BYTES
    && forall px: nat, py: nat, c: nat {:trigger Flat(px, py, c)} | OnScreen(px, py, c) ::
      frame[Flat(px, py, c)]
      == if Opaque(o, ram, px, py) && Reached(o, px, py, rows, columns)
         then OverlayByte(o, ram, px, py, c) else before[Flat(px, py, c)]
  }

  lemma FlatInjective(px: nat, py: nat, c: nat, x: nat, y: nat)
    requires OnScreen(px, py, c) && OnScreen(x, y, 0)
    ensures Flat(x, y, 0) <= Flat(px, py, c) < Flat(x, y, 0) + 4 <==> px == x && py == y
    ensures px == x && py == y ==> Flat(px, py, c) == Flat(x, y, 0) + c
  {
  }

  /** The frame after one pixel may have been copied. */
  ghost predicate PixelCopied(frame: seq<u8>, after: seq<u8>, left: nat, ram: seq<u8>, right: nat)
    requires right + 4 <= |ram|
  {
    && |after| == |frame|
    && forall q :: 0 <= q < |after| ==>
      after[q] == if left <= q < left + 4 && ram[right + 3] > 0 then ram[right + (q - left)] else frame[q]
  }

  /** Merging one more pixel of the row. */
  lemma MergedPixel(
    frame: seq<u8>, after: seq<u8>, before: seq<u8>, o: Overlay, ram: seq<u8>, rows: nat, columns: nat)
    requires Blittable(o, ram) && rows < VisibleHeight(o) && columns < VisibleWidth(o)
    requires Merged(frame, before, o, ram, rows, columns)
    requires
      var right := o.framebufferPointer + Row(VisibleWidth(o), rows) + 4 * columns;
      right + 4 <= |ram| && PixelCopied(frame, after, Flat(o.x + columns, o.y + rows, 0), ram, right)
    ensures Merged(after, before, o, ram, rows, columns + 1)
  {
    hide Row, Blittable, Flat, OverlayByte;
    var x, y := o.x + columns, o.y + rows;
    assert Covers(o, x, y) && OnScreen(x, y, 0);
    forall px: nat, py: nat, c: nat {:trigger Flat(px, py, c)} | OnScreen(px, py, c)
      ensures after[Flat(px, py, c)]
        == if Opaque(o, ram, px, py) && Reached(o, px, py, rows, columns + 1)
           then OverlayByte(o, ram, px, py, c) else before[Flat(px, py, c)]
    {
      FlatInjective(px, py, c, x, y);
      if px == x && py == y {
        ImageByte(o, ram, rows, columns, c);
        ImageByte(o, ram, rows, columns, 3);
      }
    }
  }

  lemma ImageByte(o: Overlay, ram: seq<u8>, rows: nat, columns: nat, c: nat)
    requires Blittable(o, ram) && rows < VisibleHeight(o) && columns < VisibleWidth(o) && c < 4
    ensures
      var x, y := o.x + columns, o.y + rows;
      var right := o.framebufferPointer + Row(VisibleWidth(o), rows) + 4 * columns;
      && Covers(o, x, y) && OnScreen(x, y, c)
      && right + c < |ram|
      && OverlayByte(o, ram, x, y, c) == ram[right + c]
      && (Opaque(o, ram, x, y) <==> OverlayByte(o, ram, x, y, 3) > 0)
  {
    hide Row;
    var x, y := o.x + columns, o.y + rows;
    assert Covers(o, x, y) && OnScreen(x, y, c);
    PixelInRam(o, ram, x, y);
  }

  /** A finished row. */
  lemma MergedRow(frame: seq<u8>, before: seq<u8>, o: Overlay, ram: seq<u8>, rows: nat)
    requires Blittable(o, ram) && rows < VisibleHeight(o)
    requires Merged(frame, before, o, ram, rows, VisibleWidth(o))
    ensures Merged(frame, before, o, ram, rows + 1, 0)
  {
    hide Row, Blittable, Flat, OverlayByte;
  }

  /** The frame with the whole overlay merged. */
  ghost predicate Blitted(frame: seq<u8>, before: seq<u8>, o: Overlay, ram: seq<u8>)
    requires Blittable(o, ram)
  {
    && |frame| == |before| == FRAME_BYTES
    && forall px: nat, py: nat, c: nat {:trigger Flat(px, py, c)} | OnScreen(px, py, c) ::
      frame[Flat(px, py, c)]
      == if Opaque(o, ram, px, py) then OverlayByte(o, ram, px, py, c) else before[Flat(px, py, c)]
  }

  lemma MergedAll(frame: seq<u8>, before: seq<u8>, o: Overlay, ram: seq<u8>)
    requires Blittable(o, ram) && Merged(frame, before, o, ram, VisibleHeight(o), 0)
    ensures Blitted(frame, before, o, ram)
  {
    hide Row, Blittable, Flat, OverlayByte;
  }

  lemma MergedNone(frame: seq<u8>, o: Overlay, ram: seq<u8>)
    requires Blittable(o, ram) && |frame| == FRAME_BYTES
    ensures Merged(frame, frame, o, ram, 0, 0)
  {
    hide Row, Blittable, Flat, OverlayByte;
  }

  /** One row of the overlay. */
  method BlitRow(
    framebuffer: array<u8>, index: nat, width: nat, ram: array<u8>, row: nat,
    ghost before: seq<u8>, ghost o: Overlay, ghost rows: nat)
    requires framebuffer != ram && Blittable(o, ram[..]) && rows < VisibleHeight(o)
    requires index == Flat(o.x, o.y + rows, 0) && width == 4 * VisibleWidth(o)
    requires row == o.framebufferPointer + Row(VisibleWidth(o), rows) && row + width <= ram.Length
    requires Merged(framebuffer[..], before, o, ram[..], rows, 0)
    modifies framebuffer
    ensures Merged(framebuffer[..], before, o, ram[..], rows + 1, 0)
  {
    hide Merged, Row, Blittable;
    FrameLength(framebuffer[..], before, o, ram[..], rows, 0);
    var k := 0;
    while 4 * k < width
      invariant 0 <= 4 * k <= width
      invariant Merged(framebuffer[..], before, o, ram[..], rows, k)
    {
      ghost var frame := framebuffer[..];
      BlitPixel(framebuffer, index + 4 * k, ram, row + 4 * k);
      MergedPixel(frame, framebuffer[..], before, o, ram[..], rows, k);
      k := k + 1;
    }
    MergedRow(framebuffer[..], before, o, ram[..], rows);
  }

  lemma FrameLength(frame: seq<u8>, before: seq<u8>, o: Overlay, ram: seq<u8>, rows: nat, columns: nat)
    requires Blittable(o, ram) && Merged(frame, before, o, ram, rows, columns)
    ensures |frame| == |before| == FRAME_BYTES
  {
  }

  /** Merges an overlay onto the frame.  Rows below the screen are left out; an overlay
      reaching past the right edge is drawn with its rows shortened. */
  method BlitOverlay(framebuffer: array<u8>, overlay: Overlay, ram: array<u8>)
    requires framebuffer != ram && framebuffer.Length == FRAME_BYTES && Blittable(overlay, ram[..])
    modifies framebuffer
    ensures Blitted(framebuffer[..], old(framebuffer[..]), overlay, ram[..])
  {
    hide Merged, Row, Blitted;
    var width := overlay.width * 4;
    var height := overlay.height;
    if overlay.x + overlay.width > WIDTH {
      var difference := overlay.x + overlay.width - WIDTH;
      width := width - difference * 4;
    }
    if overlay.y + overlay.height > HEIGHT {
      var difference := overlay.y + overlay.height - HEIGHT;
      height := height - difference;
    }
    assert width == 4 * VisibleWidth(overlay) && height == VisibleHeight(overlay);
    ghost var before := framebuffer[..];
    MergedNone(before, overlay, ram[..]);
    var overlayFramebufferIndex := 0;
    FirstRow(VisibleWidth(overlay));
    for y := 0 to height
      invariant overlayFramebufferIndex == Row(VisibleWidth(overlay), y)
      invariant Merged(framebuffer[..], before, overlay, ram[..], y, 0)
    {
      var index := overlay.x * 4 + overlay.y * WIDTH * 4 + y * WIDTH * 4;
      RowInside(VisibleWidth(overlay), height, y);
      BlitRow(
        framebuffer, index, width, ram, overlay.framebufferPointer + overlayFramebufferIndex, before, overlay, y);
      overlayFramebufferIndex := overlayFramebufferIndex + width;
    }
    MergedAll(framebuffer[..], before, overlay, ram[..]);
  }

  lemma FirstRow(width: nat)
    ensures Row(width, 0) == 0
  {
  }

  // ----- the whole screen

  ghost predicate Screen(frame: seq<u8>, overlays: seq<Overlay>, ram: seq<u8>, n: nat)
    requires AllBlittable(overlays, ram) && n <= |overlays| && BACKGROUND + FRAME_BYTES <= |ram|
  {
    && |frame| == FRAME_BYTES
    && forall px: nat, py: nat, c: nat {:trigger Flat(px, py, c)} | OnScreen(px, py, c) ::
      frame[Flat(px, py, c)] == Composed(overlays, ram, n, px, py, c)
  }

  lemma ScreenWithOverlay(frame: seq<u8>, before: seq<u8>, overlays: seq<Overlay>, ram: seq<u8>, n: nat)
    requires AllBlittable(overlays, ram) && n < |overlays| && BACKGROUND + FRAME_BYTES <= |ram|
    requires Screen(before, overlays, ram, n)
    requires if overlays[n].enabled then Blitted(frame, before, overlays[n], ram) else frame == before
    ensures Screen(frame, overlays, ram, n + 1)
  {
    hide Blittable, Flat, OverlayByte, Opaque;
  }

  lemma ScreenBackground(frame: seq<u8>, overlays: seq<Overlay>, ram: seq<u8>)
    requires AllBlittable(overlays, ram) && BACKGROUND + FRAME_BYTES <= |ram| && |frame| == FRAME_BYTES
    requires forall q :: 0 <= q < FRAME_BYTES ==> frame[q] == ram[BACKGROUND + q]
    ensures Screen(frame, overlays, ram, 0)
  {
    hide Blittable, Flat, Shows, OverlayByte, AllBlittable;
  }

  /** The display's own copy of the screen. */
  class Display {
    const background: array<u8>
    const overlays: array<Overlay>

    constructor ()
      ensures fresh(background) && fresh(overlays)
      ensures background.Length == FRAME_BYTES && overlays.Length == OVERLAYS
      ensures forall i :: 0 <= i < OVERLAYS ==> !overlays[i].enabled
    {
      background := new u8[FRAME_BYTES](_ => 0);
      overlays := new Overlay[OVERLAYS](_ => Overlay(false, 16, 16, 0, 0, 0));
    }

    /** Redraws the screen: every pixel is the topmost opaque one. */
    method Update(ram: array<u8>)
      requires background.Length == FRAME_BYTES && overlays.Length == OVERLAYS && background != ram
      requires BACKGROUND + FRAME_BYTES <= ram.Length && AllBlittable(overlays[..], ram[..])
      modifies background
      ensures Screen(background[..], overlays[..], ram[..], OVERLAYS)
    {
      hide Blittable, Screen, Blitted;
      for i := 0 to HEIGHT * WIDTH * 4
        invariant forall q :: 0 <= q < i ==> background[q] == ram[BACKGROUND + q]
      {
        background[i] := ram[BACKGROUND + i];
      }
      ScreenBackground(background[..], overlays[..], ram[..]);
      for index := 0 to OVERLAYS
        invariant Screen(background[..], overlays[..], ram[..], index)
      {
        ghost var before := background[..];
        if overlays[index].enabled {
          BlitOverlay(background, overlays[index], ram);
        }
        ScreenWithOverlay(background[..], before, overlays[..], ram[..], index);
      }
    }
  }
}
