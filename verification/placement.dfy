/** Image placement: the "fill" policy of both card generators' photo
    section and the "fit" policy of the PNG-to-PDF converter. Lengths are
    exact reals standing for Python floats; the raster backend's `int()`
    truncations are written out. A zero image side makes the scripts divide by
    zero; the exception is caught by the caller and the request fails, which
    is `None` here. */
module Placement {
  import opened Wrappers
  import opened Numeric

  /** An image drawn at (x, y) with size w × h. */
  datatype Frame = Frame(x: real, y: real, w: real, h: real)

  /** The same in whole pixels. */
  datatype PxFrame = PxFrame(x: int, y: int, w: int, h: int)

  lemma ScaleBack(n: real, a: real)
    requires n > 0.0
    ensures n * (a / n) == a
  {
  }

  lemma ScaleMonotone(n: real, s: real, t: real)
    requires n >= 0.0 && s >= t
    ensures n * s >= n * t
  {
  }

  /** The fill scale `max(box_w / img_w, box_h / img_h)` and what it does: the
      scaled image covers the box on both axes and meets it exactly on one. */
  function FillScale(iw: nat, ih: nat, boxWidth: real, boxHeight: real): (s: real)
    requires iw > 0 && ih > 0
    ensures iw as real * s >= boxWidth && ih as real * s >= boxHeight
    ensures iw as real * s == boxWidth || ih as real * s == boxHeight
  {
    var sw := boxWidth / iw as real;
    var sh := boxHeight / ih as real;
    ScaleBack(iw as real, boxWidth);
    ScaleBack(ih as real, boxHeight);
    var s := MaxR(sw, sh);
    ScaleMonotone(iw as real, s, sw);
    ScaleMonotone(ih as real, s, sh);
    s
  }

  /** `_draw_centered_image` of the vector generator: fill the box, centre
      horizontally, keep the bottom edge at `y` (the y axis points up). */
  function FillVector(iw: nat, ih: nat, x: real, y: real, width: real, height: real,
                      maxWidth: real, maxHeight: real): (f: Option<Frame>)
    ensures f.None? <==> iw == 0 || ih == 0
    ensures f.Some? ==> f.value.w >= maxWidth && f.value.h >= maxHeight
    ensures f.Some? ==> f.value.w == maxWidth || f.value.h == maxHeight
    ensures f.Some? ==> f.value.w * ih as real == f.value.h * iw as real
    ensures f.Some? ==> f.value.x + f.value.w / 2.0 == x + width / 2.0
    ensures f.Some? ==> f.value.y == y
  {
    if iw == 0 || ih == 0 then None
    else
      var s := FillScale(iw, ih, maxWidth, maxHeight);
      var w := iw as real * s;
      var h := ih as real * s;
      Some(Frame(x + (width - w) / 2.0, y, w, h))
  }

  /** `_paste_centered_image` of the raster generator: the same fill, each
      side truncated to whole pixels by `int()`, centred with floor division
      and pasted with its top edge at `y` (the y axis points down). The
      overflow is split evenly, the odd pixel going to the left. */
  function FillRaster(iw: nat, ih: nat, x: int, y: int, width: int, height: int): (f: Option<PxFrame>)
    ensures f.None? <==> iw == 0 || ih == 0
    ensures f.Some? ==> f.value.w >= width && f.value.h >= height
    ensures f.Some? ==> f.value.w == width || f.value.h == height
    ensures f.Some? ==>
      (f.value.w, f.value.h) == ScaledSize(iw, ih, FillScale(iw, ih, width as real, height as real))
    ensures f.Some? ==> f.value.y == y
    ensures f.Some? ==> 0 <= (x - f.value.x) - ((f.value.x + f.value.w) - (x + width)) <= 1
  {
    if iw == 0 || ih == 0 then None
    else Some(FilledFrame(iw, ih, FillScale(iw, ih, width as real, height as real), x, y, width, height))
  }

  /** The pasted frame for a scale `s` that makes the image cover the box
      and meet it on one axis. */
  function FilledFrame(iw: nat, ih: nat, s: real, x: int, y: int, width: int, height: int): (f: PxFrame)
    requires iw as real * s >= width as real && ih as real * s >= height as real
    requires iw as real * s == width as real || ih as real * s == height as real
    ensures f.w >= width && f.h >= height
    ensures f.w == width || f.h == height
    ensures (f.w, f.h) == ScaledSize(iw, ih, s)
    ensures f.y == y
    ensures 0 <= (x - f.x) - ((f.x + f.w) - (x + width)) <= 1
  {
    var size := ScaledSize(iw, ih, s);
    TruncFill(iw as real * s, ih as real * s, width, height);
    PasteFrame(x, y, width, size.0, size.1)
  }

  /** Both image sides scaled by `s`, each truncated by `int()`. */
  function ScaledSize(iw: nat, ih: nat, s: real): (int, int) {
    (Trunc(iw as real * s), Trunc(ih as real * s))
  }

  /** An image of `w` × `h` pixels pasted at `x + (width - w) // 2` and `y`:
      its overflow past a box of width `width` at `x` is split evenly, the
      odd pixel going to the left. */
  function PasteFrame(x: int, y: int, width: int, w: int, h: int): (f: PxFrame)
    ensures f.y == y && f.w == w && f.h == h
    ensures 0 <= (x - f.x) - ((f.x + f.w) - (x + width)) <= 1
  {
    PxFrame(x + (width - w) / 2, y, w, h)
  }

  /** Truncation keeps the fill: sides `sw` and `sh` that cover a box of
      whole sides and meet it on one axis still do so once truncated. */
  lemma TruncFill(sw: real, sh: real, width: int, height: int)
    requires sw >= width as real && sh >= height as real
    requires sw == width as real || sh == height as real
    ensures Trunc(sw) >= width && Trunc(sh) >= height
    ensures Trunc(sw) == width || Trunc(sh) == height
  {
    TruncAtLeast(sw, width);
    TruncAtLeast(sh, height);
    TruncOfWhole(width);
    TruncOfWhole(height);
  }

  /** The two pasted sides keep the image's aspect ratio up to the
      truncation: `w·ih` and `h·iw`, equal before truncation, differ by less
      than `iw + ih`. */
  lemma RasterFillKeepsAspect(iw: nat, ih: nat, x: int, y: int, width: int, height: int)
    requires iw > 0 && ih > 0
    ensures var f := FillRaster(iw, ih, x, y, width, height);
            && f.Some?
            && -(iw + ih) as real < f.value.w as real * ih as real - f.value.h as real * iw as real < (iw + ih) as real
  {
    ScaledSizeKeepsAspect(iw, ih, FillScale(iw, ih, width as real, height as real));
  }

  /** Truncating both sides after scaling by any `s` keeps the aspect ratio
      to within `iw + ih`. */
  lemma ScaledSizeKeepsAspect(iw: nat, ih: nat, s: real)
    requires iw > 0 && ih > 0
    ensures var size := ScaledSize(iw, ih, s);
            -(iw + ih) as real < size.0 as real * ih as real - size.1 as real * iw as real < (iw + ih) as real
  {
    var a, b := iw as real, ih as real;
    var size := ScaledSize(iw, ih, s);
    assert size.0 == Trunc(a * s) && size.1 == Trunc(b * s);
    TruncCross(a, b, s);
  }

  /** For any scale `s`, `int(a·s)·b` and `int(b·s)·a` differ by less than
      `a + b`. */
  lemma TruncCross(a: real, b: real, s: real)
    requires a > 0.0 && b > 0.0
    ensures -(a + b) < Trunc(a * s) as real * b - Trunc(b * s) as real * a < a + b
  {
    var e1 := Trunc(a * s) as real - a * s;
    var e2 := Trunc(b * s) as real - b * s;
    assert -1.0 < e1 < 1.0 && -1.0 < e2 < 1.0;
    MulStrict(b, e1, 1.0);
    MulStrict(b, -1.0, e1);
    MulStrict(a, e2, 1.0);
    MulStrict(a, -1.0, e2);
    CrossTerms(a, b, s, e1, e2);
    assert Trunc(a * s) as real * b - Trunc(b * s) as real * a == (a * s + e1) * b - (b * s + e2) * a;
  }

  /** `(a·s + e1)·b − (b·s + e2)·a = b·e1 − a·e2`. */
  lemma CrossTerms(a: real, b: real, s: real, e1: real, e2: real)
    ensures (a * s + e1) * b - (b * s + e2) * a == b * e1 - a * e2
  {
  }

  /** Two fills of a 100 × 50 box: an image of the same aspect shrinks to
      the box exactly; a 100 × 200 image keeps scale 1 and overflows the box
      height fourfold rather than being distorted. */
  lemma FillExamples()
    ensures FillVector(200, 100, 0.0, 0.0, 100.0, 50.0, 100.0, 50.0) == Some(Frame(0.0, 0.0, 100.0, 50.0))
    ensures FillVector(100, 200, 0.0, 0.0, 100.0, 50.0, 100.0, 50.0) == Some(Frame(0.0, 0.0, 100.0, 200.0))
  {
  }

  /** The converter's page settings, defaults already applied. */
  datatype PageSetup = PageSetup(
    pageWidth: real, pageHeight: real,
    topPad: real, bottomPad: real, leftPad: real, rightPad: real,
    fitToPage: bool, center: bool)

  function AvailableWidth(p: PageSetup): real {
    p.pageWidth - p.leftPad - p.rightPad
  }

  function AvailableHeight(p: PageSetup): real {
    p.pageHeight - p.topPad - p.bottomPad
  }

  /** The fit scale `min(avail_w / img_w, avail_h / img_h)`: the scaled image
      stays inside the area on both axes and meets it exactly on one. */
  function FitScale(iw: nat, ih: nat, aw: real, ah: real): (s: real)
    requires iw > 0 && ih > 0
    ensures iw as real * s <= aw && ih as real * s <= ah
    ensures iw as real * s == aw || ih as real * s == ah
  {
    var sw := aw / iw as real;
    var sh := ah / ih as real;
    ScaleBack(iw as real, aw);
    ScaleBack(ih as real, ah);
    var s := MinR(sw, sh);
    ScaleMonotone(iw as real, sw, s);
    ScaleMonotone(ih as real, sh, s);
    s
  }

  /** The size and position `convert_png_to_pdf` draws a PNG of `iw` × `ih`
      pixels at. In fit mode the aspect ratio is kept and the image touches
      the area on one axis; otherwise each side is clamped to the area on its
      own. Centred placement puts the image's centre on the area's centre;
      otherwise its bottom-left corner is the area's. */
  function PlaceOnPage(p: PageSetup, iw: nat, ih: nat): (f: Option<Frame>)
    ensures f.None? <==> p.fitToPage && (iw == 0 || ih == 0)
    ensures f.Some? ==> f.value.w <= AvailableWidth(p) && f.value.h <= AvailableHeight(p)
    ensures f.Some? && p.fitToPage ==>
      && (f.value.w == AvailableWidth(p) || f.value.h == AvailableHeight(p))
      && f.value.w * ih as real == f.value.h * iw as real
    ensures f.Some? && !p.fitToPage ==>
      && f.value.w <= iw as real && (f.value.w == iw as real || f.value.w == AvailableWidth(p))
      && f.value.h <= ih as real && (f.value.h == ih as real || f.value.h == AvailableHeight(p))
    ensures f.Some? && p.center ==>
      && f.value.x + f.value.w / 2.0 == p.leftPad + AvailableWidth(p) / 2.0
      && f.value.y + f.value.h / 2.0 == p.bottomPad + AvailableHeight(p) / 2.0
    ensures f.Some? && !p.center ==> f.value.x == p.leftPad && f.value.y == p.bottomPad
  {
    var aw := AvailableWidth(p);
    var ah := AvailableHeight(p);
    if p.fitToPage && (iw == 0 || ih == 0) then None
    else
      var (w, h) :=
        if p.fitToPage then
          var s := FitScale(iw, ih, aw, ah);
          (iw as real * s, ih as real * s)
        else
          (MinR(iw as real, aw), MinR(ih as real, ah));
      if p.center then Some(Frame(p.leftPad + (aw - w) / 2.0, p.bottomPad + (ah - h) / 2.0, w, h))
      else Some(Frame(p.leftPad, p.bottomPad, w, h))
  }

  /** With a non-negative area, the placed image lies inside it, centred or not. */
  lemma PlacedImageInsideArea(p: PageSetup, iw: nat, ih: nat)
    requires AvailableWidth(p) >= 0.0 && AvailableHeight(p) >= 0.0
    requires PlaceOnPage(p, iw, ih).Some?
    ensures var f := PlaceOnPage(p, iw, ih).value;
            && p.leftPad <= f.x && f.x + f.w <= p.leftPad + AvailableWidth(p)
            && p.bottomPad <= f.y && f.y + f.h <= p.bottomPad + AvailableHeight(p)
  {
    var f := PlaceOnPage(p, iw, ih).value;
    if p.fitToPage {
      var s := FitScale(iw, ih, AvailableWidth(p), AvailableHeight(p));
      assert s >= 0.0;
      ScaleMonotone(iw as real, s, 0.0);
      ScaleMonotone(ih as real, s, 0.0);
    }
  }

  /** Without fit-to-page the two sides are clamped independently, so the
      aspect ratio is not kept: a 200 × 100 image on a 100 × 200 area is
      drawn 100 × 100. */
  lemma NativeSizeDistorts()
    ensures PlaceOnPage(PageSetup(100.0, 200.0, 0.0, 0.0, 0.0, 0.0, false, true), 200, 100)
            == Some(Frame(0.0, 50.0, 100.0, 100.0))
  {
  }
}
