/** `remove_background`: every pixel whose colour lies within `tolerance` of
    one of the listed background colours (Euclidean distance over R, G, B)
    becomes fully transparent; nothing else changes. Distances are compared
    exactly, squared, instead of through a floating-point square root. */
module Background {
  import opened Wrappers
  import opened Numeric
  import opened Colors
  import opened Raster

  /** The squared colour distance of a pixel from a colour. */
  function Dist2(p: Pixel, c: Rgb): int {
    (p.r - c.r) * (p.r - c.r) + (p.g - c.g) * (p.g - c.g) + (p.b - c.b) * (p.b - c.b)
  }

  /** `sqrt(dist²) <= tolerance`, squared: no distance is below a negative
      tolerance. */
  predicate Near(p: Pixel, c: Rgb, tolerance: int) {
    0 <= tolerance && Dist2(p, c) <= tolerance * tolerance
  }

  lemma SquareMonotone(x: real, y: real)
    requires 0.0 <= x && 0.0 <= y
    ensures x <= y <==> x * x <= y * y
  {
    if x <= y {
      assert x * x <= x * y;
      assert x * y <= y * y;
    } else {
      MulWeak(y, y, x);
      MulStrict(x, y, x);
      calc {
        y * y;
      <= y * x;
      == x * y;
      < x * x;
      }
    }
  }

  /** The squared test is the script's `sqrt(...) <= tolerance` for the
      non-negative root of the squared distance. */
  lemma NearIsRootTest(p: Pixel, c: Rgb, tolerance: int, root: real)
    requires root >= 0.0 && root * root == Dist2(p, c) as real
    ensures Near(p, c, tolerance) <==> root <= tolerance as real
  {
    if tolerance >= 0 {
      SquareMonotone(root, tolerance as real);
      assert (tolerance * tolerance) as real == tolerance as real * tolerance as real;
    }
  }

  /** At tolerance 0 exactly the pixels of that very colour match. */
  lemma ZeroToleranceIsExact(p: Pixel, c: Rgb)
    ensures Near(p, c, 0) <==> p.r == c.r && p.g == c.g && p.b == c.b
  {
    SquareSign(p.r - c.r);
    SquareSign(p.g - c.g);
    SquareSign(p.b - c.b);
  }

  lemma SquareSign(d: int)
    ensures d * d >= 0
    ensures d != 0 ==> d * d > 0
  {
    if d < 0 {
      assert d * d == (-d) * (-d);
    }
  }

  /** A pixel is background when it is near some listed colour. */
  predicate InBackground(p: Pixel, colors: seq<Rgb>, tolerance: int) {
    exists k :: 0 <= k < |colors| && Near(p, colors[k], tolerance)
  }

  /** The script's combined mask at one pixel: start from false and OR in each
      colour's mask in list order. It is the background test. */
  function CombinedMask(p: Pixel, colors: seq<Rgb>, tolerance: int): (m: bool)
    ensures m <==> InBackground(p, colors, tolerance)
  {
    if |colors| == 0 then false
    else
      var rest := colors[..|colors| - 1];
      var m := CombinedMask(p, rest, tolerance) || Near(p, colors[|colors| - 1], tolerance);
      assert forall k :: 0 <= k < |rest| ==> rest[k] == colors[k];
      m
  }

  /** Listing a superset of colours never restores a masked pixel, so adding
      a colour only ever masks more. */
  lemma MaskGrows(p: Pixel, colors: seq<Rgb>, more: seq<Rgb>, tolerance: int)
    requires forall c :: c in colors ==> c in more
    ensures CombinedMask(p, colors, tolerance) ==> CombinedMask(p, more, tolerance)
  {
    if CombinedMask(p, colors, tolerance) {
      var k :| 0 <= k < |colors| && Near(p, colors[k], tolerance);
      assert colors[k] in more;
    }
  }

  /** The mask depends only on which colours are listed: order and repetition
      do not matter. */
  lemma MaskIgnoresOrder(p: Pixel, colors: seq<Rgb>, others: seq<Rgb>, tolerance: int)
    requires forall c :: c in colors <==> c in others
    ensures CombinedMask(p, colors, tolerance) == CombinedMask(p, others, tolerance)
  {
    MaskGrows(p, colors, others, tolerance);
    MaskGrows(p, others, colors, tolerance);
  }

  function ClearPixel(p: Pixel, colors: seq<Rgb>, tolerance: int): Pixel {
    if CombinedMask(p, colors, tolerance) then p.(a := 0) else p
  }

  /** `data[:, :, 3] = np.where(combined_mask, 0, a)`: background pixels get
      alpha 0, every other pixel keeps its alpha, and no pixel's colour
      changes. */
  function ClearBackground(img: Image, colors: seq<Rgb>, tolerance: int): (out: Image)
    ensures SameShape(out, img)
    ensures forall i, j :: 0 <= i < |img| && 0 <= j < |img[i]| ==>
      && SameRgb(out[i][j], img[i][j])
      && (InBackground(img[i][j], colors, tolerance) ==> out[i][j].a == 0)
      && (!InBackground(img[i][j], colors, tolerance) ==> out[i][j].a == img[i][j].a)
  {
    seq(|img|, i requires 0 <= i < |img| =>
      seq(|img[i]|, j requires 0 <= j < |img[i]| => ClearPixel(img[i][j], colors, tolerance)))
  }

  /** The background test reads only the colour channels. */
  lemma BackgroundIgnoresAlpha(p: Pixel, q: Pixel, colors: seq<Rgb>, tolerance: int)
    requires SameRgb(p, q)
    ensures InBackground(p, colors, tolerance) == InBackground(q, colors, tolerance)
  {
    assert forall c :: Dist2(p, c) == Dist2(q, c);
  }

  /** Removing the background twice is removing it once: the colours are
      untouched, so the second pass masks the same pixels and they already
      have alpha 0. */
  lemma ClearIsIdempotent(img: Image, colors: seq<Rgb>, tolerance: int)
    ensures ClearBackground(ClearBackground(img, colors, tolerance), colors, tolerance)
            == ClearBackground(img, colors, tolerance)
  {
    var once := ClearBackground(img, colors, tolerance);
    var twice := ClearBackground(once, colors, tolerance);
    forall i, j | 0 <= i < |img| && 0 <= j < |img[i]|
      ensures twice[i][j] == once[i][j]
    {
      BackgroundIgnoresAlpha(once[i][j], img[i][j], colors, tolerance);
    }
    assert forall i :: 0 <= i < |img| ==> twice[i] == once[i];
  }

  /** Every colour string parsed, or `None` as soon as one is malformed. */
  function ParseColors(hexes: seq<string>): (cs: Option<seq<Rgb>>)
    ensures cs.Some? <==> forall k :: 0 <= k < |hexes| ==> HexToRgb(hexes[k]).Some?
    ensures cs.Some? ==>
      && |cs.value| == |hexes|
      && forall k :: 0 <= k < |hexes| ==> cs.value[k] == HexToRgb(hexes[k]).value
  {
    if |hexes| == 0 then Some([])
    else
      var head := HexToRgb(hexes[0]);
      var tail := ParseColors(hexes[1..]);
      assert forall k :: 0 < k < |hexes| ==> hexes[k] == hexes[1..][k - 1];
      if head.None? || tail.None? then None
      else Some([head.value] + tail.value)
  }

  /** `remove_background` on an RGBA image: `None` where a colour string is
      malformed and the script fails without writing anything. */
  function RemoveBackground(img: Image, hexes: seq<string>, tolerance: int): (out: Option<Image>)
    ensures out.None? <==> exists k :: 0 <= k < |hexes| && HexToRgb(hexes[k]).None?
    ensures out.Some? ==> SameShape(out.value, img)
    ensures out.Some? ==> forall i, j :: 0 <= i < |img| && 0 <= j < |img[i]| ==>
      && SameRgb(out.value[i][j], img[i][j])
      && (out.value[i][j].a == 0 || out.value[i][j].a == img[i][j].a)
  {
    var cs := ParseColors(hexes);
    if cs.None? then None else Some(ClearBackground(img, cs.value, tolerance))
  }

  /** A pixel is made transparent exactly when its colour is within the
      tolerance of a listed colour (or it was transparent already). */
  lemma RemovedExactlyTheBackground(img: Image, hexes: seq<string>, tolerance: int, i: nat, j: nat)
    requires RemoveBackground(img, hexes, tolerance).Some?
    requires i < |img| && j < |img[i]|
    ensures var out := RemoveBackground(img, hexes, tolerance).value;
            img[i][j].a != 0 ==>
              (out[i][j].a == 0 <==>
                 exists k :: 0 <= k < |hexes| && Near(img[i][j], HexToRgb(hexes[k]).value, tolerance))
  {
    var cs := ParseColors(hexes).value;
    if img[i][j].a != 0 {
      if InBackground(img[i][j], cs, tolerance) {
        var k :| 0 <= k < |cs| && Near(img[i][j], cs[k], tolerance);
        assert Near(img[i][j], HexToRgb(hexes[k]).value, tolerance);
      }
      if exists k :: 0 <= k < |hexes| && Near(img[i][j], HexToRgb(hexes[k]).value, tolerance) {
        var k :| 0 <= k < |hexes| && Near(img[i][j], HexToRgb(hexes[k]).value, tolerance);
        assert Near(img[i][j], cs[k], tolerance);
      }
    }
  }

  /** The command line takes `--tolerance`, else the configured value, else
      30, and refuses anything outside [0, 255]. */
  function CheckTolerance(cli: Option<int>, configured: Option<int>): (t: Option<int>)
    ensures t.Some? ==> IsByte(t.value)
    ensures cli.Some? ==> (t.Some? <==> IsByte(cli.value)) && (t.Some? ==> t.value == cli.value)
    ensures cli.None? && configured.Some? ==>
      (t.Some? <==> IsByte(configured.value)) && (t.Some? ==> t.value == configured.value)
    ensures cli.None? && configured.None? ==> t == Some(30)
  {
    var chosen := cli.GetOr(configured.GetOr(30));
    if 0 <= chosen <= 255 then Some(chosen) else None
  }
}
