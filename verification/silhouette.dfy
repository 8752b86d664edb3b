/** `add_border_to_subject`: the subject is every pixel with alpha above 0;
    the subject mask is dilated `border_width` times with a 3 × 3 structure
    (cells outside the image count as empty), and the pixels the dilation
    adds are painted opaque in the border colour. */
module Silhouette {
  import opened Wrappers
  import opened Numeric
  import opened Colors
  import opened Raster

  function Abs(x: int): nat {
    if x < 0 then -x else x
  }

  /** Some set cell of `m` lies within Chebyshev distance `r` of (i, j). */
  predicate Within(m: Mask, h: nat, w: nat, i: int, j: int, r: nat)
    requires IsGrid(m, h, w)
  {
    exists a, b :: 0 <= a < h && 0 <= b < w && Abs(a - i) <= r && Abs(b - j) <= r && m[a][b]
  }

  /** A cell of `m`, with every cell outside the grid empty (the
      dilation's `border_value` of 0). */
  predicate Cell(m: Mask, h: nat, w: nat, a: int, b: int)
    requires IsGrid(m, h, w)
  {
    0 <= a < h && 0 <= b < w && m[a][b]
  }

  /** The 3 × 3 structure of ones centred on (i, j): the cell or one of its
      eight neighbours is set. */
  predicate Neighbourhood(m: Mask, h: nat, w: nat, i: int, j: int)
    requires IsGrid(m, h, w)
  {
    || Cell(m, h, w, i - 1, j - 1) || Cell(m, h, w, i - 1, j) || Cell(m, h, w, i - 1, j + 1)
    || Cell(m, h, w, i, j - 1)     || Cell(m, h, w, i, j)     || Cell(m, h, w, i, j + 1)
    || Cell(m, h, w, i + 1, j - 1) || Cell(m, h, w, i + 1, j) || Cell(m, h, w, i + 1, j + 1)
  }

  /** The nine-cell neighbourhood is Chebyshev distance 1. */
  lemma NeighbourhoodIsWithin(m: Mask, h: nat, w: nat, i: int, j: int)
    requires IsGrid(m, h, w)
    ensures Neighbourhood(m, h, w, i, j) <==> Within(m, h, w, i, j, 1)
  {
    if Within(m, h, w, i, j, 1) {
      var a, b :| 0 <= a < h && 0 <= b < w && Abs(a - i) <= 1 && Abs(b - j) <= 1 && m[a][b];
      assert Cell(m, h, w, i + (a - i), j + (b - j));
    }
  }

  /** One `binary_dilation` with the 3 × 3 structure of ones: a cell is set
      when it or one of its eight neighbours inside the grid is set, that is,
      when a set cell lies within Chebyshev distance 1. */
  function Dilate(m: Mask, h: nat, w: nat): (d: Mask)
    requires IsGrid(m, h, w)
    ensures IsGrid(d, h, w)
    ensures forall i, j :: 0 <= i < h && 0 <= j < w ==> (d[i][j] <==> Within(m, h, w, i, j, 1))
  {
    forall i, j ensures Neighbourhood(m, h, w, i, j) <==> Within(m, h, w, i, j, 1) {
      NeighbourhoodIsWithin(m, h, w, i, j);
    }
    seq(h, i requires 0 <= i < h => seq(w, j requires 0 <= j < w => Neighbourhood(m, h, w, i, j)))
  }

  /** `n` dilations in a row. */
  function DilateTimes(m: Mask, h: nat, w: nat, n: nat): (d: Mask)
    requires IsGrid(m, h, w)
    ensures IsGrid(d, h, w)
  {
    if n == 0 then m else Dilate(DilateTimes(m, h, w, n - 1), h, w)
  }

  /** A dilation keeps every set cell (it is extensive). */
  lemma DilateIsExtensive(m: Mask, h: nat, w: nat, i: nat, j: nat)
    requires IsGrid(m, h, w) && i < h && j < w && m[i][j]
    ensures Dilate(m, h, w)[i][j]
  {
    assert Abs(i - i) <= 1 && Abs(j - j) <= 1;
  }

  /** A dilation of a larger mask is larger (it is monotone). */
  lemma DilateIsMonotone(m: Mask, more: Mask, h: nat, w: nat)
    requires IsGrid(m, h, w) && IsGrid(more, h, w)
    requires forall i, j :: 0 <= i < h && 0 <= j < w && m[i][j] ==> more[i][j]
    ensures forall i, j :: 0 <= i < h && 0 <= j < w && Dilate(m, h, w)[i][j] ==> Dilate(more, h, w)[i][j]
  {
  }

  /** One step from `i` toward `a`. */
  function Toward(i: int, a: int): int {
    if a > i then i + 1 else if a < i then i - 1 else i
  }

  /** After `n` dilations a cell is set exactly when a cell of the original
      mask lies within Chebyshev distance `n` of it: the mask has grown by
      `n` pixels in every direction, diagonals included. */
  lemma DilateReach(m: Mask, h: nat, w: nat, n: nat, i: nat, j: nat)
    requires IsGrid(m, h, w) && i < h && j < w
    ensures DilateTimes(m, h, w, n)[i][j] <==> Within(m, h, w, i, j, n)
  {
    if DilateTimes(m, h, w, n)[i][j] {
      ReachedIsWithin(m, h, w, n, i, j);
    }
    if Within(m, h, w, i, j, n) {
      WithinIsReached(m, h, w, n, i, j);
    }
  }

  /** A cell set after `n` dilations has a subject cell within distance `n`. */
  lemma {:induction false} ReachedIsWithin(m: Mask, h: nat, w: nat, n: nat, i: nat, j: nat)
    requires IsGrid(m, h, w) && i < h && j < w
    requires DilateTimes(m, h, w, n)[i][j]
    ensures Within(m, h, w, i, j, n)
    decreases n
  {
    if n == 0 {
      assert Abs(i - i) <= 0 && Abs(j - j) <= 0;
    } else {
      var a', b' := DilatedFrom(DilateTimes(m, h, w, n - 1), h, w, i, j);
      ReachedIsWithin(m, h, w, n - 1, a', b');
      WithinStep(m, h, w, n - 1, a', b', i, j);
    }
  }

  /** A cell set by a dilation has a set neighbour in the mask dilated. */
  lemma DilatedFrom(m: Mask, h: nat, w: nat, i: nat, j: nat) returns (a: nat, b: nat)
    requires IsGrid(m, h, w) && i < h && j < w && Dilate(m, h, w)[i][j]
    ensures a < h && b < w && Abs(a - i) <= 1 && Abs(b - j) <= 1 && m[a][b]
  {
    assert Within(m, h, w, i, j, 1);
    a, b :| 0 <= a < h && 0 <= b < w && Abs(a - i) <= 1 && Abs(b - j) <= 1 && m[a][b];
  }

  /** A cell one step from (a', b') is within distance `r + 1` of whatever
      lies within distance `r` of (a', b'). */
  lemma WithinStep(m: Mask, h: nat, w: nat, r: nat, a': int, b': int, i: int, j: int)
    requires IsGrid(m, h, w) && Within(m, h, w, a', b', r)
    requires Abs(a' - i) <= 1 && Abs(b' - j) <= 1
    ensures Within(m, h, w, i, j, r + 1)
  {
    var a, b :| 0 <= a < h && 0 <= b < w && Abs(a - a') <= r && Abs(b - b') <= r && m[a][b];
    assert Abs(a - i) <= r + 1 && Abs(b - j) <= r + 1;
  }

  /** A cell with a subject cell within distance `n` is set after `n`
      dilations: one step toward that cell reaches a cell set after `n - 1`. */
  lemma {:induction false} WithinIsReached(m: Mask, h: nat, w: nat, n: nat, i: nat, j: nat)
    requires IsGrid(m, h, w) && i < h && j < w
    requires Within(m, h, w, i, j, n)
    ensures DilateTimes(m, h, w, n)[i][j]
    decreases n
  {
    var a, b :| 0 <= a < h && 0 <= b < w && Abs(a - i) <= n && Abs(b - j) <= n && m[a][b];
    if n == 0 {
      assert a == i && b == j;
    } else {
      var a', b' := Toward(i, a), Toward(j, b);
      TowardStep(i, a, n, h);
      TowardStep(j, b, n, w);
      WithinIsReached(m, h, w, n - 1, a', b');
      DilatedTo(DilateTimes(m, h, w, n - 1), h, w, i, j, a', b');
    }
  }

  /** One step toward `a` stays on the grid, moves by at most 1 and brings
      `a` one closer. */
  lemma TowardStep(i: int, a: int, n: nat, h: nat)
    requires 0 < n && 0 <= i < h && 0 <= a < h && Abs(a - i) <= n
    ensures 0 <= Toward(i, a) < h && Abs(Toward(i, a) - i) <= 1 && Abs(a - Toward(i, a)) <= n - 1
  {
  }

  /** A dilation sets every cell next to a set cell. */
  lemma DilatedTo(m: Mask, h: nat, w: nat, i: nat, j: nat, a: nat, b: nat)
    requires IsGrid(m, h, w) && i < h && j < w && a < h && b < w && m[a][b]
    requires Abs(a - i) <= 1 && Abs(b - j) <= 1
    ensures Dilate(m, h, w)[i][j]
  {
    assert Within(m, h, w, i, j, 1);
  }

  /** `subject_mask = alpha > 0`. */
  function SubjectMask(img: Image, h: nat, w: nat): (m: Mask)
    requires IsGrid(img, h, w)
    ensures IsGrid(m, h, w)
    ensures forall i, j :: 0 <= i < h && 0 <= j < w ==> (m[i][j] <==> img[i][j].a > 0)
  {
    seq(h, i requires 0 <= i < h => seq(w, j requires 0 <= j < w => img[i][j].a > 0))
  }

  predicate HasSubject(img: Image) {
    exists i, j :: 0 <= i < |img| && 0 <= j < |img[i]| && img[i][j].a > 0
  }

  /** A border pixel: transparent itself, with a subject pixel within
      Chebyshev distance `r`. */
  predicate IsBorder(img: Image, h: nat, w: nat, i: int, j: int, r: nat)
    requires IsGrid(img, h, w) && 0 <= i < h && 0 <= j < w
  {
    && !(img[i][j].a > 0)
    && exists a, b :: 0 <= a < h && 0 <= b < w && Abs(a - i) <= r && Abs(b - j) <= r && img[a][b].a > 0
  }

  /** The pixel at (i, j) after painting `border = dilated & ~subject`. */
  function Paint(img: Image, dilated: Mask, h: nat, w: nat, c: Rgb, i: nat, j: nat): Pixel
    requires IsGrid(img, h, w) && IsGrid(dilated, h, w) && i < h && j < w
  {
    if dilated[i][j] && !(img[i][j].a > 0) then Pixel(c.r, c.g, c.b, 255) else img[i][j]
  }

  /** `add_border_to_subject` on an RGBA image. Without a subject the image
      is returned as it is, before the colour is read; otherwise a malformed
      colour fails the call. The border pixels, those within `border_width`
      of the subject but not in it, become the opaque border colour; every
      other pixel is unchanged. */
  function AddBorder(img: Image, hex: string, width: int): (out: Option<Image>)
    requires IsGrid(img, |img|, Width(img))
    ensures out.None? <==> HasSubject(img) && HexToRgb(hex).None?
    ensures !HasSubject(img) ==> out == Some(img)
    ensures out.Some? ==> SameShape(out.value, img)
    ensures out.Some? && HasSubject(img) ==>
      var c := HexToRgb(hex).value;
      forall i, j :: 0 <= i < |img| && 0 <= j < Width(img) ==>
        && (IsBorder(img, |img|, Width(img), i, j, Max(0, width)) ==> out.value[i][j] == Pixel(c.r, c.g, c.b, 255))
        && (!IsBorder(img, |img|, Width(img), i, j, Max(0, width)) ==> out.value[i][j] == img[i][j])
  {
    var h, w := |img|, Width(img);
    if !HasSubject(img) then Some(img)
    else
      var c := HexToRgb(hex);
      if c.None? then None
      else
        var subject := SubjectMask(img, h, w);
        var dilated := DilateTimes(subject, h, w, Max(0, width));
        var result := seq(h, i requires 0 <= i < h =>
                        seq(w, j requires 0 <= j < w => Paint(img, dilated, h, w, c.value, i, j)));
        BorderIsReach(img, subject, h, w, Max(0, width));
        Some(result)
  }

  /** The dilated cells outside the subject are exactly the border pixels. */
  lemma BorderIsReach(img: Image, subject: Mask, h: nat, w: nat, r: nat)
    requires IsGrid(img, h, w) && subject == SubjectMask(img, h, w)
    ensures forall i, j :: 0 <= i < h && 0 <= j < w ==>
      (DilateTimes(subject, h, w, r)[i][j] && !(img[i][j].a > 0) <==> IsBorder(img, h, w, i, j, r))
  {
    forall i, j | 0 <= i < h && 0 <= j < w
      ensures DilateTimes(subject, h, w, r)[i][j] && !(img[i][j].a > 0) <==> IsBorder(img, h, w, i, j, r)
    {
      DilateReach(subject, h, w, r, i, j);
    }
  }

  /** The border never covers the subject: subject pixels come out as they
      went in. */
  lemma SubjectIsKept(img: Image, hex: string, width: int, i: nat, j: nat)
    requires IsGrid(img, |img|, Width(img)) && AddBorder(img, hex, width).Some?
    requires i < |img| && j < Width(img) && img[i][j].a > 0
    ensures AddBorder(img, hex, width).value[i][j] == img[i][j]
  {
  }

  /** The command line takes `--width`, else the configured value, else 2,
      and refuses a width outside [1, 100]. */
  function CheckWidth(cli: Option<int>, configured: Option<int>): (bw: Option<int>)
    ensures bw.Some? ==> 1 <= bw.value <= 100
    ensures cli.Some? ==> (bw.Some? <==> 1 <= cli.value <= 100) && (bw.Some? ==> bw.value == cli.value)
    ensures cli.None? && configured.Some? ==>
      (bw.Some? <==> 1 <= configured.value <= 100) && (bw.Some? ==> bw.value == configured.value)
    ensures cli.None? && configured.None? ==> bw == Some(2)
  {
    var chosen := cli.GetOr(configured.GetOr(2));
    if chosen < 1 || chosen > 100 then None else Some(chosen)
  }
}
