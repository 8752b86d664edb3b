/** Name text placement of the vector generator's `_draw_centered_text`. The
    width of a string at a font size is the font metric `measure`, a parameter
    standing for reportlab's `stringWidth`. A single line is shrunk to the box
    width when it is too wide; multi-line text is broken by the line breaker
    and stacked at 1.2 times the font size, the block centred in the box. */
module TextFit {
  import opened Wrappers
  import opened Numeric
  import opened LineBreak
  import opened CardLayout

  /** One string drawn with its left end at `x` and its baseline at
      `baseline`, y up. */
  datatype TextLine = TextLine(text: string, x: real, baseline: real, size: real)

  /** The line height of multi-line text. */
  function LineHeight(size: real): real {
    size * 1.2
  }

  /** The single-line font size: unchanged when the text fits within
      `maxWidth`, else `int(font_size * (max_width / text_width))`; `None` when
      that division is by zero. */
  function ShrunkSize(size: real, maxWidth: real, textWidth: real): (s: Option<real>)
    ensures s.None? <==> textWidth > maxWidth && textWidth == 0.0
    ensures s.Some? && textWidth <= maxWidth ==> s.value == size
    ensures s.Some? && textWidth > maxWidth ==> Integral(s.value)
    ensures s.Some? && textWidth > maxWidth ==>
      var r := size * (maxWidth / textWidth);
      && (r >= 0.0 ==> s.value <= r < s.value + 1.0)
      && (r < 0.0 ==> s.value - 1.0 < r <= s.value)
    ensures size >= 0.0 && textWidth > maxWidth >= 0.0 ==>
      s.Some? && s.value <= size * (maxWidth / textWidth) < s.value + 1.0
  {
    if textWidth > maxWidth then
      if textWidth == 0.0 then None
      else Some(Trunc(size * (maxWidth / textWidth)) as real)
    else Some(size)
  }

  /** A too-wide line at a positive size gets a smaller size that is not
      negative, as long as the box is not narrower than its padding. */
  lemma ShrinkIsSmaller(size: real, maxWidth: real, textWidth: real)
    requires size > 0.0 && textWidth > maxWidth >= 0.0
    ensures var s := ShrunkSize(size, maxWidth, textWidth);
            s.Some? && 0.0 <= s.value < size
  {
    var r := maxWidth / textWidth;
    RatioBelowOne(maxWidth, textWidth);
    assert 0.0 <= r < 1.0;
    FractionBelow(size, r);
    assert 0.0 <= size * r < size;
    var n := Trunc(size * r);
    assert 0 <= n && n as real <= size * r;
    ShrunkSizeOfWide(size, maxWidth, textWidth);
  }

  /** The shrink branch: a too-wide line of non-zero width gets the
      truncated scaled size. */
  lemma ShrunkSizeOfWide(size: real, maxWidth: real, textWidth: real)
    requires textWidth > maxWidth && textWidth != 0.0
    ensures ShrunkSize(size, maxWidth, textWidth) == Some(Trunc(size * (maxWidth / textWidth)) as real)
  {
  }

  /** For a metric proportional to the font size, as for reportlab's
      built-in fonts, the shrunk line fits the box. The code itself measures
      again and does not check. */
  lemma ShrunkLineFits(size: real, maxWidth: real, unitWidth: real)
    requires size > 0.0 && unitWidth > 0.0 && maxWidth >= 0.0
    requires size * unitWidth > maxWidth
    ensures var s := ShrunkSize(size, maxWidth, size * unitWidth);
            s.Some? && s.value * unitWidth <= maxWidth
  {
    var tw := size * unitWidth;
    var n := Trunc(size * (maxWidth / tw)) as real;
    assert size * (maxWidth / tw) == maxWidth / unitWidth;
    assert n <= maxWidth / unitWidth;
    assert n * unitWidth <= (maxWidth / unitWidth) * unitWidth;
  }

  /** The lines drawn for `text` in the box at (x, y) of size width × height. */
  function CenteredText(text: string, x: real, y: real, width: real, height: real, size: real,
                        textPadding: real, allowMultiline: bool, maxLines: int, threshold: int,
                        measure: (string, real) -> real): (drawn: Option<seq<TextLine>>)
    ensures drawn.None? ==> !allowMultiline || maxLines == 1
    ensures (!allowMultiline || maxLines == 1) ==>
      (drawn.None? <==> measure(text, size) > width - 2.0 * textPadding && measure(text, size) == 0.0)
    ensures (!allowMultiline || maxLines == 1) ==>
      (drawn.None? <==> ShrunkSize(size, width - 2.0 * textPadding, measure(text, size)).None?)
    ensures drawn.Some? && (!allowMultiline || maxLines == 1) ==>
      && |drawn.value| == 1 && drawn.value[0].text == text
      && Centred(drawn.value[0], x, width, measure)
      && drawn.value[0].baseline - y == (y + height) - (drawn.value[0].baseline + drawn.value[0].size)
    ensures drawn.Some? && (!allowMultiline || maxLines == 1) ==>
      Some(drawn.value[0].size) == ShrunkSize(size, width - 2.0 * textPadding, measure(text, size))
    ensures allowMultiline && maxLines != 1 ==>
      && drawn.Some?
      && |drawn.value| == |OptimalLineBreak(text, threshold, maxLines)|
      && forall i :: 0 <= i < |drawn.value| ==>
           && drawn.value[i].text == OptimalLineBreak(text, threshold, maxLines)[i]
           && drawn.value[i].size == size
           && Centred(drawn.value[i], x, width, measure)
  {
    if !allowMultiline || maxLines == 1 then
      var tw := measure(text, size);
      var s := ShrunkSize(size, width - 2.0 * textPadding, tw);
      if s.None? then None else Some([SingleLine(text, x, y, width, height, s.value, measure)])
    else
      Some(Stacked(OptimalLineBreak(text, threshold, maxLines), x, y, width, height, size, measure))
  }

  /** One line at font size `size`: `text_x = x + (width - text_width)/2` and
      `text_y = y + (height - font_size)/2`, centred on both axes. */
  function SingleLine(text: string, x: real, y: real, width: real, height: real, size: real,
                      measure: (string, real) -> real): (l: TextLine)
    ensures l.text == text && l.size == size && Centred(l, x, width, measure)
    ensures l.baseline - y == (y + height) - (l.baseline + l.size)
  {
    TextLine(text, x + (width - measure(text, size)) / 2.0, y + (height - size) / 2.0, size)
  }

  /** A line centred horizontally in [x, x + width] by its measured width. */
  predicate Centred(l: TextLine, x: real, width: real, measure: (string, real) -> real) {
    l.x - x == (x + width) - (l.x + measure(l.text, l.size))
  }

  /** The multi-line block: `start_y = y + (height - n·lh)/2 + (n - 1)·lh` and
      line `i` at `start_y - i·lh`. */
  function Stacked(lines: seq<string>, x: real, y: real, width: real, height: real, size: real,
                   measure: (string, real) -> real): (drawn: seq<TextLine>)
    ensures |drawn| == |lines|
    ensures forall i :: 0 <= i < |lines| ==>
      drawn[i].text == lines[i] && drawn[i].size == size && Centred(drawn[i], x, width, measure)
  {
    var n := |lines| as real;
    var lh := LineHeight(size);
    var startY := y + (height - n * lh) / 2.0 + (n - 1.0) * lh;
    seq(|lines|, i requires 0 <= i < |lines| =>
      TextLine(lines[i], x + (width - measure(lines[i], size)) / 2.0, startY - i as real * lh, size))
  }

  /** Consecutive baselines are one line height apart, the last line sits
      `(height - n·lh)/2` above the box bottom, and the block from the last
      baseline to one line height above the first is centred in the box. */
  lemma StackedIsCentred(lines: seq<string>, x: real, y: real, width: real, height: real, size: real,
                         measure: (string, real) -> real)
    requires |lines| > 0
    ensures var d := Stacked(lines, x, y, width, height, size, measure);
            var n := |lines|;
            var lh := LineHeight(size);
            && (forall i :: 0 <= i < n - 1 ==> d[i].baseline - d[i + 1].baseline == lh)
            && d[n - 1].baseline == y + (height - n as real * lh) / 2.0
            && d[n - 1].baseline - y == (y + height) - (d[0].baseline + lh)
  {
    StackedSpacing(lines, x, y, width, height, size, measure);
    StackedEnds(lines, x, y, width, height, size, measure);
  }

  /** Consecutive baselines of the block are one line height apart. */
  lemma StackedSpacing(lines: seq<string>, x: real, y: real, width: real, height: real, size: real,
                       measure: (string, real) -> real)
    ensures var d := Stacked(lines, x, y, width, height, size, measure);
            forall i :: 0 <= i < |lines| - 1 ==> d[i].baseline - d[i + 1].baseline == LineHeight(size)
  {
    var d := Stacked(lines, x, y, width, height, size, measure);
    var lh := LineHeight(size);
    forall i | 0 <= i < |lines| - 1
      ensures d[i].baseline - d[i + 1].baseline == lh
    {
      assert (i + 1) as real * lh == i as real * lh + lh;
    }
  }

  /** The first baseline is `start_y` and the last is `(n - 1)·lh` below it. */
  lemma StackedEnds(lines: seq<string>, x: real, y: real, width: real, height: real, size: real,
                    measure: (string, real) -> real)
    requires |lines| > 0
    ensures var d := Stacked(lines, x, y, width, height, size, measure);
            var n := |lines|;
            var lh := LineHeight(size);
            && d[n - 1].baseline == y + (height - n as real * lh) / 2.0
            && d[n - 1].baseline - y == (y + height) - (d[0].baseline + lh)
  {
    var d := Stacked(lines, x, y, width, height, size, measure);
    var n := |lines| as real;
    var lh := LineHeight(size);
    var startY := y + (height - n * lh) / 2.0 + (n - 1.0) * lh;
    assert (n - 1.0) * lh == n * lh - lh;
    assert d[|lines| - 1].baseline == startY - (n - 1.0) * lh;
    assert d[0].baseline == startY;
  }

  /** The name text of a vector card: a long name is broken into lines by
      the line breaker (unless at most one line is allowed), a short one is a
      single line shrunk to fit. */
  function VectorNameText(cfg: CardConfig, name: string, measure: (string, real) -> real): Option<seq<TextLine>> {
    var v := VectorLayout(cfg, name);
    CenteredText(name, v.name.x, v.name.y, v.name.w, v.name.h, v.nameFont, cfg.textPadding,
                 v.tier == Long, cfg.nameMaxLines, cfg.nameThreshold, measure)
  }

  /** The name tier decides the text mode: a name longer than the threshold
      is laid out as the line breaker's lines at the long font size when more
      than one line is allowed; a name within the threshold is drawn whole on
      one line. */
  lemma NameTextFollowsTier(cfg: CardConfig, name: string, measure: (string, real) -> real)
    ensures |name| > cfg.nameThreshold && cfg.nameMaxLines != 1 ==>
      var t := VectorNameText(cfg, name, measure);
      && t.Some?
      && |t.value| == |OptimalLineBreak(name, cfg.nameThreshold, cfg.nameMaxLines)|
      && forall i :: 0 <= i < |t.value| ==>
           t.value[i].text == OptimalLineBreak(name, cfg.nameThreshold, cfg.nameMaxLines)[i]
           && t.value[i].size == cfg.nameFontLong
    ensures |name| <= cfg.nameThreshold ==>
      var t := VectorNameText(cfg, name, measure);
      t.Some? ==> |t.value| == 1 && t.value[0].text == name
  {
  }
}
