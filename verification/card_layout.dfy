/** Card geometry of `generate_card` in both card generators. Both stack the
    same five sections top-down (photo, name, QR, gap then message, bottom
    box). The raster generator works in whole pixels, each configured length
    scaled by the integer scale factor and truncated by `int()`, with the y
    axis pointing down. The vector generator works in points with the y axis
    pointing up and converts every top offset to a bottom-left corner. */
module CardLayout {
  import opened Numeric
  import opened Borders
  import opened Wrappers
  import opened Placement

  /** A section's border: the side names and the line or strip width. */
  datatype BorderStyle = BorderStyle(sides: seq<string>, width: real)

  /** The layout keys of a card configuration, defaults already applied. */
  datatype CardConfig = CardConfig(
    pageWidth: real, pageHeight: real,
    hPadding: real, topPadding: real, bottomPadding: real, topMargin: real,
    textPadding: real, nameThreshold: int, nameMaxLines: int,
    nameHeightShort: real, nameHeightLong: real,
    nameFontShort: real, nameFontLong: real,
    nameMargin: real,
    photoHeight: real, qrHeight: real, qrSize: real, gapBeforeMessage: real,
    messageHeight: real, bottomHeight: real, bottomMargin: real,
    nameBorder: BorderStyle, qrBorder: BorderStyle, messageBorder: BorderStyle)

  /** The name box size class: a long name gets the long box height, the long
      font size and multi-line layout. */
  datatype Tier = Short | Long

  /** The tier test `len(person_name) > name_length_threshold`. */
  function TierOf(name: string, threshold: int): Tier {
    if |name| > threshold then Long else Short
  }

  /** The comparison is strict: a name exactly at the threshold is short, one
      character more is long, and a longer name never gets a smaller tier. */
  lemma TierIsStrict(name: string, longer: string, threshold: int)
    requires |name| <= |longer|
    ensures |name| == threshold ==> TierOf(name, threshold) == Short
    ensures |name| == threshold + 1 ==> TierOf(name, threshold) == Long
    ensures TierOf(name, threshold) == Long ==> TierOf(longer, threshold) == Long
  {
  }

  function NameHeight(cfg: CardConfig, tier: Tier): real {
    if tier == Long then cfg.nameHeightLong else cfg.nameHeightShort
  }

  function NameFont(cfg: CardConfig, tier: Tier): real {
    if tier == Long then cfg.nameFontLong else cfg.nameFontShort
  }

  // ---------------------------------------------------------------------
  // The canonical stack: top offsets measured down from the page top.
  // ---------------------------------------------------------------------

  /** A horizontal section: its top edge below the page top, and its height. */
  datatype Band = Band(top: real, height: real)

  function EndOf(b: Band): real {
    b.top + b.height
  }

  datatype Stack = Stack(photo: Band, name: Band, qr: Band, message: Band, bottom: Band)

  /** The vector generator's `y_top_*` offsets with the section heights. Each
      section starts where the one above it ends (the message after the gap),
      so the stack reaches exactly the sum of the paddings and heights. */
  function TopDown(cfg: CardConfig, tier: Tier): (s: Stack)
    ensures s.photo.top == cfg.topPadding + cfg.topMargin
    ensures s.photo.height == cfg.photoHeight && s.name.height == NameHeight(cfg, tier)
    ensures s.qr.height == cfg.qrHeight && s.message.height == cfg.messageHeight
    ensures s.bottom.height == cfg.bottomHeight
    ensures EndOf(s.photo) == s.name.top && EndOf(s.name) == s.qr.top
    ensures EndOf(s.qr) + cfg.gapBeforeMessage == s.message.top
    ensures EndOf(s.message) == s.bottom.top
    ensures EndOf(s.bottom) == cfg.topPadding + cfg.topMargin + cfg.photoHeight + NameHeight(cfg, tier)
                               + cfg.qrHeight + cfg.gapBeforeMessage + cfg.messageHeight + cfg.bottomHeight
  {
    var photo := Band(cfg.topPadding + cfg.topMargin, cfg.photoHeight);
    var name := Band(photo.top + cfg.photoHeight, NameHeight(cfg, tier));
    var qr := Band(name.top + name.height, cfg.qrHeight);
    var message := Band(qr.top + cfg.qrHeight + cfg.gapBeforeMessage, cfg.messageHeight);
    var bottom := Band(message.top + cfg.messageHeight, cfg.bottomHeight);
    Stack(photo, name, qr, message, bottom)
  }

  /** With non-negative heights and gap the sections come in order, top to
      bottom, and no two overlap. */
  lemma StackIsOrdered(cfg: CardConfig, tier: Tier)
    requires cfg.photoHeight >= 0.0 && NameHeight(cfg, tier) >= 0.0 && cfg.qrHeight >= 0.0
    requires cfg.gapBeforeMessage >= 0.0 && cfg.messageHeight >= 0.0
    ensures var s := TopDown(cfg, tier);
            var bands := [s.photo, s.name, s.qr, s.message, s.bottom];
            forall i, j :: 0 <= i < j < 5 ==> EndOf(bands[i]) <= bands[j].top
  {
  }

  // ---------------------------------------------------------------------
  // The raster generator.
  // ---------------------------------------------------------------------

  /** The raster generator's `scale(val)`: `int(val * scale_factor)`. */
  function Scale(v: real, sf: int): int {
    Trunc(v * sf as real)
  }

  /** A pixel rectangle with top-left corner (x, y), y down. */
  datatype PxBox = PxBox(x: int, y: int, w: int, h: int)

  /** Everything the raster generator places on a card. `photo` is the box
      handed to the fill placement; `drawsBottom` says whether the bottom box
      is painted. */
  datatype RasterCard = RasterCard(
    width: int, height: int, tier: Tier, nameFont: int,
    photo: PxBox, name: PxBox, qr: PxBox, message: PxBox, bottom: PxBox, drawsBottom: bool,
    nameStrips: seq<Strip>, qrStrips: seq<Strip>, messageStrips: seq<Strip>,
    qrImage: PxBox)

  /** The configuration's lengths in whole pixels, each one `scale(val)`.
      The raster generator also scales `bottom_padding_pt` but never uses the
      result, so it has no field here. */
  datatype PxConfig = PxConfig(
    pageWidth: int, pageHeight: int,
    hPadding: int, topPadding: int, topMargin: int,
    nameThreshold: int,
    nameHeightShort: int, nameHeightLong: int,
    nameFontShort: int, nameFontLong: int,
    nameMargin: int,
    photoHeight: int, qrHeight: int, qrSize: int, gapBeforeMessage: int,
    messageHeight: int, bottomHeight: int, bottomMargin: int,
    nameSides: seq<string>, nameBorder: int,
    qrSides: seq<string>, qrBorder: int,
    messageSides: seq<string>, messageBorder: int)

  function ScaleConfig(cfg: CardConfig, sf: int): PxConfig {
    PxConfig(
      Scale(cfg.pageWidth, sf), Scale(cfg.pageHeight, sf),
      Scale(cfg.hPadding, sf), Scale(cfg.topPadding, sf), Scale(cfg.topMargin, sf),
      cfg.nameThreshold,
      Scale(cfg.nameHeightShort, sf), Scale(cfg.nameHeightLong, sf),
      Scale(cfg.nameFontShort, sf), Scale(cfg.nameFontLong, sf),
      Scale(cfg.nameMargin, sf),
      Scale(cfg.photoHeight, sf), Scale(cfg.qrHeight, sf), Scale(cfg.qrSize, sf),
      Scale(cfg.gapBeforeMessage, sf),
      Scale(cfg.messageHeight, sf), Scale(cfg.bottomHeight, sf), Scale(cfg.bottomMargin, sf),
      cfg.nameBorder.sides, Scale(cfg.nameBorder.width, sf),
      cfg.qrBorder.sides, Scale(cfg.qrBorder.width, sf),
      cfg.messageBorder.sides, Scale(cfg.messageBorder.width, sf))
  }

  /** The raster layout of a card for `name` at scale factor `sf`. */
  function RasterLayout(cfg: CardConfig, sf: int, name: string): (card: RasterCard)
  {
    PixelLayout(ScaleConfig(cfg, sf), name)
  }

  /** The raster layout from the scaled lengths: the tier picks the name box
      height and font; the sections are stacked down from the top padding and
      margin; the photo, QR and message boxes span the content width and the
      name and bottom boxes are inset equally on both sides; each border strip
      lies inside its box when the border is no wider than the box; and the QR
      image is centred in its section to within one pixel, the odd pixel on
      the right and at the bottom. */
  function PixelLayout(px: PxConfig, name: string): (card: RasterCard)
    ensures card.tier == TierOf(name, px.nameThreshold)
    ensures card.name.h == (if card.tier == Long then px.nameHeightLong else px.nameHeightShort)
    ensures card.nameFont == (if card.tier == Long then px.nameFontLong else px.nameFontShort)
    ensures card.width == px.pageWidth && card.height == px.pageHeight
    ensures card.photo.h == px.photoHeight && card.qr.h == px.qrHeight
    ensures card.message.h == px.messageHeight && card.bottom.h == px.bottomHeight
    ensures card.photo.x == px.hPadding && card.photo.w == px.pageWidth - 2 * px.hPadding
    ensures card.qrImage.w == px.qrSize && card.qrImage.h == px.qrSize
    ensures card.photo.y == px.topPadding + px.topMargin
    ensures card.photo.y + card.photo.h == card.name.y
    ensures card.name.y + card.name.h == card.qr.y
    ensures card.qr.y + card.qr.h + px.gapBeforeMessage == card.message.y
    ensures card.message.y + card.message.h == card.bottom.y
    ensures card.drawsBottom <==> card.bottom.h > 0
    ensures card.photo.x == card.qr.x == card.message.x
    ensures card.photo.x + card.photo.w == card.qr.x + card.qr.w == card.width - card.photo.x
    ensures card.name.x - card.photo.x == (card.photo.x + card.photo.w) - (card.name.x + card.name.w)
    ensures card.bottom.x - card.photo.x == (card.photo.x + card.photo.w) - (card.bottom.x + card.bottom.w)
    ensures |card.nameStrips| == |SidesOf(px.nameSides)|
    ensures |card.qrStrips| == |SidesOf(px.qrSides)|
    ensures |card.messageStrips| == |SidesOf(px.messageSides)|
    ensures StripsInside(card.nameStrips, card.name, px.nameBorder)
    ensures StripsInside(card.qrStrips, card.qr, px.qrBorder)
    ensures StripsInside(card.messageStrips, card.message, px.messageBorder)
    ensures card.message.w == card.photo.w
    ensures card.name.x == px.hPadding + px.nameMargin && card.bottom.x == px.hPadding + px.bottomMargin
    ensures StripsHug(card.nameStrips, px.nameSides, card.name, px.nameBorder)
    ensures StripsHug(card.qrStrips, px.qrSides, card.qr, px.qrBorder)
    ensures StripsHug(card.messageStrips, px.messageSides, card.message, px.messageBorder)
    ensures var q := card.qrImage;
            && 0 <= (card.qr.x + card.qr.w - (q.x + q.w)) - (q.x - card.qr.x) <= 1
            && 0 <= (card.qr.y + card.qr.h - (q.y + q.h)) - (q.y - card.qr.y) <= 1
  {
    var cw := px.pageWidth - 2 * px.hPadding;
    var hp := px.hPadding;
    var tier := TierOf(name, px.nameThreshold);
    var nameH := if tier == Long then px.nameHeightLong else px.nameHeightShort;
    var yPhoto := px.topPadding + px.topMargin;
    var yName := yPhoto + px.photoHeight;
    var yQr := yName + nameH;
    var yMessage := yQr + px.qrHeight + px.gapBeforeMessage;
    var yBottom := yMessage + px.messageHeight;
    var nameBox := PxBox(hp + px.nameMargin, yName, cw - 2 * px.nameMargin, nameH);
    var qrBox := PxBox(hp, yQr, cw, px.qrHeight);
    var messageBox := PxBox(hp, yMessage, cw, px.messageHeight);
    var bm := px.bottomMargin;
    RasterCard(
      px.pageWidth, px.pageHeight, tier, if tier == Long then px.nameFontLong else px.nameFontShort,
      PxBox(hp, yPhoto, cw, px.photoHeight), nameBox, qrBox, messageBox,
      PxBox(hp + bm, yBottom, cw - 2 * bm, px.bottomHeight), px.bottomHeight > 0,
      RasterStrips(px.nameSides, nameBox.x, nameBox.y, nameBox.w, nameBox.h, px.nameBorder),
      RasterStrips(px.qrSides, qrBox.x, qrBox.y, qrBox.w, qrBox.h, px.qrBorder),
      RasterStrips(px.messageSides, messageBox.x, messageBox.y, messageBox.w, messageBox.h, px.messageBorder),
      PxBox(hp + (cw - px.qrSize) / 2, yQr + (px.qrHeight - px.qrSize) / 2, px.qrSize, px.qrSize))
  }

  /** The strips are the listed sides in painting order, each flush with its
      side of the box, spanning it and `bw` thick. */
  predicate StripsHug(strips: seq<Strip>, names: seq<string>, b: PxBox, bw: int) {
    && |strips| == |SidesOf(names)|
    && forall k :: 0 <= k < |strips| ==>
         strips[k].side == SidesOf(names)[k] && HugsSide(strips[k], b.x, b.y, b.w, b.h, bw)
  }

  /** Every strip lies inside the box when the border width `bw` is no wider
      than the box on either axis. */
  predicate StripsInside(strips: seq<Strip>, b: PxBox, bw: int) {
    0 <= bw <= b.w && bw <= b.h ==>
      forall k :: 0 <= k < |strips| ==> InsideBox(strips[k], b.x, b.y, b.w, b.h)
  }

  /** The raster generator reads `bottom_padding_pt` but no position depends
      on it: changing it changes nothing on the card. This holds by
      construction, since `ScaleConfig` drops the field: the lemma records
      that the scaled configuration has no bottom padding to carry. */
  lemma RasterIgnoresBottomPadding(cfg: CardConfig, sf: int, name: string, padding: real)
    ensures RasterLayout(cfg.(bottomPadding := padding), sf, name) == RasterLayout(cfg, sf, name)
  {
    assert ScaleConfig(cfg.(bottomPadding := padding), sf) == ScaleConfig(cfg, sf);
  }

  // ---------------------------------------------------------------------
  // The vector generator.
  // ---------------------------------------------------------------------

  /** A rectangle with bottom-left corner (x, y), y up. */
  datatype Box = Box(x: real, y: real, w: real, h: real)

  /** Everything the vector generator places on a card; `top` holds the
      top-down offsets it starts from. */
  datatype VectorCard = VectorCard(
    tier: Tier, nameFont: real, top: Stack,
    photo: Box, name: Box, qr: Box, message: Box, bottom: Box, drawsBottom: bool,
    nameLines: seq<Segment>, qrLines: seq<Segment>, messageLines: seq<Segment>,
    qrImage: Box)

  /** `page_height - y_top - h - bottom_padding`: the bottom edge of a band. */
  function Flip(cfg: CardConfig, b: Band): real {
    cfg.pageHeight - b.top - b.height - cfg.bottomPadding
  }

  /** The lines are the listed sides in drawing order, each on its edge of
      the box and running its full length. */
  predicate LinesOnEdges(lines: seq<Segment>, names: seq<string>, b: Box) {
    && |lines| == |SidesOf(names)|
    && forall k :: 0 <= k < |lines| ==>
         lines[k].side == SidesOf(names)[k] && OnEdge(lines[k], b.x, b.y, b.w, b.h)
  }

  /** The vector layout of a card for `name`. */
  function VectorLayout(cfg: CardConfig, name: string): (card: VectorCard)
    ensures card.tier == TierOf(name, cfg.nameThreshold)
    ensures card.name.h == NameHeight(cfg, card.tier) && card.nameFont == NameFont(cfg, card.tier)
    ensures card.top == TopDown(cfg, card.tier)
    ensures card.photo.y == Flip(cfg, card.top.photo) && card.name.y == Flip(cfg, card.top.name)
    ensures card.qr.y == Flip(cfg, card.top.qr) && card.message.y == Flip(cfg, card.top.message)
    ensures card.bottom.y == Flip(cfg, card.top.bottom)
    ensures card.photo.h == cfg.photoHeight && card.qr.h == cfg.qrHeight
    ensures card.message.h == cfg.messageHeight && card.bottom.h == cfg.bottomHeight
    ensures card.photo.x == cfg.hPadding && card.photo.w == cfg.pageWidth - 2.0 * cfg.hPadding
    ensures card.qrImage.w == cfg.qrSize && card.qrImage.h == cfg.qrSize
    ensures card.name.y + card.name.h == card.photo.y
    ensures card.qr.y + card.qr.h == card.name.y
    ensures card.message.y + card.message.h + cfg.gapBeforeMessage == card.qr.y
    ensures card.bottom.y + card.bottom.h == card.message.y
    ensures card.photo.y + card.photo.h == cfg.pageHeight - cfg.bottomPadding - card.top.photo.top
    ensures card.drawsBottom <==> card.bottom.h > 0.0
    ensures card.photo.x == card.qr.x == card.message.x
    ensures card.name.x - card.photo.x == (card.photo.x + card.photo.w) - (card.name.x + card.name.w)
    ensures |card.nameLines| == |SidesOf(cfg.nameBorder.sides)|
    ensures |card.qrLines| == |SidesOf(cfg.qrBorder.sides)|
    ensures |card.messageLines| == |SidesOf(cfg.messageBorder.sides)|
    ensures card.qr.w == card.photo.w && card.message.w == card.photo.w
    ensures card.bottom.x - card.photo.x == (card.photo.x + card.photo.w) - (card.bottom.x + card.bottom.w)
    ensures card.name.x == cfg.hPadding + cfg.nameMargin && card.bottom.x == cfg.hPadding + cfg.bottomMargin
    ensures LinesOnEdges(card.nameLines, cfg.nameBorder.sides, card.name)
    ensures LinesOnEdges(card.qrLines, cfg.qrBorder.sides, card.qr)
    ensures LinesOnEdges(card.messageLines, cfg.messageBorder.sides, card.message)
    ensures var q := card.qrImage;
            && q.x - card.qr.x == (card.qr.x + card.qr.w) - (q.x + q.w)
            && q.y - card.qr.y == (card.qr.y + card.qr.h) - (q.y + q.h)
  {
    var tier := TierOf(name, cfg.nameThreshold);
    var s := TopDown(cfg, tier);
    var hp := cfg.hPadding;
    var cw := cfg.pageWidth - 2.0 * hp;
    var nm := cfg.nameMargin;
    var nameBox := Box(hp + nm, Flip(cfg, s.name), cw - 2.0 * nm, s.name.height);
    var qrBox := Box(hp, Flip(cfg, s.qr), cw, s.qr.height);
    var messageBox := Box(hp, Flip(cfg, s.message), cw, s.message.height);
    var bm := cfg.bottomMargin;
    VectorCard(
      tier, NameFont(cfg, tier), s,
      Box(hp, Flip(cfg, s.photo), cw, s.photo.height), nameBox, qrBox, messageBox,
      Box(hp + bm, Flip(cfg, s.bottom), cw - 2.0 * bm, s.bottom.height), s.bottom.height > 0.0,
      VectorLines(cfg.nameBorder.sides, nameBox.x, nameBox.y, nameBox.w, nameBox.h),
      VectorLines(cfg.qrBorder.sides, qrBox.x, qrBox.y, qrBox.w, qrBox.h),
      VectorLines(cfg.messageBorder.sides, messageBox.x, messageBox.y, messageBox.w, messageBox.h),
      Box(hp + (cw - cfg.qrSize) / 2.0, qrBox.y + (qrBox.h - cfg.qrSize) / 2.0, cfg.qrSize, cfg.qrSize))
  }

  /** Each vector border line of the name box lies on its edge of the box,
      which is inset by the name margin and stacked under the photo. */
  lemma NameBorderOnBoxEdges(cfg: CardConfig, name: string)
    ensures var card := VectorLayout(cfg, name);
            var b := card.name;
            && b.x == cfg.hPadding + cfg.nameMargin && b.y + b.h == card.photo.y
            && forall k :: 0 <= k < |card.nameLines| ==> OnEdge(card.nameLines[k], b.x, b.y, b.w, b.h)
  {
    var card := VectorLayout(cfg, name);
    var b := card.name;
    assert card.nameLines == VectorLines(cfg.nameBorder.sides, b.x, b.y, b.w, b.h);
  }

  /** Despite the source comment that bottom padding "lifts everything up",
      raising `bottom_padding_pt` by `d` moves every vector section down by
      `d`: bottom padding acts as extra space above the photo. */
  lemma BottomPaddingLowersVectorSections(cfg: CardConfig, name: string, d: real)
    ensures var a := VectorLayout(cfg, name);
            var b := VectorLayout(cfg.(bottomPadding := cfg.bottomPadding + d), name);
            && b.photo.y == a.photo.y - d && b.name.y == a.name.y - d && b.qr.y == a.qr.y - d
            && b.message.y == a.message.y - d && b.bottom.y == a.bottom.y - d
  {
  }

  // ---------------------------------------------------------------------
  // The two backends side by side.
  // ---------------------------------------------------------------------

  /** Whole-number layout lengths, as a JSON configuration of integers gives. */
  predicate IntegralStack(cfg: CardConfig) {
    && Integral(cfg.topPadding) && Integral(cfg.topMargin) && Integral(cfg.photoHeight)
    && Integral(cfg.nameHeightShort) && Integral(cfg.nameHeightLong) && Integral(cfg.qrHeight)
    && Integral(cfg.gapBeforeMessage) && Integral(cfg.messageHeight) && Integral(cfg.bottomHeight)
  }

  /** At scale factor 1 a whole-number length is kept as it is. */
  lemma ScaleOne(x: real)
    requires Integral(x)
    ensures Scale(x, 1) as real == x
  {
    ScaleOfIntegral(x, 1);
  }

  /** At scale factor 1 the raster section tops are the vector generator's
      `y_top_*` offsets, while the vector generator draws each section
      `bottom_padding` lower: measured down from the page top, a vector
      section's top edge is the raster top plus the bottom padding. The two
      cards coincide exactly when the bottom padding is 0. */
  lemma BackendsAgreeAtScaleOne(cfg: CardConfig, name: string)
    requires IntegralStack(cfg)
    ensures var r := RasterLayout(cfg, 1, name);
            var v := VectorLayout(cfg, name);
            && r.photo.y as real == v.top.photo.top && r.name.y as real == v.top.name.top
            && r.qr.y as real == v.top.qr.top && r.message.y as real == v.top.message.top
            && r.bottom.y as real == v.top.bottom.top
            && cfg.pageHeight - (v.photo.y + v.photo.h) == r.photo.y as real + cfg.bottomPadding
            && cfg.pageHeight - (v.name.y + v.name.h) == r.name.y as real + cfg.bottomPadding
            && cfg.pageHeight - (v.qr.y + v.qr.h) == r.qr.y as real + cfg.bottomPadding
            && cfg.pageHeight - (v.message.y + v.message.h) == r.message.y as real + cfg.bottomPadding
            && cfg.pageHeight - (v.bottom.y + v.bottom.h) == r.bottom.y as real + cfg.bottomPadding
  {
    var px := ScaleConfig(cfg, 1);
    var tier := TierOf(name, cfg.nameThreshold);
    ScaleOne(cfg.topPadding);
    ScaleOne(cfg.topMargin);
    ScaleOne(cfg.photoHeight);
    ScaleOne(NameHeight(cfg, tier));
    ScaleOne(cfg.qrHeight);
    ScaleOne(cfg.gapBeforeMessage);
    ScaleOne(cfg.messageHeight);
    ScaleOne(cfg.bottomHeight);
    assert px.topPadding as real == cfg.topPadding;
    assert px.topMargin as real == cfg.topMargin;
    var r := PixelLayout(px, name);
    assert r == RasterLayout(cfg, 1, name);
    var v := VectorLayout(cfg, name);
    var s := v.top;
    assert s == TopDown(cfg, tier);
    assert r.photo.y as real == s.photo.top;
    assert r.name.y as real == s.name.top;
    assert r.qr.y as real == s.qr.top;
    assert r.message.y as real == s.message.top;
    assert r.bottom.y as real == s.bottom.top;
  }

  // ---------------------------------------------------------------------
  // The photo.
  // ---------------------------------------------------------------------

  /** The raster generator pastes the photo with the fill policy into the
      photo section's box. */
  function RasterPhoto(card: RasterCard, iw: nat, ih: nat): Option<PxFrame> {
    FillRaster(iw, ih, card.photo.x, card.photo.y, card.photo.w, card.photo.h)
  }

  /** The vector generator draws the photo with the fill policy into the
      photo section's box, that box also being the size to fill. */
  function VectorPhoto(card: VectorCard, iw: nat, ih: nat): Option<Frame> {
    FillVector(iw, ih, card.photo.x, card.photo.y, card.photo.w, card.photo.h, card.photo.w, card.photo.h)
  }

  /** The backends anchor an overflowing photo at opposite edges. The raster
      photo hangs from the top of its section and runs down to the name box or
      past it, under the name box painted afterwards. The vector photo stands
      on the name box and rises to the top of its section or past it, into
      the top margin. */
  lemma PhotoAnchorsDiffer(cfg: CardConfig, sf: int, name: string, iw: nat, ih: nat)
    requires iw > 0 && ih > 0
    ensures var r := RasterLayout(cfg, sf, name);
            var f := RasterPhoto(r, iw, ih);
            && f.Some?
            && f.value.y == r.photo.y
            && f.value.y + f.value.h >= r.name.y
    ensures var v := VectorLayout(cfg, name);
            var g := VectorPhoto(v, iw, ih);
            && g.Some?
            && g.value.y == v.name.y + v.name.h
            && g.value.y + g.value.h >= v.photo.y + v.photo.h
  {
  }

  /** A square photo in a section twice as wide as it is high: filling makes
      it twice the section's height. The raster photo spills one section
      height down over the name box; the vector photo spills the same height
      up above the section. */
  lemma SquarePhotoExample()
    ensures FillRaster(100, 100, 0, 0, 200, 100) == Some(PxFrame(0, 0, 200, 200))
    ensures FillVector(100, 100, 0.0, 0.0, 200.0, 100.0, 200.0, 100.0) == Some(Frame(0.0, 0.0, 200.0, 200.0))
  {
  }
}
