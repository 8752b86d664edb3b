/** Section borders. The raster generator paints each requested side as a
    filled strip inside the box (PIL rectangle corners, both inclusive); the
    vector generator strokes each requested side as a line along the box
    edge. Sides are read from the configured list in the order left, right,
    top, bottom; names other than these four are ignored. */
module Borders {

  datatype Side = Left | Right | Top | Bottom

  /** The sides named in a configured side list, in painting order. */
  function SidesOf(names: seq<string>): (sides: seq<Side>)
    ensures Left in sides <==> "left" in names
    ensures Right in sides <==> "right" in names
    ensures Top in sides <==> "top" in names
    ensures Bottom in sides <==> "bottom" in names
    ensures |sides| <= 4
  {
    (if "left" in names then [Left] else [])
    + (if "right" in names then [Right] else [])
    + (if "top" in names then [Top] else [])
    + (if "bottom" in names then [Bottom] else [])
  }

  /** A filled raster rectangle from corner (x0, y0) to (x1, y1), y down. */
  datatype Strip = Strip(side: Side, x0: int, y0: int, x1: int, y1: int)

  /** A strip lies inside the box [x, x + w] × [y, y + h]. */
  predicate InsideBox(s: Strip, x: int, y: int, w: int, h: int) {
    x <= s.x0 <= s.x1 <= x + w && y <= s.y0 <= s.y1 <= y + h
  }

  /** A strip spans its box along its side and is `bw` thick across it, flush
      with that side. */
  predicate HugsSide(s: Strip, x: int, y: int, w: int, h: int, bw: int) {
    match s.side
    case Left => s.x0 == x && s.x1 - s.x0 == bw && s.y0 == y && s.y1 == y + h
    case Right => s.x1 == x + w && s.x1 - s.x0 == bw && s.y0 == y && s.y1 == y + h
    case Top => s.y0 == y && s.y1 - s.y0 == bw && s.x0 == x && s.x1 == x + w
    case Bottom => s.y1 == y + h && s.y1 - s.y0 == bw && s.x0 == x && s.x1 == x + w
  }

  /** The strip of width `bw` along one side of the box at (x, y) of size w × h. */
  function StripFor(side: Side, x: int, y: int, w: int, h: int, bw: int): (s: Strip)
    ensures s.side == side && HugsSide(s, x, y, w, h, bw)
    ensures 0 <= bw <= w && bw <= h ==> InsideBox(s, x, y, w, h)
  {
    match side
    case Left => Strip(Left, x, y, x + bw, y + h)
    case Right => Strip(Right, x + w - bw, y, x + w, y + h)
    case Top => Strip(Top, x, y, x + w, y + bw)
    case Bottom => Strip(Bottom, x, y + h - bw, x + w, y + h)
  }

  /** The raster border strips of a box: one per requested side, each flush
      with its side and `bw` thick, and inside the box whenever the border is
      no wider than the box. */
  function RasterStrips(names: seq<string>, x: int, y: int, w: int, h: int, bw: int): (strips: seq<Strip>)
    ensures |strips| == |SidesOf(names)|
    ensures forall k :: 0 <= k < |strips| ==> strips[k].side == SidesOf(names)[k]
    ensures forall k :: 0 <= k < |strips| ==> HugsSide(strips[k], x, y, w, h, bw)
    ensures 0 <= bw <= w && bw <= h ==>
      forall k :: 0 <= k < |strips| ==> InsideBox(strips[k], x, y, w, h)
  {
    var sides := SidesOf(names);
    seq(|sides|, k requires 0 <= k < |sides| => StripFor(sides[k], x, y, w, h, bw))
  }

  /** A stroked vector segment from (x0, y0) to (x1, y1), y up. */
  datatype Segment = Segment(side: Side, x0: real, y0: real, x1: real, y1: real)

  /** A line on its side's edge of the box with bottom-left corner (x, y) and
      size w × h, running the edge's full length: the left and right lines at
      the two x bounds spanning the height, the top and bottom lines at the
      two y bounds spanning the width. */
  predicate OnEdge(l: Segment, x: real, y: real, w: real, h: real) {
    match l.side
    case Left => l.x0 == l.x1 == x && l.y0 == y && l.y1 == y + h
    case Right => l.x0 == l.x1 == x + w && l.y0 == y && l.y1 == y + h
    case Top => l.y0 == l.y1 == y + h && l.x0 == x && l.x1 == x + w
    case Bottom => l.y0 == l.y1 == y && l.x0 == x && l.x1 == x + w
  }

  /** The edge of the box with bottom-left corner (x, y) and size w × h. */
  function SegmentFor(side: Side, x: real, y: real, w: real, h: real): (l: Segment)
    ensures l.side == side && OnEdge(l, x, y, w, h)
  {
    match side
    case Left => Segment(Left, x, y, x, y + h)
    case Right => Segment(Right, x + w, y, x + w, y + h)
    case Top => Segment(Top, x, y + h, x + w, y + h)
    case Bottom => Segment(Bottom, x, y, x + w, y)
  }

  /** The vector border lines of a box: one per requested side, each running
      the full length of that edge of the box. */
  function VectorLines(names: seq<string>, x: real, y: real, w: real, h: real): (lines: seq<Segment>)
    ensures |lines| == |SidesOf(names)|
    ensures forall k :: 0 <= k < |lines| ==> lines[k].side == SidesOf(names)[k]
    ensures forall k :: 0 <= k < |lines| ==> OnEdge(lines[k], x, y, w, h)
  {
    var sides := SidesOf(names);
    seq(|sides|, k requires 0 <= k < |sides| => SegmentFor(sides[k], x, y, w, h))
  }

  /** The two backends draw the same sides in the same order, and each
      vector line, with its y flipped about `flip` (the raster box top `t` is
      the vector box bottom `flip - t - h`), is the outer edge of the raster
      strip for that side. */
  lemma BordersAgree(names: seq<string>, x: int, t: int, w: int, h: int, bw: int, flip: real)
    ensures var strips := RasterStrips(names, x, t, w, h, bw);
            var lines := VectorLines(names, x as real, flip - t as real - h as real, w as real, h as real);
            && |strips| == |lines|
            && forall k :: 0 <= k < |lines| ==>
                 && strips[k].side == lines[k].side
                 && OuterEdge(strips[k]) == Segment(lines[k].side, lines[k].x0, flip - lines[k].y0,
                                                                   lines[k].x1, flip - lines[k].y1)
  {
  }

  /** The outer edge of a raster strip, in the vector segments' orientation
      (left and right edges run upward, top and bottom edges rightward), with
      raster y values. */
  function OuterEdge(s: Strip): Segment {
    match s.side
    case Left => Segment(Left, s.x0 as real, s.y1 as real, s.x0 as real, s.y0 as real)
    case Right => Segment(Right, s.x1 as real, s.y1 as real, s.x1 as real, s.y0 as real)
    case Top => Segment(Top, s.x0 as real, s.y0 as real, s.x1 as real, s.y0 as real)
    case Bottom => Segment(Bottom, s.x0 as real, s.y1 as real, s.x1 as real, s.y1 as real)
  }
}
