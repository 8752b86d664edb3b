/** `hex_to_rgb` (remove_background.py, add_border.py) and `_hex_to_rgb`
    (generate_png_cards.py): strip every leading '#', then read the slices
    [0:2], [2:4] and [4:6] as base-16 integers. Python slices clamp at the end
    of the string and `int(piece, 16)` rejects an empty piece, so a piece may
    hold one or two digits and anything after the sixth character is ignored. */
module Colors {
  import opened Wrappers

  datatype Rgb = Rgb(r: int, g: int, b: int)

  predicate IsByte(v: int) {
    0 <= v <= 255
  }

  predicate IsByteRgb(c: Rgb) {
    IsByte(c.r) && IsByte(c.g) && IsByte(c.b)
  }

  predicate IsHexDigit(ch: char) {
    ('0' <= ch <= '9') || ('a' <= ch <= 'f') || ('A' <= ch <= 'F')
  }

  function DigitValue(ch: char): (v: int)
    requires IsHexDigit(ch)
    ensures 0 <= v < 16
  {
    if '0' <= ch <= '9' then ch as int - '0' as int
    else if 'a' <= ch <= 'f' then ch as int - 'a' as int + 10
    else ch as int - 'A' as int + 10
  }

  /** `int(piece, 16)` for a slice of at most two characters; `None` where
      Python raises `ValueError`. */
  function ParsePiece(piece: string): (v: Option<int>)
    requires |piece| <= 2
    ensures v.Some? <==> |piece| > 0 && forall k :: 0 <= k < |piece| ==> IsHexDigit(piece[k])
    ensures v.Some? ==> IsByte(v.value)
    ensures v.Some? && |piece| == 1 ==> v.value == DigitValue(piece[0])
    ensures v.Some? && |piece| == 2 ==> v.value == 16 * DigitValue(piece[0]) + DigitValue(piece[1])
  {
    if |piece| == 0 then None
    else if |piece| == 1 then
      if IsHexDigit(piece[0]) then Some(DigitValue(piece[0])) else None
    else if IsHexDigit(piece[0]) && IsHexDigit(piece[1]) then
      Some(16 * DigitValue(piece[0]) + DigitValue(piece[1]))
    else None
  }

  /** Python's `s.lstrip('#')`. */
  function StripHashes(s: string): (h: string)
    ensures |h| <= |s| && h == s[|s| - |h|..]
    ensures |h| > 0 ==> h[0] != '#'
    ensures forall k :: 0 <= k < |s| - |h| ==> s[k] == '#'
  {
    if |s| > 0 && s[0] == '#' then StripHashes(s[1..]) else s
  }

  /** Python's `s[i:j]` for `0 <= i <= j`: clamped to the string. */
  function Slice(s: string, i: nat, j: nat): (p: string)
    requires i <= j
    ensures |p| <= j - i
  {
    if j <= |s| then s[i..j] else if i <= |s| then s[i..] else ""
  }

  /** After the '#'s: at least five characters, the first six (or all five)
      of them hex digits. */
  predicate WellFormedHex(h: string) {
    |h| >= 5 && forall k :: 0 <= k < |h| && k < 6 ==> IsHexDigit(h[k])
  }

  /** The three slices all parse exactly when the digits are well formed. */
  lemma PiecesParse(h: string)
    ensures (&& ParsePiece(Slice(h, 0, 2)).Some?
             && ParsePiece(Slice(h, 2, 4)).Some?
             && ParsePiece(Slice(h, 4, 6)).Some?) <==> WellFormedHex(h)
  {
    if |h| >= 6 {
      assert Slice(h, 0, 2) == [h[0], h[1]];
      assert Slice(h, 2, 4) == [h[2], h[3]];
      assert Slice(h, 4, 6) == [h[4], h[5]];
    } else if |h| == 5 {
      assert Slice(h, 0, 2) == [h[0], h[1]];
      assert Slice(h, 2, 4) == [h[2], h[3]];
      assert Slice(h, 4, 6) == [h[4]];
    } else {
      assert Slice(h, 4, 6) == "";
    }
  }

  /** The colour a hex string names, or `None` where the scripts raise. It is
      defined exactly when the digits after the leading '#'s are well formed. */
  function HexToRgb(s: string): (c: Option<Rgb>)
    ensures c.Some? <==> WellFormedHex(StripHashes(s))
    ensures c.Some? ==> IsByteRgb(c.value)
  {
    ParseDigits(StripHashes(s))
  }

  /** The three slices of the digits after the '#'s, read as one colour. */
  function ParseDigits(h: string): (c: Option<Rgb>)
    ensures c.Some? <==> WellFormedHex(h)
    ensures c.Some? ==> IsByteRgb(c.value)
  {
    PiecesParse(h);
    var r := ParsePiece(Slice(h, 0, 2));
    var g := ParsePiece(Slice(h, 2, 4));
    var b := ParsePiece(Slice(h, 4, 6));
    if r.Some? && g.Some? && b.Some? then Some(Rgb(r.value, g.value, b.value)) else None
  }

  /** The upper-case hex digit for a value below 16. */
  function HexChar(v: int): (ch: char)
    requires 0 <= v < 16
    ensures IsHexDigit(ch) && DigitValue(ch) == v
  {
    if v < 10 then ('0' as int + v) as char else ('A' as int + v - 10) as char
  }

  function HexPair(v: int): (p: string)
    requires IsByte(v)
  {
    [HexChar(v / 16), HexChar(v % 16)]
  }

  /** The `#RRGGBB` spelling of a colour. */
  function ToHex(c: Rgb): string
    requires IsByteRgb(c)
  {
    "#" + HexPair(c.r) + HexPair(c.g) + HexPair(c.b)
  }

  /** Round trip: every colour is read back from its `#RRGGBB` spelling. */
  lemma HexRoundTrip(c: Rgb)
    requires IsByteRgb(c)
    ensures HexToRgb(ToHex(c)) == Some(c)
  {
    var s := ToHex(c);
    var h := HexPair(c.r) + HexPair(c.g) + HexPair(c.b);
    assert s == "#" + h;
    assert s[1..] == h;
    assert StripHashes(s) == h;
    assert Slice(h, 0, 2) == HexPair(c.r);
    assert Slice(h, 2, 4) == HexPair(c.g);
    assert Slice(h, 4, 6) == HexPair(c.b);
  }

  /** The '#' is optional and may be repeated: `RRGGBB`, `#RRGGBB` and
      `##RRGGBB` name the same colour. */
  lemma HashIsOptional(s: string)
    ensures HexToRgb("#" + s) == HexToRgb(s)
  {
    assert ("#" + s)[1..] == s;
  }

  /** The value of two hex digits. */
  function PairValue(hi: char, lo: char): int
    requires IsHexDigit(hi) && IsHexDigit(lo)
  {
    16 * DigitValue(hi) + DigitValue(lo)
  }

  /** For six hex digits after the '#'s, the channels are the three digit pairs. */
  lemma HexToRgbReadsPairs(s: string)
    requires var h := StripHashes(s); |h| >= 6 && forall k :: 0 <= k < 6 ==> IsHexDigit(h[k])
    ensures var h := StripHashes(s);
            HexToRgb(s) == Some(Rgb(PairValue(h[0], h[1]), PairValue(h[2], h[3]), PairValue(h[4], h[5])))
  {
    DigitsArePairs(StripHashes(s));
  }

  lemma DigitsArePairs(h: string)
    requires |h| >= 6 && forall k :: 0 <= k < 6 ==> IsHexDigit(h[k])
    ensures ParseDigits(h) == Some(Rgb(PairValue(h[0], h[1]), PairValue(h[2], h[3]), PairValue(h[4], h[5])))
  {
    PieceIsPair(h, 0);
    PieceIsPair(h, 2);
    PieceIsPair(h, 4);
  }

  lemma PieceIsPair(h: string, i: nat)
    requires i + 2 <= |h| && IsHexDigit(h[i]) && IsHexDigit(h[i + 1])
    ensures ParsePiece(Slice(h, i, i + 2)) == Some(PairValue(h[i], h[i + 1]))
  {
    assert Slice(h, i, i + 2) == [h[i], h[i + 1]];
  }
}
