# Card layout and image-mask model

A Dafny model of the logic inside the card tools of this repository.

- The two card generators lay out badge-style cards. The vector generator writes PDF in points with the y axis up. The raster generator writes PNG in scaled pixels with the y axis down.
- The PNG-to-PDF converter places one image on a page.
- Two pixel scripts complete the set. One makes background colours transparent. The other paints a border around a cut-out subject.

The model covers the pure rules these scripts are built from:

- the name line breaker (`_optimal_line_break`, identical in both generators) and its tokenizer;
- the name tier, the top-down section stack and both backends' coordinates;
- section borders, QR centring, photo fill and page fit;
- the single-line shrink and multi-line baselines of the vector name text;
- file names: `_sanitize_filename` and the converter's default output name;
- hex colour parsing;
- the background mask;
- the silhouette dilation;
- the command-line range checks of the two pixel scripts.

Lengths the PDF side computes as floats are exact `real`s. The raster side's `int()` truncations are written out (`Numeric.Trunc`). Python's `// 2` is Dafny's `/ 2`, because both round toward minus infinity for a positive divisor. Some errors make the scripts raise and then catch the exception, failing one card or one image. Those are `None` results (`Wrappers.Option`):

- an image side of 0;
- a malformed hex colour;
- a division by a zero text width.

Behaviour of the code worth knowing:

- A configuration key read inside the `try` of `generate_card` (generate_png_cards.py:291, generate_cards.py:269) raises when missing. The exception is caught there: only that card fails and the run goes on.
- `qr_code_path` is read before that `try` (generate_png_cards.py:283, generate_cards.py:260), and `generate_all_cards` has no handler. So a missing `qr_code_path` aborts the whole run, as does a missing `input_csv` or `output_directory` (generate_png_cards.py:61, 539).
- The converter's native-size mode clamps width and height separately. It does not keep the aspect ratio (`Placement.NativeSizeDistorts`).
- After shrinking a single line, the vector generator measures it again but never checks that it now fits. It does fit for a metric proportional to the font size (`TextFit.ShrunkLineFits`), and nothing more is promised.
- The photo fill is anchored at the section top in the raster generator and at the section bottom in the vector generator (`CardLayout.PhotoAnchorsDiffer`).
- `bottom_padding_pt` is read but unused by the raster generator (`CardLayout.RasterIgnoresBottomPadding`). The vector generator subtracts it from every section's y. A comment there says this lifts the sections. In fact it moves every section down by that amount (`CardLayout.BottomPaddingLowersVectorSections`), so the two backends coincide only when it is 0 (`CardLayout.BackendsAgreeAtScaleOne`).

Modules:

- `Wrappers`, `Numeric`: helpers.
- `Tokens`, `LineBreak`: the line breaker.
- `Colors`: hex colours.
- `FileNames`: sanitized and converted file names.
- `Placement`: fill and fit.
- `Borders`: border strips and lines.
- `CardLayout`: both card layouts.
- `TextFit`: vector name text.
- `Raster`, `Background`, `Silhouette`: the pixel scripts.

## Model

| member | source | states |
|---|---|---|
| `Tokens.Scan` | pdf-generator/generate_png_cards.py:106-121 | the tokens scanned from any text are non-empty words of non-delimiters, with a ',' allowed only as the last character |
| `Tokens.TokenizeLoop` | pdf-generator/generate_png_cards.py:106-121 | the character loop yields the declarative tokenization, and every token is non-empty, space-free and has a comma only at its end |
| `Tokens.TokenizeJoin` | pdf-generator/generate_png_cards.py:106-134 | round trip: tokenizing the space-join of any token list gives the list back |
| `LineBreak.LastFit` | pdf-generator/generate_png_cards.py:133-140 | among the splits up to i, the result is the largest whose first line fits the threshold, or 0 when none fits |
| `LineBreak.ChooseBreak` | pdf-generator/generate_png_cards.py:129-141 | the loop keeping the longest fitting first line returns exactly that largest fitting split, or 0 |
| `LineBreak.SplitAt` | pdf-generator/generate_png_cards.py:142-150 | a split gives two lines whose space-join is the join of all tokens |
| `LineBreak.BreakPoint` | pdf-generator/generate_png_cards.py:142-150 | the chosen split always leaves both lines non-empty: it lies in [1, n) |
| `LineBreak.GreedyPacks` | pdf-generator/generate_png_cards.py:152-171 | the greedy packer closes at most max(1, max_lines) groups; each is one token or fits the threshold; together they are a prefix of the tokens |
| `LineBreak.GreedyBudget` | pdf-generator/generate_png_cards.py:152-171 | the packer stops once it holds max_lines groups, so it never closes more than max(1, max_lines) |
| `LineBreak.GreedyPacked` | pdf-generator/generate_png_cards.py:152-171 | a token joins the open line only while the joined line fits the threshold, so every closed group is one token or fits |
| `LineBreak.GreedyPrefix` | pdf-generator/generate_png_cards.py:152-171 | packing moves tokens from the input to the groups in order and drops none but the unread tail |
| `LineBreak.GreedyComplete` | pdf-generator/generate_png_cards.py:152-171 | a scan that ends with fewer than max_lines groups has used every token: the groups read the whole input in order |
| `LineBreak.GreedyOverflows` | pdf-generator/generate_png_cards.py:156-167 | a line is closed only when the next token does not fit, so each group joined with the next group's first token exceeds the threshold |
| `LineBreak.GreedyLines` | pdf-generator/generate_png_cards.py:152-173 | at most max(0, max_lines) lines, each within the threshold or a single token; fewer than max_lines lines hold every word in order; no line could have taken the first word of the next; when max_lines lines leave words over, the last line could not have taken the first of them; each line is its words joined by single spaces |
| `LineBreak.GreedyLinesFit` | pdf-generator/generate_png_cards.py:152-173 | each greedy line is within the threshold or a single token, and the final slice keeps at most max(0, max_lines) lines |
| `LineBreak.GreedyLinesOverflow` | pdf-generator/generate_png_cards.py:156-173 | each greedy line plus a space plus the first word of the next line exceeds the threshold |
| `LineBreak.GreedyLinesComplete` | pdf-generator/generate_png_cards.py:152-173 | greedy lines under the line budget re-tokenize to exactly the input tokens |
| `LineBreak.OptimalLineBreak` | pdf-generator/generate_png_cards.py:101-173 | 0 or 1 tokens give [text]; max_lines 2 gives two lines joining to the whole token sequence; otherwise at most max(0, max_lines) lines, each fitting or one token, all words kept when under the budget, no line able to take the next line's first word, and a last line at the budget unable to take the first dropped word; from two tokens on, in either mode, each line is its words joined by single spaces |
| `LineBreak.TwoLineBreakIsMaximal` | pdf-generator/generate_cards.py:135-162 | with two lines the first line is the longest fitting prefix of tokens when one exists, else the half split |
| `LineBreak.LineBreakKeepsWordOrder` | pdf-generator/generate_cards.py:106-185 | the words of the output lines are a prefix of the text's tokens in order, all of them in two-line mode or with at most one token |
| `LineBreak.SplitIsSpaced` | pdf-generator/generate_png_cards.py:143-149 | each of the two split lines is its words joined by single spaces |
| `LineBreak.GreedyLinesSpaced` | pdf-generator/generate_png_cards.py:156-171 | each greedy line is its words joined by single spaces, as `' '.join(current_line)` builds it |
| `LineBreak.TwoLinesKeepWords` | pdf-generator/generate_png_cards.py:142-150 | the two lines of the two-line mode re-tokenize to exactly the text's tokens |
| `LineBreak.GreedyKeepsWordOrder` | pdf-generator/generate_png_cards.py:152-173 | the greedy mode's lines re-tokenize to a prefix of the text's tokens |
| `LineBreak.GreedyFull` | pdf-generator/generate_png_cards.py:156-172 | a scan that stops at max_lines groups with tokens left stopped at a full group: the last group joined with the first token not taken exceeds the threshold, whether it closed on the overflow or as a lone overlong token |
| `LineBreak.GreedyLinesFull` | pdf-generator/generate_png_cards.py:152-173 | max_lines greedy lines that leave words over end with a line that, plus a space plus the first dropped word, exceeds the threshold |
| `LineBreak.GreedyLinesPrefix` | pdf-generator/generate_png_cards.py:152-173 | the greedy lines re-tokenize to a prefix of their input tokens |
| `LineBreak.BreakExample` | pdf-generator/generate_png_cards.py:129-145 | "Alice, Bob Carter" at threshold 10 breaks into "Alice, Bob" and "Carter" |
| `Colors.ParsePiece` | background-removal/remove_background.py:53 | a piece of up to two characters parses exactly when it is non-empty and all hex digits; one digit gives that digit's value, two give 16 × the first plus the second, a byte |
| `Colors.StripHashes` | background-removal/remove_background.py:52 | lstrip('#') removes exactly the leading '#' characters and keeps the rest |
| `Colors.HexToRgb` | background-removal/remove_background.py:50-53 | a colour comes back exactly when, after the '#'s, at least five characters remain and the first (up to) six are hex digits; each channel is a byte |
| `Colors.HexRoundTrip` | border-addition/add_border.py:50-53 | every RGB byte triple is read back from its #RRGGBB spelling |
| `Colors.HashIsOptional` | pdf-generator/generate_png_cards.py:269-272 | "#"+s and s name the same colour |
| `Colors.HexToRgbReadsPairs` | pdf-generator/generate_png_cards.py:269-272 | for six hex digits the channels are the values of the three digit pairs |
| `FileNames.StripSpaces` | pdf-generator/generate_png_cards.py:266 | strip leaves the slice after the leading spaces, with no space at either end |
| `FileNames.SanitizeFilename` | pdf-generator/generate_png_cards.py:262-267 | the file name is the name with its leading and trailing spaces cut off and each remaining character mapped on its own: a space or any character other than a letter, digit, '-' or '_' becomes '_', a capital is lowered; so only a-z, 0-9, '-' and '_' remain and it is never longer than the name |
| `FileNames.SafeIsFixed` | pdf-generator/generate_png_cards.py:264-266 | a name already made of safe characters is returned unchanged |
| `FileNames.SanitizeIdempotent` | pdf-generator/generate_cards.py:242-249 | sanitizing twice equals sanitizing once |
| `FileNames.SanitizeIgnoresCase` | pdf-generator/generate_cards.py:242-249 | names differing only in letter case get the same file name |
| `FileNames.SanitizeExample` | pdf-generator/generate_cards.py:242-249 | " Dr. Lee " becomes "dr__lee": the dot and the space both turn into underscores |
| `FileNames.Stem` | pdf-generator/convert_png_to_pdf.py:78 | Path.stem: the whole name when it has no dot past its first character or ends in a dot; otherwise the name cut before its last dot, a non-empty prefix followed by a suffix that holds no other dot |
| `FileNames.ConvertedPdfName` | pdf-generator/convert_png_to_pdf.py:76-78 | the output name is the stem, then the configured suffix (`_pdf` when unset), then ".pdf" |
| `FileNames.ConvertedNameOfPngWith` | pdf-generator/convert_png_to_pdf.py:76-78 | for every non-empty stem and suffix setting, stem.png converts to stem + suffix + ".pdf", the suffix defaulting to `_pdf` |
| `FileNames.ConvertedNameOfPng` | pdf-generator/convert_png_to_pdf.py:76-78 | with the default suffix, stem.png converts to stem_pdf.pdf |
| `Numeric.Trunc` | pdf-generator/generate_png_cards.py:297-298 | int() of a float truncates toward zero: the result is the whole number next to x on the side of zero |
| `Numeric.ScaleOfIntegral` | pdf-generator/generate_png_cards.py:297-298 | scaling a whole number by a whole factor loses nothing to int() |
| `Placement.FillScale` | pdf-generator/generate_cards.py:86-96 | the max scale covers the box on both axes and meets it on one |
| `Placement.FillVector` | pdf-generator/generate_cards.py:81-104 | fill: None for a zero side; otherwise covers the box, meets one side, keeps the aspect ratio, is centred horizontally and has its bottom at y |
| `Placement.FillExamples` | pdf-generator/generate_cards.py:86-100 | a same-aspect image shrinks to the box; a 100 × 200 image in a 100 × 50 box stays 100 × 200 |
| `Placement.FillRaster` | pdf-generator/generate_png_cards.py:75-99 | raster fill: None for a zero side; otherwise each side is int() of the image side times the fill scale, which still covers the box and meets one side; top edge at y; overhangs differ by at most one pixel |
| `Placement.FilledFrame` | pdf-generator/generate_png_cards.py:87-99 | for any scale at which the image covers the box and meets one side, the truncated sizes do too, and the floor-division offset centres to within one pixel |
| `Placement.TruncFill` | pdf-generator/generate_png_cards.py:87-89 | int() keeps a cover-and-meet size against a box of whole sides |
| `Placement.PasteFrame` | pdf-generator/generate_png_cards.py:94-96 | the offset x + (width - w) // 2 splits the overhang evenly, the odd pixel on the left, with the top edge at y |
| `Placement.RasterFillKeepsAspect` | pdf-generator/generate_png_cards.py:83-89 | the truncated raster sizes keep the image aspect: w·ih and h·iw differ by less than iw + ih |
| `Placement.ScaledSizeKeepsAspect` | pdf-generator/generate_png_cards.py:88-89 | at any scale the two truncated sides keep the aspect ratio to within iw + ih |
| `Placement.TruncCross` | pdf-generator/generate_png_cards.py:88-89 | int(a·s)·b and int(b·s)·a differ by less than a + b |
| `Placement.FitScale` | pdf-generator/convert_png_to_pdf.py:117-124 | the min scale keeps the image inside the area and meets it on one side |
| `Placement.PlaceOnPage` | pdf-generator/convert_png_to_pdf.py:101-138 | None only for a zero side in fit mode; within the area's size; fit keeps aspect and meets a side; native mode clamps each side; centred or bottom-left anchor |
| `Placement.PlacedImageInsideArea` | pdf-generator/convert_png_to_pdf.py:130-138 | with a non-negative area the placed image lies inside it |
| `Placement.NativeSizeDistorts` | pdf-generator/convert_png_to_pdf.py:125-128 | native mode draws a 200 × 100 image on a 100 × 200 area as 100 × 100 |
| `Borders.SidesOf` | pdf-generator/generate_png_cards.py:381-404 | a side is drawn exactly when its name is listed, at most four, in left-right-top-bottom order |
| `Borders.StripFor` | pdf-generator/generate_png_cards.py:383-404 | each strip is flush with its side, spans the box along it and is the border width thick; inside the box when the width fits |
| `Borders.RasterStrips` | pdf-generator/generate_png_cards.py:425-454 | one strip per listed side, each flush and of the border width, all inside the box when the width fits |
| `Borders.SegmentFor` | pdf-generator/generate_cards.py:363-370 | each line lies on its edge of the box and spans it |
| `Borders.VectorLines` | pdf-generator/generate_cards.py:399-406 | one line per listed side, each on its edge of the box |
| `Borders.BordersAgree` | pdf-generator/generate_cards.py:429-436 | flipping y, each vector border line is the outer edge of the raster strip for the same side |
| `CardLayout.TierIsStrict` | pdf-generator/generate_png_cards.py:313-323 | a name at the threshold is short, one longer is long, a longer name never drops a tier |
| `CardLayout.TopDown` | pdf-generator/generate_cards.py:313-319 | each section has its configured height (the name box the tier's) and starts where the previous ends (the message after the gap); the stack reaches the sum of paddings and heights |
| `CardLayout.StackIsOrdered` | pdf-generator/generate_cards.py:313-319 | with non-negative heights the sections are ordered top to bottom without overlap |
| `CardLayout.PixelLayout` | pdf-generator/generate_png_cards.py:301-523 | page size kept; tier-chosen name box and font; each section of its scaled height, stacked down from top padding plus margin; photo at h_padding spanning the content width, QR and message boxes likewise; name box inset by name_h_margin and bottom box by bottom_h_margin on both sides; each box's border strips are its listed sides in order, flush with that side, spanning it and border-width thick, inside the box; a qr_size square QR image centred to one pixel |
| `CardLayout.RasterIgnoresBottomPadding` | pdf-generator/generate_png_cards.py:303-340 | changing bottom padding changes nothing on the raster card |
| `CardLayout.VectorLayout` | pdf-generator/generate_cards.py:289-457 | tier-chosen name box and font; each section's y is its flipped top offset and its height the configured one, so the sections abut bottom-up; photo at h_padding spanning the content width, QR and message boxes likewise; name box inset by name_h_margin and bottom box by bottom_h_margin, the bottom box on both sides; each box's border lines are its listed sides in order, each lying on that edge of the box; a qr_size square QR image exactly centred |
| `CardLayout.NameBorderOnBoxEdges` | pdf-generator/generate_cards.py:344-370 | the name box is inset by its margin under the photo, and its border lines lie on its edges |
| `CardLayout.BottomPaddingLowersVectorSections` | pdf-generator/generate_cards.py:321-327 | raising bottom padding by d moves every vector section down by d |
| `CardLayout.ScaleOne` | pdf-generator/generate_png_cards.py:297-298 | at scale factor 1 a whole-number length is kept |
| `CardLayout.BackendsAgreeAtScaleOne` | pdf-generator/generate_cards.py:313-327 | at scale 1 the raster tops equal the vector top offsets, and each vector section sits the bottom padding lower |
| `CardLayout.PhotoAnchorsDiffer` | pdf-generator/generate_cards.py:336-343 | the raster photo hangs from its section top over the name box; the vector photo stands on the name box and rises past its section top |
| `CardLayout.SquarePhotoExample` | pdf-generator/generate_png_cards.py:83-96 | a square photo in a 200 × 100 section is filled to 200 × 200 in both backends |
| `TextFit.ShrunkSize` | pdf-generator/generate_cards.py:199-204 | the size is kept when the line fits; otherwise size × max_width / text_width truncated toward zero (within 1 below it for a non-negative ratio); None exactly for a division by zero |
| `TextFit.ShrinkIsSmaller` | pdf-generator/generate_cards.py:199-204 | a too-wide line at positive size shrinks to a size in [0, size) |
| `TextFit.ShrunkLineFits` | pdf-generator/generate_cards.py:199-204 | with a metric proportional to size, the shrunk line fits the box width |
| `TextFit.Stacked` | pdf-generator/generate_cards.py:213-222 | one drawn line per broken line, at the given size, each centred horizontally by its measured width |
| `TextFit.CenteredText` | pdf-generator/generate_cards.py:187-222 | single-line mode fails exactly when the text is too wide with width 0, otherwise draws the whole text at the shrunk size, centred both ways; multi-line mode always draws the line breaker's lines at the given size, each centred |
| `TextFit.SingleLine` | pdf-generator/generate_cards.py:206-208 | text_x and text_y centre the line horizontally by its measured width and vertically by its size |
| `TextFit.StackedIsCentred` | pdf-generator/generate_cards.py:213-222 | baselines are 1.2 × size apart, the last at y + (height − n·lh)/2, and the block is centred vertically |
| `TextFit.NameTextFollowsTier` | pdf-generator/generate_cards.py:372-383 | a long name is drawn as the line breaker's lines at the long font; a short name is drawn whole on one line |
| `Background.NearIsRootTest` | background-removal/remove_background.py:96-104 | the squared test equals sqrt(distance²) ≤ tolerance |
| `Background.ZeroToleranceIsExact` | background-removal/remove_background.py:104 | at tolerance 0 only the exact colour matches |
| `Background.CombinedMask` | background-removal/remove_background.py:88-110 | OR-ing each colour's mask in turn masks exactly the pixels near some listed colour |
| `Background.MaskGrows` | background-removal/remove_background.py:110 | listing more colours never unmasks a pixel |
| `Background.MaskIgnoresOrder` | background-removal/remove_background.py:92-110 | the mask depends only on the set of listed colours |
| `Background.ClearBackground` | background-removal/remove_background.py:113 | background pixels get alpha 0, others keep their alpha, no colour changes |
| `Background.BackgroundIgnoresAlpha` | background-removal/remove_background.py:97-101 | the background test reads only R, G and B |
| `Background.ClearIsIdempotent` | background-removal/remove_background.py:97-113 | removing the background twice equals removing it once |
| `Background.ParseColors` | background-removal/remove_background.py:92-94 | all colour strings parse, or None when any is malformed |
| `Background.RemoveBackground` | background-removal/remove_background.py:56-137 | None exactly when a colour is malformed; otherwise same shape, same colours, alpha either kept or 0 |
| `Background.RemovedExactlyTheBackground` | background-removal/remove_background.py:92-113 | an opaque pixel becomes transparent exactly when it is within tolerance of a listed colour |
| `Background.CheckTolerance` | background-removal/remove_background.py:248-265 | the tolerance is the flag, else the configured value, else 30, and is accepted exactly within [0, 255] |
| `Silhouette.Dilate` | border-addition/add_border.py:96-99 | one binary_dilation with the 3 × 3 structure and empty outside cells sets exactly the cells with a set cell within Chebyshev distance 1 |
| `Silhouette.NeighbourhoodIsWithin` | border-addition/add_border.py:96-99 | the nine guarded neighbourhood cells are exactly the cells within Chebyshev distance 1 |
| `Silhouette.DilateIsExtensive` | border-addition/add_border.py:98-99 | dilation keeps every set cell |
| `Silhouette.DilateIsMonotone` | border-addition/add_border.py:98-99 | dilating a larger mask gives a larger mask |
| `Silhouette.DilateReach` | border-addition/add_border.py:94-99 | after n dilations a cell is set exactly when a subject cell lies within Chebyshev distance n |
| `Silhouette.ReachedIsWithin` | border-addition/add_border.py:96-99 | a cell set after n dilations has a subject cell within Chebyshev distance n |
| `Silhouette.WithinIsReached` | border-addition/add_border.py:96-99 | a cell with a subject cell within Chebyshev distance n is set after n dilations |
| `Silhouette.WithinStep` | border-addition/add_border.py:98-99 | one step more of dilation widens the Chebyshev reach by one |
| `Silhouette.BorderIsReach` | border-addition/add_border.py:102 | dilated and not subject is exactly transparent and within the border width of the subject |
| `Silhouette.AddBorder` | border-addition/add_border.py:56-129 | no subject returns the image unchanged; else None for a bad colour, or border pixels painted opaque in the colour and all others unchanged |
| `Silhouette.SubjectIsKept` | border-addition/add_border.py:102-112 | subject pixels are never painted |
| `Silhouette.CheckWidth` | border-addition/add_border.py:231-248 | the width is the flag, else the configured value, else 2, and is accepted exactly within [1, 100] |

## Left out

- File and process plumbing: JSON and CSV reading, image existence checks, directory walks, `mkdir`, saving, printing, exit codes and argument parsing beyond the two range checks.
- Configuration lookup and its defaults: `CardLayout.CardConfig` and `Placement.PageSetup` hold values with defaults already applied.
- Font resolution and text measurement. The width of a string is the parameter `measure`.
- Text drawing internals: the raster generator's `_draw_centered_text` and `_draw_wrapped_text` (PIL text boxes) and the vector generator's `_draw_wrapped_text` (reportlab `Paragraph` wrapping). They are drawing-library behaviour.
- Colour handling on the cards: background and border colours, `transparent` backgrounds, and the failure of a card whose border colour is malformed.
- Library internals: image resampling, pasting, clipping at the canvas edge and numpy broadcasting. Dilation is modelled as the OR over the 3 × 3 neighbourhood with empty outside cells, not by the scipy implementation.
- Floating-point rounding: lengths are exact reals and the square root is compared squared.
- Conversion of non-RGBA images to RGBA: images enter as RGBA pixel grids.
- Success and failure counters of the batch drivers.
- `Colors.HexToRgb`: treats a piece with a sign, surrounding whitespace or non-ASCII decimal digits as malformed. `int(piece, 16)` accepts `+f`, `-f`, ` f` and digits such as `９` or `١`, and `-f` even gives a negative channel.
- `Colors.ParsePiece`: accepts ASCII hex digits only. `int(piece, 16)` also accepts a leading sign, surrounding whitespace and non-ASCII decimal digits (`int('９١', 16)` is 145); the model reports those pieces as malformed.
- `FileNames.SanitizeFilename`: keeps ASCII letters and digits only. Python's `isalnum` and `lower` also keep and fold non-ASCII letters and digits.
- `CardLayout.BackendsAgreeAtScaleOne`: states the agreement at scale factor 1 for whole-number lengths only. At other factors or with fractional lengths the raster values are the truncated products, as `CardLayout.PixelLayout` states.
- `Silhouette.CheckWidth`: takes the width as a whole number. A fractional configured `border_width` (border-addition/add_border.py:235) such as 2.5 passes the range check at line 246, and then `range(border_width)` at line 98 raises inside the per-image `try`, so every image fails; that path is not modelled.
- `Placement.FillRaster`: proves covering and meeting in exact arithmetic. In double precision `int(500 * (1005 / 500))` is 1004, so the scaled image can fall one pixel short of the box (pdf-generator/generate_png_cards.py:88, 95-99).
- `Placement.TruncFill`: the same exact-arithmetic covering argument; it does not hold for the rounded double product.
- `Background.CheckTolerance`: takes the tolerance as a whole number, as the command-line flag parses it. A fractional configured tolerance is not modelled.
