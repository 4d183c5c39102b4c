# Pillar detection: acceptance filter and point exports

A Dafny model of the logic that app.py of the pillar detection application
owns itself. The rest of that program is done by OpenCV, pandas and Streamlit.

- **Detection** (`detection.dfy`): the loop of `detect_pillars`. It walks the
  external contours in the order OpenCV found them. It keeps a contour when its
  area exceeds `MIN_AREA` (100) and its bounding box is taller than
  `MIN_HEIGHT` (5). It draws each kept contour on a copy of the image in its own
  colour and appends the contour's points, unchanged, to the result. The
  commented-out strict variant also requires the aspect ratio `w / h` to lie in
  `[0.1, 0.8]`. It is modelled as a `strict` flag.
  - Each contour is a record: its points, twice its area, and its
    bounding-box width and height. Doubling the area keeps it an integer,
    because the polygon area of integer points is a multiple of 1/2. So
    `area > 100` becomes `twiceArea > 200`.
  - For `h > 0`, the ratio band becomes `10w >= h && 5w <= 4h`.
    `AcceptedMatchesRatio` proves that this integer form agrees with the
    source's test on exact ratios.
  - The annotated image is modelled as the list of outlines drawn on the copy.
  - The random colours are a parameter: a palette in which the k-th accepted
    pillar gets colour k.
- **ExcelExport** (`excel_export.dfy`): the rows that `save_points_to_excel`
  builds before handing them to pandas. Each point of pillar i becomes the row
  `("Pillar " + (i + 1), x, y)`.
- **TextExport** (`text_export.dfy`): the commented-out `save_points_to_text`.
  For each pillar it writes `Pillar k:`, then one `x,y` line per point, then a
  blank line. A parser shows that this text can be read back into exactly the
  pillars it was written from.
- **Decimal** (`decimal.dfy`): how Python's f-strings write integers. It is
  proved to round-trip through a decimal parser.

A zero-height contour in the strict variant needs care. Skipping it would be
the safe behaviour, but the code (app.py:30) computes `float(w) / h` before
any test, so a contour with `h == 0` raises `ZeroDivisionError`. The model follows the code:
- `DetectPillars` with `strict` returns `ZeroHeight(i)` for the first such
  contour.
- The specification function `Filter` uses the integer form, which rejects
  `h == 0` anyway because `h > 5` fails.

`cv2.boundingRect` never reports a height of 0 for a traced contour, so in the
running program this path is not reached.

## Model

| member | source | states |
|---|---|---|
| Detection.DetectPillars | app.py:141-156 | The result is the point lists of the accepted contours in discovery order (`Filter`). It draws one outline per pillar, with that pillar's points, the k-th palette colour and thickness 2. Under the strict policy the run fails exactly when some contour has height 0, and it names the first such contour. |
| Detection.AcceptedMatchesRatio | app.py:145-148 | The integer acceptance predicate holds exactly when area > 100, h > 5 and, under the strict policy, 0.1 <= w/h <= 0.8 on exact ratios. |
| Detection.RatioBand | app.py:30-31 | For h > 0: 0.1 <= w/h holds exactly when h <= 10w, and w/h <= 0.8 holds exactly when 5w <= 4h. |
| Detection.StrictImpliesBaseline | app.py:30-31 | Every contour the strict test accepts also passes the area/height test of the active code. |
| Detection.FilterSelects | app.py:144-154 | The pillars are given by a strictly increasing list of contour positions. Each position names an accepted contour whose own points are that pillar. Every accepted contour's position is in the list. |
| Detection.EveryPillarPassed | app.py:148 | Every pillar comes from a contour with twiceArea > 200 and h > 5, plus the ratio band under the strict policy. |
| Detection.FilterIsSubsequence | app.py:144-154 | The pillars are a subsequence of the contours' point lists. Nothing is reordered or altered. |
| Detection.CountMatches | app.py:144-154 | The number of pillars equals the number of contours that pass the predicate. |
| Detection.EmptyWhenNoneAccepted | app.py:142-156 | The result is the empty list exactly when no contour passes. This is a normal result, not an error. |
| Detection.StrictWithinBaseline | app.py:30-31 | What the strict policy keeps is a subsequence of what the baseline keeps. |
| Detection.Scenarios | app.py:127-128 | A 10x50 bar passes both policies. A 50x50 square passes only the baseline. A 20x3 bar passes neither. A 100x5 bar, whose area is well above 100, passes neither because its height is not above 5. |
| ExcelExport.ExcelRows | app.py:161-164 | The nested loops produce `Rows(pillars)`: pillar by pillar, point by point, one row per point. |
| ExcelExport.RowsLength | app.py:161-164 | The number of rows equals the total number of points. |
| ExcelExport.RowsAt | app.py:162-164 | Point j of pillar i is the row at offset (points of pillars before i) + j, labelled "Pillar " + (i + 1) and carrying x and y. |
| ExcelExport.RowsLocate | app.py:162-164 | Every row is point j of some pillar i at that offset. |
| ExcelExport.PillarBlockContiguous | app.py:162-164 | A row carries pillar i's label exactly when it lies in pillar i's block of rows, so each pillar's rows are contiguous. |
| ExcelExport.LabelsDistinct | app.py:164 | Two pillars get the same "Pillar k" label exactly when they have the same ordinal. |
| TextExport.SavePointsToText | app.py:56-65 | The accumulated text is `PointsText(pillars)`. For each pillar in order it holds "Pillar k:", one "x,y" line per point, and a blank line. With no pillars it is empty. |
| TextExport.PointRoundTrip | app.py:62 | A point line "x,y" parses back to the same point. |
| TextExport.BodyRoundTrip | app.py:61-63 | A pillar's point lines followed by its blank line parse back to its points and leave the following lines untouched. |
| TextExport.BlocksRoundTrip | app.py:59-63 | The blocks of the pillars, numbered from k, parse back to the same pillars. The parser checks every header's number. |
| TextExport.TextRoundTrip | app.py:56-65 | Parsing the exported text yields exactly the pillars, in order: the export loses nothing. |
| Decimal.NatToDecimal | app.py:164 | `f"{n}"` for n >= 0 is non-empty and all digits. It starts with '0' only for 0, and has one digit exactly when n < 10. |
| Decimal.IntToDecimal | app.py:62 | `f"{z}"` is non-empty, starts with '-' exactly when z < 0, and otherwise holds only digits. |
| Decimal.NatToDecimalInjective | app.py:164 | Different numbers are written differently. |
| Decimal.IntRoundTrip | app.py:62 | Parsing the decimal text of any integer gives the integer back. |

## Left out

- Grayscale conversion, thresholding at 127 and contour tracing
  (`cv2.cvtColor`, `cv2.threshold`, `cv2.findContours`, app.py:132-138) are
  library algorithms. The model starts from the list of traced contours.
- `cv2.contourArea` and `cv2.boundingRect` (app.py:145-146) are library
  functions. Their results are fields of each contour record.
- Floating point: the model compares `w/h` with 0.1 and 0.8 as exact ratios.
  Python compares rounded doubles, and the two agree for any pixel size an
  image can have. The area is a double in the source. For integer vertices it
  is exactly half an integer, which is what `twiceArea` holds.
- Pixel drawing by `cv2.drawContours` is not modelled. Nor is the
  random-number generator behind the colours (app.py:149-150). The model
  records each outline with its colour and thickness, and the palette is an
  input.
- DetectPillars: says nothing about the annotated image's pixels or size,
  because the image itself is not modelled.
- Point coordinates are unbounded integers. OpenCV stores them as 32-bit
  integers, but pixel coordinates never come near that limit.
- The pandas DataFrame and xlsx serialisation (app.py:166-173), JPEG encoding
  (app.py:205), PIL loading and the Streamlit widgets (app.py:176-211, and the
  commented copies at 68-107) are library I/O and UI.
