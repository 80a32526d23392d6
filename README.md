# Layout classification of an uploaded screenshot

This project models, in Dafny, the decision procedure at the heart of the
upload handler `upload_file` in `app.py`. The handler takes the contours
that edge detection found in a screenshot of a web-page section. From them
it derives a few geometric layout features and picks the best-matching UI
component from a catalog:

1. **Significant boxes** (`Boxes`). A contour becomes a bounding box only
   when its area is strictly above 500. The box keeps the contour's
   rectangle and its area truncated to an integer. The boxes are then
   sorted by area, largest first. Python's sort is stable, so boxes of
   equal area keep their detection order.
2. **Layout features** (`Features`). One pass over the sorted boxes does
   three things:
   - it counts box centres strictly left of the image's vertical midline,
     and counts a box centred exactly on the midline as right;
   - it keeps the widest box, the first box of maximal positive width;
   - it keeps the tallest box, the first box of maximal positive height.

   The tallest box is flagged tall when h/w > 1.5. The widest box is
   flagged wide when w/h > 1.5. The side guess is `left` when
   left/total > 0.65, `right` when left/total < 0.35, and `balanced`
   otherwise, including when there are no boxes.
3. **Catalog matching** (`Matcher`). Each catalog entry scores 2 when its
   lower-cased `dominant_side` agrees with the guess. A `balanced` guess
   agrees with `center` and `balanced`. An entry scores a further 1 when
   the box count lies in `[min_boxes, max_boxes]`. Missing fields default
   to `unknown`, 0 and 1000. The best score starts at -1 and is replaced
   only by a strictly higher score, so the first entry with the maximal
   score wins. That entry is reported when its score is at least 1.
   Otherwise the result is "No suitable match found" with link `#`.
4. **The pipeline** (`Analysis`). `AnalyzeLayout` runs the stages in the
   handler's order and is proved equal to the functional specification
   `Analyze`.

`RunningMax` holds the strict-`>` running-maximum scan that the source
uses three times: for the widest box, for the tallest box and for the best
catalog entry. It also holds its characterisation as "the first position
of the maximal key above the floor".

Inputs that the source obtains from collaborators are parameters of the
model:
- the contour list with each contour's area and bounding rectangle, which
  come from OpenCV;
- the image width;
- the catalog, which is loaded from `relume_data.json` at start-up.

The source compares floats (`x + w/2 < width/2`, `h/w > 1.5`,
`left/total > 0.65`). The model computes each of these with integer
cross-multiplication. Lemmas prove that this equals the exact real-number
comparison.

Two behaviours of the code go beyond a plain reading of the scoring rule,
and the model keeps both:
- `if best_match_component` uses Python truthiness. A catalog entry that
  is an empty JSON object can win with score 1 and still give "No
  suitable match found" (`IsEmptyRecord`).
- The handler reads the winner's `name` and `link` with `[]`. A winner
  that passes the threshold but lacks either key raises a `KeyError`. The
  handler's exception handler turns that into an HTTP 500 answer
  (`Verdict.MissingKey`, `Response.ServerError`).

## Model

| member | source | states |
|---|---|---|
| RunningMax.ArgMaxAbove | app.py:78-79 | The strict-`>` scan from a floor returns no position exactly when no key exceeds the floor. Otherwise it returns the first position holding the maximal key, and that key is above the floor. |
| RunningMax.ArgMaxAboveUnique | app.py:111-113 | The first maximum is unique, so ties always resolve to the earliest position. |
| Boxes.Truncate | app.py:63 | `int(area)` truncates toward zero: the result is within one of the area and on the side of zero. |
| Boxes.SignificantMembers | app.py:57-63 | Every contour with area > 500 yields its box. Every kept box comes from such a contour. Every kept box has an integer area of at least 500. |
| Boxes.SignificantCount | app.py:57-65 | The number of boxes equals the number of contours with area > 500, even when two contours give equal boxes, so `box_count` is the number of significant contours. |
| Boxes.SignificantMultiplicity | app.py:57-63 | Each box occurs among the kept boxes exactly as often as significant contours give it, so the kept boxes match the significant contours one to one. |
| Boxes.FilterSignificant | app.py:58-63 | The append loop produces exactly the boxes of the significant contours, in detection order. |
| Boxes.SortByAreaCorrect | app.py:64 | The stable descending sort has non-increasing areas. It is a permutation of its input, and boxes of equal area keep their input order. |
| Boxes.SortByAreaPermutes | app.py:64-65 | Sorting keeps the same boxes and their number. With `SignificantCount`, `box_count` after the sort is the number of significant contours. |
| Boxes.SortByAreaDescending | app.py:64 | The insertion sort's result is the stable descending sort of the boxes: sorted, a permutation, and stable. |
| Features.IsLeft | app.py:72-77 | A box counts as left exactly when `x + w/2 < width/2` in real arithmetic, so a box centred on the midline counts as right. |
| Features.CountLeftPermutation | app.py:74-77 | The left count depends only on which boxes there are, not on their order. |
| Features.ExtremeIsFirstMax | app.py:69-79 | The widest (tallest) box is absent exactly when no box has positive width (height). Otherwise it is the first box of maximal width (height). |
| Features.ScanBoxes | app.py:74-79 | The single pass yields the left count, a right count that adds up with it to the number of boxes, and the widest and tallest boxes. |
| Features.ElongatedRatio | app.py:82-89 | The tall (wide) flag holds exactly when the tallest (widest) box exists, its width (height) is positive, and h/w (w/h) > 1.5. |
| Features.GuessSideRatio | app.py:93-98 | The guess is balanced without boxes. Otherwise it is left exactly when left/total > 0.65 and right exactly when left/total < 0.35. |
| Features.GuessSideMirror | app.py:96-98 | Swapping the left and right counts swaps a left guess for a right guess, and a balanced guess stays balanced. |
| Features.GuessSideBoundaries | app.py:97-98 | Every split whose left ratio is exactly 0.65 or 0.35 is balanced, such as 13:7 and 7:13. The splits 14:6 and 6:14 are left and right, and 0:0 is balanced. |
| Matcher.Score | app.py:103-109 | The score lies in 0..3. It is at least 2 exactly when the lower-cased side is in the guess's accepted set (left: left; right: right; balanced: center, balanced). It is odd exactly when the box count lies in the defaulted range. |
| Matcher.ScoreMissingSide | app.py:104 | An entry without `dominant_side` scores at most 1, because the default `unknown` agrees with no guess. |
| Matcher.ScoreEntersRange | app.py:105-109 | Moving the box count into an entry's range from outside it raises that entry's score by exactly 1. |
| Matcher.SelectBest | app.py:101-113 | The catalog loop keeps nothing exactly for an empty catalog. Otherwise it keeps the first entry of maximal score together with its score, and its decision equals `MatchCatalog`. |
| Matcher.MatchCatalogWinner | app.py:115-122 | A match is reported, with the winner's name and link, exactly when the winner scores at least 1, is not an empty record, and has both keys. A winner that passes but lacks a key makes the step fail. |
| Matcher.WinnerExists | app.py:101-113 | A non-empty catalog always has a winner, because every score is at least 0 and the best score starts at -1. |
| Matcher.NoMatchBelowThreshold | app.py:115-124 | When every entry scores below 1, and in particular for an empty catalog, the result is "No suitable match found". |
| Analysis.AnalyzeLayout | app.py:56-124 | The staged computation equals the specification `Analyze` of the contours, the width and the catalog. |
| Analysis.FeaturesIgnoreOrder | app.py:64-98 | For any reordering of the boxes, such as the area sort, the left and right counts add up to the box count. The left count and the guessed side are those of the boxes in detection order. |
| Analysis.EmptyCatalogReportsNoMatch | app.py:115-124 | With an empty catalog every analysis completes with "No suitable match found" and link `#`. |
| Analysis.ServerErrorOnlyOnMissingKey | app.py:101-122 | The analysis fails exactly when the winning entry, the first of maximal score, scores at least 1, is not an empty record, and lacks `name` or `link`. |
| Analysis.FlagsFromDifferentBoxes | app.py:84-89 | When both the tall and the wide flag are set, the widest and the tallest box are different boxes. |
| Analysis.BothFlagsPossible | app.py:78-89 | The two flags do not exclude each other: with a 200x10 box and a 10x100 box both flags are set. |

## Left out

- The Flask application, the routes, request and upload validation, `secure_filename`, saving to `uploads/`, image decoding and the JSON response assembly (app.py:9-50, 127-155) are left out. They are I/O plumbing. The report the model returns holds the fields of the response's `analysis` object.
- Loading the catalog from `relume_data.json` (app.py:17-24) is file I/O, so the catalog is a parameter. The catalog stays an empty list only when opening or parsing the file fails, and `EmptyCatalogReportsNoMatch` covers that case. A file that parses to something other than a list of objects is not represented. A number, boolean or null is kept as the catalog even though `len` then raises at start-up, and every upload then fails at the catalog loop (app.py:102) with an HTTP 500 answer.
- The OpenCV calls (grey-scale conversion, blur, Canny edges, `findContours`, `contourArea`, `boundingRect`) are foreign image-processing code. Their result is the input list of contours, each with its area and its bounding rectangle.
- All logging with `print` is left out.
- The browser scripts `frontend/script.js` and `script.js` are user-interface code. They are not part of this model.
- `tests/test_analysis.py` is not part of this model. It imports a `find_best_match` with text-block, spacing and element-ratio signals that `app.py` does not define.
- Floating point: the model compares exact rationals. The source compares IEEE doubles, and the literal 0.65 is not exactly representable. Both agree as long as coordinates, sizes and box counts stay below 2^48, far above any image size.
- Catalog values of other JSON types are not represented, because `Component` types every field:
  - A non-string `dominant_side`, a string or null `min_boxes`, or an entry that is not an object makes the source raise an exception. The handler turns the exception into an HTTP 500 answer.
  - A string or null `max_boxes` raises only when the box count reaches `min_boxes`, which is always the case when `min_boxes` is absent. This is because the chained comparison at app.py:109 stops after its first half when that half is false. Below `min_boxes` such an entry just earns no range point, and it can still win on its side score. No integer `max_boxes` behaves like this, so `Component` cannot hold such an entry.
  - A boolean `min_boxes` or `max_boxes` is valid Python, since a bool is the integer 0 or 1. The model covers it as that integer.
  - A fractional bound such as 2.5 is compared numerically. Against an integer box count, a lower bound acts as the bound rounded up and an upper bound as the bound rounded down, so the model covers it as that integer.
  - A null or non-string `name` or `link` on the winner is copied unchanged into `componentName` and `componentLink`, without an exception. The model holds only string names and links.
- `Lower` maps only the ASCII letters. Python's `str.lower` also maps other Unicode letters, but none of them lowers to one of the ASCII side names the score compares against.
- Boxes.SortByAreaDescending: the source sorts the list object in place. The model returns the sorted sequence instead. The list is local to the handler, so no other reference can observe the difference.
