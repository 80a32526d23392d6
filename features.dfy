/**
  Layout features of the significant boxes (app.py:68-98): how many box
  centres lie left and right of the image's vertical midline, the widest and
  the tallest box, whether either is strongly elongated, and the guessed
  dominant side.

  The source compares floats (`x + w/2 < width/2`, `h/w > 1.5`,
  `left/total > 0.65`); the model computes each comparison with integers by
  cross-multiplication, and IsLeft, ElongatedRatio and GuessSideRatio prove
  that this is the real-number comparison the source writes.
*/
module Features {
  import opened Wrappers
  import opened RunningMax
  import opened Boxes

  // ---------------------------------------------------------------------
  // Left/right counting
  // ---------------------------------------------------------------------

  /** The box's horizontal centre lies strictly left of the midline; a centred box counts as right. */
  function IsLeft(b: Box, width: int): (r: bool)
    ensures r <==> (b.x as real) + (b.w as real) / 2.0 < (width as real) / 2.0
  {
    2 * b.x + b.w < width
  }

  function LeftIndicator(b: Box, width: int): nat {
    if IsLeft(b, width) then 1 else 0
  }

  /** How many boxes count as left. */
  function CountLeft(boxes: seq<Box>, width: int): (r: nat)
    ensures r <= |boxes|
  {
    if boxes == [] then 0
    else CountLeft(boxes[..|boxes| - 1], width) + LeftIndicator(boxes[|boxes| - 1], width)
  }

  /** Counting one more box of the list adds that box's contribution. */
  lemma CountLeftStep(boxes: seq<Box>, width: int, i: nat)
    requires i < |boxes|
    ensures CountLeft(boxes[..i + 1], width) == CountLeft(boxes[..i], width) + LeftIndicator(boxes[i], width)
  {
    assert boxes[..i + 1][..i] == boxes[..i];
  }

  /** Taking one box out of the list lowers the count by exactly that box's contribution. */
  lemma {:induction false} CountLeftRemove(s: seq<Box>, width: int, k: nat)
    requires k < |s|
    ensures CountLeft(s, width) == CountLeft(s[..k] + s[k + 1..], width) + LeftIndicator(s[k], width)
  {
    var n := |s| - 1;
    var t := s[..k] + s[k + 1..];
    if k == n {
      assert t == s[..n];
    } else {
      CountLeftRemove(s[..n], width, k);
      assert t[..|t| - 1] == s[..n][..k] + s[..n][k + 1..];
      assert t[|t| - 1] == s[n];
    }
  }

  lemma MultisetWithout<T>(s: seq<T>, k: nat)
    requires k < |s|
    ensures multiset(s[..k] + s[k + 1..]) == multiset(s) - multiset{s[k]}
  {
    assert s == s[..k] + [s[k]] + s[k + 1..];
  }

  /**
    The left count depends only on which boxes there are, not on their
    order: counting before or after the area sort gives the same number.
  */
  lemma {:induction false} CountLeftPermutation(a: seq<Box>, b: seq<Box>, width: int)
    requires multiset(a) == multiset(b)
    ensures CountLeft(a, width) == CountLeft(b, width)
  {
    if a != [] {
      var n := |a| - 1;
      var x, a' := a[n], a[..n];
      assert a == a' + [x];
      assert x in b by {
        assert x in multiset(b);
      }
      var k :| 0 <= k < |b| && b[k] == x;
      var b' := b[..k] + b[k + 1..];
      MultisetWithout(a, n);
      MultisetWithout(b, k);
      assert a[..n] + a[n + 1..] == a';
      CountLeftPermutation(a', b', width);
      CountLeftRemove(b, width, k);
    } else {
      assert |b| == |multiset(b)| == 0;
    }
  }

  // ---------------------------------------------------------------------
  // Widest and tallest box
  // ---------------------------------------------------------------------

  datatype Dim = Width | Height

  /** The other dimension of a rectangle. */
  function Across(d: Dim): Dim {
    match d
    case Width => Height
    case Height => Width
  }

  function Size(b: Box, d: Dim): int {
    match d
    case Width => b.w
    case Height => b.h
  }

  function Sizes(boxes: seq<Box>, d: Dim): (r: seq<int>)
    ensures |r| == |boxes|
    ensures forall i :: 0 <= i < |boxes| ==> r[i] == Size(boxes[i], d)
  {
    seq(|boxes|, i requires 0 <= i < |boxes| => Size(boxes[i], d))
  }

  /**
    The box the source keeps as `widest_box` (d = Width) or `tallest_box`
    (d = Height): the running maximum starts at 0 and is replaced only by a
    strictly larger size, so only boxes of positive size qualify and the
    first of several equally large boxes wins.
  */
  function Extreme(boxes: seq<Box>, d: Dim): Option<Box> {
    Pick(boxes, ArgMaxAbove(Sizes(boxes, d), 0))
  }

  /**
    The extreme box, stated without the scan: it is absent exactly when no
    box has a positive size along `d`; otherwise it is the first box of
    maximal size, and that size is positive.
  */
  lemma ExtremeIsFirstMax(boxes: seq<Box>, d: Dim)
    ensures Extreme(boxes, d).None? <==> forall j :: 0 <= j < |boxes| ==> Size(boxes[j], d) <= 0
    ensures Extreme(boxes, d).Some? ==>
      exists i :: 0 <= i < |boxes| && boxes[i] == Extreme(boxes, d).value && Size(boxes[i], d) > 0
        && (forall j :: 0 <= j < |boxes| ==> Size(boxes[j], d) <= Size(boxes[i], d))
        && (forall j :: 0 <= j < i ==> Size(boxes[j], d) < Size(boxes[i], d))
  {
    var keys := Sizes(boxes, d);
    var at := ArgMaxAbove(keys, 0);
    if at.Some? {
      assert IsFirstMaxAbove(keys, 0, at.value);
    } else {
      assert NoneAbove(keys, 0);
    }
  }

  /**
    The loop at app.py:74-79: one pass that counts left and right centres
    and keeps the running widest and tallest box.
  */
  method ScanBoxes(boxes: seq<Box>, width: int)
    returns (left: nat, right: nat, widest: Option<Box>, tallest: Option<Box>)
    ensures left == CountLeft(boxes, width)
    ensures left + right == |boxes|
    ensures widest == Extreme(boxes, Width)
    ensures tallest == Extreme(boxes, Height)
  {
    left, right := 0, 0;
    widest, tallest := None, None;
    var maxWidth, maxHeight := 0, 0;
    ghost var widths, heights := Sizes(boxes, Width), Sizes(boxes, Height);
    ghost var wi: Option<nat>, hi: Option<nat> := None, None;
    for i := 0 to |boxes|
      invariant left == CountLeft(boxes[..i], width) && left + right == i
      invariant wi == ArgMaxAbove(widths[..i], 0) && (wi.Some? ==> wi.value < i)
      invariant widest == Pick(boxes, wi) && maxWidth == BestKey(widths, 0, wi)
      invariant hi == ArgMaxAbove(heights[..i], 0) && (hi.Some? ==> hi.value < i)
      invariant tallest == Pick(boxes, hi) && maxHeight == BestKey(heights, 0, hi)
    {
      CountLeftStep(boxes, width, i);
      ArgMaxAboveStep(widths, 0, i);
      ArgMaxAboveStep(heights, 0, i);
      var box := boxes[i];
      if 2 * box.x + box.w < width {
        left := left + 1;
      } else {
        right := right + 1;
      }
      if box.w > maxWidth {
        maxWidth, widest := box.w, Some(box);
        wi := Some(i);
      }
      if box.h > maxHeight {
        maxHeight, tallest := box.h, Some(box);
        hi := Some(i);
      }
    }
    assert boxes[..|boxes|] == boxes;
    assert widths[..|boxes|] == widths;
    assert heights[..|boxes|] == heights;
  }

  // ---------------------------------------------------------------------
  // Dominant-shape flags
  // ---------------------------------------------------------------------

  const AspectRatioThreshold: real := 1.5

  /**
    `is_tall_dominant` (long = Height, given the tallest box) and
    `is_wide_dominant` (long = Width, given the widest box), computed as
    2 * long > 3 * other, which ElongatedRatio relates to the source's ratio.
  */
  function Elongated(b: Option<Box>, long: Dim): bool {
    b.Some? && Size(b.value, Across(long)) > 0 && 2 * Size(b.value, long) > 3 * Size(b.value, Across(long))
  }

  /**
    The flag holds exactly when the box exists, its other side is positive,
    and long side / other side exceeds 1.5; so it is false without boxes.
  */
  lemma ElongatedRatio(b: Option<Box>, long: Dim)
    ensures Elongated(b, long) <==>
      b.Some? && Size(b.value, Across(long)) > 0
      && (Size(b.value, long) as real) / (Size(b.value, Across(long)) as real) > AspectRatioThreshold
  {
    if b.Some? && Size(b.value, Across(long)) > 0 {
      RatioAbove(Size(b.value, long), Size(b.value, Across(long)), 3, 2);
    }
  }

  /** n/d > p/q, for positive d and q, is the integer comparison n*q > p*d. */
  lemma RatioAbove(n: int, d: int, p: int, q: int)
    requires d > 0 && q > 0
    ensures (n as real) / (d as real) > (p as real) / (q as real) <==> n * q > p * d
    ensures (n as real) / (d as real) < (p as real) / (q as real) <==> n * q < p * d
  {
    var x, y := (n as real) / (d as real), (p as real) / (q as real);
    assert x * (d as real) == n as real;
    assert y * (q as real) == p as real;
    var dq := (d as real) * (q as real);
    assert dq > 0.0;
    assert x * dq == (n * q) as real;
    assert y * dq == (p * d) as real;
    assert x > y <==> x * dq > y * dq;
    assert x < y <==> x * dq < y * dq;
  }

  // ---------------------------------------------------------------------
  // Guessed dominant side
  // ---------------------------------------------------------------------

  datatype Guess = Left | Right | Balanced

  /** The string the source stores in `guessed_dominant_side`. */
  function GuessName(g: Guess): string {
    match g
    case Left => "left"
    case Right => "right"
    case Balanced => "balanced"
  }

  const LeftRatioThreshold: real := 0.65
  const RightRatioThreshold: real := 0.35

  /**
    app.py:93-98, computed on integers: left when 20 * left > 13 * total,
    right when 20 * left < 7 * total, balanced otherwise or without boxes.
  */
  function GuessSide(left: nat, right: nat): Guess {
    var total := left + right;
    if total > 0 && 20 * left > 13 * total then Left
    else if total > 0 && 20 * left < 7 * total then Right
    else Balanced
  }

  /**
    The guess in the source's terms: balanced without boxes; otherwise left
    exactly when left/total exceeds 0.65 and right exactly when left/total
    is below 0.35, so ratios of exactly 0.65 or 0.35 are balanced.
  */
  lemma GuessSideRatio(left: nat, right: nat)
    ensures left + right == 0 ==> GuessSide(left, right) == Balanced
    ensures left + right > 0 ==>
      (GuessSide(left, right) == Left <==> (left as real) / ((left + right) as real) > LeftRatioThreshold)
    ensures left + right > 0 ==>
      (GuessSide(left, right) == Right <==> (left as real) / ((left + right) as real) < RightRatioThreshold)
  {
    if left + right > 0 {
      RatioAbove(left, left + right, 13, 20);
      RatioAbove(left, left + right, 7, 20);
    }
  }

  /** Swapping the left and right counts swaps a left guess for a right guess. */
  lemma GuessSideMirror(left: nat, right: nat)
    ensures GuessSide(left, right) == Left <==> GuessSide(right, left) == Right
    ensures GuessSide(left, right) == Balanced <==> GuessSide(right, left) == Balanced
  {
  }

  /**
    Ratios of exactly 0.65 and 0.35 are balanced (among them the splits 13:7
    and 7:13); the splits 14:6 and 6:14 are left and right.
  */
  lemma GuessSideBoundaries()
    ensures forall l: nat, r: nat :: 20 * l == 13 * (l + r) || 20 * l == 7 * (l + r) ==> GuessSide(l, r) == Balanced
    ensures GuessSide(13, 7) == Balanced && GuessSide(7, 13) == Balanced
    ensures GuessSide(14, 6) == Left && GuessSide(6, 14) == Right
    ensures GuessSide(0, 0) == Balanced
  {
  }
}
