/**
  From detected contours to the ordered list of significant bounding boxes
  (app.py:57-65): contours whose area is strictly above 500 become boxes,
  and the boxes are sorted by area, largest first.
*/
module Boxes {

  /**
    One external contour as the contour detector reports it: its enclosed
    area (a float) and its upright bounding rectangle.
  */
  datatype Contour = Contour(area: real, x: int, y: int, w: int, h: int)

  /** A significant bounding box; `area` is the contour's area truncated to an integer. */
  datatype Box = Box(x: int, y: int, w: int, h: int, area: int)

  const MinContourArea: real := 500.0

  predicate IsSignificant(c: Contour) {
    c.area > MinContourArea
  }

  /** Python's `int()` on a float: truncation toward zero. */
  function Truncate(a: real): (r: int)
    ensures 0.0 <= a ==> r as real <= a < r as real + 1.0
    ensures a <= 0.0 ==> r as real - 1.0 < a <= r as real
  {
    if a >= 0.0 then a.Floor else -((-a).Floor)
  }

  function ToBox(c: Contour): Box {
    Box(c.x, c.y, c.w, c.h, Truncate(c.area))
  }

  /** The boxes of the significant contours, in detection order. */
  function Significant(cs: seq<Contour>): (r: seq<Box>)
    ensures |r| <= |cs|
  {
    if cs == [] then []
    else
      var rest := Significant(cs[..|cs| - 1]);
      var c := cs[|cs| - 1];
      if IsSignificant(c) then rest + [ToBox(c)] else rest
  }

  /**
    A box is kept exactly for each significant contour: every significant
    contour yields its box, every kept box comes from a significant contour,
    and every kept box has an area of at least 500 after truncation.
  */
  lemma {:induction false} SignificantMembers(cs: seq<Contour>)
    ensures forall c :: c in cs && IsSignificant(c) ==> ToBox(c) in Significant(cs)
    ensures forall b :: b in Significant(cs) ==> exists c :: c in cs && IsSignificant(c) && b == ToBox(c)
    ensures forall b :: b in Significant(cs) ==> b.area >= 500
  {
    if cs != [] {
      var n := |cs| - 1;
      SignificantMembers(cs[..n]);
      assert cs == cs[..n] + [cs[n]];
      forall b | b in Significant(cs)
        ensures exists c :: c in cs && IsSignificant(c) && b == ToBox(c)
      {
        if b !in Significant(cs[..n]) {
          assert b == ToBox(cs[n]);
        }
      }
    }
  }

  /** The positions of the contours whose area exceeds 500. */
  function SignificantPositions(cs: seq<Contour>): set<nat> {
    set i: nat | i < |cs| && IsSignificant(cs[i])
  }

  /**
    One box per significant contour, even where two contours give equal
    boxes: the box count is the number of contours whose area exceeds 500.
  */
  lemma {:induction false} SignificantCount(cs: seq<Contour>)
    ensures |Significant(cs)| == |SignificantPositions(cs)|
  {
    if cs != [] {
      var n := |cs| - 1;
      var prev := SignificantPositions(cs[..n]);
      SignificantCount(cs[..n]);
      if IsSignificant(cs[n]) {
        assert SignificantPositions(cs) == prev + {n};
        assert n !in prev;
      } else {
        assert SignificantPositions(cs) == prev;
      }
    }
  }

  /** The positions of the significant contours whose box is `b`. */
  function PositionsGiving(cs: seq<Contour>, b: Box): set<nat> {
    set i: nat | i < |cs| && IsSignificant(cs[i]) && ToBox(cs[i]) == b
  }

  /**
    Each box is kept exactly as often as significant contours give it, so
    the boxes match the significant contours one to one.
  */
  lemma {:induction false} SignificantMultiplicity(cs: seq<Contour>)
    ensures forall b :: multiset(Significant(cs))[b] == |PositionsGiving(cs, b)|
  {
    if cs != [] {
      var n := |cs| - 1;
      SignificantMultiplicity(cs[..n]);
      forall b
        ensures multiset(Significant(cs))[b] == |PositionsGiving(cs, b)|
      {
        var prev := PositionsGiving(cs[..n], b);
        if IsSignificant(cs[n]) && ToBox(cs[n]) == b {
          assert PositionsGiving(cs, b) == prev + {n};
          assert n !in prev;
        } else {
          assert PositionsGiving(cs, b) == prev;
        }
      }
    }
  }

  /** The loop at app.py:58-63: append the box of each contour whose area exceeds 500. */
  method FilterSignificant(contours: seq<Contour>) returns (boxes: seq<Box>)
    ensures boxes == Significant(contours)
  {
    boxes := [];
    for i := 0 to |contours|
      invariant boxes == Significant(contours[..i])
    {
      assert contours[..i + 1][..i] == contours[..i];
      var c := contours[i];
      if c.area > MinContourArea {
        boxes := boxes + [Box(c.x, c.y, c.w, c.h, Truncate(c.area))];
      }
    }
    assert contours[..|contours|] == contours;
  }

  // ---------------------------------------------------------------------
  // Sorting by area, largest first. Python's list.sort is stable also with
  // reverse=True, so boxes of equal area keep their detection order.
  // ---------------------------------------------------------------------

  predicate SortedByAreaDesc(s: seq<Box>) {
    forall i, j :: 0 <= i < j < |s| ==> s[i].area >= s[j].area
  }

  /** The boxes of `s` whose area is `k`, in their order in `s`. */
  function WithArea(s: seq<Box>, k: int): seq<Box> {
    if s == [] then [] else (if s[0].area == k then [s[0]] else []) + WithArea(s[1..], k)
  }

  /** Puts `b` after every box of `t` whose area is at least `b.area`. */
  function InsertByArea(t: seq<Box>, b: Box): seq<Box> {
    if t == [] then [b]
    else if t[0].area >= b.area then [t[0]] + InsertByArea(t[1..], b)
    else [b] + t
  }

  /** Stable sort by area, largest first: insert each box, in order, into the sorted prefix. */
  function SortByArea(s: seq<Box>): seq<Box> {
    if s == [] then [] else InsertByArea(SortByArea(s[..|s| - 1]), s[|s| - 1])
  }

  lemma {:induction false} WithAreaAppend(a: seq<Box>, b: seq<Box>, k: int)
    ensures WithArea(a + b, k) == WithArea(a, k) + WithArea(b, k)
  {
    if a != [] {
      assert (a + b)[1..] == a[1..] + b;
      WithAreaAppend(a[1..], b, k);
    } else {
      assert a + b == b;
    }
  }

  lemma {:induction false} WithAreaNone(s: seq<Box>, k: int)
    requires forall i :: 0 <= i < |s| ==> s[i].area < k
    ensures WithArea(s, k) == []
  {
    if s != [] {
      WithAreaNone(s[1..], k);
    }
  }

  lemma {:induction false} InsertByAreaPermutes(t: seq<Box>, b: Box)
    ensures multiset(InsertByArea(t, b)) == multiset(t) + multiset{b}
  {
    if t != [] && t[0].area >= b.area {
      InsertByAreaPermutes(t[1..], b);
      assert t == [t[0]] + t[1..];
    }
  }

  lemma {:induction false} InsertByAreaSorted(t: seq<Box>, b: Box)
    requires SortedByAreaDesc(t)
    ensures SortedByAreaDesc(InsertByArea(t, b))
  {
    if t != [] && t[0].area >= b.area {
      var rest := InsertByArea(t[1..], b);
      InsertByAreaSorted(t[1..], b);
      InsertByAreaPermutes(t[1..], b);
      forall j | 0 <= j < |rest|
        ensures t[0].area >= rest[j].area
      {
        assert rest[j] in multiset(rest);
        assert rest[j] in multiset(t[1..]) + multiset{b};
      }
    }
  }

  lemma {:induction false} InsertByAreaStable(t: seq<Box>, b: Box, k: int)
    requires SortedByAreaDesc(t)
    ensures WithArea(InsertByArea(t, b), k) == WithArea(t, k) + WithArea([b], k)
  {
    if t == [] {
    } else if t[0].area >= b.area {
      InsertByAreaStable(t[1..], b, k);
      WithAreaAppend([t[0]], InsertByArea(t[1..], b), k);
      WithAreaAppend([t[0]], t[1..], k);
      assert t == [t[0]] + t[1..];
    } else {
      WithAreaAppend([b], t, k);
      if b.area == k {
        WithAreaNone(t, k);
      } else {
        assert WithArea([b], k) == [];
      }
    }
  }

  /**
    The sort's result is ordered by non-increasing area, is a permutation of
    its input, and keeps boxes of equal area in their input order.
  */
  lemma {:induction false} SortByAreaCorrect(s: seq<Box>)
    ensures SortedByAreaDesc(SortByArea(s))
    ensures multiset(SortByArea(s)) == multiset(s)
    ensures forall k :: WithArea(SortByArea(s), k) == WithArea(s, k)
  {
    if s != [] {
      var n := |s| - 1;
      var p := SortByArea(s[..n]);
      SortByAreaCorrect(s[..n]);
      InsertByAreaSorted(p, s[n]);
      InsertByAreaPermutes(p, s[n]);
      assert s == s[..n] + [s[n]];
      forall k
        ensures WithArea(SortByArea(s), k) == WithArea(s, k)
      {
        InsertByAreaStable(p, s[n], k);
        WithAreaAppend(s[..n], [s[n]], k);
      }
    }
  }

  /** The sort keeps the boxes and their number. */
  lemma SortByAreaPermutes(s: seq<Box>)
    ensures multiset(SortByArea(s)) == multiset(s)
    ensures |SortByArea(s)| == |s|
  {
    SortByAreaCorrect(s);
    assert |SortByArea(s)| == |multiset(SortByArea(s))|;
    assert |s| == |multiset(s)|;
  }

  /** Where the insertion loop stops is where InsertByArea puts `b`. */
  lemma {:induction false} InsertByAreaAt(t: seq<Box>, b: Box, j: nat)
    requires j <= |t|
    requires forall i :: 0 <= i < j ==> t[i].area >= b.area
    requires j < |t| ==> t[j].area < b.area
    ensures InsertByArea(t, b) == t[..j] + [b] + t[j..]
  {
    if j == 0 {
      assert t[j..] == t;
    } else {
      InsertByAreaAt(t[1..], b, j - 1);
      assert t[1..][..j - 1] == t[1..j];
      assert t[1..][j - 1..] == t[j..];
      assert t[..j] == [t[0]] + t[1..j];
    }
  }

  /**
    `bounding_boxes.sort(key=area, reverse=True)` (app.py:64), as an
    insertion sort over the list.
  */
  method SortByAreaDescending(boxes: seq<Box>) returns (sorted: seq<Box>)
    ensures sorted == SortByArea(boxes)
    ensures SortedByAreaDesc(sorted)
    ensures multiset(sorted) == multiset(boxes)
    ensures forall k :: WithArea(sorted, k) == WithArea(boxes, k)
  {
    sorted := [];
    for i := 0 to |boxes|
      invariant sorted == SortByArea(boxes[..i])
    {
      assert boxes[..i + 1][..i] == boxes[..i];
      var b := boxes[i];
      var j := 0;
      while j < |sorted| && sorted[j].area >= b.area
        invariant 0 <= j <= |sorted|
        invariant forall m :: 0 <= m < j ==> sorted[m].area >= b.area
      {
        j := j + 1;
      }
      InsertByAreaAt(sorted, b, j);
      sorted := sorted[..j] + [b] + sorted[j..];
    }
    assert boxes[..|boxes|] == boxes;
    SortByAreaCorrect(boxes);
  }
}
