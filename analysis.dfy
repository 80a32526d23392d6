/**
  The analysis part of the upload handler (app.py:56-124) as one pipeline:
  significant boxes, sorted by area; layout features; guessed side; catalog
  match; and the component name and link the response reports.
*/
module Analysis {
  import opened Wrappers
  import opened RunningMax
  import opened Boxes
  import opened Features
  import opened Matcher

  /** The `layout_features` object of the response. */
  datatype LayoutFeatures = LayoutFeatures(
    leftBoxCount: nat,
    rightBoxCount: nat,
    widestBox: Option<Box>,
    tallestBox: Option<Box>,
    isTallDominant: bool,
    isWideDominant: bool,
    guessedSide: Guess)

  /** The `analysis` object of the response. */
  datatype Report = Report(
    significantBoxCount: nat,
    features: LayoutFeatures,
    componentName: string,
    componentLink: string)

  /**
    The handler's outcome: the analysis, or the HTTP 500 answer its
    exception handler gives when reading the winner's `name` or `link`
    raises a KeyError.
  */
  datatype Response = Complete(report: Report) | ServerError

  /** The features of the sorted significant boxes (app.py:68-98). */
  function FeaturesOf(boxes: seq<Box>, width: int): LayoutFeatures {
    var left := CountLeft(boxes, width);
    var right := |boxes| - left;
    var widest := Extreme(boxes, Width);
    var tallest := Extreme(boxes, Height);
    LayoutFeatures(left, right, widest, tallest,
                   Elongated(tallest, Height), Elongated(widest, Width), GuessSide(left, right))
  }

  /** app.py:115-124 and the response fields: the sentinel name and link stand in for no match. */
  function Respond(boxCount: nat, features: LayoutFeatures, v: Verdict): Response {
    match v
    case Found(name, link) => Complete(Report(boxCount, features, name, link))
    case NoSuitableMatch => Complete(Report(boxCount, features, NoMatchName, NoMatchLink))
    case MissingKey(_) => ServerError
  }

  /** The whole analysis as a function of the detected contours, the image width and the catalog. */
  function Analyze(contours: seq<Contour>, width: int, catalog: seq<Component>): Response {
    var boxes := SortByArea(Significant(contours));
    var features := FeaturesOf(boxes, width);
    Respond(|boxes|, features, MatchCatalog(catalog, features.guessedSide, |boxes|))
  }

  /** The statements of app.py:56-124, stage by stage. */
  method AnalyzeLayout(contours: seq<Contour>, width: int, catalog: seq<Component>)
    returns (response: Response)
    ensures response == Analyze(contours, width, catalog)
  {
    var boxes := FilterSignificant(contours);
    boxes := SortByAreaDescending(boxes);
    var boxCount := |boxes|;

    var left, right, widest, tallest := ScanBoxes(boxes, width);
    var isTallDominant, isWideDominant := false, false;
    if boxes != [] {
      isTallDominant := Elongated(tallest, Height);
      isWideDominant := Elongated(widest, Width);
    }
    var guess := GuessSide(left, right);
    var features := LayoutFeatures(left, right, widest, tallest, isTallDominant, isWideDominant, guess);
    assert features == FeaturesOf(boxes, width) by {
      if boxes == [] {
        assert Sizes(boxes, Width) == [] && Sizes(boxes, Height) == [];
      }
    }

    var best, bestScore := SelectBest(catalog, guess, boxCount);
    response := Respond(boxCount, features, Decide(best, bestScore));
  }

  /**
    The reported counts do not depend on the order of the boxes, so the
    area sort (a permutation, by SortByAreaCorrect) leaves them unchanged:
    the left and right counts add up to the number of boxes, and the left
    count and the guessed side are those of the boxes in detection order.
  */
  lemma FeaturesIgnoreOrder(boxes: seq<Box>, sorted: seq<Box>, width: int)
    requires multiset(sorted) == multiset(boxes)
    ensures var features := FeaturesOf(sorted, width);
      && features.leftBoxCount + features.rightBoxCount == |boxes|
      && features.leftBoxCount == CountLeft(boxes, width)
      && features.guessedSide == GuessSide(CountLeft(boxes, width), |boxes| - CountLeft(boxes, width))
  {
    CountLeftPermutation(sorted, boxes, width);
    assert |sorted| == |multiset(sorted)|;
    assert |boxes| == |multiset(boxes)|;
  }

  /** With an empty catalog (the fallback when loading it fails) every analysis reports no match. */
  lemma EmptyCatalogReportsNoMatch(contours: seq<Contour>, width: int)
    ensures Analyze(contours, width, []).Complete?
    ensures Analyze(contours, width, []).report.componentName == NoMatchName
    ensures Analyze(contours, width, []).report.componentLink == NoMatchLink
  {
    var boxes := SortByArea(Significant(contours));
    NoMatchBelowThreshold([], FeaturesOf(boxes, width).guessedSide, |boxes|);
  }

  /**
    The handler fails exactly when the winning entry (the first of maximal
    score) reaches the threshold, is not an empty record, and lacks its name
    or its link.
  */
  lemma ServerErrorOnlyOnMissingKey(contours: seq<Contour>, width: int, catalog: seq<Component>)
    ensures var boxes := SortByArea(Significant(contours));
      var g := FeaturesOf(boxes, width).guessedSide;
      Analyze(contours, width, catalog).ServerError? <==>
        exists i: nat :: IsWinner(catalog, g, |boxes|, i) && Score(catalog[i], g, |boxes|) >= MinMatchScore
          && !IsEmptyRecord(catalog[i]) && (catalog[i].name.None? || catalog[i].link.None?)
  {
    var boxes := SortByArea(Significant(contours));
    var g := FeaturesOf(boxes, width).guessedSide;
    if catalog == [] {
      NoMatchBelowThreshold(catalog, g, |boxes|);
    } else {
      var i := WinnerExists(catalog, g, |boxes|);
      MatchCatalogWinner(catalog, g, |boxes|, i);
      forall j: nat | IsWinner(catalog, g, |boxes|, j)
        ensures j == i
      {
        ArgMaxAboveUnique(Scores(catalog, g, |boxes|), -1, j);
        ArgMaxAboveUnique(Scores(catalog, g, |boxes|), -1, i);
      }
    }
  }

  /**
    Both flags can hold at once only on two different boxes: the tall flag
    looks at the tallest box and the wide flag at the widest, and no single
    box is both strongly tall and strongly wide.
  */
  lemma FlagsFromDifferentBoxes(boxes: seq<Box>, width: int)
    ensures var f := FeaturesOf(boxes, width);
      f.isTallDominant && f.isWideDominant ==> f.widestBox != f.tallestBox
  {
  }

  /** Both flags do hold together when a wide flat box and a narrow tall box are present. */
  lemma BothFlagsPossible(width: int)
    ensures var f := FeaturesOf([Box(0, 0, 200, 10, 2000), Box(0, 0, 10, 100, 1000)], width);
      f.isTallDominant && f.isWideDominant
  {
    var boxes := [Box(0, 0, 200, 10, 2000), Box(0, 0, 10, 100, 1000)];
    assert Extreme(boxes, Height) == Some(boxes[1]) by {
      ArgMaxAboveUnique(Sizes(boxes, Height), 0, 1);
    }
    assert Extreme(boxes, Width) == Some(boxes[0]) by {
      ArgMaxAboveUnique(Sizes(boxes, Width), 0, 0);
    }
  }
}
