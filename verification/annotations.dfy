/**
 * The per-region annotation loop of `getWraps` (ModelLoader.js).
 *
 * For each detected region, in detection order, the screen crops the image to the
 * region, asks the classifier for two scores and colours the region green when the
 * first score is strictly greater than the second, red otherwise. The slice, the
 * bilinear resize and the classifier's `predict` are collaborators: together they
 * are the `Classifier` below, which either returns the two scores or throws (`None`).
 */
module Annotations {
  import opened Wrappers
  import opened Pixels
  import opened Geometry

  datatype Color = Red | Green

  /** The classifier's two output scores, `result[0]` and `result[1]`. */
  datatype Scores = Scores(first: real, second: real)

  /** The entry pushed onto `tempArray` for region `id`. */
  datatype Annotation = Annotation(id: nat, location: Region, color: Color)

  /** Crop of the image, resize to 224 x 224, batch dimension and `predict`; `None` is a throw. */
  type Classifier = (Tensor3, CropBox) -> Option<Scores>

  /** The colour rule: green exactly when the first score is strictly the larger. */
  function Decide(scores: Scores): (c: Color)
    ensures scores.first == scores.second ==> c == Red
  {
    if scores.first > scores.second then Green else Red
  }

  /** Green means a strict win of the first score; anything else, ties included, is red. */
  lemma DecideIsStrict(scores: Scores)
    ensures Decide(scores) == Green <==> scores.first > scores.second
    ensures Decide(scores) == Red <==> scores.first <= scores.second
    ensures scores.first == scores.second ==> Decide(scores) == Red
  {
  }

  /**
   * The annotations of the first `n` regions, or `None` when classifying one of them
   * throws. Defined the way `tempArray` grows: one push per region, in order.
   */
  function AnnotateFirst(image: Tensor3, regions: seq<Region>, classify: Classifier, n: nat): (r: Option<seq<Annotation>>)
    requires n <= |regions|
    ensures r.Some? <==> forall j :: 0 <= j < n ==> classify(image, Crop(regions[j])).Some?
    ensures r.Some? ==> |r.value| == n
    ensures r.Some? ==> forall j :: 0 <= j < n ==>
      r.value[j] == Annotation(j, regions[j], Decide(classify(image, Crop(regions[j])).value))
  {
    if n == 0 then Some([])
    else
      match AnnotateFirst(image, regions, classify, n - 1)
      case None => None
      case Some(done) =>
        match classify(image, Crop(regions[n - 1]))
        case None => None
        case Some(scores) => Some(done + [Annotation(n - 1, regions[n - 1], Decide(scores))])
  }

  /** The annotation list for all detected regions, or `None` when any classification throws. */
  function Annotate(image: Tensor3, regions: seq<Region>, classify: Classifier): (r: Option<seq<Annotation>>)
    ensures r.Some? ==> |r.value| == |regions|
  {
    AnnotateFirst(image, regions, classify, |regions|)
  }

  /**
   * The loop itself. `queried` records the crop boxes handed to the classifier, in
   * call order: one per region, in detection order, stopping at the first throw.
   */
  method CollectAnnotations(image: Tensor3, regions: seq<Region>, classify: Classifier)
    returns (result: Option<seq<Annotation>>, ghost queried: seq<CropBox>)
    ensures result == Annotate(image, regions, classify)
    ensures |queried| <= |regions|
    ensures forall j :: 0 <= j < |queried| ==> queried[j] == Crop(regions[j])
    ensures forall j :: 0 <= j < |queried| - 1 ==> classify(image, queried[j]).Some?
    ensures result.Some? ==> |queried| == |regions|
    ensures result.None? ==> 0 < |queried| && classify(image, queried[|queried| - 1]).None?
    ensures regions == [] ==> result == Some([]) && queried == []
  {
    var tempArray := [];
    var i := 0;
    queried := [];
    while i < |regions|
      invariant i <= |regions|
      invariant AnnotateFirst(image, regions, classify, i) == Some(tempArray)
      invariant |queried| == i
      invariant forall j :: 0 <= j < i ==> queried[j] == Crop(regions[j])
    {
      var color := Red;
      var box := Crop(regions[i]);
      queried := queried + [box];
      var scores := classify(image, box);
      if scores.None? {
        return None, queried;
      }
      if scores.value.first > scores.value.second {
        color := Green;
      }
      tempArray := tempArray + [Annotation(i, regions[i], color)];
      i := i + 1;
    }
    result := Some(tempArray);
  }

  /** One annotation per region, in detection order, ids 0, 1, 2, ..., locations unchanged. */
  lemma AnnotationsFollowRegions(image: Tensor3, regions: seq<Region>, classify: Classifier, annotations: seq<Annotation>)
    requires Annotate(image, regions, classify) == Some(annotations)
    ensures |annotations| == |regions|
    ensures forall j :: 0 <= j < |regions| ==> annotations[j].id == j && annotations[j].location == regions[j]
    ensures forall j, k :: 0 <= j < k < |annotations| ==> annotations[j].id != annotations[k].id
  {
  }

  /**
   * A failed classification of any one region fails the whole list: there is no
   * partial result that skips the region.
   */
  lemma OneFailureFailsAll(image: Tensor3, regions: seq<Region>, classify: Classifier, k: nat)
    requires k < |regions| && classify(image, Crop(regions[k])).None?
    ensures Annotate(image, regions, classify) == None
  {
  }

  /** The colour of a region depends only on that region's own scores. */
  lemma ColorIsLocal(image: Tensor3, regions: seq<Region>, classify: Classifier, other: Classifier, k: nat)
    requires k < |regions|
    requires Annotate(image, regions, classify).Some? && Annotate(image, regions, other).Some?
    requires classify(image, Crop(regions[k])) == other(image, Crop(regions[k]))
    ensures Annotate(image, regions, classify).value[k] == Annotate(image, regions, other).value[k]
  {
  }

  /** The SVG element drawn for an annotation: keyed by its id, stroked in its colour. */
  datatype Drawn = Drawn(key: nat, rect: Rect, stroke: Color)

  function Draw(wraps: seq<Annotation>): (drawn: seq<Drawn>)
    ensures |drawn| == |wraps|
  {
    seq(|wraps|, j requires 0 <= j < |wraps| => Drawn(wraps[j].id, Overlay(wraps[j].location), wraps[j].color))
  }

  /**
   * After a successful prediction the drawn rectangles carry the distinct keys
   * 0, 1, 2, ... and each spans its own detected region.
   */
  lemma DrawnAfterPrediction(image: Tensor3, regions: seq<Region>, classify: Classifier, annotations: seq<Annotation>)
    requires Annotate(image, regions, classify) == Some(annotations)
    ensures var drawn := Draw(annotations);
      |drawn| == |regions| &&
      forall j :: 0 <= j < |regions| ==>
        drawn[j].key == j && drawn[j].rect == Overlay(regions[j]) &&
        (drawn[j].stroke == Green <==> classify(image, Crop(regions[j])).value.first > classify(image, Crop(regions[j])).value.second)
  {
  }

  /** The end-to-end example: one region, scores 0.9 and 0.1, gives one green entry with id 0. */
  lemma SingleRegionExample(image: Tensor3, classify: Classifier)
    requires classify(image, Crop(Region((10.0, 10.0), (110.0, 110.0)))) == Some(Scores(0.9, 0.1))
    ensures Annotate(image, [Region((10.0, 10.0), (110.0, 110.0))], classify)
      == Some([Annotation(0, Region((10.0, 10.0), (110.0, 110.0)), Green)])
  {
    var region := Region((10.0, 10.0), (110.0, 110.0));
    var r := Annotate(image, [region], classify);
    assert r.Some? && |r.value| == 1;
    assert r.value[0] == Annotation(0, region, Decide(Scores(0.9, 0.1)));
    assert r.value == [r.value[0]];
  }
}
