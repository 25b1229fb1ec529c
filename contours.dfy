/**
 * `seriesContourResolver` and `seriesZContourResolver`: the series contours
 * split by tag, and a choice of one whole category.
 */
module Contours {
  import opened Labels
  import opened Outcomes
  import opened Records

  const ContourTag: string := "Contour"
  const ZContourTag: string := "ZContour"

  /** `[cont for cont in contours if cont.tag == tag]` */
  function FilterByTag(contours: seq<Contour>, tag: string): (r: seq<Contour>)
    ensures |r| <= |contours|
    ensures forall c :: c in r <==> c in contours && c.tag == tag
    decreases |contours|
  {
    if contours == [] then []
    else (if contours[0].tag == tag then [contours[0]] else []) + FilterByTag(contours[1..], tag)
  }

  /** Filtering keeps the original order: it distributes over concatenation. */
  lemma {:induction false} FilterKeepsOrder(a: seq<Contour>, b: seq<Contour>, tag: string)
    ensures FilterByTag(a + b, tag) == FilterByTag(a, tag) + FilterByTag(b, tag)
    decreases |a|
  {
    if a != [] {
      assert (a + b)[1..] == a[1..] + b;
      FilterKeepsOrder(a[1..], b, tag);
    } else {
      assert a + b == b;
    }
  }

  /** Each contour of the tag is kept as often as it occurs; no other contour is kept. */
  lemma {:induction false} FilterCounts(contours: seq<Contour>, tag: string, c: Contour)
    ensures multiset(FilterByTag(contours, tag))[c] == if c.tag == tag then multiset(contours)[c] else 0
    decreases |contours|
  {
    if contours != [] {
      FilterCounts(contours[1..], tag, c);
      assert contours == [contours[0]] + contours[1..];
    }
  }

  /** The two categories never share a contour, and together hold no more than the series. */
  lemma {:induction false} CategoriesDisjoint(contours: seq<Contour>)
    ensures FilterByTag(FilterByTag(contours, ContourTag), ZContourTag) == []
    ensures |FilterByTag(contours, ContourTag)| + |FilterByTag(contours, ZContourTag)| <= |contours|
    decreases |contours|
  {
    if contours != [] {
      CategoriesDisjoint(contours[1..]);
      var head := if contours[0].tag == ContourTag then [contours[0]] else [];
      FilterKeepsOrder(head, FilterByTag(contours[1..], ContourTag), ZContourTag);
    }
  }

  /** Filtering twice by the same tag changes nothing. */
  lemma {:induction false} FilterIdempotent(contours: seq<Contour>, tag: string)
    ensures FilterByTag(FilterByTag(contours, tag), tag) == FilterByTag(contours, tag)
    decreases |contours|
  {
    if contours != [] {
      FilterIdempotent(contours[1..], tag);
      var head := if contours[0].tag == tag then [contours[0]] else [];
      FilterKeepsOrder(head, FilterByTag(contours[1..], tag), tag);
    }
  }

  class ContourResolver {
    const primaryContours: seq<Contour>
    const secondaryContours: seq<Contour>
    /** None until a side is chosen. */
    var merged: Option<seq<Contour>>

    constructor (pSeries: Series, sSeries: Series)
      ensures primaryContours == FilterByTag(pSeries.contours, ContourTag)
      ensures secondaryContours == FilterByTag(sSeries.contours, ContourTag)
      ensures merged == None
    {
      primaryContours := FilterByTag(pSeries.contours, ContourTag);
      secondaryContours := FilterByTag(sSeries.contours, ContourTag);
      merged := None;
    }

    /** `choose`: the whole filtered list of the chosen side. */
    method Choose(side: Side)
      modifies this
      ensures merged == Some(if side == Primary then primaryContours else secondaryContours)
    {
      if side == Primary {
        merged := Some(primaryContours);
      } else {
        merged := Some(secondaryContours);
      }
    }
  }

  datatype ZChoice = ZPrimary | ZSecondary | ZBoth

  class ZContourResolver {
    const primaryZContours: seq<Contour>
    const secondaryZContours: seq<Contour>
    /** `mergeTool.mergeSeriesZContours`, which is not part of this model. */
    const mergeBoth: (seq<Contour>, seq<Contour>) -> seq<Contour>
    var merged: Option<seq<Contour>>

    constructor (pSeries: Series, sSeries: Series, mergeZContours: (seq<Contour>, seq<Contour>) -> seq<Contour>)
      ensures primaryZContours == FilterByTag(pSeries.contours, ZContourTag)
      ensures secondaryZContours == FilterByTag(sSeries.contours, ZContourTag)
      ensures mergeBoth == mergeZContours
      ensures merged == None
    {
      primaryZContours := FilterByTag(pSeries.contours, ZContourTag);
      secondaryZContours := FilterByTag(sSeries.contours, ZContourTag);
      mergeBoth := mergeZContours;
      merged := None;
    }

    /** `choose`: either filtered list, or the external merge of both. */
    method Choose(choice: ZChoice)
      modifies this
      ensures merged == Some(match choice
                             case ZPrimary => primaryZContours
                             case ZSecondary => secondaryZContours
                             case ZBoth => mergeBoth(primaryZContours, secondaryZContours))
    {
      match choice
      case ZPrimary => merged := Some(primaryZContours);
      case ZSecondary => merged := Some(secondaryZContours);
      case ZBoth => merged := Some(mergeBoth(primaryZContours, secondaryZContours));
    }
  }
}
