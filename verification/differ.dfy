/** The metadata differ of the orchestrator: which fields of a source item
    and its matched destination item disagree. Tag lists are compared by
    length and then source-in-destination membership, ratings with a
    tolerance of one tenth after truncation. Differences are a closed set
    of kinds rather than the log messages the orchestrator prints. */
module Differ {
  import opened Catalog

  // ---- tag lists ------------------------------------------------------------

  function Elems(s: seq<string>): set<string> {
    set x | x in s
  }

  /** compareTagArrays / compareCollectionArrays: equal lengths, and the
      set of source tags inside the set of destination tags. */
  function SameTags(source: seq<string>, dest: seq<string>): (r: bool)
    ensures r <==> |source| == |dest| && forall t :: t in source ==> t in dest
  {
    assert Elems(source) <= Elems(dest) <==> forall t :: t in source ==> t in dest by {
      assert forall t :: t in Elems(source) <==> t in source;
      assert forall t :: t in Elems(dest) <==> t in dest;
    }
    |source| == |dest| && Elems(source) <= Elems(dest)
  }

  predicate Distinct(s: seq<string>) {
    forall i, j :: 0 <= i < j < |s| ==> s[i] != s[j]
  }

  lemma {:induction false} DistinctCard(s: seq<string>)
    requires Distinct(s)
    ensures |Elems(s)| == |s|
    decreases |s|
  {
    if |s| > 0 {
      assert forall j :: 0 <= j < |s| - 1 ==> s[1..][j] == s[j + 1];
      DistinctCard(s[1..]);
      assert Elems(s) == {s[0]} + Elems(s[1..]);
      assert s[0] !in Elems(s[1..]);
    }
  }

  lemma SubsetSameCard(a: set<string>, b: set<string>)
    requires a <= b && |a| == |b|
    ensures a == b
  {
    assert |b - a| == |b| - |a|;
  }

  /** For lists without repeated tags the comparison is set equality, in
      both directions. */
  lemma SameTagsIsSetEquality(a: seq<string>, b: seq<string>)
    requires Distinct(a) && Distinct(b)
    ensures SameTags(a, b) <==> Elems(a) == Elems(b)
  {
    DistinctCard(a);
    DistinctCard(b);
    if SameTags(a, b) {
      SubsetSameCard(Elems(a), Elems(b));
    }
  }

  /** With repeated tags the comparison is not symmetric. */
  lemma SameTagsAsymmetric()
    ensures SameTags(["a", "a"], ["a", "b"])
    ensures !SameTags(["a", "b"], ["a", "a"])
  {
    assert "b" in Elems(["a", "b"]);
    assert "b" !in Elems(["a", "a"]);
  }

  lemma SameTagsReflexive(s: seq<string>)
    ensures SameTags(s, s)
  {
  }

  // ---- ratings --------------------------------------------------------------

  /** Go's conversion of a float to int64: truncation toward zero. */
  function Trunc(x: real): (r: int)
    ensures x >= 0.0 ==> 0 <= r && r as real <= x < r as real + 1.0
    ensures x < 0.0 ==> r <= 0 && r as real - 1.0 < x <= r as real
  {
    if x >= 0.0 then x.Floor else -((-x).Floor)
  }

  function Abs(i: int): nat {
    if i < 0 then -i else i
  }

  /** The rating test: the truncated difference in tenths exceeds one. */
  function RatingsDiffer(source: real, dest: real): bool {
    Abs(Trunc(source * 10.0 - dest * 10.0)) > 1
  }

  /** In exact arithmetic the ratings differ exactly when they are at least
      two tenths apart. */
  lemma RatingTolerance(source: real, dest: real)
    ensures RatingsDiffer(source, dest) <==> source * 10.0 - dest * 10.0 >= 2.0 || dest * 10.0 - source * 10.0 >= 2.0
  {
  }

  lemma RatingExamples()
    ensures !RatingsDiffer(7.2, 7.3)
    ensures RatingsDiffer(7.2, 7.4)
    ensures !RatingsDiffer(7.2, 7.39)
  {
    RatingTolerance(7.2, 7.3);
    RatingTolerance(7.2, 7.4);
    RatingTolerance(7.2, 7.39);
  }

  // ---- field comparison -----------------------------------------------------

  /** The kinds of difference the orchestrator reports. */
  datatype Diff =
    | TitleDiff | OriginalTitleDiff | YearDiff | StudioDiff | NetworkDiff | ContentRatingDiff
    | SummaryDiff | TaglineDiff | RatingDiff | ThumbDiff | ArtDiff | GenresDiff | LabelsDiff
    | CollectionsDiff | ViewCountDiff
    | KindMismatch(sourceKind: string)
    | Unsupported

  /** Two items of one comparable kind. */
  predicate Comparable(s: Item, d: Item) {
    (s.Movie? && d.Movie?) || (s.Show? && d.Show?)
  }

  /** When a field difference holds: the reference reading of the
      comparison, one field at a time. */
  predicate Differs(s: Item, d: Item, x: Diff)
    requires Comparable(s, d)
  {
    match x
    case TitleDiff => s.title != d.title
    case OriginalTitleDiff => s.originalTitle != d.originalTitle
    case YearDiff => s.year != d.year
    case StudioDiff => s.studio != d.studio
    case NetworkDiff => s.Show? && s.network != d.network
    case ContentRatingDiff => s.contentRating != d.contentRating
    case SummaryDiff => s.summary != d.summary
    case TaglineDiff => s.tagline != d.tagline
    case RatingDiff => RatingsDiffer(s.userRating, d.userRating)
    case ThumbDiff => s.thumb != d.thumb
    case ArtDiff => s.art != d.art
    case GenresDiff => !SameTags(Tags(s.genres), Tags(d.genres))
    case LabelsDiff => !SameTags(Tags(s.labels), Tags(d.labels))
    case CollectionsDiff => !SameTags(Tags(s.collections), Tags(d.collections))
    case ViewCountDiff => s.viewCount != d.viewCount
    case KindMismatch(_) => false
    case Unsupported => false
  }

  /** The fields both comparisons visit, in the order they visit them; the
      network is compared for shows only. */
  const FieldOrder: seq<Diff> := [TitleDiff, OriginalTitleDiff, YearDiff, StudioDiff, NetworkDiff,
                                  ContentRatingDiff, SummaryDiff, TaglineDiff, RatingDiff, ThumbDiff,
                                  ArtDiff, GenresDiff, LabelsDiff, CollectionsDiff, ViewCountDiff]

  /** The fields of `fields` that differ, in order. */
  function Select(s: Item, d: Item, fields: seq<Diff>): (r: seq<Diff>)
    requires Comparable(s, d)
    ensures forall x :: x in r <==> x in fields && Differs(s, d, x)
    ensures r == [] <==> forall i :: 0 <= i < |fields| ==> !Differs(s, d, fields[i])
    ensures |r| <= |fields|
  {
    if |fields| == 0 then []
    else
      var rest := Select(s, d, fields[1..]);
      assert forall j :: 0 <= j < |fields| - 1 ==> fields[1..][j] == fields[j + 1];
      if Differs(s, d, fields[0]) then [fields[0]] + rest else rest
  }

  /** compareMovieMetadata and compareTVShowMetadata. */
  function FieldDiffs(s: Item, d: Item): (r: seq<Diff>)
    requires Comparable(s, d)
    ensures forall x :: x in r <==> Differs(s, d, x)
    ensures r == [] <==> forall x :: !Differs(s, d, x)
    ensures |r| <= 15
  {
    FieldOrderComplete(s, d);
    Select(s, d, FieldOrder)
  }

  /** Only the fields in FieldOrder can differ. */
  lemma FieldOrderComplete(s: Item, d: Item)
    requires Comparable(s, d)
    ensures forall x :: Differs(s, d, x) ==> x in FieldOrder
  {
    forall x | Differs(s, d, x)
      ensures x in FieldOrder
    {
      match x
      case TitleDiff => assert FieldOrder[0] == x;
      case OriginalTitleDiff => assert FieldOrder[1] == x;
      case YearDiff => assert FieldOrder[2] == x;
      case StudioDiff => assert FieldOrder[3] == x;
      case NetworkDiff => assert FieldOrder[4] == x;
      case ContentRatingDiff => assert FieldOrder[5] == x;
      case SummaryDiff => assert FieldOrder[6] == x;
      case TaglineDiff => assert FieldOrder[7] == x;
      case RatingDiff => assert FieldOrder[8] == x;
      case ThumbDiff => assert FieldOrder[9] == x;
      case ArtDiff => assert FieldOrder[10] == x;
      case GenresDiff => assert FieldOrder[11] == x;
      case LabelsDiff => assert FieldOrder[12] == x;
      case CollectionsDiff => assert FieldOrder[13] == x;
      case ViewCountDiff => assert FieldOrder[14] == x;
    }
  }

  /** findMetadataDifferences. */
  function FindDifferences(s: Item, d: Item): (r: seq<Diff>)
    ensures Comparable(s, d) ==> forall x :: x in r <==> Differs(s, d, x)
    ensures Comparable(s, d) ==> (r == [] <==> forall x :: !Differs(s, d, x))
    ensures s.Movie? && !d.Movie? ==> r == [KindMismatch("Movie")]
    ensures s.Show? && !d.Show? ==> r == [KindMismatch("TVShow")]
    ensures s.Episode? ==> r == [Unsupported]
  {
    if s.Movie? then (if d.Movie? then FieldDiffs(s, d) else [KindMismatch("Movie")])
    else if s.Show? then (if d.Show? then FieldDiffs(s, d) else [KindMismatch("TVShow")])
    else [Unsupported]
  }

  /** A movie or show compared with itself has no differences. */
  lemma NoDifferencesWithItself(s: Item)
    requires !s.Episode?
    ensures FindDifferences(s, s) == []
  {
    SameTagsReflexive(Tags(s.genres));
    SameTagsReflexive(Tags(s.labels));
    SameTagsReflexive(Tags(s.collections));
    assert forall x :: !Differs(s, s, x);
  }

  /** compareEnhancedMetadata: an item needs a sync exactly when some
      difference is found; the comparison never fails. */
  function NeedsSync(source: EnhancedItem, dest: EnhancedItem): bool {
    |FindDifferences(source.item, dest.item)| > 0
  }

  /** A copy of a movie or show needs no sync, an episode always does, and
      between items of one kind a sync is needed exactly when some field
      differs. */
  lemma NeedsSyncMeaning(source: EnhancedItem, dest: EnhancedItem)
    ensures !source.item.Episode? && source.item == dest.item ==> !NeedsSync(source, dest)
    ensures source.item.Episode? ==> NeedsSync(source, dest)
    ensures Comparable(source.item, dest.item) ==>
              (NeedsSync(source, dest) <==> exists x :: Differs(source.item, dest.item, x))
  {
    var diffs := FindDifferences(source.item, dest.item);
    if !source.item.Episode? && source.item == dest.item {
      NoDifferencesWithItself(source.item);
    }
    if Comparable(source.item, dest.item) && diffs != [] {
      assert Differs(source.item, dest.item, diffs[0]);
    }
  }
}
