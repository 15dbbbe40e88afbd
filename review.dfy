/**
 * The Review schema: its field constraints and the averageRating a
 * bootcamp gets from its reviews (the plain mean). Ratings are exact reals;
 * JavaScript doubles are not modelled.
 */
module ReviewModel {
  import opened Wrappers
  import JsString
  import opened Http
  import opened Schema

  datatype Review = Review(id: Id, title: string, text: string, rating: real, bootcamp: Id, user: Id)

  /** A request body for a review: every field may be missing. */
  datatype ReviewInput = ReviewInput(
    title: Option<string>,
    text: Option<string>,
    rating: Option<real>,
    bootcamp: Option<Id>,
    user: Option<Id>)

  const MaxTitle := 100
  const MinRating := 1.0
  const MaxRating := 10.0

  /** What every stored review satisfies. */
  predicate ValidReview(r: Review) {
    && r.title != "" && JsString.Trimmed(r.title)
    && JsString.Utf16Length(r.title) <= MaxTitle
    && r.text != ""
    && MinRating <= r.rating <= MaxRating
  }

  /** `maxlength` counts UTF-16 code units of the trimmed title. */
  predicate TitleTooLong(v: Option<string>) {
    v.Some? && JsString.Utf16Length(JsString.Trim(v.value)) > MaxTitle
  }

  /** `min` and `max` pass a missing rating; `required` does not. */
  predicate RatingOk(v: Option<real>) {
    v.Some? && MinRating <= v.value <= MaxRating
  }

  /** The paths whose validators reject a new review. */
  function ReviewFailures(b: ReviewInput): (paths: set<string>)
    ensures paths <= {"title", "text", "rating", "bootcamp", "user"}
  {
    (if !Filled(TrimSetter(b.title)) || TitleTooLong(b.title) then {"title"} else {})
    + (if !Filled(b.text) then {"text"} else {})
    + (if !RatingOk(b.rating) then {"rating"} else {})
    + (if b.bootcamp.None? then {"bootcamp"} else {})
    + (if b.user.None? then {"user"} else {})
  }

  /** `new Review(body)` and its validation. */
  function NewReview(id: Id, b: ReviewInput): (r: Result<Review, Failure>)
    ensures r.Ok? <==> ReviewFailures(b) == {}
    ensures r.Err? ==> r.error == ValidationError(ReviewFailures(b))
    ensures r.Ok? ==> ValidReview(r.value) && r.value.id == id
    ensures r.Ok? ==> r.value.title == JsString.Trim(b.title.value) && r.value.text == b.text.value
    ensures r.Ok? ==> r.value.rating == b.rating.value
    ensures r.Ok? ==> r.value.bootcamp == b.bootcamp.value && r.value.user == b.user.value
  {
    if ReviewFailures(b) != {} then Err(ValidationError(ReviewFailures(b)))
    else
      assert "title" !in ReviewFailures(b);
      Ok(Review(id, JsString.Trim(b.title.value), b.text.value, b.rating.value, b.bootcamp.value, b.user.value))
  }

  /** A complete body with this rating. */
  function WithRating(rating: real): ReviewInput {
    ReviewInput(Some("Good"), Some("Learned a lot"), Some(rating), Some(1), Some(2))
  }

  /** With the other fields complete, only the rating can fail. */
  lemma OnlyRatingChecked(rating: real)
    ensures ReviewFailures(WithRating(rating)) == if MinRating <= rating <= MaxRating then {} else {"rating"}
  {
    var b := WithRating(rating);
    JsString.TrimOfTrimmed("Good");
    assert TrimSetter(b.title) == Some("Good");
    assert !TitleTooLong(b.title);
    var ratingPaths: set<string> := if !RatingOk(b.rating) then {"rating"} else {};
    assert ReviewFailures(b) == ratingPaths;
  }

  /** The bounds are inclusive, integrality is not required, and both ends reject outside values. */
  lemma RatingBounds()
    ensures NewReview(0, WithRating(1.0)).Ok? && NewReview(0, WithRating(10.0)).Ok?
    ensures NewReview(0, WithRating(7.5)).Ok?
    ensures NewReview(0, WithRating(0.5)) == Err(ValidationError({"rating"}))
    ensures NewReview(0, WithRating(10.5)) == Err(ValidationError({"rating"}))
  {
    OnlyRatingChecked(1.0);
    OnlyRatingChecked(10.0);
    OnlyRatingChecked(7.5);
    OnlyRatingChecked(0.5);
    OnlyRatingChecked(10.5);
  }

  /** A title whose trimmed form is 101 plain characters is too long. */
  lemma LongTitleRejected(id: Id, b: ReviewInput, t: string)
    requires b.title == Some(t) && JsString.Trim(t) == t && |t| == MaxTitle + 1
    ensures NewReview(id, b).Err? && "title" in NewReview(id, b).error.paths
  {
  }

  // ---------------------------------------------------------------------
  // averageRating

  /** The sum of the ratings `$avg` averages, over reals since a mean rating need not be whole. */
  function SumReal(xs: seq<real>): real {
    if xs == [] then 0.0 else SumReal(xs[..|xs| - 1]) + xs[|xs| - 1]
  }

  /** The `$avg` of a non-empty list: the unrounded mean. */
  function Mean(xs: seq<real>): (m: real)
    requires |xs| > 0
    ensures m * |xs| as real == SumReal(xs)
  {
    SumReal(xs) / |xs| as real
  }

  lemma {:induction false} SumBounds(xs: seq<real>, lo: real, hi: real)
    requires forall i :: 0 <= i < |xs| ==> lo <= xs[i] <= hi
    ensures lo * |xs| as real <= SumReal(xs) <= hi * |xs| as real
  {
    if xs != [] {
      SumBounds(xs[..|xs| - 1], lo, hi);
    }
  }

  /** The mean lies between any bounds of the ratings. */
  lemma MeanBetween(xs: seq<real>, lo: real, hi: real)
    requires |xs| > 0
    requires forall i :: 0 <= i < |xs| ==> lo <= xs[i] <= hi
    ensures lo <= Mean(xs) <= hi
  {
    SumBounds(xs, lo, hi);
    var n := |xs| as real;
    var m := Mean(xs);
    ScaleCancel(lo, m, n);
    ScaleCancel(m, hi, n);
  }

  lemma ScaleCancel(a: real, b: real, n: real)
    requires n > 0.0 && a * n <= b * n
    ensures a <= b
  {
  }

  /** Two ratings 7 and 8 average to 7.5, unrounded. */
  lemma MeanExample()
    ensures Mean([7.0, 8.0]) == 7.5
  {
    assert [7.0, 8.0][..1] == [7.0];
    assert [7.0][..0] == [];
  }

  /** The ratings of one bootcamp's reviews, in table order: the `$match` stage. */
  function RatingsOf(reviews: seq<Review>, bootcamp: Id): (rs: seq<real>)
    ensures |rs| <= |reviews|
    ensures |rs| == 0 <==> forall i :: 0 <= i < |reviews| ==> reviews[i].bootcamp != bootcamp
  {
    if reviews == [] then []
    else
      var rest := RatingsOf(reviews[1..], bootcamp);
      assert forall i :: 1 <= i < |reviews| ==> reviews[i] == reviews[1..][i - 1];
      if reviews[0].bootcamp == bootcamp then [reviews[0].rating] + rest else rest
  }

  /** Every rating collected comes from a review of that bootcamp. */
  lemma {:induction false} RatingsOfFrom(reviews: seq<Review>, bootcamp: Id, k: nat)
    requires k < |RatingsOf(reviews, bootcamp)|
    ensures exists i :: 0 <= i < |reviews| && reviews[i].bootcamp == bootcamp
                        && reviews[i].rating == RatingsOf(reviews, bootcamp)[k]
  {
    var rest := RatingsOf(reviews[1..], bootcamp);
    if reviews[0].bootcamp == bootcamp && k == 0 {
      assert reviews[0].rating == RatingsOf(reviews, bootcamp)[k];
    } else {
      var k' := if reviews[0].bootcamp == bootcamp then k - 1 else k;
      assert RatingsOf(reviews, bootcamp)[k] == rest[k'];
      RatingsOfFrom(reviews[1..], bootcamp, k');
      var i :| 0 <= i < |reviews[1..]| && reviews[1..][i].bootcamp == bootcamp && reviews[1..][i].rating == rest[k'];
      assert reviews[i + 1] == reviews[1..][i];
    }
  }

  /** The averageRating getAverageRating writes, or None when there is no `obj[0]` and the write is skipped. */
  function AverageRating(reviews: seq<Review>, bootcamp: Id): (r: Option<real>)
    ensures r.None? <==> forall i :: 0 <= i < |reviews| ==> reviews[i].bootcamp != bootcamp
  {
    var rs := RatingsOf(reviews, bootcamp);
    if |rs| == 0 then None else Some(Mean(rs))
  }

  /** Over valid reviews the average rating is itself between 1 and 10. */
  lemma AverageRatingInRange(reviews: seq<Review>, bootcamp: Id)
    requires forall i :: 0 <= i < |reviews| ==> ValidReview(reviews[i])
    ensures AverageRating(reviews, bootcamp).Some? ==>
              MinRating <= AverageRating(reviews, bootcamp).value <= MaxRating
  {
    var rs := RatingsOf(reviews, bootcamp);
    forall k | 0 <= k < |rs| ensures MinRating <= rs[k] <= MaxRating {
      RatingsOfFrom(reviews, bootcamp, k);
    }
    if |rs| > 0 {
      MeanBetween(rs, MinRating, MaxRating);
    }
  }
}
