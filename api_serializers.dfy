/** The read and write shapes of the API and the checks its serializers make: the
    computed rating of a title, slug resolution of a title's write form, the field
    checks of review and comment bodies and the one-review-per-title check. */
module ApiSerializers {
  import opened Wrappers
  import opened Permissions
  import opened Reviews
  import opened Validators

  datatype ApiError =
    | NotAuthenticated   // 401: a write without a login
    | PermissionDenied   // 403: a write the policy refuses to a logged-in user
    | NotFound           // 404
    | InvalidField       // 400: a missing required field, a score outside the choices, a text too long
    | AlreadyReviewed    // 400: the user already reviewed this title
    | InvalidYear        // 400: the year validator refused the year
    | UnknownSlug        // 400: a genre or category slug that does not exist
    | SlugTaken          // 400: a category or genre with this slug exists

  /** How a refused permission is reported: 401 without a login, 403 with one. */
  function Denial(who: Requester): (e: ApiError)
    ensures e == NotAuthenticated || e == PermissionDenied
    ensures e == NotAuthenticated <==> who.Anonymous?
  {
    if who.Anonymous? then NotAuthenticated else PermissionDenied
  }

  // ---- TitleSerializer.get_rating ----

  function ScoreSum(reviews: map<nat, Review>, ids: seq<nat>): int
    requires forall id | id in ids :: id in reviews
  {
    if ids == [] then 0 else reviews[ids[0]].score + ScoreSum(reviews, ids[1..])
  }

  lemma {:induction false} ScoreSumBounds(reviews: map<nat, Review>, ids: seq<nat>)
    requires forall id | id in ids :: id in reviews && IsScore(reviews[id].score)
    ensures |ids| <= ScoreSum(reviews, ids) <= 10 * |ids|
  {
    if ids != [] {
      assert forall id | id in ids[1..] :: id in ids;
      ScoreSumBounds(reviews, ids[1..]);
    }
  }

  /** The average score of the title's reviews, exactly (no floating point), or null
      when the title has none. */
  function Rating(reviews: map<nat, Review>, title: nat, bound: nat): (r: Option<real>)
    ensures r.None? <==> forall id | id in reviews && id < bound :: reviews[id].title != title
    ensures r.Some? ==>
      var ids := ReviewsOf(reviews, title, bound);
      |ids| > 0 && r.value * (|ids| as real) == ScoreSum(reviews, ids) as real
  {
    var ids := ReviewsOf(reviews, title, bound);
    if ids == [] then None
    else
      assert ids[0] in ids;
      Some(ScoreSum(reviews, ids) as real / |ids| as real)
  }

  /** A quotient of a sum between the count and ten times the count lies in 1..10. */
  lemma MeanBounds(s: real, n: real)
    requires n > 0.0 && n <= s <= 10.0 * n
    ensures 1.0 <= s / n <= 10.0
  {
  }

  /** A mean of scores 1..10 lies in 1..10. */
  lemma RatingInRange(reviews: map<nat, Review>, title: nat, bound: nat)
    requires forall id | id in reviews :: IsScore(reviews[id].score)
    ensures Rating(reviews, title, bound).Some? ==> 1.0 <= Rating(reviews, title, bound).value <= 10.0
  {
    var ids := ReviewsOf(reviews, title, bound);
    if ids != [] {
      assert forall id | id in ids :: id in reviews;
      ScoreSumBounds(reviews, ids);
      MeanBounds(ScoreSum(reviews, ids) as real, |ids| as real);
    }
  }

  /** Two reviews scored 6 and 8 give the title a rating of 7. */
  lemma RatingExample(t: nat)
    ensures Rating(map[0 := Review(t, 1, "a", 6, 0), 1 := Review(t, 2, "b", 8, 1)], t, 2) == Some(7.0)
  {
    var reviews := map[0 := Review(t, 1, "a", 6, 0), 1 := Review(t, 2, "b", 8, 1)];
    var belongs := (r: Review) => r.title == t;
    assert NewestFirst(reviews, belongs, 0) == [];
    assert NewestFirst(reviews, belongs, 1) == [0];
    assert ReviewsOf(reviews, t, 2) == [1, 0];
    assert [1, 0][1..] == [0] && [0][1..] == [];
    assert ScoreSum(reviews, [0]) == 6;
    assert ScoreSum(reviews, [1, 0]) == 14;
  }

  // ---- TitleSerializer: the read form ----

  /** A title as it is read: nested category and genres and the computed rating. */
  datatype TitleView = TitleView(
    id: nat,
    name: string,
    year: int,
    rating: Option<real>,
    description: Option<string>,
    genre: set<Genre>,
    category: Option<Category>)

  function TitleRepresentation(
    id: nat, t: Title, categories: map<string, Category>, genres: map<string, Genre>,
    reviews: map<nat, Review>, reviewBound: nat): (v: TitleView)
    requires TitleRefsOk(t, categories.Keys, genres.Keys)
    ensures v.id == id && v.name == t.name && v.year == t.year && v.description == t.description
    ensures v.rating == Rating(reviews, id, reviewBound)
    ensures v.category.Some? <==> t.category.Some?
    ensures v.category.Some? ==> v.category.value == categories[t.category.value]
    ensures forall s | s in t.genres :: genres[s] in v.genre
    ensures forall g | g in v.genre :: exists s | s in t.genres :: genres[s] == g
  {
    TitleView(id, t.name, t.year, Rating(reviews, id, reviewBound), t.description,
              set s | s in t.genres :: genres[s],
              if t.category.Some? then Some(categories[t.category.value]) else None)
  }

  // ---- TitlePostSerializer: the write form ----

  /** A field the body may leave out altogether, as opposed to sending it (possibly as null). */
  datatype Field<+T> = Omitted | Given(value: T)

  /** A title as it is written: genre and category by slug, no rating. The category is required;
      the description (nullable, blank allowed) is optional. */
  datatype TitleInput = TitleInput(
    name: string,
    year: int,
    description: Field<Option<string>>,
    genre: seq<string>,
    category: string)

  /** Field validation of the write form, in field order: the year, then the genre slugs, then the
      category slug. An omitted description is not written: the title keeps `stored`, which is null
      for a new title and the current description on an update. */
  function ResolveTitle(
    input: TitleInput, categories: map<string, Category>, genres: map<string, Genre>,
    currentYear: int, stored: Option<string>): (r: Result<Title, ApiError>)
    ensures r.Success? <==>
      && YearValidator(input.year, currentYear).Accepted?
      && (forall s | s in input.genre :: s in genres)
      && input.category in categories
    ensures YearValidator(input.year, currentYear).Rejected? ==> r == Failure(InvalidYear)
    ensures r.Failure? && r.error != InvalidYear ==> r.error == UnknownSlug
    ensures r.Success? ==>
      && r.value.name == input.name && r.value.year == input.year
      && r.value.description == (if input.description.Given? then input.description.value else stored)
      && r.value.category == Some(input.category)
      && (forall s :: s in r.value.genres <==> s in input.genre)
      && TitleRefsOk(r.value, categories.Keys, genres.Keys)
  {
    if YearValidator(input.year, currentYear).Rejected? then Failure(InvalidYear)
    else if exists s | s in input.genre :: s !in genres then Failure(UnknownSlug)
    else if input.category !in categories then Failure(UnknownSlug)
    else Success(Title(input.name, input.year,
                       if input.description.Given? then input.description.value else stored,
                       Some(input.category),
                       set s | s in input.genre))
  }

  // ---- ReviewSerializer and CommentSerializer ----
  // Neither form has an `author` field a client could fill: the author is read-only.

  /** A review body; on a partial update (PATCH) either field may be absent. */
  datatype ReviewInput = ReviewInput(text: Option<string>, score: Option<int>)

  /** A comment body. */
  datatype CommentInput = CommentInput(text: Option<string>)

  /** A non-blank text within the column's length. */
  predicate TextOk(text: string, max: nat) { 0 < |text| <= max }

  /** The field checks of a review body: both fields required unless partial, the score
      one of the choices, the text non-blank and at most 10000 characters. */
  predicate ReviewFieldsOk(input: ReviewInput, partial: bool)
    ensures ReviewFieldsOk(input, partial) && !partial ==> input.text.Some? && input.score.Some?
  {
    && (partial || (input.text.Some? && input.score.Some?))
    && (input.score.Some? ==> IsScore(input.score.value))
    && (input.text.Some? ==> TextOk(input.text.value, ReviewTextMax))
  }

  /** The field check of a comment body: the text required unless partial, non-blank and
      at most 1000 characters. */
  predicate CommentFieldsOk(input: CommentInput, partial: bool)
    ensures CommentFieldsOk(input, partial) && !partial ==> input.text.Some?
  {
    && (partial || input.text.Some?)
    && (input.text.Some? ==> TextOk(input.text.value, CommentTextMax))
  }

  /** A body accepted for a full update (PUT) is accepted for a partial one (PATCH). */
  lemma FullBodyPassesPartial(review: ReviewInput, comment: CommentInput)
    ensures ReviewFieldsOk(review, false) ==> ReviewFieldsOk(review, true)
    ensures CommentFieldsOk(comment, false) ==> CommentFieldsOk(comment, true)
  {
  }

  /** A review body that passes the field checks, laid over a stored review, gives a row
      the table accepts; a full body replaces both fields. */
  lemma ReviewUpdateFits(input: ReviewInput, partial: bool, before: Review)
    requires ReviewFieldsOk(input, partial)
    requires IsScore(before.score) && |before.text| <= ReviewTextMax
    ensures IsScore(input.score.GetOr(before.score)) && |input.text.GetOr(before.text)| <= ReviewTextMax
    ensures !partial ==> input.score.GetOr(before.score) == input.score.value
    ensures !partial ==> input.text.GetOr(before.text) == input.text.value
  {
  }

  /** A comment body that passes the field checks, laid over a stored comment, gives a row
      the table accepts. */
  lemma CommentUpdateFits(input: CommentInput, partial: bool, before: Comment)
    requires CommentFieldsOk(input, partial) && |before.text| <= CommentTextMax
    ensures |input.text.GetOr(before.text)| <= CommentTextMax
    ensures !partial ==> input.text.GetOr(before.text) == input.text.value
  {
  }

  /** `ReviewSerializer.validate`: the URL's title must exist, and a POST is refused when
      the requester already reviewed it. Other methods skip the duplicate check. */
  function ValidateReview(
    m: Method, author: nat, title: nat, titles: set<nat>, reviews: map<nat, Review>): (r: Result<(), ApiError>)
    ensures r.Success? <==> title in titles && (m != POST || !HasReviewBy(reviews, title, author))
    ensures title !in titles ==> r == Failure(NotFound)
    ensures title in titles && m == POST && HasReviewBy(reviews, title, author) ==> r == Failure(AlreadyReviewed)
  {
    if title !in titles then Failure(NotFound)
    else if m == POST && HasReviewBy(reviews, title, author) then Failure(AlreadyReviewed)
    else Success(())
  }
}
