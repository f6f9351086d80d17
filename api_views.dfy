/** The request handlers of the catalog API. Each takes the requester and the URL's
    keys explicitly and follows the framework's order: the view-level permission,
    then the object lookup (404), then the object-level permission, then the field
    checks and `validate`, then the save. A refused request changes nothing. */
module ApiViews {
  import opened Wrappers
  import opened Permissions
  import opened Reviews
  import opened ApiSerializers

  // ---- CategoryViewSet and GenreViewSet: create, list and destroy by slug; no
  // ---- retrieve and no update exist for either.

  method CreateCategory(cat: Catalog, who: Requester, name: string, slug: string)
    returns (r: Result<Category, ApiError>)
    requires cat.Valid()
    modifies cat`categories
    ensures cat.Valid()
    ensures r.Failure? ==> cat.categories == old(cat.categories)
    ensures !CatalogAllows(POST, who) ==> r == Failure(Denial(who))
    ensures CatalogAllows(POST, who) && slug in old(cat.categories) ==> r == Failure(SlugTaken)
    ensures r.Success? <==> CatalogAllows(POST, who) && slug !in old(cat.categories)
    ensures r.Success? ==> r.value == Category(name, slug) && cat.categories == old(cat.categories)[slug := r.value]
  {
    if !CatalogAllows(POST, who) {
      return Failure(Denial(who));
    }
    if slug in cat.categories {
      return Failure(SlugTaken);
    }
    r := Success(Category(name, slug));
    cat.AddCategory(r.value);
  }

  /** Deleting a category keeps its titles, each with a null category. The object-level
      check of the catalog policy repeats the view-level one (`CatalogAllowsObject`),
      so it never refuses here. */
  method DestroyCategory(cat: Catalog, who: Requester, slug: string) returns (r: Result<(), ApiError>)
    requires cat.Valid()
    modifies cat`categories, cat`titles
    ensures cat.Valid()
    ensures r.Failure? ==> cat.categories == old(cat.categories) && cat.titles == old(cat.titles)
    ensures !CatalogAllows(DELETE, who) ==> r == Failure(Denial(who))
    ensures CatalogAllows(DELETE, who) && slug !in old(cat.categories) ==> r == Failure(NotFound)
    ensures r.Success? <==> CatalogAllows(DELETE, who) && slug in old(cat.categories)
    ensures r.Success? ==>
      && cat.categories == old(cat.categories) - {slug}
      && cat.titles.Keys == old(cat.titles).Keys
      && (forall t | t in cat.titles :: cat.titles[t] == Uncategorize(old(cat.titles)[t], slug))
  {
    if !CatalogAllows(DELETE, who) {
      return Failure(Denial(who));
    }
    if slug !in cat.categories {
      return Failure(NotFound);
    }
    cat.DeleteCategory(slug);
    r := Success(());
  }

  method CreateGenre(cat: Catalog, who: Requester, name: string, slug: string)
    returns (r: Result<Genre, ApiError>)
    requires cat.Valid()
    modifies cat`genres
    ensures cat.Valid()
    ensures r.Failure? ==> cat.genres == old(cat.genres)
    ensures !CatalogAllows(POST, who) ==> r == Failure(Denial(who))
    ensures CatalogAllows(POST, who) && slug in old(cat.genres) ==> r == Failure(SlugTaken)
    ensures r.Success? <==> CatalogAllows(POST, who) && slug !in old(cat.genres)
    ensures r.Success? ==> r.value == Genre(name, slug) && cat.genres == old(cat.genres)[slug := r.value]
  {
    if !CatalogAllows(POST, who) {
      return Failure(Denial(who));
    }
    if slug in cat.genres {
      return Failure(SlugTaken);
    }
    r := Success(Genre(name, slug));
    cat.AddGenre(r.value);
  }

  /** Deleting a genre removes its associations; the titles stay. */
  method DestroyGenre(cat: Catalog, who: Requester, slug: string) returns (r: Result<(), ApiError>)
    requires cat.Valid()
    modifies cat`genres, cat`titles
    ensures cat.Valid()
    ensures r.Failure? ==> cat.genres == old(cat.genres) && cat.titles == old(cat.titles)
    ensures !CatalogAllows(DELETE, who) ==> r == Failure(Denial(who))
    ensures CatalogAllows(DELETE, who) && slug !in old(cat.genres) ==> r == Failure(NotFound)
    ensures r.Success? <==> CatalogAllows(DELETE, who) && slug in old(cat.genres)
    ensures r.Success? ==>
      && cat.genres == old(cat.genres) - {slug}
      && cat.titles.Keys == old(cat.titles).Keys
      && (forall t | t in cat.titles :: cat.titles[t] == old(cat.titles)[t].(genres := old(cat.titles)[t].genres - {slug}))
  {
    if !CatalogAllows(DELETE, who) {
      return Failure(Denial(who));
    }
    if slug !in cat.genres {
      return Failure(NotFound);
    }
    cat.DeleteGenre(slug);
    r := Success(());
  }

  // ---- TitleViewSet: the read form on list and retrieve, the write form otherwise.

  function RetrieveTitle(cat: Catalog, id: nat): (r: Result<TitleView, ApiError>)
    requires cat.Valid()
    reads cat
    ensures r.Failure? <==> id !in cat.titles
    ensures r.Failure? ==> r.error == NotFound
    ensures r.Success? ==>
      r.value == TitleRepresentation(id, cat.titles[id], cat.categories, cat.genres, cat.reviews, cat.nextReview)
  {
    if id !in cat.titles then Failure(NotFound)
    else Success(TitleRepresentation(id, cat.titles[id], cat.categories, cat.genres, cat.reviews, cat.nextReview))
  }

  method CreateTitle(cat: Catalog, who: Requester, input: TitleInput, currentYear: int)
    returns (r: Result<nat, ApiError>)
    requires cat.Valid()
    modifies cat`titles, cat`nextTitle
    ensures cat.Valid()
    ensures r.Failure? ==> cat.titles == old(cat.titles) && cat.nextTitle == old(cat.nextTitle)
    ensures !CatalogAllows(POST, who) ==> r == Failure(Denial(who))
    ensures CatalogAllows(POST, who) && ResolveTitle(input, cat.categories, cat.genres, currentYear, None).Failure? ==>
      r == Failure(ResolveTitle(input, cat.categories, cat.genres, currentYear, None).error)
    ensures r.Success? <==>
      CatalogAllows(POST, who) && ResolveTitle(input, cat.categories, cat.genres, currentYear, None).Success?
    ensures r.Success? ==>
      && r.value !in old(cat.titles)
      && r.value == old(cat.nextTitle) && cat.nextTitle == old(cat.nextTitle) + 1
      && cat.titles == old(cat.titles)[r.value := ResolveTitle(input, cat.categories, cat.genres, currentYear, None).value]
  {
    if !CatalogAllows(POST, who) {
      return Failure(Denial(who));
    }
    var t := ResolveTitle(input, cat.categories, cat.genres, currentYear, None);
    if t.Failure? {
      return Failure(t.error);
    }
    var id := cat.AddTitle(t.value);
    r := Success(id);
  }

  /** An update (PUT) of a title with the write form; an omitted description keeps the stored one. */
  method UpdateTitle(cat: Catalog, who: Requester, id: nat, input: TitleInput, currentYear: int)
    returns (r: Result<Title, ApiError>)
    requires cat.Valid()
    modifies cat`titles
    ensures cat.Valid()
    ensures r.Failure? ==> cat.titles == old(cat.titles)
    ensures !CatalogAllows(PUT, who) ==> r == Failure(Denial(who))
    ensures CatalogAllows(PUT, who) && id !in old(cat.titles) ==> r == Failure(NotFound)
    ensures r.Success? <==>
      && CatalogAllows(PUT, who) && id in old(cat.titles)
      && ResolveTitle(input, cat.categories, cat.genres, currentYear, old(cat.titles)[id].description).Success?
    ensures r.Success? ==>
      && id in old(cat.titles)
      && r.value == ResolveTitle(input, cat.categories, cat.genres, currentYear, old(cat.titles)[id].description).value
      && cat.titles == old(cat.titles)[id := r.value]
  {
    if !CatalogAllows(PUT, who) {
      return Failure(Denial(who));
    }
    if id !in cat.titles {
      return Failure(NotFound);
    }
    var t := ResolveTitle(input, cat.categories, cat.genres, currentYear, cat.titles[id].description);
    if t.Failure? {
      return Failure(t.error);
    }
    cat.ReplaceTitle(id, t.value);
    r := Success(t.value);
  }

  /** Deleting a title deletes its reviews and, with them, their comments. */
  method DestroyTitle(cat: Catalog, who: Requester, id: nat) returns (r: Result<(), ApiError>)
    requires cat.Valid()
    modifies cat`titles, cat`reviews, cat`comments
    ensures cat.Valid()
    ensures r.Failure? ==>
      cat.titles == old(cat.titles) && cat.reviews == old(cat.reviews) && cat.comments == old(cat.comments)
    ensures !CatalogAllows(DELETE, who) ==> r == Failure(Denial(who))
    ensures CatalogAllows(DELETE, who) && id !in old(cat.titles) ==> r == Failure(NotFound)
    ensures r.Success? <==> CatalogAllows(DELETE, who) && id in old(cat.titles)
    ensures r.Success? ==>
      && cat.titles == old(cat.titles) - {id}
      && cat.reviews == ReviewsKept(old(cat.reviews), Some(id), None)
      && cat.comments == CommentsKept(old(cat.comments), cat.reviews.Keys, None)
  {
    if !CatalogAllows(DELETE, who) {
      return Failure(Denial(who));
    }
    if id !in cat.titles {
      return Failure(NotFound);
    }
    cat.DeleteTitle(id);
    r := Success(());
  }

  // ---- ReviewViewSet: nested under a title.

  /** `get_queryset`: the title's reviews, newest first, or 404 when the title does not exist. */
  function ListReviews(cat: Catalog, title: nat): (r: Result<seq<nat>, ApiError>)
    requires cat.Valid()
    reads cat
    ensures r.Failure? <==> title !in cat.titles
    ensures r.Failure? ==> r.error == NotFound
    ensures r.Success? ==> forall id :: id in r.value <==> id in cat.reviews && cat.reviews[id].title == title
    ensures r.Success? ==> forall i, j | 0 <= i < j < |r.value| ::
      cat.reviews[r.value[i]].pubDate > cat.reviews[r.value[j]].pubDate
  {
    if title !in cat.titles then Failure(NotFound)
    else
      ReviewsNewestFirst(cat.reviews, title, cat.nextReview);
      Success(ReviewsOf(cat.reviews, title, cat.nextReview))
  }

  /** `get_object`: the review with this id among the title's reviews. */
  function ReviewInTitle(cat: Catalog, title: nat, id: nat): (r: Result<Review, ApiError>)
    reads cat
    ensures r.Success? <==> title in cat.titles && id in cat.reviews && cat.reviews[id].title == title
    ensures r.Success? ==> r.value == cat.reviews[id]
    ensures r.Failure? ==> r.error == NotFound
  {
    if title !in cat.titles || id !in cat.reviews || cat.reviews[id].title != title then Failure(NotFound)
    else Success(cat.reviews[id])
  }

  /** `POST`: the author is the requester and the title the URL's; a second review of the
      same title by the same user is refused. */
  method CreateReview(cat: Catalog, who: Requester, title: nat, input: ReviewInput)
    returns (r: Result<nat, ApiError>)
    requires cat.Valid()
    modifies cat`reviews, cat`nextReview, cat`clock
    ensures cat.Valid()
    ensures r.Failure? ==>
      cat.reviews == old(cat.reviews) && cat.nextReview == old(cat.nextReview) && cat.clock == old(cat.clock)
    ensures !ContentAllows(POST, who) ==> r == Failure(Denial(who))
    ensures ContentAllows(POST, who) && !ReviewFieldsOk(input, false) ==> r == Failure(InvalidField)
    ensures ContentAllows(POST, who) && ReviewFieldsOk(input, false) ==>
      var v := ValidateReview(POST, who.user.id, title, cat.titles.Keys, old(cat.reviews));
      (r.Success? <==> v.Success?) && (v.Failure? ==> r == Failure(v.error))
    ensures r.Success? ==>
      && who.Authenticated? && r.value !in old(cat.reviews)
      && cat.reviews == old(cat.reviews)[r.value :=
           Review(title, who.user.id, input.text.value, input.score.value, old(cat.clock))]
      && r.value == old(cat.nextReview) && cat.nextReview == r.value + 1 && cat.clock == old(cat.clock) + 1
  {
    if !ContentAllows(POST, who) {
      return Failure(Denial(who));
    }
    if !ReviewFieldsOk(input, false) {
      return Failure(InvalidField);
    }
    var v := ValidateReview(POST, who.user.id, title, cat.titles.Keys, cat.reviews);
    if v.Failure? {
      return Failure(v.error);
    }
    var id := cat.AddReview(title, who.user.id, input.text.value, input.score.value);
    r := Success(id);
  }

  /** `PUT`/`PATCH`: text and score may change; the stored title, author and date stay,
      whoever (author, moderator or admin) makes the change. */
  method UpdateReview(cat: Catalog, who: Requester, m: Method, title: nat, id: nat, input: ReviewInput)
    returns (r: Result<Review, ApiError>)
    requires m == PUT || m == PATCH
    requires cat.Valid()
    modifies cat`reviews
    ensures cat.Valid()
    ensures r.Failure? ==> cat.reviews == old(cat.reviews)
    ensures !ContentAllows(m, who) ==> r == Failure(Denial(who))
    ensures ContentAllows(m, who) && old(ReviewInTitle(cat, title, id)).Failure? ==> r == Failure(NotFound)
    ensures r.Success? <==>
      && ContentAllows(m, who) && old(ReviewInTitle(cat, title, id)).Success?
      && ContentAllowsObject(m, who, old(cat.reviews)[id].author)
      && ReviewFieldsOk(input, m == PATCH)
    ensures r.Success? ==>
      var before := old(cat.reviews)[id];
      && r.value == before.(text := input.text.GetOr(before.text), score := input.score.GetOr(before.score))
      && r.value.author == before.author && r.value.title == title && r.value.pubDate == before.pubDate
      && cat.reviews == old(cat.reviews)[id := r.value]
  {
    if !ContentAllows(m, who) {
      return Failure(Denial(who));
    }
    var found := ReviewInTitle(cat, title, id);
    if found.Failure? {
      return Failure(NotFound);
    }
    var before := found.value;
    if !ContentAllowsObject(m, who, before.author) {
      return Failure(Denial(who));
    }
    if !ReviewFieldsOk(input, m == PATCH) {
      return Failure(InvalidField);
    }
    var text := input.text.GetOr(before.text);
    var score := input.score.GetOr(before.score);
    cat.ReplaceReview(id, text, score);
    r := Success(before.(text := text, score := score));
  }

  /** Deleting a review deletes its comments. */
  method DestroyReview(cat: Catalog, who: Requester, title: nat, id: nat) returns (r: Result<(), ApiError>)
    requires cat.Valid()
    modifies cat`reviews, cat`comments
    ensures cat.Valid()
    ensures r.Failure? ==> cat.reviews == old(cat.reviews) && cat.comments == old(cat.comments)
    ensures !ContentAllows(DELETE, who) ==> r == Failure(Denial(who))
    ensures ContentAllows(DELETE, who) && old(ReviewInTitle(cat, title, id)).Failure? ==> r == Failure(NotFound)
    ensures r.Success? <==>
      && ContentAllows(DELETE, who) && old(ReviewInTitle(cat, title, id)).Success?
      && ContentAllowsObject(DELETE, who, old(cat.reviews)[id].author)
    ensures r.Success? ==>
      && cat.reviews == old(cat.reviews) - {id}
      && cat.comments == CommentsKept(old(cat.comments), cat.reviews.Keys, None)
  {
    if !ContentAllows(DELETE, who) {
      return Failure(Denial(who));
    }
    var found := ReviewInTitle(cat, title, id);
    if found.Failure? {
      return Failure(NotFound);
    }
    if !ContentAllowsObject(DELETE, who, found.value.author) {
      return Failure(Denial(who));
    }
    cat.DeleteReview(id);
    r := Success(());
  }

  // ---- CommentViewSet: nested under a title and a review, but only the review id is
  // ---- looked up; the URL's title id plays no part in any outcome.

  /** `get_queryset`: the review's comments, newest first, or 404 when the review does not exist. */
  function ListComments(cat: Catalog, title: nat, review: nat): (r: Result<seq<nat>, ApiError>)
    requires cat.Valid()
    reads cat
    ensures r.Failure? <==> review !in cat.reviews
    ensures r.Failure? ==> r.error == NotFound
    ensures r.Success? ==> forall id :: id in r.value <==> id in cat.comments && cat.comments[id].review == review
    ensures r.Success? ==> forall i, j | 0 <= i < j < |r.value| ::
      cat.comments[r.value[i]].pubDate > cat.comments[r.value[j]].pubDate
  {
    if review !in cat.reviews then Failure(NotFound)
    else
      CommentsNewestFirst(cat.comments, review, cat.nextComment);
      Success(CommentsOf(cat.comments, review, cat.nextComment))
  }

  /** `get_object`: the comment with this id among the review's comments. */
  function CommentInReview(cat: Catalog, review: nat, id: nat): (r: Result<Comment, ApiError>)
    reads cat
    ensures r.Success? <==> review in cat.reviews && id in cat.comments && cat.comments[id].review == review
    ensures r.Success? ==> r.value == cat.comments[id]
    ensures r.Failure? ==> r.error == NotFound
  {
    if review !in cat.reviews || id !in cat.comments || cat.comments[id].review != review then Failure(NotFound)
    else Success(cat.comments[id])
  }

  method CreateComment(cat: Catalog, who: Requester, title: nat, review: nat, input: CommentInput)
    returns (r: Result<nat, ApiError>)
    requires cat.Valid()
    modifies cat`comments, cat`nextComment, cat`clock
    ensures cat.Valid()
    ensures r.Failure? ==>
      cat.comments == old(cat.comments) && cat.nextComment == old(cat.nextComment) && cat.clock == old(cat.clock)
    ensures !ContentAllows(POST, who) ==> r == Failure(Denial(who))
    ensures ContentAllows(POST, who) && !CommentFieldsOk(input, false) ==> r == Failure(InvalidField)
    ensures ContentAllows(POST, who) && CommentFieldsOk(input, false) && review !in cat.reviews ==>
      r == Failure(NotFound)
    ensures r.Success? <==> ContentAllows(POST, who) && CommentFieldsOk(input, false) && review in cat.reviews
    ensures r.Success? ==>
      && who.Authenticated? && r.value !in old(cat.comments)
      && cat.comments == old(cat.comments)[r.value := Comment(review, who.user.id, input.text.value, old(cat.clock))]
      && r.value == old(cat.nextComment) && cat.nextComment == r.value + 1 && cat.clock == old(cat.clock) + 1
  {
    if !ContentAllows(POST, who) {
      return Failure(Denial(who));
    }
    if !CommentFieldsOk(input, false) {
      return Failure(InvalidField);
    }
    if review !in cat.reviews {
      return Failure(NotFound);
    }
    var id := cat.AddComment(review, who.user.id, input.text.value);
    r := Success(id);
  }

  method UpdateComment(cat: Catalog, who: Requester, m: Method, title: nat, review: nat, id: nat, input: CommentInput)
    returns (r: Result<Comment, ApiError>)
    requires m == PUT || m == PATCH
    requires cat.Valid()
    modifies cat`comments
    ensures cat.Valid()
    ensures r.Failure? ==> cat.comments == old(cat.comments)
    ensures !ContentAllows(m, who) ==> r == Failure(Denial(who))
    ensures ContentAllows(m, who) && old(CommentInReview(cat, review, id)).Failure? ==> r == Failure(NotFound)
    ensures r.Success? <==>
      && ContentAllows(m, who) && old(CommentInReview(cat, review, id)).Success?
      && ContentAllowsObject(m, who, old(cat.comments)[id].author)
      && CommentFieldsOk(input, m == PATCH)
    ensures r.Success? ==>
      var before := old(cat.comments)[id];
      && r.value == before.(text := input.text.GetOr(before.text))
      && r.value.author == before.author && r.value.review == review
      && cat.comments == old(cat.comments)[id := r.value]
  {
    if !ContentAllows(m, who) {
      return Failure(Denial(who));
    }
    var found := CommentInReview(cat, review, id);
    if found.Failure? {
      return Failure(NotFound);
    }
    var before := found.value;
    if !ContentAllowsObject(m, who, before.author) {
      return Failure(Denial(who));
    }
    if !CommentFieldsOk(input, m == PATCH) {
      return Failure(InvalidField);
    }
    var text := input.text.GetOr(before.text);
    cat.ReplaceComment(id, text);
    r := Success(before.(text := text));
  }

  method DestroyComment(cat: Catalog, who: Requester, title: nat, review: nat, id: nat)
    returns (r: Result<(), ApiError>)
    requires cat.Valid()
    modifies cat`comments
    ensures cat.Valid()
    ensures r.Failure? ==> cat.comments == old(cat.comments)
    ensures !ContentAllows(DELETE, who) ==> r == Failure(Denial(who))
    ensures ContentAllows(DELETE, who) && old(CommentInReview(cat, review, id)).Failure? ==> r == Failure(NotFound)
    ensures r.Success? <==>
      && ContentAllows(DELETE, who) && old(CommentInReview(cat, review, id)).Success?
      && ContentAllowsObject(DELETE, who, old(cat.comments)[id].author)
    ensures r.Success? ==> cat.comments == old(cat.comments) - {id}
  {
    if !ContentAllows(DELETE, who) {
      return Failure(Denial(who));
    }
    var found := CommentInReview(cat, review, id);
    if found.Failure? {
      return Failure(NotFound);
    }
    if !ContentAllowsObject(DELETE, who, found.value.author) {
      return Failure(Denial(who));
    }
    cat.DeleteComment(id);
    r := Success(());
  }
}
