/** The catalog tables: categories and genres keyed by slug, titles, reviews and
    comments keyed by id. Publication dates come from a logical clock that every
    review or comment insertion advances. The foreign-key delete rules (cascade from a title to its
    reviews, from a review to its comments, from a user to what they wrote; set-null
    from a category to its titles) are the delete methods of `Catalog`. */
module Reviews {
  import opened Wrappers

  const ReviewTextMax: nat := 10000
  const CommentTextMax: nat := 1000

  datatype Category = Category(name: string, slug: string)
  datatype Genre = Genre(name: string, slug: string)
  datatype Title = Title(
    name: string,
    year: int,
    description: Option<string>,
    category: Option<string>,   // slug of a category, or null
    genres: set<string>)        // slugs of genres
  datatype Review = Review(title: nat, author: nat, text: string, score: int, pubDate: nat)
  datatype Comment = Comment(review: nat, author: nat, text: string, pubDate: nat)

  /** `SCORE_CHOICES`: the scores 1 to 10. */
  predicate IsScore(s: int) { 1 <= s <= 10 }

  // ---- Table constraints, stated over the tables so that an update of one table
  // ---- leaves the constraints of the others visibly untouched.

  ghost predicate CategoriesOk(categories: map<string, Category>) {
    forall s | s in categories :: categories[s].slug == s
  }

  ghost predicate GenresOk(genres: map<string, Genre>) {
    forall s | s in genres :: genres[s].slug == s
  }

  /** A title's references: its category is null or exists, its genres exist. */
  predicate TitleRefsOk(t: Title, categories: set<string>, genres: set<string>) {
    && t.year >= 1
    && (t.category.Some? ==> t.category.value in categories)
    && t.genres <= genres
  }

  ghost predicate TitlesOk(titles: map<nat, Title>, categories: set<string>, genres: set<string>, next: nat) {
    forall t | t in titles :: t < next && TitleRefsOk(titles[t], categories, genres)
  }

  ghost predicate ReviewsOk(reviews: map<nat, Review>, titles: set<nat>, next: nat, clock: nat) {
    forall r | r in reviews ::
      && r < next
      && reviews[r].title in titles
      && IsScore(reviews[r].score)
      && |reviews[r].text| <= ReviewTextMax
      && reviews[r].pubDate < clock
  }

  /** The `unique_review` constraint on (title, author). */
  ghost predicate OneReviewPerAuthor(reviews: map<nat, Review>) {
    forall a, b | a in reviews && b in reviews && a != b ::
      reviews[a].title != reviews[b].title || reviews[a].author != reviews[b].author
  }

  /** Some review of `title` is by `author`. */
  predicate HasReviewBy(reviews: map<nat, Review>, title: nat, author: nat) {
    exists r | r in reviews :: reviews[r].title == title && reviews[r].author == author
  }

  ghost predicate CommentsOk(comments: map<nat, Comment>, reviews: set<nat>, next: nat, clock: nat) {
    forall c | c in comments ::
      && c < next
      && comments[c].review in reviews
      && |comments[c].text| <= CommentTextMax
      && comments[c].pubDate < clock
  }

  /** Later ids were published later: ordering by descending id is ordering newest first. */
  ghost predicate ReviewsChronological(reviews: map<nat, Review>) {
    forall a, b | a in reviews && b in reviews && a < b :: reviews[a].pubDate < reviews[b].pubDate
  }

  ghost predicate CommentsChronological(comments: map<nat, Comment>) {
    forall a, b | a in comments && b in comments && a < b :: comments[a].pubDate < comments[b].pubDate
  }

  /** Every constraint of the catalog's tables. */
  ghost predicate TablesOk(
    categories: map<string, Category>, genres: map<string, Genre>, titles: map<nat, Title>,
    reviews: map<nat, Review>, comments: map<nat, Comment>,
    nextTitle: nat, nextReview: nat, nextComment: nat, clock: nat)
  {
    && CategoriesOk(categories)
    && GenresOk(genres)
    && TitlesOk(titles, categories.Keys, genres.Keys, nextTitle)
    && ReviewsOk(reviews, titles.Keys, nextReview, clock)
    && OneReviewPerAuthor(reviews)
    && ReviewsChronological(reviews)
    && CommentsOk(comments, reviews.Keys, nextComment, clock)
    && CommentsChronological(comments)
  }

  // ---- What the cascades leave behind, and why the constraints survive them.

  /** The reviews left when those by `author` or of title `title` go (`None` spares that side). */
  function ReviewsKept(reviews: map<nat, Review>, title: Option<nat>, author: Option<nat>): map<nat, Review> {
    map r | r in reviews && Some(reviews[r].title) != title && Some(reviews[r].author) != author :: reviews[r]
  }

  /** The comments left when every comment on a review outside `kept`, and every comment by `author`, goes. */
  function CommentsKept(comments: map<nat, Comment>, kept: set<nat>, author: Option<nat>): map<nat, Comment> {
    map c | c in comments && comments[c].review in kept && Some(comments[c].author) != author :: comments[c]
  }

  /** The review constraints survive a cascade, and no remaining review points at what was deleted. */
  lemma ReviewsKeptOk(reviews: map<nat, Review>, titles: set<nat>, next: nat, clock: nat, title: Option<nat>, author: Option<nat>)
    requires ReviewsOk(reviews, titles, next, clock) && OneReviewPerAuthor(reviews) && ReviewsChronological(reviews)
    ensures var rs := ReviewsKept(reviews, title, author);
      && ReviewsOk(rs, if title.Some? then titles - {title.value} else titles, next, clock)
      && OneReviewPerAuthor(rs) && ReviewsChronological(rs)
      && (forall r | r in rs :: Some(rs[r].title) != title && Some(rs[r].author) != author)
  {
  }

  /** The comment constraints survive a cascade, now against the remaining reviews. */
  lemma CommentsKeptOk(comments: map<nat, Comment>, reviews: set<nat>, next: nat, clock: nat, kept: set<nat>, author: Option<nat>)
    requires CommentsOk(comments, reviews, next, clock) && CommentsChronological(comments)
    ensures var cs := CommentsKept(comments, kept, author);
      && CommentsOk(cs, kept, next, clock) && CommentsChronological(cs)
      && (forall c | c in cs :: Some(cs[c].author) != author)
  {
  }

  /** Deleting a title with its reviews and their comments keeps every constraint. */
  lemma DeleteTitleOk(
    categories: map<string, Category>, genres: map<string, Genre>, titles: map<nat, Title>,
    reviews: map<nat, Review>, comments: map<nat, Comment>,
    nextTitle: nat, nextReview: nat, nextComment: nat, clock: nat, id: nat)
    requires TablesOk(categories, genres, titles, reviews, comments, nextTitle, nextReview, nextComment, clock)
    ensures var rs := ReviewsKept(reviews, Some(id), None);
      TablesOk(categories, genres, titles - {id}, rs, CommentsKept(comments, rs.Keys, None),
               nextTitle, nextReview, nextComment, clock)
  {
    ReviewsKeptOk(reviews, titles.Keys, nextReview, clock, Some(id), None);
    var rs := ReviewsKept(reviews, Some(id), None);
    CommentsKeptOk(comments, reviews.Keys, nextComment, clock, rs.Keys, None);
    assert (titles - {id}).Keys == titles.Keys - {id};
  }

  /** Deleting a review with its comments keeps every constraint. */
  lemma DeleteReviewOk(
    categories: map<string, Category>, genres: map<string, Genre>, titles: map<nat, Title>,
    reviews: map<nat, Review>, comments: map<nat, Comment>,
    nextTitle: nat, nextReview: nat, nextComment: nat, clock: nat, id: nat)
    requires TablesOk(categories, genres, titles, reviews, comments, nextTitle, nextReview, nextComment, clock)
    ensures TablesOk(categories, genres, titles, reviews - {id}, CommentsKept(comments, (reviews - {id}).Keys, None),
                     nextTitle, nextReview, nextComment, clock)
  {
    CommentsKeptOk(comments, reviews.Keys, nextComment, clock, (reviews - {id}).Keys, None);
  }

  /** Deleting what a user wrote, and the comments on their reviews, keeps every constraint. */
  lemma DeleteAuthorOk(
    categories: map<string, Category>, genres: map<string, Genre>, titles: map<nat, Title>,
    reviews: map<nat, Review>, comments: map<nat, Comment>,
    nextTitle: nat, nextReview: nat, nextComment: nat, clock: nat, author: nat)
    requires TablesOk(categories, genres, titles, reviews, comments, nextTitle, nextReview, nextComment, clock)
    ensures var rs := ReviewsKept(reviews, None, Some(author));
      TablesOk(categories, genres, titles, rs, CommentsKept(comments, rs.Keys, Some(author)),
               nextTitle, nextReview, nextComment, clock)
  {
    ReviewsKeptOk(reviews, titles.Keys, nextReview, clock, None, Some(author));
    var rs := ReviewsKept(reviews, None, Some(author));
    CommentsKeptOk(comments, reviews.Keys, nextComment, clock, rs.Keys, Some(author));
  }

  predicate StrictlyDecreasing(ids: seq<nat>) {
    forall i, j | 0 <= i < j < |ids| :: ids[i] > ids[j]
  }

  /** The ids below `bound` whose row satisfies `belongs`, highest (newest) first:
      a filtered query ordered by descending publication date. */
  function NewestFirst<T>(m: map<nat, T>, belongs: T -> bool, bound: nat): (ids: seq<nat>)
    ensures forall id :: id in ids <==> id < bound && id in m && belongs(m[id])
    ensures StrictlyDecreasing(ids)
    decreases bound
  {
    if bound == 0 then []
    else
      var rest := NewestFirst(m, belongs, bound - 1);
      if bound - 1 in m && belongs(m[bound - 1]) then
        assert forall k | 0 <= k < |rest| :: rest[k] in rest;
        [bound - 1] + rest
      else rest
  }

  /** The reviews of a title, newest first (`title.reviews.all()` under `ordering = ('-pub_date',)`). */
  function ReviewsOf(reviews: map<nat, Review>, title: nat, bound: nat): seq<nat> {
    NewestFirst(reviews, (r: Review) => r.title == title, bound)
  }

  /** The comments of a review, newest first. */
  function CommentsOf(comments: map<nat, Comment>, review: nat, bound: nat): seq<nat> {
    NewestFirst(comments, (c: Comment) => c.review == review, bound)
  }

  /** In a chronological table a listing by descending id has strictly decreasing publication dates. */
  lemma ReviewsNewestFirst(reviews: map<nat, Review>, title: nat, bound: nat)
    requires ReviewsChronological(reviews)
    ensures var ids := ReviewsOf(reviews, title, bound);
      forall i, j | 0 <= i < j < |ids| :: reviews[ids[i]].pubDate > reviews[ids[j]].pubDate
  {
  }

  lemma CommentsNewestFirst(comments: map<nat, Comment>, review: nat, bound: nat)
    requires CommentsChronological(comments)
    ensures var ids := CommentsOf(comments, review, bound);
      forall i, j | 0 <= i < j < |ids| :: comments[ids[i]].pubDate > comments[ids[j]].pubDate
  {
  }

  /** `Title.category` after its category `slug` is deleted (`on_delete=SET_NULL`). */
  function Uncategorize(t: Title, slug: string): (r: Title)
    ensures r.category != Some(slug)
    ensures t.category == Some(slug) ==> r.category == None
    ensures r.(category := t.category) == t
    ensures t.category != Some(slug) ==> r == t
  {
    if t.category == Some(slug) then t.(category := None) else t
  }

  class Catalog {
    var categories: map<string, Category>
    var genres: map<string, Genre>
    var titles: map<nat, Title>
    var reviews: map<nat, Review>
    var comments: map<nat, Comment>
    var nextTitle: nat
    var nextReview: nat
    var nextComment: nat
    var clock: nat

    ghost predicate Valid()
      reads this
    {
      TablesOk(categories, genres, titles, reviews, comments, nextTitle, nextReview, nextComment, clock)
    }

    constructor ()
      ensures Valid()
      ensures categories == map[] && genres == map[] && titles == map[]
      ensures reviews == map[] && comments == map[]
    {
      categories, genres, titles, reviews, comments := map[], map[], map[], map[], map[];
      nextTitle, nextReview, nextComment, clock := 0, 0, 0, 0;
    }

    // ---- Insertions and updates (the ORM's save) ----

    method AddCategory(c: Category)
      requires Valid() && c.slug !in categories
      modifies this`categories
      ensures Valid()
      ensures categories == old(categories)[c.slug := c]
    {
      categories := categories[c.slug := c];
    }

    method AddGenre(g: Genre)
      requires Valid() && g.slug !in genres
      modifies this`genres
      ensures Valid()
      ensures genres == old(genres)[g.slug := g]
    {
      genres := genres[g.slug := g];
    }

    method AddTitle(t: Title) returns (id: nat)
      requires Valid() && TitleRefsOk(t, categories.Keys, genres.Keys)
      modifies this`titles, this`nextTitle
      ensures Valid()
      ensures id == old(nextTitle) && id !in old(titles)
      ensures titles == old(titles)[id := t] && nextTitle == id + 1
    {
      id := nextTitle;
      titles := titles[id := t];
      nextTitle := nextTitle + 1;
    }

    method ReplaceTitle(id: nat, t: Title)
      requires Valid() && id in titles && TitleRefsOk(t, categories.Keys, genres.Keys)
      modifies this`titles
      ensures Valid()
      ensures titles == old(titles)[id := t]
    {
      titles := titles[id := t];
      assert titles.Keys == old(titles).Keys;
    }

    method AddReview(title: nat, author: nat, text: string, score: int) returns (id: nat)
      requires Valid() && title in titles && IsScore(score) && |text| <= ReviewTextMax
      requires !HasReviewBy(reviews, title, author)
      modifies this`reviews, this`nextReview, this`clock
      ensures Valid()
      ensures id == old(nextReview) && id !in old(reviews)
      ensures reviews == old(reviews)[id := Review(title, author, text, score, old(clock))]
      ensures nextReview == id + 1 && clock == old(clock) + 1
    {
      id := nextReview;
      reviews := reviews[id := Review(title, author, text, score, clock)];
      nextReview := nextReview + 1;
      clock := clock + 1;
    }

    /** Saves new text and score into an existing review; title, author and date stay. */
    method ReplaceReview(id: nat, text: string, score: int)
      requires Valid() && id in reviews && IsScore(score) && |text| <= ReviewTextMax
      modifies this`reviews
      ensures Valid()
      ensures reviews == old(reviews)[id := old(reviews)[id].(text := text, score := score)]
    {
      reviews := reviews[id := reviews[id].(text := text, score := score)];
      assert reviews.Keys == old(reviews).Keys;
    }

    method AddComment(review: nat, author: nat, text: string) returns (id: nat)
      requires Valid() && review in reviews && |text| <= CommentTextMax
      modifies this`comments, this`nextComment, this`clock
      ensures Valid()
      ensures id == old(nextComment) && id !in old(comments)
      ensures comments == old(comments)[id := Comment(review, author, text, old(clock))]
      ensures nextComment == id + 1 && clock == old(clock) + 1
    {
      id := nextComment;
      comments := comments[id := Comment(review, author, text, clock)];
      nextComment := nextComment + 1;
      clock := clock + 1;
    }

    method ReplaceComment(id: nat, text: string)
      requires Valid() && id in comments && |text| <= CommentTextMax
      modifies this`comments
      ensures Valid()
      ensures comments == old(comments)[id := old(comments)[id].(text := text)]
    {
      comments := comments[id := comments[id].(text := text)];
    }

    // ---- Deletions with their on_delete rules ----

    /** SET_NULL: the category goes, the titles stay with a null category. */
    method DeleteCategory(slug: string)
      requires Valid()
      modifies this`categories, this`titles
      ensures Valid()
      ensures categories == old(categories) - {slug}
      ensures titles == map t | t in old(titles) :: Uncategorize(old(titles)[t], slug)
      ensures forall t | t in titles :: titles[t].category != Some(slug)
    {
      categories := categories - {slug};
      titles := map t | t in titles :: Uncategorize(titles[t], slug);
      assert titles.Keys == old(titles).Keys;
    }

    /** Deleting a genre removes it from every title; the titles stay. */
    method DeleteGenre(slug: string)
      requires Valid()
      modifies this`genres, this`titles
      ensures Valid()
      ensures genres == old(genres) - {slug}
      ensures titles == map t | t in old(titles) :: old(titles)[t].(genres := old(titles)[t].genres - {slug})
    {
      genres := genres - {slug};
      titles := map t | t in titles :: titles[t].(genres := titles[t].genres - {slug});
      assert titles.Keys == old(titles).Keys;
    }

    /** CASCADE: the title's reviews go, and with them their comments. */
    method DeleteTitle(id: nat)
      requires Valid()
      modifies this`titles, this`reviews, this`comments
      ensures Valid()
      ensures titles == old(titles) - {id}
      ensures reviews == ReviewsKept(old(reviews), Some(id), None)
      ensures comments == CommentsKept(old(comments), reviews.Keys, None)
      ensures forall r | r in reviews :: reviews[r].title != id
    {
      DeleteTitleOk(categories, genres, titles, reviews, comments, nextTitle, nextReview, nextComment, clock, id);
      var rs := ReviewsKept(reviews, Some(id), None);
      titles, reviews, comments := titles - {id}, rs, CommentsKept(comments, rs.Keys, None);
    }

    /** CASCADE: the review's comments go with it. */
    method DeleteReview(id: nat)
      requires Valid()
      modifies this`reviews, this`comments
      ensures Valid()
      ensures reviews == old(reviews) - {id}
      ensures comments == CommentsKept(old(comments), reviews.Keys, None)
    {
      DeleteReviewOk(categories, genres, titles, reviews, comments, nextTitle, nextReview, nextComment, clock, id);
      reviews, comments := reviews - {id}, CommentsKept(comments, (reviews - {id}).Keys, None);
    }

    method DeleteComment(id: nat)
      requires Valid()
      modifies this`comments
      ensures Valid()
      ensures comments == old(comments) - {id}
    {
      comments := comments - {id};
    }

    /** CASCADE from a deleted user: their reviews (with every comment on them) and their comments go. */
    method DeleteAuthor(author: nat)
      requires Valid()
      modifies this`reviews, this`comments
      ensures Valid()
      ensures reviews == ReviewsKept(old(reviews), None, Some(author))
      ensures comments == CommentsKept(old(comments), reviews.Keys, Some(author))
      ensures forall r | r in reviews :: reviews[r].author != author
      ensures forall c | c in comments :: comments[c].author != author
    {
      DeleteAuthorOk(categories, genres, titles, reviews, comments, nextTitle, nextReview, nextComment, clock, author);
      var rs := ReviewsKept(reviews, None, Some(author));
      reviews, comments := rs, CommentsKept(comments, rs.Keys, Some(author));
    }
  }
}
