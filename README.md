# YaMDb core in Dafny

A model of the rules underneath the YaMDb review service: a user table with
e-mail sign-up and confirmation-code exchange, the two access policies of the
API, the release-year check, and the catalog store of categories, genres,
titles, reviews and comments with its delete rules, computed rating and the
request handlers of the review and comment endpoints.

Files and modules, one per source file or pair of files:

- `wrappers.dfy` (`Wrappers`): `Option` and `Result`.
- `users_models.dfy` (`UserModels`): `CustomUser`: the role choices, field
  defaults, `is_admin` / `is_moderator`, and the unique username, e-mail and id.
- `permissions.dfy` (`Permissions`): `IsAuthorOrAdminOrModerator` (reviews,
  comments) and `AdminOnlyOrRead` (categories, genres, titles). These are pure
  predicates over the method, the requester and the object's author.
- `validators.dfy` (`Validators`): `year_validator`, with the current year as a
  parameter.
- `reviews_models.dfy` (`Reviews`): the catalog tables as a `Catalog` class
  whose fields are maps. Its invariant `Valid()` holds the score range, the
  one-review-per-(title, author) constraint, the slug keys, and the foreign keys
  from a title to its category and genres, from a review to its title and from
  a comment to its review.
  Its delete methods implement CASCADE and SET_NULL. The newest-first listing is
  proved ordered by publication date.
- `accounts.dfy` (`Accounts`): sign-up, token exchange, `/users/me`, admin user
  creation and user deletion over a `Registry` class. It holds the user map and
  an outbox of sent mails.
- `api_serializers.dfy` (`ApiSerializers`): the rating, the read and write
  forms of a title, the review and comment field checks, and
  `ReviewSerializer.validate`.
- `api_views.dfy` (`ApiViews`): the handlers of the category, genre, title,
  review and comment endpoints, as methods over a `Catalog`.

Modelling choices:

- Outside effects become parameters. The random confirmation code is a
  parameter that no stored record holds. The mail server's success is a
  boolean, and every sent mail is appended to `outbox`. The current year is a
  parameter. Publication timestamps come from a logical clock that each
  review or comment insertion advances.
- Users are filed by username, but reviews and comments refer to the author's
  numeric id, as the database does. Renaming oneself therefore keeps one's
  authorship. A requester is `Anonymous` or `Authenticated(user)`. "The
  requester is the author" means the ids are equal.
- The rating is an exact rational (`real`), the sum of scores over their count.
- A refused permission is reported as 401 without a login and 403 with one.
  The handlers check in the framework's order: view-level permission, then
  object lookup, then object-level permission, then field checks and
  `validate`, then save.

Behaviour of the source worth knowing:

- Sign-up refuses `me` only when no user `me` exists
  (users/serializers.py:52-54).
- A repeated sign-up mails the stored code again, and the code never rotates
  (users/serializers.py:78-88).
- `PATCH /users/me` does not check the reserved name. A username or e-mail
  taken by another user hits the table's unique constraint. The source then
  fails with a database error. The model reports it as `UsernameTaken` /
  `EmailTaken` and changes nothing.

## Model

| member | source | states |
|---|---|---|
| `UserModels.ParseRole` | api_yamdb/users/models.py:6-13 | a role string is accepted only if it is the stored name of one of the three roles, and is read back as that role |
| `UserModels.ParseRoleName` | api_yamdb/users/models.py:9-13 | every role's stored name is accepted as that same role |
| `UserModels.AdminIsNotModerator` | api_yamdb/users/models.py:30-36 | `is_admin` and `is_moderator` are never both true |
| `UserModels.NewUser` | api_yamdb/users/models.py:14-22 | a new record has the given id, username and e-mail and is not a superuser; each absent field takes its default: role `user`, code `12233`, names `first name` / `last name`, bio `bio` |
| `UserModels.InsertKeepsUsersOk` | api_yamdb/users/models.py:14 | adding a record with a new username, the next id and an unused e-mail keeps usernames, ids and e-mails unique |
| `UserModels.IsAdmin` | api_yamdb/users/models.py:30-32 | `is_admin` holds iff the stored role string is `admin` |
| `UserModels.IsModerator` | api_yamdb/users/models.py:34-36 | `is_moderator` holds iff the stored role string is `moderator` |
| `Permissions.ContentAllows` | api_yamdb/api/permissions.py:7-10 | a logged-in user passes every method at view level; an anonymous one passes exactly the safe methods |
| `Permissions.CatalogAllows` | api_yamdb/api/permissions.py:25-32 | safe methods pass; a write passes only for a logged-in admin or a superuser; the catalog policy never allows what the content policy refuses |
| `Permissions.ContentAllowsObject` | api_yamdb/api/permissions.py:12-19 | passing the object-level content check implies passing the view-level one |
| `Permissions.CatalogAllowsObject` | api_yamdb/api/permissions.py:34-41 | the catalog policy's object-level decision equals its view-level decision for every request |
| `Permissions.SafeAlwaysAllowed` | api_yamdb/api/permissions.py:7-41 | GET, HEAD and OPTIONS are allowed to everyone, anonymous included, by both policies at both levels |
| `Permissions.AnonymousCannotWrite` | api_yamdb/api/permissions.py:7-41 | both policies refuse every unsafe request from an anonymous requester |
| `Permissions.ContentWriteNeedsLogin` | api_yamdb/api/permissions.py:7-10 | at view level, an unsafe request passes the content policy iff the requester is authenticated |
| `Permissions.ContentObjectWrite` | api_yamdb/api/permissions.py:12-19 | at object level, an unsafe request passes iff the requester is authenticated and is admin, moderator or the object's author |
| `Permissions.SuperuserIsNotContentOwner` | api_yamdb/api/permissions.py:15-19 | a superuser with role `user` cannot change another user's review or comment |
| `Permissions.CatalogWrite` | api_yamdb/api/permissions.py:28-32 | an unsafe request passes the catalog policy iff the requester is authenticated and admin, or is a superuser |
| `Permissions.ModeratorCannotEditCatalog` | api_yamdb/api/permissions.py:28-41 | a moderator who is neither admin nor superuser is refused every catalog write, at both levels |
| `Validators.YearValidator` | api_yamdb/reviews/validators.py:7-14 | a rejection carries the very value checked; the check never changes a value |
| `Validators.AcceptedRange` | api_yamdb/reviews/validators.py:10 | a year is accepted iff 1 <= year <= current year |
| `Validators.NonPositiveRejected` | api_yamdb/reviews/validators.py:10-14 | year 0 and every negative year are rejected |
| `Validators.CurrentYearBoundary` | api_yamdb/reviews/validators.py:8-14 | the current year is accepted, although the docstring says "less than"; the next year is rejected |
| `Validators.AcceptanceIsKept` | api_yamdb/reviews/validators.py:10 | a year accepted in some year is accepted in every later one |
| `Reviews.NewestFirst` | api_yamdb/reviews/models.py:132 | a listing holds exactly the rows of the parent below the bound, each once, in strictly decreasing id order |
| `Reviews.ReviewsNewestFirst` | api_yamdb/reviews/models.py:132 | a title's reviews are listed with strictly decreasing publication dates |
| `Reviews.CommentsNewestFirst` | api_yamdb/reviews/models.py:165 | a review's comments are listed with strictly decreasing publication dates |
| `Reviews.Uncategorize` | api_yamdb/reviews/models.py:64-70 | after SET_NULL a title that had the deleted category has a null category, nothing but its category changes, and a title in another category is untouched |
| `Reviews.Catalog.AddCategory` | api_yamdb/reviews/models.py:7-18 | a category is stored under its own slug, which was free; the invariant is kept |
| `Reviews.Catalog.AddGenre` | api_yamdb/reviews/models.py:29-37 | a genre is stored under its own slug, which was free; the invariant is kept |
| `Reviews.Catalog.AddTitle` | api_yamdb/reviews/models.py:48-75 | a title whose category and genres exist gets a fresh id; nothing else changes |
| `Reviews.Catalog.ReplaceTitle` | api_yamdb/reviews/models.py:48-75 | an existing title is overwritten in place; its reviews keep pointing to it |
| `Reviews.Catalog.AddReview` | api_yamdb/reviews/models.py:86-131 | a review with a score in 1..10, on an existing title, by an author without a review of it, gets a fresh id and the current date; the unique and date-order constraints are kept |
| `Reviews.Catalog.ReplaceReview` | api_yamdb/reviews/models.py:109-123 | only text and score of an existing review change; its title, author and date stay |
| `Reviews.Catalog.AddComment` | api_yamdb/reviews/models.py:140-162 | a comment on an existing review gets a fresh id and the current date |
| `Reviews.Catalog.ReplaceComment` | api_yamdb/reviews/models.py:153 | only the text of an existing comment changes |
| `Reviews.Catalog.DeleteCategory` | api_yamdb/reviews/models.py:64-70 | the category goes; every title stays, and those that had it get a null category |
| `Reviews.Catalog.DeleteGenre` | api_yamdb/reviews/models.py:71-75 | the genre goes; every title stays and loses only that genre |
| `Reviews.Catalog.DeleteTitle` | api_yamdb/reviews/models.py:103-108 | the title goes, with exactly its reviews and the comments on them; the invariant is kept |
| `Reviews.Catalog.DeleteReview` | api_yamdb/reviews/models.py:147-152 | the review goes, with exactly its comments |
| `Reviews.Catalog.DeleteComment` | api_yamdb/reviews/models.py:140-170 | only that comment goes |
| `Reviews.Catalog.DeleteAuthor` | api_yamdb/reviews/models.py:110-115 | every review and comment by that user goes, and so do all comments on those reviews; no row by that user remains |
| `Reviews.ReviewsKeptOk` | api_yamdb/reviews/models.py:103-115 | after a cascade from a title or a user, no remaining review points at it, and the score, uniqueness and date-order constraints still hold |
| `Reviews.CommentsKeptOk` | api_yamdb/reviews/models.py:147-159 | keeping only the comments on remaining reviews, minus a deleted user's, leaves no dangling or orphaned comment |
| `Reviews.DeleteTitleOk` | api_yamdb/reviews/models.py:103-108 | deleting a title together with its reviews and their comments keeps every table constraint |
| `Reviews.DeleteReviewOk` | api_yamdb/reviews/models.py:147-152 | deleting a review together with its comments keeps every table constraint |
| `Reviews.DeleteAuthorOk` | api_yamdb/reviews/models.py:110-115 | deleting a user's reviews, the comments on them and the user's own comments keeps every table constraint |
| `Accounts.Patched` | api_yamdb/users/serializers.py:30-38 | a profile edit keeps id, role, superuser flag and confirmation code; each of username, e-mail, first name, last name and bio takes the sent value and otherwise keeps the stored one |
| `Accounts.RefileKeepsUsersOk` | api_yamdb/users/models.py:14 | moving a record to a new username that is free, with the same id and an e-mail nobody else holds, keeps the table's uniqueness |
| `Accounts.Registry.ExchangeToken` | api_yamdb/users/views.py:68-91 | an unknown username gives not-found; a known one with another code gives bad-request; the stored code gives a token for exactly that user; nothing is modified |
| `Accounts.Registry.Signup` | api_yamdb/users/serializers.py:49-92 | the five outcomes (reserved `me`, e-mail taken, new user plus one mail, stored code re-mailed, username taken), mail failure changing nothing, at most one new record, and that the mailed code then opens the account |
| `Accounts.Registry.CreateUser` | api_yamdb/users/serializers.py:23-27 | an admin's request succeeds iff username and e-mail are unused, the role is a choice and the name is not `me`; a taken username, then a taken e-mail, then an unknown role is the error reported, in the serializer's field order (users/serializers.py:15-16); the record gets the given fields, defaults for the rest and the freshly generated code (users/views.py:37-39) |
| `Accounts.Registry.Myself` | api_yamdb/users/views.py:45-50 | `GET /users/me` needs a login and returns exactly the stored record filed under the requester's own username, or not-found when there is none |
| `Accounts.Registry.UpdateMyself` | api_yamdb/users/views.py:45-54 | `PATCH /users/me` rewrites only the requester's record and never its role or code; it succeeds iff the new username and e-mail are free |
| `Accounts.DestroyUser` | api_yamdb/reviews/models.py:110-115 | deleting a user removes the record and, by cascade, every review and comment they wrote |
| `ApiSerializers.ScoreSumBounds` | api_yamdb/reviews/models.py:91-102 | the scores of n reviews sum to between n and 10n |
| `ApiSerializers.Rating` | api_yamdb/api/serializers.py:29-33 | the rating is null iff the title has no review; otherwise rating times count equals the sum of the title's scores |
| `ApiSerializers.RatingInRange` | api_yamdb/api/serializers.py:29-33 | the rating, when present, lies between 1 and 10 |
| `ApiSerializers.RatingExample` | api_yamdb/api/serializers.py:29-33 | reviews scored 6 and 8 give a rating of exactly 7 |
| `ApiSerializers.TitleRepresentation` | api_yamdb/api/serializers.py:22-43 | the read form carries the title's fields, its nested category and genres, and the computed rating |
| `ApiSerializers.ResolveTitle` | api_yamdb/api/serializers.py:46-58 | the write form is accepted iff the year passes the validator and every genre slug and the category slug exist; it yields a title with exactly those references and no rating; an omitted description is not written (null on create, the stored one on update), a sent one, null included, is |
| `ApiSerializers.Denial` | api_yamdb/api/permissions.py:7-10 | a refused request is reported as not-authenticated (401) iff the requester is anonymous, otherwise as permission denied (403) |
| `ApiSerializers.ReviewFieldsOk` | api_yamdb/api/serializers.py:61-67 | a full (PUT or POST) body must carry both text and score; a partial (PATCH) body may omit either |
| `ApiSerializers.CommentFieldsOk` | api_yamdb/api/serializers.py:81-87 | a full body must carry the text; a partial body may omit it |
| `ApiSerializers.FullBodyPassesPartial` | api_yamdb/api/serializers.py:61-87 | a body accepted for a full update is accepted for a partial one |
| `ApiSerializers.ReviewUpdateFits` | api_yamdb/reviews/models.py:109-119 | an accepted review body laid over a stored review gives a score in 1..10 and a text within 10000 characters; a full body replaces both fields |
| `ApiSerializers.CommentUpdateFits` | api_yamdb/reviews/models.py:153 | an accepted comment body laid over a stored comment gives a text within 1000 characters; a full body replaces it |
| `ApiSerializers.ValidateReview` | api_yamdb/api/serializers.py:69-78 | a missing title gives not-found; a POST by a user who already reviewed the title is refused; every other method skips that check |
| `ApiViews.CreateCategory` | api_yamdb/api/views.py:22-29 | only an admin or superuser may create; a taken slug is refused; otherwise exactly that category is added |
| `ApiViews.DestroyCategory` | api_yamdb/api/views.py:22-29 | permission first, then not-found for an unknown slug; otherwise the category goes and its titles stay with a null category |
| `ApiViews.CreateGenre` | api_yamdb/api/views.py:32-39 | as for categories, on the genre table |
| `ApiViews.DestroyGenre` | api_yamdb/api/views.py:32-39 | as for categories; titles lose the genre and stay |
| `ApiViews.RetrieveTitle` | api_yamdb/api/views.py:42-53 | an existing title is read as exactly its read form: its stored fields, its resolved category and genres, and the rating of its reviews; an unknown id gives not-found |
| `ApiViews.CreateTitle` | api_yamdb/api/views.py:42-53 | only an admin or superuser may create; the resolved write form is stored under the next id, which advances by one, or its field error is returned and nothing changes |
| `ApiViews.UpdateTitle` | api_yamdb/api/views.py:42-53 | permission, then not-found, then field checks; on success exactly that title is rewritten from the body, keeping its description when the body omits it |
| `ApiViews.DestroyTitle` | api_yamdb/api/views.py:42-53 | permission, then not-found; on success the title, its reviews and their comments go |
| `ApiViews.ListReviews` | api_yamdb/api/views.py:62-65 | not-found iff the title is missing; otherwise exactly the title's reviews, newest first |
| `ApiViews.ReviewInTitle` | api_yamdb/api/views.py:62-65 | a review is found only among the reviews of the URL's existing title |
| `ApiViews.CreateReview` | api_yamdb/api/views.py:67-70 | needs a login and valid fields; then succeeds iff the validation passes; the new review has the URL's title and the requester as author, whatever the client sends |
| `ApiViews.UpdateReview` | api_yamdb/api/views.py:72-78 | succeeds iff the requester may write the object, the review belongs to the title and the fields are valid; the stored author, title and date are kept |
| `ApiViews.DestroyReview` | api_yamdb/api/views.py:56-65 | succeeds iff the requester may delete the object and the review belongs to the title; its comments go with it |
| `ApiViews.ListComments` | api_yamdb/api/views.py:87-90 | not-found iff the review is missing; otherwise exactly its comments, newest first; the URL's title plays no part |
| `ApiViews.CommentInReview` | api_yamdb/api/views.py:87-90 | a comment is found only among the comments of the URL's existing review, looked up by id alone |
| `ApiViews.CreateComment` | api_yamdb/api/views.py:92-95 | needs a login, valid text and an existing review; the comment gets that review and the requester as author; the title id is never checked |
| `ApiViews.UpdateComment` | api_yamdb/api/views.py:97-103 | succeeds iff the requester may write the object, it belongs to the review and the text is valid; the stored author is kept |
| `ApiViews.DestroyComment` | api_yamdb/api/views.py:81-90 | succeeds iff the requester may delete the object and it belongs to the review; only that comment goes |

## Left out

- Mail delivery: sending is an append to `outbox`, and failure is the `mailDelivers` parameter.
- Randomness of the confirmation code: the code is a parameter that no stored record holds.
- Token signing: the token is an opaque value naming the user. Its expiry and verification are not modelled.
- The wall clock: the current year is a parameter, and publication dates come from a logical clock.
- Floating-point averaging: the rating is an exact rational.
- Routing, pagination, search and filtering: `FilterTitle` is not part of this model, and neither are the name search of categories and genres, the username search of users or the admin `AdminOnly` permission.
- Listing categories, genres, titles and users: these are the framework's list operations. Categories, genres and titles are ordered by name and users by descending id; titles are filtered by `FilterTitle` and the others by search. The model has no sort for them. For the same reason the genres nested in a title's read form are a set in `ApiSerializers.TitleView`, where the source lists them ordered by name.
- The `author` foreign keys of reviews and comments: the catalog holds no user table, so `Valid()` does not say that an author id belongs to a stored user, and the create handlers accept the requester's id as given. The user-side cascade is modelled by `Accounts.DestroyUser`.
- Accounts.Registry.Signup: the HTTP response on the new-user path is not modelled. There `SignupSerializer.create` returns nothing (users/serializers.py:72), and the framework's `save()` rejects an empty result from `create()` with a server error, after the mail is sent and the record is written. The model reports `Success(None)` for that path; its state change is the source's.
- The rest of the admin user endpoints (list, retrieve, update by username) under `AdminOnly`, which is not part of this model. Only admin creation and deletion are modelled, without their permission check.
- Partial update (PATCH) of a title: only PUT is modelled. PUT requires every field but the description, and an omitted description keeps the stored one.
- Field-format checks: the username pattern, e-mail syntax, slug pattern, name and description lengths, and whitespace trimming. Only the role choices, the score choices, the review and comment text limits (non-blank, at most 10000 or 1000 characters) and the year check are modelled.
- Several field errors at once: the source reports every failing field. The model reports one of them: the first in the serializer's field order (for a new user: username, e-mail, role), and the `me` username only once the fields pass.
- Races between a uniqueness check and the insert: these are the database's concern.
- The HTTP response bodies.
