# DevCamper API core, modelled in Dafny

The DevCamper API is an Express and Mongoose back end. It stores bootcamps,
the courses they offer, the reviews users write about them, and the users
themselves. This project models its core in Dafny:

- **The list pipeline.** The `advancedResults` middleware and its inline copy
  in `getBootcamps` take the query string apart:
  - they drop the four reserved keys (`select`, `sort`, `page`, `limit`);
  - they turn `gt|gte|lt|lte|in` words of the `JSON.stringify` text into Mongo
    operators with `\b…\b` and `$`, then `JSON.parse` the text again;
  - they read `select`/`sort` by `split(',').join(' ')`;
  - they read `page`/`limit` with `parseInt(…, 10) || default`;
  - they build the `next`/`prev` descriptor against an unfiltered
    `countDocuments()`.
  `count` is the length of everything the query finds. The page and limit
  only shape the descriptor: no `skip` or `limit` is ever applied to the query.
- **The handlers.** These are the bootcamps, courses and reviews controllers,
  the `register`/`login` handlers, and the `protect`/`authorize` middleware.
  The model keeps each handler's branches and failure messages. It keeps the
  status codes (200, 201, 400, 401, 403, 404). It also keeps the runtime
  faults a branch reaches by dereferencing `null` or `undefined`.
- **The schemas and their hooks.**
  - **Course:** `trim`, `required`, an `enum` skill, and the post-save and
    pre-`findOneAndDelete` hooks. Those hooks store
    `Math.ceil(avg / 10) * 10` of the bootcamp's tuitions.
  - **Review:** `maxlength: 100`, a 1 to 10 rating, the unique
    `{bootcamp, user}` index, and the average rating hooks.
  - **User:** the e-mail pattern, the `user`/`publisher` role enum, a password
    with `minlength: 6`, the unique e-mail index, a pre-save rehash only when
    the password was modified, and the reset token.

The store is a class `Store.Db`. Its tables are `seq` fields, and one invariant
`Valid()` covers all of them:

- ids are below `nextId` and distinct;
- every stored record passes its schema;
- both unique indexes hold.

A bootcamp's `averageCost` and `averageRating` are whatever was last written.
The hooks write a multiple of ten and a rating within 1 to 10
(`Store.HookCostInRange`, `Store.HookRatingInRange`). A create or update
request body may also send either path, and it is stored as sent.

Every state-changing handler and hook is a method on it, or over it. Each one
states the whole new state: the table it changes, as a function of the old
tables, and the tables it leaves alone.

Several quantities are parameters:

- what the database returns for a query plan (`find`);
- bcrypt (`hash`, `matches`);
- JWT (`sign`, `verify`);
- the SHA-256 digest;
- the random bytes;
- the clock (`now`).

A page past the last one would be empty only if `skip` and `limit` were
applied to the query. The code never applies them, and the model follows the code:
`Paging.BuildPagination` only builds the descriptor. `ListQuery.PagingDoesNotNarrow`
proves that two queries differing only in `page`/`limit` receive the same
data.

## Model

| member | source | states |
|---|---|---|
| ListQuery.Without | middleware/advancedResults.js:5-11 | a member stays in the copy iff its key is not removed; the copy is no longer than the query |
| ListQuery.DeleteEach | middleware/advancedResults.js:11 | the `forEach(delete …)` loop leaves exactly the query without any of the listed keys |
| ListQuery.RemoveReserved | middleware/advancedResults.js:5-11 | removing `select`, `sort`, `page`, `limit` returns the query without those four keys |
| ListQuery.WithoutKeySet | middleware/advancedResults.js:11 | the keys left are the original keys minus the removed ones |
| ListQuery.WithoutWithout | middleware/advancedResults.js:11 | deleting one set of keys and then another is deleting their union |
| ListQuery.GetWithout | middleware/advancedResults.js:11 | a removed key reads as absent; every other key reads as before |
| ListQuery.FilterKeys | middleware/advancedResults.js:8-11 | the filter's keys are the query's keys minus the four reserved ones |
| ListQuery.FilterRewritesKeysAndValues | middleware/advancedResults.js:14-20 | stringify, rewrite and parse yield the copy with every key and string value rewritten, member for member |
| ListQuery.Projection | middleware/advancedResults.js:23-27 | a falsy `select` gives no projection; a string gives its commas as spaces; a truthy non-string faults |
| ListQuery.SortOrder | middleware/advancedResults.js:30-36 | a falsy `sort` gives `-createdAt`; a string gives its commas as spaces; a truthy non-string faults |
| ListQuery.CommasToSpaces | middleware/advancedResults.js:24 | `split(',').join(' ')` replaces each comma with a space and changes nothing else |
| ListQuery.PlanFor | middleware/advancedResults.js:14-47 | the plan holds the rewritten filter, the projection, the sort and the populate option; it fails iff one of those steps fails |
| ListQuery.ListResult | middleware/advancedResults.js:43-72 | success with everything found, `count` equal to its length, and a descriptor for page and limit against the total |
| ListQuery.AdvancedResults | middleware/advancedResults.js:1-75 | the middleware's result equals the listing for the query, the populate option and the collection's size |
| ListQuery.PagingDoesNotNarrow | middleware/advancedResults.js:39-50 | queries that differ only in `page`/`limit` give the same plan and the same data |
| ListQuery.TotalIgnoresFilter | middleware/advancedResults.js:43 | the descriptor is computed against the whole collection's size, whatever the filter |
| ListQuery.LimitOnlyPlan | middleware/advancedResults.js:8-36 | `?limit=1` gives an empty filter, no projection and the default sort |
| ListQuery.CountExceedsLimit | middleware/advancedResults.js:67-72 | with `?limit=1` and two matching records, `count` is 2 |
| Operators.FirstMatchMeans | middleware/advancedResults.js:17 | the alternation picks the first of gt, gte, lt, lte, in that matches at the position between word boundaries, or none when none does |
| Operators.MatchIffOperatorRun | middleware/advancedResults.js:17 | at a position with a word boundary before it, the regex matches iff the word run there is exactly an operator word, and it matches the whole run |
| Operators.NoMatchAfterWordChar | middleware/advancedResults.js:17 | no match starts right after a word character |
| Operators.ReplaceIsByWords | middleware/advancedResults.js:17 | the global replace equals rewriting the text run by run: `$` before each operator word, everything else copied |
| Operators.ReplaceLength | middleware/advancedResults.js:17 | the output is longer than the input by the number of matches |
| Operators.DropInsertedRestores | middleware/advancedResults.js:17 | removing the `$` inserted before operator words gives back the input |
| Operators.WholeWordRewrite | middleware/advancedResults.js:17 | a lone word run gains a `$` in front iff it is one of gt, gte, lt, lte, in |
| Operators.OperatorWordMarked | middleware/advancedResults.js:17 | an operator word on its own becomes `$` followed by the word |
| Operators.PlainWordKept | middleware/advancedResults.js:17 | a word run that is not an operator word is copied unchanged |
| Operators.LongerWordsUntouched | middleware/advancedResults.js:17 | "begin", "gtx", "lter" and "ingredient" are left alone |
| Operators.DollarWordRewrite | middleware/advancedResults.js:17 | `$` and an operator word become `$$` and the word, because `$` is not a word character |
| Operators.NotIdempotent | middleware/advancedResults.js:17 | rewriting twice differs from rewriting once |
| Operators.StringifyRewrite | middleware/advancedResults.js:14-17 | without control characters, replacing in the stringified text equals stringifying the value with its keys and strings rewritten |
| Operators.ParseRewritten | middleware/advancedResults.js:14-20 | parsing the rewritten text gives the value with its keys and strings rewritten |
| Json.Get | middleware/advancedResults.js:23 | `req.query[k]` is None iff no member has the key; otherwise it is the value of a member with that key |
| Json.ParseStringify | middleware/advancedResults.js:14-20 | `JSON.parse(JSON.stringify(v))` gives `v` back |
| Json.ValueRoundTrip | middleware/advancedResults.js:14-20 | parsing a stringified value consumes exactly its text and leaves the rest of the input |
| Json.EscapeRoundTrip | middleware/advancedResults.js:14-20 | parsing an escaped string and its closing quote gives back the string and the rest of the input |
| Json.HexRoundTrip | middleware/advancedResults.js:14 | each hex digit maps back to its value |
| JsString.SplitJoinIsReplace | middleware/advancedResults.js:24 | `split(c).join(d)` equals replacing every `c` with `d` |
| JsString.SplitJoinRoundTrip | middleware/advancedResults.js:24 | joining the pieces of a split with the separator gives back the string |
| JsString.Split | middleware/advancedResults.js:24 | there is at least one piece, and no piece contains the separator |
| Paging.NumberOr | middleware/advancedResults.js:39-40 | `parseInt(v, 10) \|\| d` is `d` iff parsing gives NaN or 0, and otherwise the parsed integer |
| Paging.ParseDecimal | middleware/advancedResults.js:39-40 | a run of digits followed by anything parses to its decimal value |
| Paging.ParseNegativeDecimal | middleware/advancedResults.js:39-40 | a '-' before the digits negates the value |
| Paging.ParseSkipsWhite | middleware/advancedResults.js:39-40 | leading white space is skipped |
| Paging.ParseNaN | middleware/advancedResults.js:39-40 | text whose first character is not white space, a sign or a digit is NaN |
| Paging.Defaults | middleware/advancedResults.js:39-40 | a missing value, an object, or "0" gives page 1 and limit 25 |
| Paging.PageAsWritten | middleware/advancedResults.js:39 | a positive decimal followed by a non-digit ("3abc", "3.9") reads as that page |
| Paging.NegativeKept | middleware/advancedResults.js:39-40 | a negative page or limit is kept as written, not replaced by the default |
| Paging.WindowsAdjacent | middleware/advancedResults.js:41-42 | the start index of page p+1 is the end index of page p, and the two differ by the limit |
| Paging.BuildPagination | middleware/advancedResults.js:53-65 | the descriptor built has `next` iff end < total and `prev` iff start > 0, with page±1 and the limit |
| Paging.Descriptor | middleware/advancedResults.js:53-65 | the descriptor has `next` iff end < total and `prev` iff start > 0, with page±1 and the limit |
| Paging.DescriptorUnique | middleware/advancedResults.js:53-65 | any descriptor meeting that description is this one, so the method and the function agree |
| Paging.NextIffItemsRemain | middleware/advancedResults.js:54-59 | for a positive limit, `next` appears iff page × limit is below the total |
| Paging.PrevIffPastFirst | middleware/advancedResults.js:60-65 | for a positive page and limit, `prev` appears iff the page is 2 or more |
| Paging.NoNeighboursWhenEmpty | middleware/advancedResults.js:53-65 | page 1 of an empty collection has neither neighbour; page 0 of five items has `next` and no `prev` |
| Paging.ThirtyByTen | middleware/advancedResults.js:53-65 | 30 items, 10 per page: page 2 links to 1 and 3; page 3 links only back |
| BootcampsController.GetBootcamps | controllers/bootcamps.js:9-74 | the reply is 200 with the pipeline's listing (courses populated, counted over all bootcamps), or the pipeline's fault |
| BootcampsController.GetBootcampsCount | controllers/bootcamps.js:29-64 | when the plan succeeds, the data is what the plan finds, `count` is its length, `courses` is populated and the filter is the middleware's filter for the same query |
| BootcampsController.GetBootcamp | controllers/bootcamps.js:79-87 | 404 "Bootcamp not found with id of …" iff no bootcamp has the id; otherwise 200 with that bootcamp |
| BootcampsController.CreateBootcamp | controllers/bootcamps.js:92-97 | the body is stored, as sent and aggregates included, as a new bootcamp with the next id after all the others; 201 with it |
| BootcampsController.NoOnePerOwnerRule | controllers/bootcamps.js:92-97 | creating two bootcamps with the same owner gives 201 twice and stores two records with that owner and distinct ids |
| BootcampsController.UpdateBootcamp | controllers/bootcamps.js:102-113 | 404 iff the id is missing; otherwise the sent paths overwrite the stored ones, 200 returns the new record, and the table is the old one with only that position replaced by it |
| BootcampsController.DeleteBootcamp | controllers/bootcamps.js:118-127 | 404 iff the id is missing; otherwise the table is the old one with exactly that position removed, others in their order, and 200 with empty data |
| Store.ApplyBootcampUpdate | controllers/bootcamps.js:104-107 | sent paths replace stored ones, unsent ones stay, the id is kept, and a sent aggregate replaces the stored one |
| CoursesController.StoredCallerNeedsOwnership | controllers/courses.js:58 | no stored user is an admin, so for a caller from the store the test holds iff the caller owns the record |
| CoursesController.GetCourses | controllers/courses.js:10-24 | nested: 200 with exactly that bootcamp's courses, each with its multiplicity, and a matching count; otherwise the listing passed in, if any |
| CoursesController.GetCourse | controllers/courses.js:30-45 | 404 "No course with the id of …" iff the id is missing; otherwise 200 with the course, its `bootcamp` populated with that bootcamp's id, `name` and `description`, or `null` iff no bootcamp has the referenced id |
| Store.Selected | controllers/courses.js:32-35 | a populated bootcamp keeps its id and exactly those of its paths that `select` names, with their stored values |
| CoursesController.OrphanedCourse | controllers/bootcamps.js:118-127 | deleting a bootcamp answers 200 and leaves its courses, so reading one afterwards gives 200 with the same course and `bootcamp: null` |
| CoursesController.AddCourseBody | controllers/courses.js:52-53 | the body gets the route's bootcamp and the caller's id, and nothing else changes |
| CoursesController.AddCourseGate | controllers/courses.js:53-64 | passes iff the caller, the bootcamp and its owner exist and the caller owns it or is admin; no caller faults on `req.user.id` (the case as routed, with no `protect`); a missing bootcamp faults on `bootcamp.user`; a caller neither owner nor admin gets the 401 |
| CoursesController.AddCourseGateFixed | controllers/courses.js:53-64 | with the null check first: passes in the same cases; no caller faults on `req.user.id`; a missing bootcamp gets 404; a caller neither owner nor admin gets the 401 |
| CoursesController.AddCourseMissingBootcampFaults | controllers/courses.js:58-64 | for a missing bootcamp, the handler as written faults where the fixed one answers 404 |
| CoursesController.AddCourseGatesAgree | controllers/courses.js:55-64 | when the bootcamp exists or no caller is set, the two gates agree |
| CoursesController.AddCourse | controllers/courses.js:51-72 | the gate's failure, or the course validation's failure, or the course appended, 200 with it, and its bootcamp's average cost recomputed |
| CoursesController.AddCourseFixed | controllers/courses.js:51-72 | the same with the fixed gate |
| CoursesController.UpdateCourseGate | controllers/courses.js:79-88 | 404 when the course is missing, the `req.user.id` fault with no caller, 401 when the caller neither owns it nor is admin, otherwise passes |
| CoursesController.UpdateCourse | controllers/courses.js:78-99 | the gate's failure, or an update-validator failure, or the sent paths applied and 200 with the new course, the table being the old one with only that position replaced |
| CoursesController.DeleteCourseGate | controllers/courses.js:105-114 | passes iff the course and caller exist and the caller may act; a missing course faults on `course.user`; no caller faults on `req.user.id`; a caller neither owner nor admin gets the 401 |
| CoursesController.DeleteCourseGateFixed | controllers/courses.js:105-114 | with the null check first: passes in the same cases; a missing course gets 404; no caller faults on `req.user.id`; a caller neither owner nor admin gets the 401 |
| CoursesController.DeleteCourseMissingFaults | controllers/courses.js:108-114 | for a missing course the gate as written faults where the fixed one answers 404; otherwise they agree |
| CoursesController.DeleteOneMissesTarget | controllers/courses.js:116 | deleting the first course leaves a target that is not first in place and removes the first one |
| CoursesController.DeleteCourse | controllers/courses.js:104-122 | the gate's failure, or the first course of the table removed and 200 with empty data |
| CoursesController.DeleteCourseFixed | controllers/courses.js:104-122 | the gate's failure, or the table with exactly the target's position removed, the others in their order, and its bootcamp's average cost recomputed |
| ReviewsController.GetReviews | controllers/reviews.js:10-24 | nested: 200 with exactly that bootcamp's reviews and their count, without pagination; otherwise the listing passed in |
| ReviewsController.NestedIgnoresQuery | controllers/reviews.js:12-19 | the nested reply does not depend on the pipeline's result |
| ReviewsController.ListReviews | routes/reviews.js:10 | the route runs the pipeline with the bootcamp populate; a pipeline fault is an unhandled rejection (the middleware has no `asyncHandler`, server.js:97-101); otherwise `getReviews`' reply |
| ReviewsController.ListingPassesThrough | controllers/reviews.js:20-23 | without a bootcamp id, the pipeline's listing is sent unchanged, with its pagination |
| ReviewsController.ObjectSelectUnhandled | middleware/advancedResults.js:23-24 | `?select[a]=b` makes the reviews route end in an unhandled rejection |
| CourseModel.NewCourse | models/Course.js:3-44 | a course is stored iff no path fails (trimmed title, description, weeks, tuition, known skill, bootcamp, user); the stored course carries each sent value, with `scholarshipAvailable` defaulting to false; otherwise the failing paths |
| CourseModel.BlankTitleRejected | models/Course.js:4-8 | a missing or all-white title fails on `title` |
| CourseModel.UnknownSkillRejected | models/Course.js:21-25 | a skill outside the enum fails on `minimumSkill` |
| CourseModel.ApplyUpdate | controllers/courses.js:90-93 | with `runValidators`, only sent paths are checked; each sent value (title, description, weeks, tuition, skill, scholarship) replaces the stored one, unsent ones stay, and the id is kept |
| CourseModel.UpdateKeepsValid | models/Course.js:3-44 | an update that passes its validators keeps a valid course valid |
| CourseModel.RoundedAverage | models/Course.js:66 | `Math.ceil(avg / 10) * 10`: a multiple of ten, at least the mean, less than ten above it |
| CourseModel.RoundedAverageLeast | models/Course.js:66 | it is the least multiple of ten at or above the mean |
| CourseModel.RoundedAverageBracketsMean | models/Course.js:58-66 | as a real: mean ≤ stored cost < mean + 10 |
| CourseModel.AverageCostExample | models/Course.js:66 | tuitions 950 and 1050 give 1000; 1000 and 1001 give 1010 |
| CourseModel.TuitionsOf | models/Course.js:53 | the `$match` by bootcamp is empty iff no course belongs to the bootcamp |
| CourseModel.TuitionsOfOther | models/Course.js:53 | appending a course adds its tuition only to its own bootcamp's list |
| CourseModel.TuitionCounted | models/Course.js:53 | each course's tuition is in its bootcamp's list |
| CourseModel.AverageCost | models/Course.js:47-71 | no result iff the bootcamp has no course; otherwise a multiple of ten |
| CourseModel.AverageCostAfterSave | models/Course.js:74-76 | after a save, the cost covers the old tuitions plus the new one |
| Store.AfterAverageCost | models/Course.js:63-70 | only the bootcamp with that id changes, to the new cost; nothing changes when no course matches |
| Store.AfterAverageCostOk | models/Course.js:65-67 | the rewrite keeps the bootcamp table valid |
| Store.HookCostInRange | models/Course.js:65-67 | the cost the hook writes is the recomputed average, a multiple of ten |
| Store.StaleCostAfterLastDelete | models/Course.js:79-88 | the pre-delete hook averages before the removal, so deleting a bootcamp's only course leaves its old cost |
| ReviewModel.NewReview | models/Review.js:3-34 | a review is stored iff no path fails (trimmed title of at most 100 UTF-16 units, text, rating in 1–10, bootcamp, user) |
| ReviewModel.OnlyRatingChecked | models/Review.js:14-19 | with the other fields complete, the rating fails iff it lies outside 1–10 |
| ReviewModel.RatingBounds | models/Review.js:14-19 | 1, 7.5 and 10 pass; 0.5 and 10.5 fail on `rating` alone |
| ReviewModel.LongTitleRejected | models/Review.js:4-9 | a trimmed title of 101 characters fails on `title` |
| ReviewModel.Mean | models/Review.js:51 | `$avg`: the mean times the count is the sum |
| ReviewModel.MeanBetween | models/Review.js:51 | the mean lies within any bounds of its elements |
| ReviewModel.MeanExample | models/Review.js:51 | ratings 7 and 8 average 7.5 |
| ReviewModel.RatingsOf | models/Review.js:46 | the `$match` by bootcamp is empty iff no review belongs to the bootcamp |
| ReviewModel.RatingsOfFrom | models/Review.js:46 | each collected rating comes from a review of that bootcamp |
| ReviewModel.AverageRating | models/Review.js:40-64 | no result iff the bootcamp has no review |
| ReviewModel.AverageRatingInRange | models/Review.js:51-60 | over valid reviews the average stays within 1–10 |
| Store.AfterAverageRating | models/Review.js:56-63 | only the bootcamp with that id changes, to the new rating; nothing changes when no review matches |
| Store.AfterAverageRatingOk | models/Review.js:58-60 | the rewrite keeps the bootcamp table valid |
| Store.HookRatingInRange | models/Review.js:58-60 | over valid reviews, the rating the hook writes is the recomputed average and lies within 1–10 |
| Store.SingleRating | models/Review.js:51 | one review's rating becomes the bootcamp's average |
| Store.HasPair | models/Review.js:37 | true iff some review already has this bootcamp and user |
| Store.PairsAppend | models/Review.js:37 | appending a review whose pair is new keeps the index unique |
| UserModel.NewUser | models/User.js:6-40 | a user is stored iff name, e-mail pattern, role in {user, publisher} and a password of at least 6 pass; the role is the sent one, or "user" when none is sent |
| UserModel.AdminRejected | models/User.js:20-27 | the role "admin" (or "") fails on `role` |
| UserModel.ShortPasswordRejected | models/User.js:28-33 | a five-character password fails on `password` |
| Email.MatchesIffShape | models/User.js:16 | the regular expression accepts exactly the strings of the described shape |
| Email.JoinedIffShape | models/User.js:16 | the `\w+([.-]?\w+)*` part accepts exactly runs of word characters joined by single separators |
| Email.SuffixesShape | models/User.js:16 | what `(\.\w{2,3})+$` accepts starts with '.', has the joined shape and ends in '.' and two or three word characters |
| Email.OneAt | models/User.js:16 | an accepted address has exactly one '@' |
| Email.AtSplits | models/User.js:16 | in an accepted address, both sides of the '@' are joined runs and the domain ends in a short suffix |
| Email.AdjacentSepsRejected | models/User.js:16 | two separators in a row before an '@' are rejected |
| Email.BadSuffixRejected | models/User.js:16 | a domain not ending in '.' and two or three word characters is rejected |
| Email.TwoAtsRejected | models/User.js:16 | two '@' are rejected |
| Email.AcceptsExample | models/User.js:16 | "j.d@m-h.co.uk" is accepted |
| Email.RejectsExamples | models/User.js:16 | "a..b@c.com", "a@b.info" and "a@b@c.com" are rejected |
| UserModel.UserDocument.PreSave | models/User.js:43-50 | the password is hashed iff it was modified; otherwise the record is unchanged |
| UserModel.SaveTwice | models/User.js:43-50 | saving, reloading and saving again hashes the password once |
| UserModel.UserDocument.GetResetPasswordToken | models/User.js:65-75 | returns the 40-character hex of the 20 random bytes, stores only its digest, and sets expiry to now + 10 minutes |
| UserModel.HexString | models/User.js:66 | two lowercase hex digits per byte |
| UserModel.HexStringRoundTrip | models/User.js:66 | the hex string decodes back to the bytes |
| Store.UsersAppend | models/User.js:14 | appending a user with a new e-mail and a schema role keeps the user table valid |
| Store.Db.FindBootcamp | controllers/bootcamps.js:81 | `findById`: a record iff one has the id, and then one with that id |
| Store.Db.FindCourse | controllers/courses.js:32 | `findById` on courses, as above |
| Store.Db.FindUser | middleware/auth.js:30 | `findById` on users, as above |
| Store.Db.FindUserByEmail | controllers/auth.js:34 | `findOne({email})`: a user iff one has the e-mail, and then one with it |
| Store.Db.CreateBootcamp | controllers/bootcamps.js:94 | appends the body, as sent and aggregates included, with the next id |
| Store.Db.UpdateBootcamp | controllers/bootcamps.js:104-107 | replaces the record in place by the applied update, sent aggregates included, or changes nothing when the id is missing |
| Store.Db.DeleteBootcamp | controllers/bootcamps.js:120-124 | removes exactly the record with the id, or changes nothing |
| Store.Db.CreateCourse | models/Course.js:74-76 | stores the validated course, then the post-save hook recomputes its bootcamp's cost over the new table |
| Store.Db.UpdateCourse | controllers/courses.js:90-93 | an update-validator failure, or no record, or the course replaced in place |
| Store.Db.FindOneAndDeleteCourse | models/Course.js:79-88 | the pre hook recomputes the cost over the table still holding the course, and then the course is removed |
| Store.Db.DeleteFirstCourse | controllers/courses.js:116 | `Course.deleteOne()` with no filter removes the first course, if any |
| Store.Db.RecomputeAverageCost | models/Course.js:47-71 | the bootcamp table becomes its rewrite with the new cost; the rest is unchanged |
| Store.Db.RecomputeAverageRating | models/Review.js:40-64 | the same for the average rating |
| Store.Db.CreateReview | models/Review.js:37-69 | validation failure, or `E11000` on index `bootcamp_1_user_1`, or the review appended and its bootcamp's rating recomputed |
| Store.Db.FindOneAndDeleteReview | models/Review.js:72-81 | as written: a found review raises `ReferenceError: revirew is not defined` and nothing is deleted |
| Store.Db.FindOneAndDeleteReviewFixed | models/Review.js:72-81 | corrected: the rating is recomputed before the removal, and exactly that review is removed |
| Store.RevirewKeepsReview | models/Review.js:77 | deleting the one stored review raises the error and leaves it stored |
| Store.FixedHookDeletesReview | models/Review.js:72-81 | the corrected hook deletes it, leaving the bootcamp's rating at its last value |
| Store.Db.CreateUser | models/User.js:11-50 | validation failure, or `E11000` on index `email_1`, or the user appended with its password hashed by the pre-save hook |
| Store.FirstWithEmail | models/User.js:14 | some user has the e-mail iff a first one has it |
| AuthController.RegisterIgnoresOtherFields | controllers/auth.js:9-14 | only name, email, password and role are taken from the body: bodies that agree on those four fields create the same user |
| AuthController.Register | controllers/auth.js:8-20 | a validation or duplicate-key failure, or the hashed user stored and 200 with a token for its id |
| AuthController.Login | controllers/auth.js:25-49 | 400 without email or password, 401 for an unknown e-mail or a wrong password, otherwise 200 with the user's token |
| AuthController.LoginIdentifiesUser | controllers/auth.js:34-48 | for a stored user, login succeeds iff both fields are non-empty and the password matches, and the token is that user's |
| AuthController.SameEmailSameUser | models/User.js:14 | under the unique index, one e-mail names one user |
| AuthMiddleware.BearerToken | middleware/auth.js:10-13 | the token is the second space-separated piece of a header that starts with "Bearer", if there is one |
| AuthMiddleware.BearerSecondPiece | middleware/auth.js:12 | "Bearer a b" gives "a" |
| AuthMiddleware.BearerWithoutToken | middleware/auth.js:12 | "Bearer" alone gives no token |
| AuthMiddleware.NotBearer | middleware/auth.js:10 | another scheme or no header gives no token |
| AuthMiddleware.Protect | middleware/auth.js:7-36 | 401 unless a non-empty token verifies; then `req.user` is the lookup of its id, which may be null |
| AuthMiddleware.NoBearerNoEntry | middleware/auth.js:10-22 | without a Bearer header, the answer is 401 |
| AuthMiddleware.Authorize | middleware/auth.js:39-46 | proceeds iff the user exists and has a listed role; 403 with the role otherwise; a null user faults on `.role` |
| AuthMiddleware.AuthorizeFixed | middleware/auth.js:41-42 | corrected: proceeds in the same cases; every refusal is a 403 |
| AuthMiddleware.UnknownUserFaults | middleware/auth.js:41-42 | a verified token whose user is gone faults as written, where the fixed test answers 403 |
| AuthMiddleware.Guard | routes/reviews.js:11-15 | `protect` then `authorize`: the request proceeds iff `protect` found a user with a listed role; 401 when `protect` refuses, the null-user fault, or 403 with the role |
| AuthMiddleware.ReviewGateAdmitsUsers | routes/reviews.js:11-15 | of the stored users, only role "user" may write reviews; a publisher gets 403 |
| Schema.TrimSetter | models/Course.js:6 | `trim: true` keeps presence and trims the value |
| Schema.TrimmedFilled | models/Course.js:4-8 | after trimming, `required` passes iff the value is present and not all white space |
| JsString.Trim | models/Course.js:6 | `String.prototype.trim`: the middle slice with no white space at either end, where the cut parts are all white space |
| JsString.TrimIdempotent | models/Course.js:6 | trimming twice is trimming once |
| JsString.Utf16Length | models/Review.js:8 | the length `maxlength` compares: one code unit per character up to U+FFFF and two above, so between one and two per character |
| JsString.Utf16Concat | models/Review.js:8 | the UTF-16 length of a concatenation is the sum of the lengths |
| JsString.Utf16Plane0 | models/Review.js:8 | the UTF-16 length equals the number of characters iff none lies above U+FFFF |
| JsString.Piece | middleware/auth.js:12 | `split(c)[k]` is present iff k is below the number of pieces, and then it is that piece, which holds no `c` |
| Http.PlainListing | controllers/courses.js:15-19 | the nested listing has success, its data's length as count, and no pagination |

## Left out

- `getbootcampsWithinRadius` (controllers/bootcamps.js:133-155) and utils/geocoder.js: they use an external geocoding service and floating-point radians.
- Express wiring: server.js and the route files are not modelled. The role sets and the middleware order of routes/reviews.js are parameters (`ReviewRoles`, `Guard`). The handler models assume the wiring loads. As written it would not, though this is a reading of the text, not something executed. routes/reviews.js:3 destructures `getReview`, `addReview`, `updateReview` and `deleteReview`, but controllers/reviews.js exports only `getReviews` (line 10). routes/auth.js:3 destructures six handlers that controllers/auth.js does not export; it exports only `register` (line 8) and `login` (line 25). Express's route methods throw on a handler that is not a function, so routes/auth.js:9 would throw when server.js:26 requires it, and routes/reviews.js:11 and :13 would throw the same way at server.js:28. `ReviewsController.ListReviews` and `AuthMiddleware.Guard` describe those routes as if they loaded.
- Cryptography: bcrypt, `jsonwebtoken` and `crypto` become the parameters `hash`, `matches`, `sign`, `verify` and `digest`. `getSignedJwtToken` and `matchPassword` (models/User.js:53-62) are therefore `sign` and `matches`. The random bytes and `Date.now()` are arguments.
- Database behaviour: Mongo's evaluation of a filter, of `select`, `sort` and `populate`, is a parameter `find` of the plan. The plan records what is passed; the records returned are not derived from it. The one exception is `getCourse`'s populate of its bootcamp (controllers/courses.js:32-35), modelled from the bootcamp table by `Store.Selected`.
- Query execution failures: `find` is total and `countDocuments()` always succeeds, so a query Mongo rejects (a `CastError` from `?averageCost[lte]=abc`, an unknown operator) is not modelled as a failure.
- Paging.NumberOr: `page` and `limit` are unbounded integers. In the source they are doubles, so `(page - 1) * limit` and `page * limit` lose precision beyond 2^53, and the model does not capture that.
- Repeated query parameters: `hpp()` (server.js:75) keeps the last value of a repeated parameter before the pipeline sees it, so the pipeline never receives an array for `page` or `limit` from a repeated key. That middleware is not modelled.
- `$avg`: models/Course.js and models/Review.js compute it over doubles. The model averages exactly, as integers or reals.
- Ids: ObjectIds are naturals drawn from a counter. `toString()` comparisons are id equality. Path ids are typed as naturals, so the model cannot express an id that is not an ObjectId. For such an id, `findById`, `findByIdAndUpdate` and the `find` by bootcamp reject with a `CastError`, which goes to `next(err)` before any 404 or owner test. This applies at controllers/bootcamps.js:81, 104 and 120 and at controllers/courses.js:14, 32, 55, 79 and 105. The "404 iff no record has the id" contracts are stated only for well-formed ids.
- Asynchrony: each request runs alone and each hook runs to completion in order. The un-awaited post-save calls, the `try`/`catch` logging in the aggregate hooks and `console.log` are not modelled.
- The Bootcamp schema is not modelled: models/Bootcamp.js is not part of this model. A bootcamp is held as its owner, its other fields as a map, and its two aggregates. Its validators and its casting of sent values are left out, so `create` and `findByIdAndUpdate` store a body's paths, `averageCost` and `averageRating` included, as sent (already numbers). The Bootcamp model is also assumed to have no middleware: no cascade delete of its courses and reviews, and no slug or geocode pre-save (utils/geocoder.js is not modelled). `BootcampsController.DeleteBootcamp` leaving the courses table unchanged and `BootcampsController.CreateBootcamp` storing the body as sent both rest on that assumption.
- Timestamps: the `createdAt` defaults are not modelled, and neither is what sorting by them does.
- `select: false` on the password (models/User.js:32) is not modelled: the model's records always carry the password.
- The error handler: failures are returned as `Next(failure)`. The Express error middleware that turns them into JSON bodies is not modelled. The exception is the reviews route, whose `advancedResults` is not wrapped in `asyncHandler`: its faults are `Unhandled(failure)`, and the `unhandledRejection` handler that closes the server (server.js:97-101) is not modelled.
- `JSON.parse` is modelled on the text `JSON.stringify` produces. That text has no white space and no number literals outside strings, which is all the query copy can hold.
- Operators.ParseRewritten: the round trip is stated only for values without control characters. Those characters are escaped as `\n`, `\u000b` and similar, and the letter after the backslash can join an operator word.
- ListQuery.FilterRewritesKeysAndValues: this lemma is weaker than the original for the same reason: it assumes the copy holds no control character.
- Email.MatchesIffShape: the pattern is modelled as the language it denotes. The regex engine's backtracking is not modelled.
- Strings are sequences of code points. `JsString.Utf16Length` gives the UTF-16 length where `maxlength` and `minlength` need it.

## Findings

| source | as written | input that shows it | evidently intended | confidence | as-written member | corrected member |
|---|---|---|---|---|---|---|
| controllers/courses.js:58-64 | the owner test reads `bootcamp.user` before the `!bootcamp` check | POST a course to a bootcamp id that does not exist | 404 "No bootcamp with the id of …" | high, not executed | CoursesController.AddCourseGate, CoursesController.AddCourseMissingBootcampFaults | CoursesController.AddCourseGateFixed, CoursesController.AddCourseFixed |
| controllers/courses.js:108-114 | the owner test reads `course.user` before the `!course` check | DELETE a course id that does not exist | 404 "No course with the id of …" | high, not executed | CoursesController.DeleteCourseGate, CoursesController.DeleteCourseMissingFaults | CoursesController.DeleteCourseGateFixed, CoursesController.DeleteCourseFixed |
| controllers/courses.js:116 | `Course.deleteOne()` with no filter deletes the first course of the collection, and the pre-`findOneAndDelete` hook does not run | delete the second of two stored courses as its owner | delete that course and recompute its bootcamp's average cost | high, not executed | CoursesController.DeleteCourse, CoursesController.DeleteOneMissesTarget | CoursesController.DeleteCourseFixed |
| models/Review.js:77 | the hook's `revirew` is undefined, so every `findOneAndDelete` of an existing review throws before it deletes | delete the one stored review | recompute the average rating and delete the review | high, not executed | Store.Db.FindOneAndDeleteReview, Store.RevirewKeepsReview | Store.Db.FindOneAndDeleteReviewFixed, Store.FixedHookDeletesReview |
| middleware/auth.js:41-42 | the refusal message reads `req.user.role` in the `!req.user` case | a valid token whose user has been deleted | 403 | medium, not executed | AuthMiddleware.Authorize, AuthMiddleware.UnknownUserFaults | AuthMiddleware.AuthorizeFixed |
