/**
 * The collections the handlers read and write, held as one object whose
 * methods are the model-level operations: create with validation, the
 * unique indexes, findByIdAndUpdate, findOneAndDelete and deleteOne, with
 * the aggregate hooks of the Course and Review schemas run where Mongoose
 * runs them.
 */
module Store {
  import opened Wrappers
  import Json
  import opened Http
  import opened CourseModel
  import opened ReviewModel
  import opened UserModel

  /** The Bootcamp model is not part of this model; its owner path and its aggregates are, and the rest of its paths are a map. */
  datatype Bootcamp = Bootcamp(
    id: Id,
    user: Option<Id>,
    details: map<string, Json.JVal>,
    averageCost: Option<int>,
    averageRating: Option<real>)

  /**
   * A bootcamp request body: the owner path and the two aggregate paths, if
   * sent (already cast to numbers), and the other paths.
   */
  datatype BootcampInput = BootcampInput(
    user: Option<Id>,
    details: map<string, Json.JVal>,
    averageCost: Option<int>,
    averageRating: Option<real>)

  /** A populated bootcamp reference: `_id` and the selected paths the bootcamp has. */
  datatype BootcampView = BootcampView(id: Id, details: map<string, Json.JVal>)

  /** `populate({path: 'bootcamp', select})` of one bootcamp: its id and those of its paths named in `select`. */
  function Selected(b: Bootcamp, select: set<string>): (v: BootcampView)
    ensures v.id == b.id
    ensures v.details.Keys == b.details.Keys * select
    ensures forall k :: k in v.details ==> v.details[k] == b.details[k]
  {
    BootcampView(b.id, map k | k in b.details && k in select :: b.details[k])
  }

  function BootcampId(b: Bootcamp): Id { b.id }
  function CourseId(c: Course): Id { c.id }
  function ReviewId(r: Review): Id { r.id }
  function UserId(u: User): Id { u.id }

  // ---------------------------------------------------------------------
  // Table helpers

  /** The position of the first record with this id (`findById`). */
  function IndexOf<T>(xs: seq<T>, key: T -> Id, id: Id): (r: Option<nat>)
    ensures r.Some? ==> r.value < |xs| && key(xs[r.value]) == id
    ensures r.Some? ==> forall j :: 0 <= j < r.value ==> key(xs[j]) != id
    ensures r.None? <==> forall j :: 0 <= j < |xs| ==> key(xs[j]) != id
  {
    if xs == [] then None
    else if key(xs[0]) == id then Some(0)
    else
      match IndexOf(xs[1..], key, id)
      case None => None
      case Some(k) => Some(k + 1)
  }

  /** The only position holding this id once the ids are distinct. */
  lemma IndexOfAt<T>(xs: seq<T>, key: T -> Id, i: nat)
    requires i < |xs| && IdsDistinct(xs, key)
    ensures IndexOf(xs, key, key(xs[i])) == Some(i)
  {
  }

  /** After the record at i is replaced by one with the same id, that id is still found at i. */
  lemma IndexOfReplace<T>(xs: seq<T>, key: T -> Id, i: nat, x: T)
    requires i < |xs| && IdsDistinct(xs, key) && key(x) == key(xs[i])
    ensures IdsDistinct(xs[i := x], key) && IndexOf(xs[i := x], key, key(x)) == Some(i)
  {
    var ys := xs[i := x];
    assert forall k :: 0 <= k < |xs| ==> key(ys[k]) == key(xs[k]);
    IndexOfAt(ys, key, i);
  }

  /** After the record with this id is removed, no record has that id. */
  lemma RemoveByIdGone<T>(xs: seq<T>, key: T -> Id, i: nat)
    requires i < |xs| && IdsDistinct(xs, key)
    ensures IndexOf(RemoveAt(xs, i), key, key(xs[i])).None?
  {
    var r := RemoveAt(xs, i);
    forall k | 0 <= k < |r| ensures key(r[k]) != key(xs[i]) {
      if k < i {
        assert r[k] == xs[k];
      } else {
        assert r[k] == xs[k + 1];
      }
    }
  }

  /** Removing the record at i keeps every other record. */
  lemma RemoveKeepsOthers<T>(xs: seq<T>, i: nat)
    requires i < |xs|
    ensures forall x :: x in xs && x != xs[i] ==> x in RemoveAt(xs, i)
  {
    var r := RemoveAt(xs, i);
    forall x | x in xs && x != xs[i] ensures x in r {
      var k :| 0 <= k < |xs| && xs[k] == x;
      if k < i {
        assert r[k] == x;
      } else {
        assert r[k - 1] == x;
      }
    }
  }

  /** The records the predicate keeps, in table order: `Model.find(filter)`. */
  function Matching<T(!new)>(xs: seq<T>, keep: T -> bool): (r: seq<T>)
    ensures forall i :: 0 <= i < |r| ==> keep(r[i])
    ensures forall x :: multiset(r)[x] == if keep(x) then multiset(xs)[x] else 0
  {
    if xs == [] then []
    else
      var rest := Matching(xs[1..], keep);
      assert xs == [xs[0]] + xs[1..];
      assert multiset(xs) == multiset([xs[0]]) + multiset(xs[1..]);
      if keep(xs[0]) then [xs[0]] + rest else rest
  }

  function RemoveAt<T>(xs: seq<T>, i: nat): (r: seq<T>)
    requires i < |xs|
    ensures |r| == |xs| - 1
    ensures forall k :: 0 <= k < i ==> r[k] == xs[k]
    ensures forall k :: i <= k < |r| ==> r[k] == xs[k + 1]
  {
    xs[..i] + xs[i + 1..]
  }

  predicate IdsBelow<T>(xs: seq<T>, key: T -> Id, n: nat) {
    forall i :: 0 <= i < |xs| ==> key(xs[i]) < n
  }

  predicate IdsDistinct<T>(xs: seq<T>, key: T -> Id) {
    forall i, j :: 0 <= i < j < |xs| ==> key(xs[i]) != key(xs[j])
  }

  /** The unique index `{bootcamp: 1, user: 1}`. */
  predicate PairsUnique(rs: seq<Review>) {
    forall i, j :: 0 <= i < j < |rs| ==> (rs[i].bootcamp, rs[i].user) != (rs[j].bootcamp, rs[j].user)
  }

  /** The unique index on `email`. */
  predicate EmailsUnique(us: seq<User>) {
    forall i, j :: 0 <= i < j < |us| ==> us[i].email != us[j].email
  }

  lemma AppendKeeps<T>(xs: seq<T>, x: T, key: T -> Id, n: nat)
    requires IdsBelow(xs, key, n) && IdsDistinct(xs, key) && key(x) == n
    ensures IdsBelow(xs + [x], key, n + 1) && IdsDistinct(xs + [x], key)
  {
    var ys := xs + [x];
    assert forall i :: 0 <= i < |xs| ==> ys[i] == xs[i];
  }

  lemma RemoveKeeps<T>(xs: seq<T>, i: nat, key: T -> Id, n: nat)
    requires i < |xs| && IdsBelow(xs, key, n) && IdsDistinct(xs, key)
    ensures IdsBelow(RemoveAt(xs, i), key, n) && IdsDistinct(RemoveAt(xs, i), key)
  {
    var r := RemoveAt(xs, i);
    forall a, b | 0 <= a < b < |r| ensures key(r[a]) != key(r[b]) {
      var a' := if a < i then a else a + 1;
      var b' := if b < i then b else b + 1;
      assert r[a] == xs[a'] && r[b] == xs[b'];
    }
  }

  lemma RemovePairsUnique(rs: seq<Review>, i: nat)
    requires i < |rs| && PairsUnique(rs)
    ensures PairsUnique(RemoveAt(rs, i))
  {
    var r := RemoveAt(rs, i);
    forall a, b | 0 <= a < b < |r| ensures (r[a].bootcamp, r[a].user) != (r[b].bootcamp, r[b].user) {
      var a' := if a < i then a else a + 1;
      var b' := if b < i then b else b + 1;
      assert r[a] == rs[a'] && r[b] == rs[b'];
    }
  }

  /** The record `findByIdAndUpdate(id, {averageCost})` leaves: only that bootcamp's field changes. */
  function SetAverageCost(bs: seq<Bootcamp>, id: Id, cost: int): (r: seq<Bootcamp>)
    ensures |r| == |bs|
    ensures forall i :: 0 <= i < |bs| ==> r[i] == if bs[i].id == id then bs[i].(averageCost := Some(cost)) else bs[i]
  {
    if bs == [] then []
    else [if bs[0].id == id then bs[0].(averageCost := Some(cost)) else bs[0]] + SetAverageCost(bs[1..], id, cost)
  }

  function SetAverageRating(bs: seq<Bootcamp>, id: Id, rating: real): (r: seq<Bootcamp>)
    ensures |r| == |bs|
    ensures forall i :: 0 <= i < |bs| ==> r[i] == if bs[i].id == id then bs[i].(averageRating := Some(rating)) else bs[i]
  {
    if bs == [] then []
    else [if bs[0].id == id then bs[0].(averageRating := Some(rating)) else bs[0]] + SetAverageRating(bs[1..], id, rating)
  }

  /**
   * The bootcamps after `getAverageCost(id)` over these courses: with no
   * course of that bootcamp `obj[0]` is undefined, the write throws inside
   * the try, and the table is left as it was.
   */
  function AfterAverageCost(bs: seq<Bootcamp>, courses: seq<Course>, id: Id): (r: seq<Bootcamp>)
    ensures AverageCost(courses, id).None? ==> r == bs
    ensures |r| == |bs| && forall i :: 0 <= i < |bs| ==> r[i].id == bs[i].id
    ensures forall i :: 0 <= i < |bs| && bs[i].id != id ==> r[i] == bs[i]
    ensures AverageCost(courses, id).Some? ==>
              forall i :: 0 <= i < |bs| && bs[i].id == id ==> r[i] == bs[i].(averageCost := AverageCost(courses, id))
  {
    match AverageCost(courses, id)
    case None => bs
    case Some(cost) => SetAverageCost(bs, id, cost)
  }

  /** The bootcamps after `getAverageRating(id)`; unchanged when the bootcamp has no review. */
  function AfterAverageRating(bs: seq<Bootcamp>, reviews: seq<Review>, id: Id): (r: seq<Bootcamp>)
    ensures AverageRating(reviews, id).None? ==> r == bs
    ensures |r| == |bs| && forall i :: 0 <= i < |bs| ==> r[i].id == bs[i].id
    ensures forall i :: 0 <= i < |bs| && bs[i].id != id ==> r[i] == bs[i]
    ensures AverageRating(reviews, id).Some? ==>
              forall i :: 0 <= i < |bs| && bs[i].id == id ==> r[i] == bs[i].(averageRating := AverageRating(reviews, id))
  {
    match AverageRating(reviews, id)
    case None => bs
    case Some(rating) => SetAverageRating(bs, id, rating)
  }

  /** The update `findByIdAndUpdate(id, body)` applies to one bootcamp: the paths sent replace the stored ones. */
  function ApplyBootcampUpdate(b: Bootcamp, body: BootcampInput): (r: Bootcamp)
    ensures r.id == b.id
    ensures r.user == (if body.user.Some? then body.user else b.user)
    ensures r.averageCost == (if body.averageCost.Some? then body.averageCost else b.averageCost)
    ensures r.averageRating == (if body.averageRating.Some? then body.averageRating else b.averageRating)
    ensures r.details.Keys == b.details.Keys + body.details.Keys
    ensures forall k :: k in body.details ==> r.details[k] == body.details[k]
    ensures forall k :: k in b.details && k !in body.details ==> r.details[k] == b.details[k]
  {
    Bootcamp(b.id, if body.user.Some? then body.user else b.user, b.details + body.details,
             if body.averageCost.Some? then body.averageCost else b.averageCost,
             if body.averageRating.Some? then body.averageRating else b.averageRating)
  }

  /** Every record of the table satisfies `p`, stated one record at a time from the end. */
  predicate Every<T>(xs: seq<T>, p: T -> bool)
    decreases |xs|
  {
    xs == [] || (p(xs[|xs| - 1]) && Every(xs[..|xs| - 1], p))
  }

  lemma {:induction false} EveryMeans<T>(xs: seq<T>, p: T -> bool)
    ensures Every(xs, p) <==> forall i :: 0 <= i < |xs| ==> p(xs[i])
  {
    if xs != [] {
      var init := xs[..|xs| - 1];
      EveryMeans(init, p);
      assert forall i :: 0 <= i < |init| ==> init[i] == xs[i];
    }
  }

  lemma EveryAppend<T>(xs: seq<T>, x: T, p: T -> bool)
    requires Every(xs, p) && p(x)
    ensures Every(xs + [x], p)
  {
    assert (xs + [x])[..|xs|] == xs;
  }

  /**
   * What each table keeps: ids below the next one and distinct, records valid, indexes unique.
   * A bootcamp's aggregates are whatever was last written, by a hook or by a request body.
   */
  predicate BootcampsOk(bs: seq<Bootcamp>, n: nat) {
    IdsBelow(bs, BootcampId, n) && IdsDistinct(bs, BootcampId)
  }

  predicate CoursesOk(cs: seq<Course>, n: nat) {
    IdsBelow(cs, CourseId, n) && IdsDistinct(cs, CourseId) && Every(cs, ValidCourse)
  }

  predicate ReviewsOk(rs: seq<Review>, n: nat) {
    IdsBelow(rs, ReviewId, n) && IdsDistinct(rs, ReviewId) && PairsUnique(rs)
    && Every(rs, ValidReview)
  }

  predicate UsersOk(us: seq<User>, n: nat) {
    IdsBelow(us, UserId, n) && IdsDistinct(us, UserId) && EmailsUnique(us)
    && forall i :: 0 <= i < |us| ==> us[i].role in Roles
  }

  lemma AfterAverageCostOk(bs: seq<Bootcamp>, courses: seq<Course>, id: Id, n: nat)
    requires BootcampsOk(bs, n)
    ensures BootcampsOk(AfterAverageCost(bs, courses, id), n)
  {
    var r := AfterAverageCost(bs, courses, id);
    assert forall i :: 0 <= i < |r| ==> BootcampId(r[i]) == BootcampId(bs[i]);
  }

  lemma AfterAverageRatingOk(bs: seq<Bootcamp>, reviews: seq<Review>, id: Id, n: nat)
    requires BootcampsOk(bs, n)
    ensures BootcampsOk(AfterAverageRating(bs, reviews, id), n)
  {
    var r := AfterAverageRating(bs, reviews, id);
    assert forall i :: 0 <= i < |r| ==> BootcampId(r[i]) == BootcampId(bs[i]);
  }

  /** What the cost hook writes is a multiple of ten. */
  lemma HookCostInRange(bs: seq<Bootcamp>, courses: seq<Course>, id: Id, i: nat)
    requires i < |bs| && bs[i].id == id && AverageCost(courses, id).Some?
    ensures AfterAverageCost(bs, courses, id)[i].averageCost == AverageCost(courses, id)
    ensures AfterAverageCost(bs, courses, id)[i].averageCost.value % 10 == 0
  {
  }

  /** What the rating hook writes over stored reviews lies within 1 to 10. */
  lemma HookRatingInRange(bs: seq<Bootcamp>, reviews: seq<Review>, id: Id, i: nat, m: nat)
    requires i < |bs| && bs[i].id == id && ReviewsOk(reviews, m) && AverageRating(reviews, id).Some?
    ensures AfterAverageRating(bs, reviews, id)[i].averageRating == AverageRating(reviews, id)
    ensures MinRating <= AfterAverageRating(bs, reviews, id)[i].averageRating.value <= MaxRating
  {
    EveryMeans(reviews, ValidReview);
    AverageRatingInRange(reviews, id);
  }

  /**
   * The pre-delete hook of a bootcamp's only course writes an averageCost
   * that counts that course; once it is gone no course is left, so a later
   * recompute changes nothing and the value stays.
   */
  lemma StaleCostAfterLastDelete(b: Bootcamp, c: Course)
    requires c.bootcamp == b.id
    ensures AfterAverageCost([b], [c], b.id) == [b.(averageCost := Some(RoundedAverage([c.tuition])))]
    ensures AverageCost(RemoveAt([c], 0), b.id).None?
    ensures AfterAverageCost([b], RemoveAt([c], 0), b.id) == [b]
  {
    assert [c][1..] == [];
    assert TuitionsOf([c], b.id) == [c.tuition];
  }

  /** Handing out a new id keeps every table's invariant. */
  lemma TablesGrow(bs: seq<Bootcamp>, cs: seq<Course>, rs: seq<Review>, us: seq<User>, n: nat)
    requires BootcampsOk(bs, n) && CoursesOk(cs, n) && ReviewsOk(rs, n) && UsersOk(us, n)
    ensures BootcampsOk(bs, n + 1) && CoursesOk(cs, n + 1) && ReviewsOk(rs, n + 1) && UsersOk(us, n + 1)
  {
  }

  lemma BootcampsAppend(bs: seq<Bootcamp>, b: Bootcamp, n: nat)
    requires BootcampsOk(bs, n) && b.id == n
    ensures BootcampsOk(bs + [b], n + 1)
  {
    AppendKeeps(bs, b, BootcampId, n);
    assert forall i :: 0 <= i < |bs| ==> (bs + [b])[i] == bs[i];
  }

  lemma CoursesAppend(cs: seq<Course>, c: Course, n: nat)
    requires CoursesOk(cs, n) && c.id == n && ValidCourse(c)
    ensures CoursesOk(cs + [c], n + 1)
  {
    AppendKeeps(cs, c, CourseId, n);
    EveryAppend(cs, c, ValidCourse);
  }

  lemma ReviewsAppend(rs: seq<Review>, r: Review, n: nat)
    requires ReviewsOk(rs, n) && r.id == n && ValidReview(r) && !HasPair(rs, r.bootcamp, r.user)
    ensures ReviewsOk(rs + [r], n + 1)
  {
    AppendKeeps(rs, r, ReviewId, n);
    PairsAppend(rs, r);
    EveryAppend(rs, r, ValidReview);
  }

  lemma PairsAppend(rs: seq<Review>, r: Review)
    requires PairsUnique(rs) && !HasPair(rs, r.bootcamp, r.user)
    ensures PairsUnique(rs + [r])
  {
    var ys := rs + [r];
    forall a, b | 0 <= a < b < |ys| ensures (ys[a].bootcamp, ys[a].user) != (ys[b].bootcamp, ys[b].user) {
      assert ys[a] == rs[a];
      if b < |rs| {
        assert ys[b] == rs[b];
      }
    }
  }

  lemma UsersAppend(us: seq<User>, u: User, n: nat)
    requires UsersOk(us, n) && u.id == n && FirstWithEmail(us, u.email).None? && u.role in Roles
    ensures UsersOk(us + [u], n + 1)
  {
    AppendKeeps(us, u, UserId, n);
    var ys := us + [u];
    assert forall i :: 0 <= i < |us| ==> ys[i] == us[i];
    assert forall i :: 0 <= i < |ys| ==> ys[i].role in Roles;
  }

  lemma BootcampsRemove(bs: seq<Bootcamp>, i: nat, n: nat)
    requires i < |bs| && BootcampsOk(bs, n)
    ensures BootcampsOk(RemoveAt(bs, i), n)
  {
    RemoveKeeps(bs, i, BootcampId, n);
  }

  lemma CoursesRemove(cs: seq<Course>, i: nat, n: nat)
    requires i < |cs| && CoursesOk(cs, n)
    ensures CoursesOk(RemoveAt(cs, i), n)
  {
    RemoveKeeps(cs, i, CourseId, n);
    EveryRemove(cs, i, ValidCourse);
  }

  lemma ReviewsRemove(rs: seq<Review>, i: nat, n: nat)
    requires i < |rs| && ReviewsOk(rs, n)
    ensures ReviewsOk(RemoveAt(rs, i), n)
  {
    RemoveKeeps(rs, i, ReviewId, n);
    RemovePairsUnique(rs, i);
    EveryRemove(rs, i, ValidReview);
  }

  lemma EveryRemove<T>(xs: seq<T>, i: nat, p: T -> bool)
    requires i < |xs| && Every(xs, p)
    ensures Every(RemoveAt(xs, i), p)
  {
    EveryMeans(xs, p);
    var r := RemoveAt(xs, i);
    forall k | 0 <= k < |r| ensures p(r[k]) {
      if k < i {
        assert r[k] == xs[k];
      } else {
        assert r[k] == xs[k + 1];
      }
    }
    EveryMeans(r, p);
  }

  lemma BootcampsReplace(bs: seq<Bootcamp>, i: nat, b: Bootcamp, n: nat)
    requires i < |bs| && BootcampsOk(bs, n) && b.id == bs[i].id
    ensures BootcampsOk(bs[i := b], n)
  {
    assert forall k :: 0 <= k < |bs| ==> BootcampId(bs[i := b][k]) == BootcampId(bs[k]);
  }

  lemma CoursesReplace(cs: seq<Course>, i: nat, c: Course, n: nat)
    requires i < |cs| && CoursesOk(cs, n) && c.id == cs[i].id && ValidCourse(c)
    ensures CoursesOk(cs[i := c], n)
  {
    assert forall k :: 0 <= k < |cs| ==> CourseId(cs[i := c][k]) == CourseId(cs[k]);
    EveryMeans(cs, ValidCourse);
    EveryMeans(cs[i := c], ValidCourse);
  }

  lemma CoursesUpdate(cs: seq<Course>, i: nat, u: CourseInput, n: nat)
    requires i < |cs| && CoursesOk(cs, n) && UpdateFailures(u) == {}
    ensures ApplyUpdate(cs[i], u).Ok? && CoursesOk(cs[i := ApplyUpdate(cs[i], u).value], n)
  {
    EveryMeans(cs, ValidCourse);
    UpdateKeepsValid(cs[i], u);
    CoursesReplace(cs, i, ApplyUpdate(cs[i], u).value, n);
  }

  /** Whether the `{bootcamp: 1, user: 1}` index already holds this pair. */
  function HasPair(rs: seq<Review>, bootcamp: Id, user: Id): (r: bool)
    ensures r <==> exists i :: 0 <= i < |rs| && rs[i].bootcamp == bootcamp && rs[i].user == user
  {
    if rs == [] then false
    else if rs[0].bootcamp == bootcamp && rs[0].user == user then true
    else
      assert forall i :: 1 <= i < |rs| ==> rs[i] == rs[1..][i - 1];
      HasPair(rs[1..], bootcamp, user)
  }

  // ---------------------------------------------------------------------
  // The database

  class Db {
    var bootcamps: seq<Bootcamp>
    var courses: seq<Course>
    var reviews: seq<Review>
    var users: seq<User>
    /** The next id to hand out; every stored id is below it. */
    var nextId: nat

    ghost predicate Valid()
      reads this
    {
      BootcampsOk(bootcamps, nextId) && CoursesOk(courses, nextId) && ReviewsOk(reviews, nextId) && UsersOk(users, nextId)
    }

    constructor ()
      ensures Valid()
      ensures bootcamps == [] && courses == [] && reviews == [] && users == [] && nextId == 0
    {
      bootcamps, courses, reviews, users := [], [], [], [];
      nextId := 0;
    }

    function FindBootcamp(id: Id): (r: Option<Bootcamp>)
      reads this
      ensures r.Some? <==> exists i :: 0 <= i < |bootcamps| && bootcamps[i].id == id
      ensures r.Some? ==> r.value in bootcamps && r.value.id == id
    {
      match IndexOf(bootcamps, BootcampId, id)
      case None => None
      case Some(i) => Some(bootcamps[i])
    }

    function FindCourse(id: Id): (r: Option<Course>)
      reads this
      ensures r.Some? <==> exists i :: 0 <= i < |courses| && courses[i].id == id
      ensures r.Some? ==> r.value in courses && r.value.id == id
    {
      match IndexOf(courses, CourseId, id)
      case None => None
      case Some(i) => Some(courses[i])
    }

    function FindUser(id: Id): (r: Option<User>)
      reads this
      ensures r.Some? <==> exists i :: 0 <= i < |users| && users[i].id == id
      ensures r.Some? ==> r.value in users && r.value.id == id
    {
      match IndexOf(users, UserId, id)
      case None => None
      case Some(i) => Some(users[i])
    }

    function FindUserByEmail(email: string): (r: Option<User>)
      reads this
      ensures r.Some? <==> exists i :: 0 <= i < |users| && users[i].email == email
      ensures r.Some? ==> r.value in users && r.value.email == email
    {
      FirstWithEmail(users, email)
    }

    /** `getAverageCost(id)`: writes the rounded mean into that bootcamp, or changes nothing when it has no course. */
    method RecomputeAverageCost(id: Id)
      requires Valid()
      modifies this
      ensures Valid()
      ensures bootcamps == AfterAverageCost(old(bootcamps), courses, id)
      ensures courses == old(courses) && reviews == old(reviews) && users == old(users) && nextId == old(nextId)
    {
      var updated := AfterAverageCost(bootcamps, courses, id);
      AfterAverageCostOk(bootcamps, courses, id, nextId);
      bootcamps := updated;
      assert CoursesOk(courses, nextId) && ReviewsOk(reviews, nextId) && UsersOk(users, nextId);
    }

    /** `getAverageRating(id)`: writes the mean rating into that bootcamp, or changes nothing when it has no review. */
    method RecomputeAverageRating(id: Id)
      requires Valid()
      modifies this
      ensures Valid()
      ensures bootcamps == AfterAverageRating(old(bootcamps), reviews, id)
      ensures courses == old(courses) && reviews == old(reviews) && users == old(users) && nextId == old(nextId)
    {
      var updated := AfterAverageRating(bootcamps, reviews, id);
      AfterAverageRatingOk(bootcamps, reviews, id, nextId);
      bootcamps := updated;
      assert CoursesOk(courses, nextId) && ReviewsOk(reviews, nextId) && UsersOk(users, nextId);
      assert Valid();
    }
    /** `Bootcamp.create(body)`: the store assigns the id; the paths sent, aggregates included, are stored as sent. */
    method CreateBootcamp(body: BootcampInput) returns (b: Bootcamp)
      requires Valid()
      modifies this
      ensures Valid()
      ensures b == Bootcamp(old(nextId), body.user, body.details, body.averageCost, body.averageRating)
      ensures bootcamps == old(bootcamps) + [b] && nextId == old(nextId) + 1
      ensures courses == old(courses) && reviews == old(reviews) && users == old(users)
    {
      b := Bootcamp(nextId, body.user, body.details, body.averageCost, body.averageRating);
      BootcampsAppend(bootcamps, b, nextId);
      TablesGrow(bootcamps, courses, reviews, users, nextId);
      bootcamps := bootcamps + [b];
      nextId := nextId + 1;
      assert CoursesOk(courses, nextId) && ReviewsOk(reviews, nextId) && UsersOk(users, nextId);
    }

    /** `Bootcamp.findByIdAndUpdate(id, body, {new: true})`: the updated record, or None when no bootcamp has that id. */
    method UpdateBootcamp(id: Id, body: BootcampInput) returns (r: Option<Bootcamp>)
      requires Valid()
      modifies this
      ensures Valid()
      ensures match IndexOf(old(bootcamps), BootcampId, id)
              case None => r.None? && bootcamps == old(bootcamps)
              case Some(i) => r == Some(ApplyBootcampUpdate(old(bootcamps)[i], body)) && bootcamps == old(bootcamps)[i := r.value]
      ensures courses == old(courses) && reviews == old(reviews) && users == old(users) && nextId == old(nextId)
    {
      match IndexOf(bootcamps, BootcampId, id)
      case None =>
        r := None;
      case Some(i) =>
        var b := ApplyBootcampUpdate(bootcamps[i], body);
        BootcampsReplace(bootcamps, i, b, nextId);
        bootcamps := bootcamps[i := b];
        r := Some(b);
        assert CoursesOk(courses, nextId) && ReviewsOk(reviews, nextId) && UsersOk(users, nextId);
    }

    /** `bootcamp.deleteOne()` on the record found by id: that record, and only it, leaves the table. */
    method DeleteBootcamp(id: Id) returns (r: Option<Bootcamp>)
      requires Valid()
      modifies this
      ensures Valid()
      ensures match IndexOf(old(bootcamps), BootcampId, id)
              case None => r.None? && bootcamps == old(bootcamps)
              case Some(i) => r == Some(old(bootcamps)[i]) && bootcamps == RemoveAt(old(bootcamps), i)
      ensures courses == old(courses) && reviews == old(reviews) && users == old(users) && nextId == old(nextId)
    {
      match IndexOf(bootcamps, BootcampId, id)
      case None =>
        r := None;
      case Some(i) =>
        r := Some(bootcamps[i]);
        BootcampsRemove(bootcamps, i, nextId);
        bootcamps := RemoveAt(bootcamps, i);
        assert CoursesOk(courses, nextId) && ReviewsOk(reviews, nextId) && UsersOk(users, nextId);
    }

    /**
     * `Course.create(body)`: validation, the insert, then the post-save
     * hook recomputing the averageCost of the course's bootcamp over the
     * table that now holds the new course.
     */
    method CreateCourse(b: CourseInput) returns (r: Result<Course, Failure>)
      requires Valid()
      modifies this
      ensures Valid()
      ensures r == NewCourse(old(nextId), b)
      ensures r.Err? ==> bootcamps == old(bootcamps) && courses == old(courses) && nextId == old(nextId)
      ensures r.Ok? ==> courses == old(courses) + [r.value] && nextId == old(nextId) + 1
      ensures r.Ok? ==> bootcamps == AfterAverageCost(old(bootcamps), courses, r.value.bootcamp)
      ensures reviews == old(reviews) && users == old(users)
    {
      r := NewCourse(nextId, b);
      if r.Err? {
        return;
      }
      var c := r.value;
      CoursesAppend(courses, c, nextId);
      TablesGrow(bootcamps, courses, reviews, users, nextId);
      courses := courses + [c];
      nextId := nextId + 1;
      assert BootcampsOk(bootcamps, nextId) && ReviewsOk(reviews, nextId) && UsersOk(users, nextId);
      RecomputeAverageCost(c.bootcamp);
    }

    /**
     * `Course.findByIdAndUpdate(id, body, {new: true, runValidators: true})`:
     * the validators run first; then the updated record, or None when no
     * course has that id. No hook runs, so no average changes.
     */
    method UpdateCourse(id: Id, u: CourseInput) returns (r: Result<Option<Course>, Failure>)
      requires Valid()
      modifies this
      ensures Valid()
      ensures UpdateFailures(u) != {} ==> r == Err(ValidationError(UpdateFailures(u))) && courses == old(courses)
      ensures UpdateFailures(u) == {} ==>
                match IndexOf(old(courses), CourseId, id)
                case None => r == Ok(None) && courses == old(courses)
                case Some(i) => r == Ok(Some(ApplyUpdate(old(courses)[i], u).value)) && courses == old(courses)[i := r.value.value]
      ensures bootcamps == old(bootcamps) && reviews == old(reviews) && users == old(users) && nextId == old(nextId)
    {
      if UpdateFailures(u) != {} {
        return Err(ValidationError(UpdateFailures(u)));
      }
      match IndexOf(courses, CourseId, id)
      case None =>
        r := Ok(None);
      case Some(i) =>
        var c := ApplyUpdate(courses[i], u).value;
        CoursesUpdate(courses, i, u, nextId);
        courses := courses[i := c];
        r := Ok(Some(c));
        assert BootcampsOk(bootcamps, nextId) && ReviewsOk(reviews, nextId) && UsersOk(users, nextId);
    }

    /**
     * `Course.findOneAndDelete({_id: id})`: the pre hook finds the course
     * and recomputes its bootcamp's averageCost while the course is still
     * in the table; then the course is removed.
     */
    method FindOneAndDeleteCourse(id: Id) returns (r: Option<Course>)
      requires Valid()
      modifies this
      ensures Valid()
      ensures match IndexOf(old(courses), CourseId, id)
              case None => r.None? && bootcamps == old(bootcamps) && courses == old(courses)
              case Some(i) =>
                && r == Some(old(courses)[i])
                && bootcamps == AfterAverageCost(old(bootcamps), old(courses), r.value.bootcamp)
                && courses == RemoveAt(old(courses), i)
      ensures reviews == old(reviews) && users == old(users) && nextId == old(nextId)
    {
      match IndexOf(courses, CourseId, id)
      case None =>
        r := None;
      case Some(i) =>
        var c := courses[i];
        r := Some(c);
        RecomputeAverageCost(c.bootcamp);
        CoursesRemove(courses, i, nextId);
        courses := RemoveAt(courses, i);
        assert BootcampsOk(bootcamps, nextId) && ReviewsOk(reviews, nextId) && UsersOk(users, nextId);
    }

    /** `Course.deleteOne()` with no filter: the first course of the table goes, whichever it is. No hook runs. */
    method DeleteFirstCourse()
      requires Valid()
      modifies this
      ensures Valid()
      ensures courses == if old(courses) == [] then [] else old(courses)[1..]
      ensures bootcamps == old(bootcamps) && reviews == old(reviews) && users == old(users) && nextId == old(nextId)
    {
      if courses != [] {
        CoursesRemove(courses, 0, nextId);
        assert RemoveAt(courses, 0) == courses[1..];
        courses := courses[1..];
        assert BootcampsOk(bootcamps, nextId) && ReviewsOk(reviews, nextId) && UsersOk(users, nextId);
      }
    }

    /**
     * `Review.create(body)`: validation, then the unique `{bootcamp, user}`
     * index, then the insert and the post-save recompute of averageRating.
     * A refused write changes nothing.
     */
    method CreateReview(b: ReviewInput) returns (r: Result<Review, Failure>)
      requires Valid()
      modifies this
      ensures Valid()
      ensures NewReview(old(nextId), b).Err? ==> r == NewReview(old(nextId), b)
      ensures NewReview(old(nextId), b).Ok? ==>
                var rv := NewReview(old(nextId), b).value;
                r == if HasPair(old(reviews), rv.bootcamp, rv.user) then Err(DuplicateKey("bootcamp_1_user_1")) else Ok(rv)
      ensures r.Err? ==> bootcamps == old(bootcamps) && reviews == old(reviews) && nextId == old(nextId)
      ensures r.Ok? ==> reviews == old(reviews) + [r.value] && nextId == old(nextId) + 1
      ensures r.Ok? ==> bootcamps == AfterAverageRating(old(bootcamps), reviews, r.value.bootcamp)
      ensures courses == old(courses) && users == old(users)
    {
      r := NewReview(nextId, b);
      if r.Err? {
        return;
      }
      var rv := r.value;
      if HasPair(reviews, rv.bootcamp, rv.user) {
        return Err(DuplicateKey("bootcamp_1_user_1"));
      }
      ReviewsAppend(reviews, rv, nextId);
      TablesGrow(bootcamps, courses, reviews, users, nextId);
      reviews := reviews + [rv];
      nextId := nextId + 1;
      assert BootcampsOk(bootcamps, nextId) && CoursesOk(courses, nextId) && UsersOk(users, nextId);
      RecomputeAverageRating(rv.bootcamp);
    }

    /**
     * `Review.findOneAndDelete({_id: id})` as the pre hook is written: when
     * the review exists the hook reads the undeclared `revirew`, the query
     * fails and nothing is deleted; otherwise nothing matches.
     */
    method FindOneAndDeleteReview(id: Id) returns (r: Result<Option<Review>, Failure>)
      requires Valid()
      modifies this
      ensures Valid()
      ensures IndexOf(old(reviews), ReviewId, id).Some? ==> r == Err(ReferenceError("revirew"))
      ensures IndexOf(old(reviews), ReviewId, id).None? ==> r == Ok(None)
      ensures bootcamps == old(bootcamps) && courses == old(courses) && reviews == old(reviews)
      ensures users == old(users) && nextId == old(nextId)
    {
      match IndexOf(reviews, ReviewId, id)
      case None =>
        r := Ok(None);
      case Some(_) =>
        r := Err(ReferenceError("revirew"));
    }

    /**
     * The same with the hook reading `review`: the recompute of the
     * bootcamp's averageRating runs with the review still counted, then the
     * review is removed.
     */
    method FindOneAndDeleteReviewFixed(id: Id) returns (r: Option<Review>)
      requires Valid()
      modifies this
      ensures Valid()
      ensures match IndexOf(old(reviews), ReviewId, id)
              case None => r.None? && bootcamps == old(bootcamps) && reviews == old(reviews)
              case Some(i) =>
                && r == Some(old(reviews)[i])
                && bootcamps == AfterAverageRating(old(bootcamps), old(reviews), r.value.bootcamp)
                && reviews == RemoveAt(old(reviews), i)
      ensures courses == old(courses) && users == old(users) && nextId == old(nextId)
    {
      match IndexOf(reviews, ReviewId, id)
      case None =>
        r := None;
      case Some(i) =>
        var rv := reviews[i];
        r := Some(rv);
        RecomputeAverageRating(rv.bootcamp);
        ReviewsRemove(reviews, i, nextId);
        reviews := RemoveAt(reviews, i);
        assert BootcampsOk(bootcamps, nextId) && CoursesOk(courses, nextId) && UsersOk(users, nextId);
    }

    /**
     * `User.create(body)`: validation, the pre-save hook (a new document's
     * password counts as modified, so it is hashed), then the unique index
     * on `email`, then the insert.
     */
    method CreateUser(b: UserInput, hash: string -> string) returns (r: Result<User, Failure>)
      requires Valid()
      modifies this
      ensures Valid()
      ensures NewUser(old(nextId), b).Err? ==> r == NewUser(old(nextId), b)
      ensures NewUser(old(nextId), b).Ok? ==>
                var u := NewUser(old(nextId), b).value.(password := hash(b.password.value));
                r == if FirstWithEmail(old(users), u.email).Some? then Err(DuplicateKey("email_1")) else Ok(u)
      ensures r.Err? ==> users == old(users) && nextId == old(nextId)
      ensures r.Ok? ==> users == old(users) + [r.value] && nextId == old(nextId) + 1
      ensures bootcamps == old(bootcamps) && courses == old(courses) && reviews == old(reviews)
    {
      r := NewUser(nextId, b);
      if r.Err? {
        return;
      }
      var doc := new UserDocument(r.value);
      doc.PreSave(hash);
      var u := doc.Record();
      if FirstWithEmail(users, u.email).Some? {
        return Err(DuplicateKey("email_1"));
      }
      r := Ok(u);
      UsersAppend(users, u, nextId);
      TablesGrow(bootcamps, courses, reviews, users, nextId);
      users := users + [u];
      nextId := nextId + 1;
      assert BootcampsOk(bootcamps, nextId) && CoursesOk(courses, nextId) && ReviewsOk(reviews, nextId);
    }
  }

  function FirstWithEmail(us: seq<User>, email: string): (r: Option<User>)
    ensures r.Some? <==> exists i :: 0 <= i < |us| && us[i].email == email
    ensures r.Some? ==> r.value in us && r.value.email == email
  {
    if us == [] then None
    else if us[0].email == email then Some(us[0])
    else
      var r := FirstWithEmail(us[1..], email);
      assert forall i :: 1 <= i < |us| ==> us[i] == us[1..][i - 1];
      r
  }

  // ---------------------------------------------------------------------
  // The review pre-delete hook on a small table

  /** Over a single review the bootcamp's averageRating is that review's rating. */
  lemma SingleRating(bs: seq<Bootcamp>, rv: Review, i: nat)
    requires i < |bs| && bs[i].id == rv.bootcamp
    ensures AfterAverageRating(bs, [rv], rv.bootcamp)[i].averageRating == Some(rv.rating)
  {
    assert [rv][1..] == [];
    assert RatingsOf([rv], rv.bootcamp) == [rv.rating];
    assert [rv.rating][..0] == [];
    assert ReviewModel.SumReal([rv.rating]) == rv.rating;
  }

  /** One stored review, then `findOneAndDelete` on it with the hook as written: the query fails and the review stays. */
  method RevirewKeepsReview() returns (r: Result<Option<Review>, Failure>, left: nat)
    ensures r == Err(ReferenceError("revirew")) && left == 1
  {
    var db := new Db();
    OnlyRatingChecked(7.5);
    var created := db.CreateReview(WithRating(7.5));
    assert created.Ok?;
    r := db.FindOneAndDeleteReview(created.value.id);
    left := |db.reviews|;
  }

  /**
   * The same with the hook reading `review`: the review goes, and the
   * bootcamp keeps the averageRating computed while it was still counted.
   */
  method FixedHookDeletesReview() returns (r: Option<Review>, left: nat, rating: Option<real>)
    ensures r.Some? && r.value.rating == 7.5 && left == 0 && rating == Some(7.5)
  {
    var db := new Db();
    var b0 := db.CreateBootcamp(BootcampInput(None, map[], None, None));
    var b1 := db.CreateBootcamp(BootcampInput(None, map[], None, None));
    assert db.bootcamps[1].id == 1 && |db.bootcamps| == 2;
    OnlyRatingChecked(7.5);
    var created := db.CreateReview(WithRating(7.5));
    assert created.Ok?;
    var rv := created.value;
    assert db.reviews == [rv] && rv.bootcamp == 1 && rv.rating == 7.5;
    ghost var before := db.bootcamps;
    assert |before| == 2 && before[1].id == 1;
    r := db.FindOneAndDeleteReviewFixed(rv.id);
    SingleRating(before, rv, 1);
    left := |db.reviews|;
    rating := db.bootcamps[1].averageRating;
  }
}
