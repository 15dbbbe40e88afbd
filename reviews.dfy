/**
 * The review listing: the nested path, or the envelope the advancedResults
 * middleware mounted on the route prepared, passed through unchanged.
 */
module ReviewsController {
  import opened Wrappers
  import opened Http
  import Json
  import ListQuery
  import opened ReviewModel
  import opened Store

  /** What the route's advancedResults populates: the bootcamp's name and description. */
  const BootcampPopulate := ListQuery.Populate("bootcamp", Some("name description"))

  /**
   * `getReviews`: with a bootcamp id, exactly that bootcamp's reviews with
   * their count and no `pagination`; without one, `res.advancedResults`.
   */
  function GetReviews(bootcampId: Option<Id>, reviews: seq<Review>, advanced: Option<Envelope<Review>>)
    : (reply: Reply<Review>)
    ensures reply.Sent? && reply.status == 200
    ensures bootcampId.Some? ==>
              && reply.body.Listing?
              && reply.body.envelope.success
              && reply.body.envelope.count == |reply.body.envelope.data|
              && reply.body.envelope.pagination.None?
              && (forall i :: 0 <= i < |reply.body.envelope.data| ==> reply.body.envelope.data[i].bootcamp == bootcampId.value)
              && (forall r: Review :: r.bootcamp == bootcampId.value ==> multiset(reply.body.envelope.data)[r] == multiset(reviews)[r])
    ensures bootcampId.None? && advanced.Some? ==> reply.body == Listing(advanced.value)
    ensures bootcampId.None? && advanced.None? ==> reply.body == Undefined
  {
    match bootcampId
    case Some(b) => Sent(200, Listing(PlainListing(Matching(reviews, (r: Review) => r.bootcamp == b))))
    case None => Sent(200, if advanced.Some? then Listing(advanced.value) else Undefined)
  }

  /** The nested branch does not look at what the middleware prepared, so select, sort, page and limit do not matter there. */
  lemma NestedIgnoresQuery(b: Id, reviews: seq<Review>, a1: Option<Envelope<Review>>, a2: Option<Envelope<Review>>)
    ensures GetReviews(Some(b), reviews, a1) == GetReviews(Some(b), reviews, a2)
  {
  }

  /**
   * The route: the middleware runs first. It is mounted without
   * `asyncHandler`, so a failure inside it is never handed to `next`: the
   * request gets no answer and the rejection ends the process. Otherwise the
   * handler lists or passes the envelope through.
   */
  method ListReviews(db: Db, bootcampId: Option<Id>, query: ListQuery.Query, find: ListQuery.Plan -> seq<Review>)
    returns (reply: Reply<Review>)
    ensures match ListQuery.ListResult(query, Some(BootcampPopulate), |db.reviews|, find)
            case Err(e) => reply == Unhandled(e)
            case Ok(env) => reply == GetReviews(bootcampId, db.reviews, Some(env))
  {
    var prepared := ListQuery.AdvancedResults(query, Some(BootcampPopulate), db.reviews, find);
    match prepared
    case Err(e) =>
      reply := Unhandled(e);
    case Ok(env) =>
      reply := GetReviews(bootcampId, db.reviews, Some(env));
  }

  /** `?select[a]=b` makes `select` an object, whose missing `split` the route never reports. */
  method ObjectSelectUnhandled(db: Db, bootcampId: Option<Id>, find: ListQuery.Plan -> seq<Review>)
    returns (reply: Reply<Review>)
    ensures reply.Unhandled?
  {
    var query := [Json.Member("select", Json.Obj([Json.Member("a", Json.Str("b"))]))];
    assert Json.Get(query, "select") == Some(Json.Obj([Json.Member("a", Json.Str("b"))]));
    reply := ListReviews(db, bootcampId, query, find);
  }

  /** Without a bootcamp id the route answers with the middleware's envelope: all the data found and the pagination descriptor. */
  lemma ListingPassesThrough(db: Db, query: ListQuery.Query, find: ListQuery.Plan -> seq<Review>)
    requires ListQuery.PlanFor(query, Some(BootcampPopulate)).Ok?
    ensures var r := ListQuery.ListResult(query, Some(BootcampPopulate), |db.reviews|, find);
            && r.Ok?
            && GetReviews(None, db.reviews, Some(r.value)) == Sent(200, Listing(r.value))
            && r.value.data == find(ListQuery.PlanFor(query, Some(BootcampPopulate)).value)
            && r.value.pagination.Some?
  {
  }
}
