/**
 * The bootcamp handlers. None of them checks who the caller is: the routes
 * mount no `protect`, and no handler compares an owner.
 */
module BootcampsController {
  import opened Wrappers
  import JsString
  import opened Http
  import ListQuery
  import opened Store

  /** What `getBootcamps` asks the store to populate. */
  const CoursesPopulate := ListQuery.Populate("courses", None)

  function NotFound(id: Id): Failure {
    ErrorResponse(404, "Bootcamp not found with id of " + JsString.Decimal(id))
  }

  /**
   * `getBootcamps`: the same pipeline as the advancedResults middleware,
   * always populating `courses`, counted over the whole bootcamp table.
   */
  method GetBootcamps(db: Db, query: ListQuery.Query, find: ListQuery.Plan -> seq<Bootcamp>)
    returns (reply: Reply<Bootcamp>)
    ensures match ListQuery.ListResult(query, Some(CoursesPopulate), |db.bootcamps|, find)
            case Err(e) => reply == Next(e)
            case Ok(env) => reply == Sent(200, Listing(env))
  {
    var r := ListQuery.AdvancedResults(query, Some(CoursesPopulate), db.bootcamps, find);
    match r
    case Err(e) =>
      reply := Next(e);
    case Ok(env) =>
      reply := Sent(200, Listing(env));
  }

  /** Every successful listing: `count` is the length of all the data found, `courses` is always
      populated, and the filter is the one the middleware builds from the same query. */
  lemma GetBootcampsCount(db: Db, query: ListQuery.Query, find: ListQuery.Plan -> seq<Bootcamp>)
    requires ListQuery.PlanFor(query, Some(CoursesPopulate)).Ok?
    ensures var r := ListQuery.ListResult(query, Some(CoursesPopulate), |db.bootcamps|, find);
            && r.Ok?
            && r.value.data == find(ListQuery.PlanFor(query, Some(CoursesPopulate)).value)
            && r.value.count == |r.value.data|
            && ListQuery.PlanFor(query, Some(CoursesPopulate)).value.populate == Some(CoursesPopulate)
            && ListQuery.PlanFor(query, Some(CoursesPopulate)).value.filter == ListQuery.PlanFor(query, None).value.filter
  {
  }

  /** `getBootcamp`: 404 when no bootcamp has the id, else 200 with it. */
  function GetBootcamp(db: Db, id: Id): (reply: Reply<Bootcamp>)
    reads db
    ensures reply.Sent? || reply.Next?
    ensures reply.Next? <==> db.FindBootcamp(id).None?
    ensures reply.Next? ==> reply.failure == NotFound(id)
    ensures reply.Sent? ==> reply.status == 200 && reply.body.Data? && reply.body.data in db.bootcamps
                            && reply.body.data.id == id
  {
    match db.FindBootcamp(id)
    case None => Next(NotFound(id))
    case Some(b) => Sent(200, Data(b))
  }

  /** `createBootcamp`: the body is stored as sent, aggregates included, and 201 returned. */
  method CreateBootcamp(db: Db, body: BootcampInput) returns (reply: Reply<Bootcamp>)
    requires db.Valid()
    modifies db
    ensures db.Valid()
    ensures var b := Bootcamp(old(db.nextId), body.user, body.details, body.averageCost, body.averageRating);
            reply == Sent(201, Data(b)) && db.bootcamps == old(db.bootcamps) + [b]
    ensures db.courses == old(db.courses) && db.reviews == old(db.reviews) && db.users == old(db.users)
  {
    var b := db.CreateBootcamp(body);
    reply := Sent(201, Data(b));
  }

  /**
   * No one-per-owner rule: posting the same body twice to an empty store
   * answers 201 both times and leaves two bootcamps with the same owner.
   */
  method NoOnePerOwnerRule(body: BootcampInput) returns (first: Reply<Bootcamp>, second: Reply<Bootcamp>, stored: seq<Bootcamp>)
    ensures first.Sent? && first.status == 201 && second.Sent? && second.status == 201
    ensures |stored| == 2 && stored[0].user == body.user && stored[1].user == body.user
    ensures stored[0].id != stored[1].id
  {
    var db := new Db();
    first := CreateBootcamp(db, body);
    second := CreateBootcamp(db, body);
    stored := db.bootcamps;
  }

  /** `updateBootcamp`: 404 when no bootcamp has the id; else the sent paths are applied and the result returned. */
  method UpdateBootcamp(db: Db, id: Id, body: BootcampInput) returns (reply: Reply<Bootcamp>)
    requires db.Valid()
    modifies db
    ensures db.Valid()
    ensures reply.Sent? || reply.Next?
    ensures reply.Next? <==> old(db.FindBootcamp(id)).None?
    ensures reply.Next? ==> reply.failure == NotFound(id) && db.bootcamps == old(db.bootcamps)
    ensures reply.Sent? ==> reply == Sent(200, Data(ApplyBootcampUpdate(old(db.FindBootcamp(id)).value, body)))
    ensures reply.Sent? ==> db.FindBootcamp(id) == Some(reply.body.data) && |db.bootcamps| == |old(db.bootcamps)|
    ensures reply.Sent? ==> db.bootcamps == old(db.bootcamps)[IndexOf(old(db.bootcamps), BootcampId, id).value := reply.body.data]
    ensures db.courses == old(db.courses) && db.reviews == old(db.reviews) && db.users == old(db.users)
  {
    var r := db.UpdateBootcamp(id, body);
    match r
    case None =>
      reply := Next(NotFound(id));
    case Some(b) =>
      reply := Sent(200, Data(b));
      var i := IndexOf(old(db.bootcamps), BootcampId, id).value;
      IndexOfReplace(old(db.bootcamps), BootcampId, i, b);
  }

  /** `deleteBootcamp`: 404 when no bootcamp has the id; else exactly that record is removed. */
  method DeleteBootcamp(db: Db, id: Id) returns (reply: Reply<Bootcamp>)
    requires db.Valid()
    modifies db
    ensures db.Valid()
    ensures reply.Sent? || reply.Next?
    ensures reply.Next? <==> old(db.FindBootcamp(id)).None?
    ensures reply.Next? ==> reply.failure == NotFound(id) && db.bootcamps == old(db.bootcamps)
    ensures reply.Sent? ==> reply == Sent(200, NoData)
    ensures reply.Sent? ==> db.bootcamps == RemoveAt(old(db.bootcamps), IndexOf(old(db.bootcamps), BootcampId, id).value)
    ensures reply.Sent? ==> db.FindBootcamp(id).None? && |db.bootcamps| == |old(db.bootcamps)| - 1
    ensures reply.Sent? ==> forall b :: b in old(db.bootcamps) && b.id != id ==> b in db.bootcamps
    ensures db.courses == old(db.courses) && db.reviews == old(db.reviews) && db.users == old(db.users)
  {
    var r := db.DeleteBootcamp(id);
    match r
    case None =>
      reply := Next(NotFound(id));
    case Some(_) =>
      reply := Sent(200, NoData);
      var i := IndexOf(old(db.bootcamps), BootcampId, id).value;
      RemoveByIdGone(old(db.bootcamps), BootcampId, i);
      RemoveKeepsOthers(old(db.bootcamps), i);
  }
}
