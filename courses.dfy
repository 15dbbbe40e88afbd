/**
 * The course handlers: the nested listing, the single read, and the three
 * mutations with their owner-or-admin rule. The caller is `req.user`,
 * None when no `protect` ran before the handler; reading a property of it
 * then faults, as does reading one of a record `findById` did not find.
 */
module CoursesController {
  import opened Wrappers
  import JsString
  import opened Http
  import opened CourseModel
  import opened UserModel
  import opened Store
  import BootcampsController

  /** The rule every mutation applies: the record's owner, or an admin. */
  predicate Permitted(owner: Id, caller: User) {
    owner == caller.id || caller.role == "admin"
  }

  /** `req.user.id` with no `req.user`. */
  const NoCaller := TypeError("Cannot read properties of undefined (reading 'id')")
  /** `record.user` on the null `findById` returned. */
  const NoRecord := TypeError("Cannot read properties of null (reading 'user')")
  /** `bootcamp.user.toString()` on a bootcamp without an owner. */
  const NoOwner := TypeError("Cannot read properties of undefined (reading 'toString')")

  function CourseNotFound(id: Id): Failure {
    ErrorResponse(404, "No course with the id of " + JsString.Decimal(id))
  }

  function BootcampNotFound(id: Id): Failure {
    ErrorResponse(404, "No bootcamp with the id of " + JsString.Decimal(id))
  }

  function AddDenied(caller: Id): Failure {
    ErrorResponse(401, "User with User ID " + JsString.Decimal(caller) + " is not authorized to add  this course.")
  }

  function UpdateDenied(caller: Id, course: Id): Failure {
    ErrorResponse(401, "User with User ID " + JsString.Decimal(caller) + " is not authorized to update this course "
                       + JsString.Decimal(course) + ".")
  }

  function DeleteDenied(caller: Id, course: Id): Failure {
    ErrorResponse(401, "User with User ID " + JsString.Decimal(caller) + " is not authorized to delete this course "
                       + JsString.Decimal(course) + ".")
  }

  /** A stored user is never an admin, so for the callers `protect` finds only ownership counts. */
  lemma StoredCallerNeedsOwnership(db: Db, caller: User, owner: Id)
    requires db.Valid() && caller in db.users
    ensures Permitted(owner, caller) <==> owner == caller.id
  {
    var i :| 0 <= i < |db.users| && db.users[i] == caller;
    assert caller.role in Roles;
  }

  // ---------------------------------------------------------------------
  // Reads

  /**
   * `getCourses`: with a bootcamp id, exactly that bootcamp's courses, with
   * their count and no `pagination`; without one, whatever the middleware
   * prepared, which on this route is nothing (`res.json(undefined)`).
   */
  function GetCourses(bootcampId: Option<Id>, courses: seq<Course>, advanced: Option<Envelope<Course>>)
    : (reply: Reply<Course>)
    ensures reply.Sent? && reply.status == 200
    ensures bootcampId.Some? ==>
              && reply.body.Listing?
              && reply.body.envelope.success
              && reply.body.envelope.count == |reply.body.envelope.data|
              && reply.body.envelope.pagination.None?
              && (forall i :: 0 <= i < |reply.body.envelope.data| ==> reply.body.envelope.data[i].bootcamp == bootcampId.value)
              && (forall c: Course :: c.bootcamp == bootcampId.value ==> multiset(reply.body.envelope.data)[c] == multiset(courses)[c])
    ensures bootcampId.None? && advanced.Some? ==> reply.body == Listing(advanced.value)
    ensures bootcampId.None? && advanced.None? ==> reply.body == Undefined
  {
    match bootcampId
    case Some(b) => Sent(200, Listing(PlainListing(Matching(courses, (c: Course) => c.bootcamp == b))))
    case None => Sent(200, if advanced.Some? then Listing(advanced.value) else Undefined)
  }

  /** The paths `getCourse` populates its bootcamp with. */
  const CourseBootcampSelect: set<string> := {"name", "description"}

  /**
   * A course as `getCourse` sends it: the stored course, whose `bootcamp`
   * path the reply replaces by the populated bootcamp, or by `null` when
   * no bootcamp has the referenced id.
   */
  datatype PopulatedCourse = PopulatedCourse(course: Course, bootcamp: Option<BootcampView>)

  /**
   * `getCourse`: 404 when no course has the id; else 200 with it, its
   * bootcamp populated with `name` and `description`, or `null`.
   */
  function GetCourse(db: Db, id: Id): (reply: Reply<PopulatedCourse>)
    reads db
    ensures reply.Sent? || reply.Next?
    ensures reply.Next? <==> db.FindCourse(id).None?
    ensures reply.Next? ==> reply.failure == CourseNotFound(id)
    ensures reply.Sent? ==> reply.status == 200 && reply.body.Data? && reply.body.data.course in db.courses
                            && reply.body.data.course.id == id
    ensures reply.Sent? ==> (reply.body.data.bootcamp.None? <==> db.FindBootcamp(reply.body.data.course.bootcamp).None?)
    ensures reply.Sent? && reply.body.data.bootcamp.Some? ==>
              var v := reply.body.data.bootcamp.value;
              var b := db.FindBootcamp(reply.body.data.course.bootcamp).value;
              && v.id == reply.body.data.course.bootcamp
              && v.details.Keys == b.details.Keys * CourseBootcampSelect
              && (forall k :: k in v.details ==> v.details[k] == b.details[k])
  {
    match db.FindCourse(id)
    case None => Next(CourseNotFound(id))
    case Some(c) =>
      var view := match db.FindBootcamp(c.bootcamp)
                  case None => None
                  case Some(b) => Some(Selected(b, CourseBootcampSelect));
      Sent(200, Data(PopulatedCourse(c, view)))
  }

  /**
   * `deleteBootcamp` leaves the bootcamp's courses in place, so reading one
   * of them afterwards sends it with `bootcamp: null`.
   */
  method OrphanedCourse(db: Db, bootcampId: Id, courseId: Id)
    returns (deleted: Reply<Bootcamp>, read: Reply<PopulatedCourse>)
    requires db.Valid() && db.FindBootcamp(bootcampId).Some?
    requires db.FindCourse(courseId).Some? && db.FindCourse(courseId).value.bootcamp == bootcampId
    modifies db
    ensures deleted == Sent(200, NoData)
    ensures read.Sent? && read.status == 200 && read.body.Data?
    ensures read.body.data.course == old(db.FindCourse(courseId)).value && read.body.data.bootcamp.None?
  {
    deleted := BootcampsController.DeleteBootcamp(db, bootcampId);
    read := GetCourse(db, courseId);
  }

  // ---------------------------------------------------------------------
  // addCourse

  /**
   * The checks `addCourse` makes before creating, as written: `req.user.id`
   * first, then the owner test, which reads `bootcamp.user` before the null
   * check below it can run.
   */
  function AddCourseGate(bootcampId: Id, bootcamp: Option<Bootcamp>, caller: Option<User>): (f: Option<Failure>)
    ensures f.None? <==> caller.Some? && bootcamp.Some? && bootcamp.value.user.Some?
                         && Permitted(bootcamp.value.user.value, caller.value)
    ensures caller.None? ==> f == Some(NoCaller)
    ensures caller.Some? && bootcamp.None? ==> f == Some(NoRecord)
    ensures caller.Some? && bootcamp.Some? && bootcamp.value.user.Some? && !Permitted(bootcamp.value.user.value, caller.value)
            ==> f == Some(AddDenied(caller.value.id))
    ensures f.Some? && f.value.ErrorResponse? ==> caller.Some? && f.value == AddDenied(caller.value.id)
  {
    if caller.None? then Some(NoCaller)
    else if bootcamp.None? then Some(NoRecord)
    else if bootcamp.value.user.None? then Some(NoOwner)
    else if !Permitted(bootcamp.value.user.value, caller.value) then Some(AddDenied(caller.value.id))
    else None
  }

  /** The same checks with the null check moved before the owner test. */
  function AddCourseGateFixed(bootcampId: Id, bootcamp: Option<Bootcamp>, caller: Option<User>): (f: Option<Failure>)
    ensures f.None? <==> caller.Some? && bootcamp.Some? && bootcamp.value.user.Some?
                         && Permitted(bootcamp.value.user.value, caller.value)
    ensures caller.None? ==> f == Some(NoCaller)
    ensures caller.Some? && bootcamp.None? ==> f == Some(BootcampNotFound(bootcampId))
    ensures caller.Some? && bootcamp.Some? && bootcamp.value.user.Some? && !Permitted(bootcamp.value.user.value, caller.value)
            ==> f == Some(AddDenied(caller.value.id))
  {
    if caller.None? then Some(NoCaller)
    else if bootcamp.None? then Some(BootcampNotFound(bootcampId))
    else if bootcamp.value.user.None? then Some(NoOwner)
    else if !Permitted(bootcamp.value.user.value, caller.value) then Some(AddDenied(caller.value.id))
    else None
  }

  /** A missing bootcamp faults instead of giving the 404 the handler has code for. */
  lemma AddCourseMissingBootcampFaults(bootcampId: Id, caller: User)
    ensures AddCourseGate(bootcampId, None, Some(caller)) == Some(NoRecord)
    ensures AddCourseGateFixed(bootcampId, None, Some(caller)) == Some(BootcampNotFound(bootcampId))
    ensures AddCourseGate(bootcampId, None, Some(caller)) != AddCourseGateFixed(bootcampId, None, Some(caller))
  {
  }

  /** When the bootcamp exists, or there is no caller, the fix changes nothing. */
  lemma AddCourseGatesAgree(bootcampId: Id, bootcamp: Option<Bootcamp>, caller: Option<User>)
    requires bootcamp.Some? || caller.None?
    ensures AddCourseGate(bootcampId, bootcamp, caller) == AddCourseGateFixed(bootcampId, bootcamp, caller)
  {
  }

  /** The body `addCourse` creates from: the path's bootcamp and the caller's id replace whatever was sent. */
  function AddCourseBody(body: CourseInput, bootcampId: Id, caller: User): (b: CourseInput)
    ensures b.bootcamp == Some(bootcampId) && b.user == Some(caller.id)
    ensures b.(bootcamp := body.bootcamp, user := body.user) == body
  {
    body.(bootcamp := Some(bootcampId), user := Some(caller.id))
  }

  /** `addCourse` as written. */
  method AddCourse(db: Db, bootcampId: Id, body: CourseInput, caller: Option<User>) returns (reply: Reply<Course>)
    requires db.Valid()
    modifies db
    ensures db.Valid()
    ensures AddCourseGate(bootcampId, old(db.FindBootcamp(bootcampId)), caller).Some? ==>
              && reply == Next(AddCourseGate(bootcampId, old(db.FindBootcamp(bootcampId)), caller).value)
              && db.courses == old(db.courses) && db.bootcamps == old(db.bootcamps)
    ensures AddCourseGate(bootcampId, old(db.FindBootcamp(bootcampId)), caller).None? ==>
              match NewCourse(old(db.nextId), AddCourseBody(body, bootcampId, caller.value))
              case Err(e) => reply == Next(e) && db.courses == old(db.courses) && db.bootcamps == old(db.bootcamps)
              case Ok(c) =>
                && reply == Sent(200, Data(c))
                && c.bootcamp == bootcampId && c.user == caller.value.id
                && db.courses == old(db.courses) + [c]
                && db.bootcamps == AfterAverageCost(old(db.bootcamps), db.courses, bootcampId)
    ensures db.reviews == old(db.reviews) && db.users == old(db.users)
  {
    var gate := AddCourseGate(bootcampId, db.FindBootcamp(bootcampId), caller);
    if gate.Some? {
      return Next(gate.value);
    }
    var r := db.CreateCourse(AddCourseBody(body, bootcampId, caller.value));
    match r
    case Err(e) =>
      reply := Next(e);
    case Ok(c) =>
      reply := Sent(200, Data(c));
  }

  /** `addCourse` with the null check first: a missing bootcamp is a 404. */
  method AddCourseFixed(db: Db, bootcampId: Id, body: CourseInput, caller: Option<User>) returns (reply: Reply<Course>)
    requires db.Valid()
    modifies db
    ensures db.Valid()
    ensures AddCourseGateFixed(bootcampId, old(db.FindBootcamp(bootcampId)), caller).Some? ==>
              && reply == Next(AddCourseGateFixed(bootcampId, old(db.FindBootcamp(bootcampId)), caller).value)
              && db.courses == old(db.courses) && db.bootcamps == old(db.bootcamps)
    ensures AddCourseGateFixed(bootcampId, old(db.FindBootcamp(bootcampId)), caller).None? ==>
              match NewCourse(old(db.nextId), AddCourseBody(body, bootcampId, caller.value))
              case Err(e) => reply == Next(e) && db.courses == old(db.courses) && db.bootcamps == old(db.bootcamps)
              case Ok(c) =>
                && reply == Sent(200, Data(c))
                && c.bootcamp == bootcampId && c.user == caller.value.id
                && db.courses == old(db.courses) + [c]
                && db.bootcamps == AfterAverageCost(old(db.bootcamps), db.courses, bootcampId)
    ensures db.reviews == old(db.reviews) && db.users == old(db.users)
  {
    var gate := AddCourseGateFixed(bootcampId, db.FindBootcamp(bootcampId), caller);
    if gate.Some? {
      return Next(gate.value);
    }
    var r := db.CreateCourse(AddCourseBody(body, bootcampId, caller.value));
    match r
    case Err(e) =>
      reply := Next(e);
    case Ok(c) =>
      reply := Sent(200, Data(c));
  }

  // ---------------------------------------------------------------------
  // updateCourse

  /** The checks `updateCourse` makes: the 404 first, then the caller, then the owner rule. */
  function UpdateCourseGate(id: Id, course: Option<Course>, caller: Option<User>): (f: Option<Failure>)
    ensures f.None? <==> course.Some? && caller.Some? && Permitted(course.value.user, caller.value)
    ensures course.None? ==> f == Some(CourseNotFound(id))
    ensures course.Some? && caller.None? ==> f == Some(NoCaller)
    ensures course.Some? && caller.Some? && !Permitted(course.value.user, caller.value) ==>
              f == Some(UpdateDenied(caller.value.id, course.value.id))
  {
    if course.None? then Some(CourseNotFound(id))
    else if caller.None? then Some(NoCaller)
    else if !Permitted(course.value.user, caller.value) then Some(UpdateDenied(caller.value.id, course.value.id))
    else None
  }

  /**
   * `updateCourse`: after the checks, the update validators, then the
   * fields sent replace the stored ones and the updated course is returned.
   * The averages are not recomputed.
   */
  method UpdateCourse(db: Db, id: Id, body: CourseInput, caller: Option<User>) returns (reply: Reply<Course>)
    requires db.Valid()
    modifies db
    ensures db.Valid()
    ensures UpdateCourseGate(id, old(db.FindCourse(id)), caller).Some? ==>
              reply == Next(UpdateCourseGate(id, old(db.FindCourse(id)), caller).value) && db.courses == old(db.courses)
    ensures UpdateCourseGate(id, old(db.FindCourse(id)), caller).None? ==>
              match ApplyUpdate(old(db.FindCourse(id)).value, body)
              case Err(e) => reply == Next(e) && db.courses == old(db.courses)
              case Ok(c) =>
                && reply == Sent(200, Data(c))
                && db.FindCourse(id) == Some(c) && |db.courses| == |old(db.courses)|
                && db.courses == old(db.courses)[IndexOf(old(db.courses), CourseId, id).value := c]
    ensures db.bootcamps == old(db.bootcamps) && db.reviews == old(db.reviews) && db.users == old(db.users)
  {
    var gate := UpdateCourseGate(id, db.FindCourse(id), caller);
    if gate.Some? {
      return Next(gate.value);
    }
    ghost var i := IndexOf(db.courses, CourseId, id).value;
    ghost var before := db.courses;
    var r := db.UpdateCourse(id, body);
    match r
    case Err(e) =>
      reply := Next(e);
    case Ok(found) =>
      assert found.Some?;
      reply := Sent(200, Data(found.value));
      IndexOfReplace(before, CourseId, i, found.value);
  }

  // ---------------------------------------------------------------------
  // deleteCourse

  /** The checks `deleteCourse` makes, as written: the owner test reads `course.user` before the null check. */
  function DeleteCourseGate(id: Id, course: Option<Course>, caller: Option<User>): (f: Option<Failure>)
    ensures f.None? <==> course.Some? && caller.Some? && Permitted(course.value.user, caller.value)
    ensures course.None? ==> f == Some(NoRecord)
    ensures course.Some? && caller.None? ==> f == Some(NoCaller)
    ensures course.Some? && caller.Some? && !Permitted(course.value.user, caller.value) ==>
              f == Some(DeleteDenied(caller.value.id, course.value.id))
  {
    if course.None? then Some(NoRecord)
    else if caller.None? then Some(NoCaller)
    else if !Permitted(course.value.user, caller.value) then Some(DeleteDenied(caller.value.id, course.value.id))
    else None
  }

  /** The same checks with the null check first. */
  function DeleteCourseGateFixed(id: Id, course: Option<Course>, caller: Option<User>): (f: Option<Failure>)
    ensures f.None? <==> course.Some? && caller.Some? && Permitted(course.value.user, caller.value)
    ensures course.None? ==> f == Some(CourseNotFound(id))
    ensures course.Some? && caller.None? ==> f == Some(NoCaller)
    ensures course.Some? && caller.Some? && !Permitted(course.value.user, caller.value) ==>
              f == Some(DeleteDenied(caller.value.id, course.value.id))
  {
    if course.None? then Some(CourseNotFound(id))
    else if caller.None? then Some(NoCaller)
    else if !Permitted(course.value.user, caller.value) then Some(DeleteDenied(caller.value.id, course.value.id))
    else None
  }

  /** A missing course faults instead of giving the 404; with the course present the two agree. */
  lemma DeleteCourseMissingFaults(id: Id, course: Option<Course>, caller: Option<User>)
    ensures course.None? ==> DeleteCourseGate(id, course, caller) == Some(NoRecord)
                             && DeleteCourseGateFixed(id, course, caller) == Some(CourseNotFound(id))
    ensures course.Some? ==> DeleteCourseGate(id, course, caller) == DeleteCourseGateFixed(id, course, caller)
  {
  }

  /**
   * `Course.deleteOne()` removes the first course of the table: when the
   * checked course is not the first, it survives and the first one goes.
   */
  lemma DeleteOneMissesTarget(cs: seq<Course>, i: nat)
    requires 0 < i < |cs| && IdsDistinct(cs, CourseId)
    ensures IndexOf(cs[1..], CourseId, cs[i].id) == Some(i - 1)
    ensures IndexOf(cs[1..], CourseId, cs[0].id).None?
  {
    var rest := cs[1..];
    assert forall k :: 0 <= k < |rest| ==> rest[k] == cs[k + 1];
    assert IdsDistinct(rest, CourseId);
    IndexOfAt(rest, CourseId, i - 1);
  }

  /** `deleteCourse` as written: after the checks, the first course of the table is deleted, and no hook runs. */
  method DeleteCourse(db: Db, id: Id, caller: Option<User>) returns (reply: Reply<Course>)
    requires db.Valid()
    modifies db
    ensures db.Valid()
    ensures DeleteCourseGate(id, old(db.FindCourse(id)), caller).Some? ==>
              reply == Next(DeleteCourseGate(id, old(db.FindCourse(id)), caller).value) && db.courses == old(db.courses)
    ensures DeleteCourseGate(id, old(db.FindCourse(id)), caller).None? ==>
              reply == Sent(200, NoData) && db.courses == old(db.courses)[1..]
    ensures db.bootcamps == old(db.bootcamps) && db.reviews == old(db.reviews) && db.users == old(db.users)
  {
    var gate := DeleteCourseGate(id, db.FindCourse(id), caller);
    if gate.Some? {
      return Next(gate.value);
    }
    db.DeleteFirstCourse();
    reply := Sent(200, NoData);
  }

  /**
   * `deleteCourse` corrected: the null check first, and the checked course
   * deleted through `findOneAndDelete`, the one deletion the Course schema
   * hooks, so the averageCost is recomputed before it goes.
   */
  method DeleteCourseFixed(db: Db, id: Id, caller: Option<User>) returns (reply: Reply<Course>)
    requires db.Valid()
    modifies db
    ensures db.Valid()
    ensures DeleteCourseGateFixed(id, old(db.FindCourse(id)), caller).Some? ==>
              reply == Next(DeleteCourseGateFixed(id, old(db.FindCourse(id)), caller).value)
              && db.courses == old(db.courses) && db.bootcamps == old(db.bootcamps)
    ensures DeleteCourseGateFixed(id, old(db.FindCourse(id)), caller).None? ==>
              && reply == Sent(200, NoData)
              && db.courses == RemoveAt(old(db.courses), IndexOf(old(db.courses), CourseId, id).value)
              && db.FindCourse(id).None? && |db.courses| == |old(db.courses)| - 1
              && (forall c :: c in old(db.courses) && c.id != id ==> c in db.courses)
              && db.bootcamps == AfterAverageCost(old(db.bootcamps), old(db.courses), old(db.FindCourse(id)).value.bootcamp)
    ensures db.reviews == old(db.reviews) && db.users == old(db.users)
  {
    var gate := DeleteCourseGateFixed(id, db.FindCourse(id), caller);
    if gate.Some? {
      return Next(gate.value);
    }
    ghost var i := IndexOf(db.courses, CourseId, id).value;
    ghost var before := db.courses;
    var r := db.FindOneAndDeleteCourse(id);
    RemoveByIdGone(before, CourseId, i);
    RemoveKeepsOthers(before, i);
    reply := Sent(200, NoData);
  }
}
