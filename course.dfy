/**
 * The Course schema: its field constraints on create and on update, the
 * default for `scholarshipAvailable`, and the averageCost a bootcamp gets
 * from its courses' tuitions (the mean rounded up to a multiple of ten).
 * Tuition is an integer; JavaScript doubles are not modelled.
 */
module CourseModel {
  import opened Wrappers
  import JsString
  import opened Http
  import opened Schema

  datatype Course = Course(
    id: Id,
    title: string,
    description: string,
    weeks: string,
    tuition: int,
    minimumSkill: string,
    scholarshipAvailable: bool,
    bootcamp: Id,
    user: Id)

  /** A request body for a course: every field may be missing. */
  datatype CourseInput = CourseInput(
    title: Option<string>,
    description: Option<string>,
    weeks: Option<string>,
    tuition: Option<int>,
    minimumSkill: Option<string>,
    scholarshipAvailable: Option<bool>,
    bootcamp: Option<Id>,
    user: Option<Id>)

  const Skills: set<string> := {"beginner", "intermediate", "advanced"}

  /** `enum` passes a missing value; a present one must be listed. */
  predicate SkillOk(v: Option<string>) {
    v.None? || v.value in Skills
  }

  /** What every stored course satisfies. */
  predicate ValidCourse(c: Course) {
    && c.title != "" && JsString.Trimmed(c.title)
    && c.description != ""
    && c.weeks != ""
    && c.minimumSkill in Skills
  }

  /** The paths whose validators reject a new course. */
  function CreateFailures(b: CourseInput): set<string> {
    (if !Filled(TrimSetter(b.title)) then {"title"} else {})
    + (if !Filled(b.description) then {"description"} else {})
    + (if !Filled(b.weeks) then {"weeks"} else {})
    + (if b.tuition.None? then {"tuition"} else {})
    + (if !Filled(b.minimumSkill) || !SkillOk(b.minimumSkill) then {"minimumSkill"} else {})
    + (if b.bootcamp.None? then {"bootcamp"} else {})
    + (if b.user.None? then {"user"} else {})
  }

  /** `new Course(body)` and its validation: the record to store, or the failing paths. */
  function NewCourse(id: Id, b: CourseInput): (r: Result<Course, Failure>)
    ensures r.Ok? <==> CreateFailures(b) == {}
    ensures r.Err? ==> r.error == ValidationError(CreateFailures(b))
    ensures r.Ok? ==> ValidCourse(r.value) && r.value.id == id
    ensures r.Ok? ==> r.value.title == JsString.Trim(b.title.value) && r.value.tuition == b.tuition.value
    ensures r.Ok? ==> r.value.bootcamp == b.bootcamp.value && r.value.user == b.user.value
    ensures r.Ok? ==> r.value.scholarshipAvailable == b.scholarshipAvailable.GetOr(false)
    ensures r.Ok? ==> r.value.description == b.description.value && r.value.weeks == b.weeks.value
    ensures r.Ok? ==> r.value.minimumSkill == b.minimumSkill.value
  {
    if CreateFailures(b) != {} then Err(ValidationError(CreateFailures(b)))
    else
      assert "title" !in CreateFailures(b);
      Ok(Course(id, JsString.Trim(b.title.value), b.description.value, b.weeks.value, b.tuition.value,
                b.minimumSkill.value, b.scholarshipAvailable.GetOr(false), b.bootcamp.value, b.user.value))
  }

  /** The paths an update (`runValidators: true`) rejects; only the paths it sets are checked. */
  function UpdateFailures(u: CourseInput): (paths: set<string>)
    ensures paths <= {"title", "description", "weeks", "minimumSkill"}
  {
    (if u.title.Some? && !Filled(TrimSetter(u.title)) then {"title"} else {})
    + (if u.description.Some? && !Filled(u.description) then {"description"} else {})
    + (if u.weeks.Some? && !Filled(u.weeks) then {"weeks"} else {})
    + (if u.minimumSkill.Some? && (!Filled(u.minimumSkill) || !SkillOk(u.minimumSkill)) then {"minimumSkill"} else {})
  }

  /** `findByIdAndUpdate(id, body, {new: true, runValidators: true})` on one record: the fields sent replace the stored ones. */
  function ApplyUpdate(c: Course, u: CourseInput): (r: Result<Course, Failure>)
    ensures r.Ok? <==> UpdateFailures(u) == {}
    ensures r.Err? ==> r.error == ValidationError(UpdateFailures(u))
    ensures r.Ok? ==> r.value.id == c.id
    ensures r.Ok? ==> r.value.title == (if u.title.Some? then JsString.Trim(u.title.value) else c.title)
    ensures r.Ok? ==> r.value.tuition == u.tuition.GetOr(c.tuition)
    ensures r.Ok? ==> r.value.bootcamp == u.bootcamp.GetOr(c.bootcamp) && r.value.user == u.user.GetOr(c.user)
    ensures r.Ok? ==> r.value.description == u.description.GetOr(c.description) && r.value.weeks == u.weeks.GetOr(c.weeks)
    ensures r.Ok? ==> r.value.minimumSkill == u.minimumSkill.GetOr(c.minimumSkill)
    ensures r.Ok? ==> r.value.scholarshipAvailable == u.scholarshipAvailable.GetOr(c.scholarshipAvailable)
  {
    if UpdateFailures(u) != {} then Err(ValidationError(UpdateFailures(u)))
    else
      Ok(Course(c.id,
        if u.title.Some? then JsString.Trim(u.title.value) else c.title,
        u.description.GetOr(c.description),
        u.weeks.GetOr(c.weeks),
        u.tuition.GetOr(c.tuition),
        u.minimumSkill.GetOr(c.minimumSkill),
        u.scholarshipAvailable.GetOr(c.scholarshipAvailable),
        u.bootcamp.GetOr(c.bootcamp),
        u.user.GetOr(c.user)))
  }

  /** A validated update keeps a valid course valid. */
  lemma UpdateKeepsValid(c: Course, u: CourseInput)
    requires ValidCourse(c) && ApplyUpdate(c, u).Ok?
    ensures ValidCourse(ApplyUpdate(c, u).value)
  {
    if u.title.Some? {
      assert "title" !in UpdateFailures(u);
    }
    assert "description" !in UpdateFailures(u);
    assert "weeks" !in UpdateFailures(u);
    assert "minimumSkill" !in UpdateFailures(u);
  }

  /** A title of white space alone fails `required` after the trim, as does a missing one. */
  lemma BlankTitleRejected(id: Id, b: CourseInput)
    requires b.title.None? || JsString.AllWhite(b.title.value)
    ensures NewCourse(id, b).Err? && "title" in NewCourse(id, b).error.paths
  {
  }

  /** A minimum skill outside the three levels is rejected. */
  lemma UnknownSkillRejected(id: Id, b: CourseInput)
    requires b.minimumSkill == Some("expert")
    ensures NewCourse(id, b).Err? && "minimumSkill" in NewCourse(id, b).error.paths
  {
  }

  // ---------------------------------------------------------------------
  // averageCost

  /** The integer sum of the tuitions `$avg` averages. */
  function SumInt(xs: seq<int>): int {
    if xs == [] then 0 else SumInt(xs[..|xs| - 1]) + xs[|xs| - 1]
  }

  /** The least integer c with c * b >= a. */
  function CeilDiv(a: int, b: int): (c: int)
    requires b > 0
    ensures c * b >= a && (c - 1) * b < a
  {
    var q := (-a) / b;
    assert -a == q * b + (-a) % b;
    -q
  }

  /**
   * `Math.ceil(mean / 10) * 10` of a non-empty list of tuitions: the least
   * multiple of ten that is at least the mean.
   */
  function RoundedAverage(tuitions: seq<int>): (r: int)
    requires |tuitions| > 0
    ensures r % 10 == 0
    ensures r * |tuitions| >= SumInt(tuitions)
    ensures (r - 10) * |tuitions| < SumInt(tuitions)
  {
    var n := |tuitions|;
    var c := CeilDiv(SumInt(tuitions), 10 * n);
    assert c * 10 * n == c * (10 * n) && (c - 1) * (10 * n) == (c * 10 - 10) * n;
    10 * c
  }

  /** No smaller multiple of ten is at least the mean. */
  lemma RoundedAverageLeast(tuitions: seq<int>, m: int)
    requires |tuitions| > 0 && m % 10 == 0 && m * |tuitions| >= SumInt(tuitions)
    ensures m >= RoundedAverage(tuitions)
  {
    var n := |tuitions|;
    var r := RoundedAverage(tuitions);
    IntScaleLt(r - 10, m, n);
    assert m == 10 * (m / 10) && r == 10 * (r / 10);
  }

  lemma IntScaleLt(a: int, b: int, n: int)
    requires n > 0 && a * n < b * n
    ensures a < b
  {
  }

  /** In terms of the mean itself: mean <= averageCost < mean + 10. */
  lemma RoundedAverageBracketsMean(tuitions: seq<int>)
    requires |tuitions| > 0
    ensures var mean := SumInt(tuitions) as real / |tuitions| as real;
            mean <= RoundedAverage(tuitions) as real < mean + 10.0
  {
    var n := |tuitions| as real;
    var s := SumInt(tuitions) as real;
    var r := RoundedAverage(tuitions) as real;
    assert r * n >= s;
    assert (r - 10.0) * n < s;
    DivBounds(s, n, r);
  }

  lemma DivBounds(s: real, n: real, r: real)
    requires n > 0.0 && r * n >= s && (r - 10.0) * n < s
    ensures s / n <= r < s / n + 10.0
  {
    var m := s / n;
    assert m * n == s;
    RealScale(m, r, n);
    RealScale(r - 10.0, m, n);
  }

  lemma RealScale(a: real, b: real, n: real)
    requires n > 0.0 && a * n <= b * n
    ensures a <= b
  {
  }

  /** 950 and 1050 average to 1000, which is already a multiple of ten. */
  lemma AverageCostExample()
    ensures RoundedAverage([950, 1050]) == 1000
    ensures RoundedAverage([1000, 1001]) == 1010
  {
    assert SumInt([950, 1050]) == 2000 by { assert [950, 1050][..1] == [950]; }
    assert SumInt([1000, 1001]) == 2001 by { assert [1000, 1001][..1] == [1000]; }
    RoundedAverageLeast([950, 1050], 1000);
    RoundedAverageLeast([1000, 1001], 1010);
  }

  /** The tuitions of the courses of one bootcamp, in table order: the `$match` stage. */
  function TuitionsOf(courses: seq<Course>, bootcamp: Id): (ts: seq<int>)
    ensures |ts| <= |courses|
    ensures |ts| == 0 <==> forall i :: 0 <= i < |courses| ==> courses[i].bootcamp != bootcamp
  {
    if courses == [] then []
    else
      var rest := TuitionsOf(courses[1..], bootcamp);
      assert forall i :: 1 <= i < |courses| ==> courses[i] == courses[1..][i - 1];
      if courses[0].bootcamp == bootcamp then [courses[0].tuition] + rest else rest
  }

  /** Courses of other bootcamps do not contribute. */
  lemma {:induction false} TuitionsOfOther(courses: seq<Course>, c: Course, bootcamp: Id)
    ensures TuitionsOf(courses + [c], bootcamp)
            == TuitionsOf(courses, bootcamp) + (if c.bootcamp == bootcamp then [c.tuition] else [])
  {
    if courses != [] {
      assert (courses + [c])[1..] == courses[1..] + [c];
      TuitionsOfOther(courses[1..], c, bootcamp);
    } else {
      assert [] + [c] == [c];
      assert [c][1..] == [];
    }
  }

  /** The averageCost getAverageCost writes, or None when `obj[0]` is undefined and the write is skipped. */
  function AverageCost(courses: seq<Course>, bootcamp: Id): (r: Option<int>)
    ensures r.None? <==> forall i :: 0 <= i < |courses| ==> courses[i].bootcamp != bootcamp
    ensures r.Some? ==> r.value % 10 == 0
  {
    var ts := TuitionsOf(courses, bootcamp);
    if |ts| == 0 then None else Some(RoundedAverage(ts))
  }

  /** The recompute after saving `c` runs over a table that already holds it, so its tuition is averaged in. */
  lemma AverageCostAfterSave(courses: seq<Course>, c: Course)
    ensures AverageCost(courses + [c], c.bootcamp)
            == Some(RoundedAverage(TuitionsOf(courses, c.bootcamp) + [c.tuition]))
  {
    TuitionsOfOther(courses, c, c.bootcamp);
  }

  /** Every course of the bootcamp contributes its tuition, the one a pre-delete hook is about to remove included. */
  lemma {:induction false} TuitionCounted(courses: seq<Course>, i: nat)
    requires i < |courses|
    ensures courses[i].tuition in TuitionsOf(courses, courses[i].bootcamp)
  {
    if i > 0 {
      assert courses[i] == courses[1..][i - 1];
      TuitionCounted(courses[1..], i - 1);
    }
  }
}
