/** Enrollment creation and listing (src/app/api/enrollments/route.ts): the
    request checks, the duplicate check, seeding one zeroed progress entry per
    catalogue module, and the `courseDetails` attached on listing.

    The set of stored enrollment documents is an `EnrollmentStore` keyed by
    (user id, course number); the database behind `findOne`/`create` is not
    modelled otherwise. */
module Enrollments {
  import opened Wrappers
  import opened Text
  import opened CourseCatalog
  import opened ProgressRecords
  import opened EnrollmentModel

  /** The `courseId` field of the POST body as JSON delivers it. */
  datatype CourseIdField = Absent | Numeric(n: int) | Textual(s: string)

  /** `!courseId`: absent, the number 0 and the empty string are falsy. */
  predicate IsFalsy(f: CourseIdField) {
    f.Absent? || f == Numeric(0) || f == Textual("")
  }

  /** `Number(courseId)` when it yields an integer: a number as is, a string of
      decimal digits read in base 10. Any other string gives NaN, which is not a
      key of the table. */
  function CourseNumber(f: CourseIdField): (r: Option<int>)
    ensures f.Numeric? ==> r == Some(f.n)
    ensures f.Textual? && f.s != "" && AllDigits(f.s) ==> r == Some(ParseNat(f.s))
    ensures f.Textual? && !AllDigits(f.s) ==> r.None?
  {
    match f
    case Absent => None
    case Numeric(n) => Some(n)
    case Textual(s) => if s != "" && AllDigits(s) then Some(ParseNat(s)) else None
  }

  /** `initialModuleProgress`: one zeroed entry per module, in course order. */
  function InitialModuleProgress(modules: seq<Module>): (r: seq<ModuleProgress>)
    ensures |r| == |modules|
    ensures forall i :: 0 <= i < |r| ==>
              && r[i].moduleId == modules[i].id
              && !r[i].completed && !r[i].assessmentCompleted
              && r[i].videoProgress == 0 && r[i].lastWatchedPosition == 0
              && r[i].lessons == []
  {
    seq(|modules|, i requires 0 <= i < |modules| => ZeroedModule(modules[i].id))
  }

  /** Seeding a catalogue course yields a well-formed record (distinct module
      ids, no lessons yet) on which no prerequisite is satisfied. */
  lemma SeededRecordWellFormed(courseId: int)
    requires courseId in CourseModules
    ensures WellFormed(InitialModuleProgress(CourseModules[courseId]))
    ensures forall i :: 0 <= i < |InitialModuleProgress(CourseModules[courseId])| ==>
              !InitialModuleProgress(CourseModules[courseId])[i].completed
  {
    CatalogueShape();
    var mods := CourseModules[courseId];
    var r := InitialModuleProgress(mods);
    forall i, j | 0 <= i < j < |r| ensures r[i].moduleId != r[j].moduleId {
      assert mods[i].id != mods[j].id;
    }
  }

  datatype EnrollResponse = EnrollFailed(status: int) | Enrolled(record: Enrollment)

  /** Every stored document, keyed by (user id, course number). */
  class EnrollmentStore {
    var enrollments: map<(string, int), Enrollment>

    constructor ()
      ensures enrollments == map[]
    {
      enrollments := map[];
    }

    /** POST: 401 without a cookie, 500 when verification throws, 400 for a falsy
        course id, 404 when the number is not a course of the table, 400 when the
        user is already enrolled (nothing is created); otherwise a new document
        seeded with every module of the course, the first one current. */
    method Enroll(session: Session, courseId: CourseIdField, now: int) returns (resp: EnrollResponse)
      modifies this
      ensures session.NoToken? ==> resp == EnrollFailed(401)
      ensures session.InvalidToken? ==> resp == EnrollFailed(500)
      ensures session.Token? && IsFalsy(courseId) ==> resp == EnrollFailed(400)
      ensures session.Token? && !IsFalsy(courseId) &&
              (CourseNumber(courseId).None? || CourseNumber(courseId).value !in CourseModules) ==>
                resp == EnrollFailed(404)
      ensures session.Token? && !IsFalsy(courseId) && CourseNumber(courseId).Some? &&
              CourseNumber(courseId).value in CourseModules &&
              (session.userId, CourseNumber(courseId).value) in old(enrollments) ==>
                resp == EnrollFailed(400)
      ensures resp.Enrolled? <==>
                session.Token? && !IsFalsy(courseId) && CourseNumber(courseId).Some? &&
                CourseNumber(courseId).value in CourseModules &&
                (session.userId, CourseNumber(courseId).value) !in old(enrollments)
      ensures resp.EnrollFailed? ==> enrollments == old(enrollments)
      ensures resp.Enrolled? ==>
                && session.Token? && CourseNumber(courseId).Some?
                && var key := (session.userId, CourseNumber(courseId).value);
                && var course := CourseModules[key.1];
                && key !in old(enrollments)
                && fresh(resp.record)
                && enrollments == old(enrollments)[key := resp.record]
                && resp.record.userId == key.0 && resp.record.courseId == key.1
                && resp.record.moduleProgress == InitialModuleProgress(course)
                && resp.record.currentModule == course[0].id
                && resp.record.overallProgress == 0 && !resp.record.isCompleted
                && resp.record.enrollmentDate == now && resp.record.lastAccessDate == now
    {
      if session.NoToken? {
        return EnrollFailed(401);
      }
      if session.InvalidToken? {
        return EnrollFailed(500);
      }
      if IsFalsy(courseId) {
        return EnrollFailed(400);
      }
      var number := CourseNumber(courseId);
      if number.None? || number.value !in CourseModules {
        return EnrollFailed(404);
      }
      var key := (session.userId, number.value);
      if key in enrollments {
        return EnrollFailed(400);
      }
      CatalogueShape();
      var course := CourseModules[number.value];
      var record := new Enrollment(session.userId, number.value, InitialModuleProgress(course), course[0].id, now);
      enrollments := enrollments[key := record];
      resp := Enrolled(record);
    }
  }

  datatype CourseDetails = CourseDetails(title: Option<string>, description: Option<string>)

  /** GET's `courseDetails`: `null` for a course number outside the table,
      otherwise the title and description of the course's first module. */
  function CourseDetailsOf(courseId: int): (r: Option<CourseDetails>)
    ensures courseId !in CourseModules <==> r.None?
    ensures courseId in CourseModules ==>
              r == Some(CourseDetails(Some(CourseModules[courseId][0].title),
                                      Some(CourseModules[courseId][0].description)))
  {
    if courseId !in CourseModules then None
    else
      var mods := CourseModules[courseId];
      if |mods| == 0 then Some(CourseDetails(None, None))
      else Some(CourseDetails(Some(mods[0].title), Some(mods[0].description)))
  }

  /** Enrolling twice in one course: the second request is refused with 400 and
      the first document stays the stored one. */
  method EnrollTwice(store: EnrollmentStore, userId: string, now: int, later: int)
    returns (first: EnrollResponse, second: EnrollResponse)
    requires (userId, 1) !in store.enrollments
    modifies store
    ensures first.Enrolled? && second == EnrollFailed(400)
    ensures (userId, 1) in store.enrollments && store.enrollments[(userId, 1)] == first.record
  {
    CatalogueShape();
    first := store.Enroll(Token(userId), Numeric(1), now);
    assert AllDigits("1") && ParseNat("1") == 1;
    assert CourseNumber(Textual("1")) == Some(1);
    second := store.Enroll(Token(userId), Textual("1"), later);
  }
}
