/** The request handling around the lesson-progress update
    (src/app/api/progress/lesson/route.ts): the cookie check, the
    required-field check, the enrollment lookup, and the GET view.

    The token cookie, its verification, the JSON body and the database lookup are
    outside the model: the caller passes what they produced. `Session` is the
    outcome of reading and verifying the cookie, and `enrollment` is the document
    `Enrollment.findOne` returned (`null` when there is none). */
module LessonRoute {
  import opened Wrappers
  import opened ProgressRecords
  import opened EnrollmentModel

  /** The POST body; an empty string stands for an absent or empty id, which
      the handler's truthiness test treats alike. */
  datatype ProgressBody = ProgressBody(
    courseId: string, moduleId: string, lessonId: string,
    progress: Option<int>, position: Option<int>)

  datatype PostResponse =
    | PostFailed(status: int)
    | PostOk(progress: int, completed: bool, moduleSummary: ModuleSummary)

  /** `!courseId || !moduleId || !lessonId || progress === undefined`. */
  predicate MissingFields(body: ProgressBody) {
    body.courseId == "" || body.moduleId == "" || body.lessonId == "" || body.progress.None?
  }

  /** POST: 401 without a cookie, 500 when verification throws, 400 for a missing
      field, 404 without an enrollment; otherwise the report is applied to the
      document and echoed back. A failed request leaves the document untouched. */
  method PostLessonProgress(session: Session, body: ProgressBody, enrollment: Enrollment?, now: int)
    returns (resp: PostResponse)
    modifies enrollment
    ensures session.NoToken? ==> resp == PostFailed(401)
    ensures session.InvalidToken? ==> resp == PostFailed(500)
    ensures session.Token? && MissingFields(body) ==> resp == PostFailed(400)
    ensures session.Token? && !MissingFields(body) && enrollment == null ==> resp == PostFailed(404)
    ensures resp.PostOk? <==> session.Token? && !MissingFields(body) && enrollment != null
    ensures resp.PostFailed? && enrollment != null ==> unchanged(enrollment)
    ensures resp.PostOk? ==>
              && enrollment.moduleProgress ==
                   RecordedModules(old(enrollment.moduleProgress), body.moduleId, body.lessonId,
                                   body.progress.value, body.position)
              && enrollment.lastAccessDate == now
              && resp.progress == body.progress.value
              && resp.completed == (body.progress.value >= CompletionThreshold)
              && resp.moduleSummary ==
                   Summary(RecordedModule(TouchedModule(old(enrollment.moduleProgress), body.moduleId),
                                          body.lessonId, body.progress.value, body.position))
  {
    if session.NoToken? {
      return PostFailed(401);
    }
    if session.InvalidToken? {
      return PostFailed(500);
    }
    if MissingFields(body) {
      return PostFailed(400);
    }
    if enrollment == null {
      return PostFailed(404);
    }
    var p := body.progress.value;
    var summary := enrollment.RecordLessonProgress(body.moduleId, body.lessonId, p, body.position, now);
    resp := PostOk(p, p >= CompletionThreshold, summary);
  }

  datatype LessonQuery = LessonQuery(courseId: string, moduleId: string, lessonId: string)

  datatype GetResponse = GetFailed(status: int) | GetOk(view: LessonView)

  /** GET: the same 401/500 and 404 outcomes, 400 for a missing query parameter,
      otherwise the stored lesson view with defaults for absent entries. */
  function GetLessonHandler(session: Session, query: LessonQuery, enrollment: Enrollment?): (r: GetResponse)
    reads enrollment
    ensures session.NoToken? ==> r == GetFailed(401)
    ensures session.InvalidToken? ==> r == GetFailed(500)
    ensures session.Token? && (query.courseId == "" || query.moduleId == "" || query.lessonId == "") ==>
              r == GetFailed(400)
    ensures r.GetOk? <==> session.Token? && query.courseId != "" && query.moduleId != "" &&
                          query.lessonId != "" && enrollment != null
    ensures r.GetOk? ==> r.view == GetLessonProgress(enrollment.moduleProgress, query.moduleId, query.lessonId)
  {
    if session.NoToken? then GetFailed(401)
    else if session.InvalidToken? then GetFailed(500)
    else if query.courseId == "" || query.moduleId == "" || query.lessonId == "" then GetFailed(400)
    else if enrollment == null then GetFailed(404)
    else GetOk(GetLessonProgress(enrollment.moduleProgress, query.moduleId, query.lessonId))
  }
}
