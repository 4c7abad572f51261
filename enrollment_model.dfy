/** The enrollment document (src/models/enrollment.ts) as a mutable object, and
    the in-place update the lesson-progress POST handler performs on it
    (src/app/api/progress/lesson/route.ts, lines 69-125): find or push the
    module entry, find or push the lesson entry, recompute the floored mean and
    the sticky completion flag, stamp the access time. */
module EnrollmentModel {
  import opened Wrappers
  import opened ProgressRecords

  /** The outcome of reading and verifying the token cookie: no cookie, a cookie
      whose verification throws, or the verified user. */
  datatype Session = NoToken | InvalidToken | Token(userId: string)

  /** `moduleProgress.find(mp => mp.moduleId === moduleId)`, as the index it stops at. */
  method FindModuleEntry(mps: seq<ModuleProgress>, moduleId: string) returns (k: nat)
    ensures k == ModuleSlot(mps, moduleId)
  {
    k := 0;
    while k < |mps| && mps[k].moduleId != moduleId
      invariant k <= |mps|
      invariant forall j :: 0 <= j < k ==> mps[j].moduleId != moduleId
    {
      k := k + 1;
    }
    FirstIndexUnique(mps, (mp: ModuleProgress) => mp.moduleId == moduleId, k);
  }

  /** `lessons.find(lp => lp.lessonId === lessonId)`, as the index it stops at. */
  method FindLessonEntry(ls: seq<LessonProgress>, lessonId: string) returns (k: nat)
    ensures k == LessonSlot(ls, lessonId)
  {
    k := 0;
    while k < |ls| && ls[k].lessonId != lessonId
      invariant k <= |ls|
      invariant forall j :: 0 <= j < k ==> ls[j].lessonId != lessonId
    {
      k := k + 1;
    }
    FirstIndexUnique(ls, (lp: LessonProgress) => lp.lessonId == lessonId, k);
  }

  /** The `reduce` that adds up the recorded lesson progress values. */
  method SumLessons(ls: seq<LessonProgress>) returns (sum: int)
    ensures sum == SumProgress(ls)
  {
    sum := 0;
    var i := 0;
    while i < |ls|
      invariant i <= |ls|
      invariant sum == SumProgress(ls[..i])
    {
      assert ls[..i + 1][..i] == ls[..i];
      sum := sum + ls[i].progress;
      i := i + 1;
    }
    assert ls[..i] == ls;
  }

  /** `lessons.every(lesson => lesson.completed)`. */
  method EveryCompleted(ls: seq<LessonProgress>) returns (all: bool)
    ensures all <==> AllCompleted(ls)
  {
    all := true;
    var i := 0;
    while i < |ls|
      invariant i <= |ls|
      invariant all <==> forall j :: 0 <= j < i ==> ls[j].completed
    {
      all := all && ls[i].completed;
      i := i + 1;
    }
  }

  /** The lesson part of the update: the entry found is raised to the running
      maximum, given the new position if any and the incoming completion test;
      otherwise a new entry is pushed. */
  method RecordLesson(ls: seq<LessonProgress>, lessonId: string, progress: int, position: Option<int>)
    returns (r: seq<LessonProgress>)
    ensures r == RecordedLessons(ls, lessonId, progress, position)
  {
    var i := FindLessonEntry(ls, lessonId);
    if i < |ls| {
      var lp := ls[i];
      lp := lp.(progress := Max(lp.progress, progress));
      if position.Some? {
        lp := lp.(lastPosition := position);
      }
      lp := lp.(completed := progress >= CompletionThreshold);
      r := ls[i := lp];
    } else {
      r := ls + [LessonProgress(lessonId, progress, progress >= CompletionThreshold, position)];
    }
  }

  /** The module part of the update: record the lesson, recompute the floored
      mean, and set the module flag when every recorded lesson is completed. */
  method RecordModule(mp: ModuleProgress, lessonId: string, progress: int, position: Option<int>)
    returns (r: ModuleProgress)
    ensures r == RecordedModule(mp, lessonId, progress, position)
  {
    var lessons := RecordLesson(mp.lessons, lessonId, progress, position);
    var sum := SumLessons(lessons);
    r := mp.(lessons := lessons, videoProgress := sum / |lessons|);
    var all := EveryCompleted(lessons);
    if |lessons| > 0 && all {
      r := r.(completed := true);
    }
  }

  /** One enrollment document, as loaded from and saved to the store. Times are
      milliseconds supplied by the caller. */
  class Enrollment {
    const userId: string
    const courseId: int
    const enrollmentDate: int
    var lastAccessDate: int
    var overallProgress: int
    var moduleProgress: seq<ModuleProgress>
    var currentModule: string
    var isCompleted: bool

    /** `Enrollment.create` with the fields the enrollment handler passes. */
    constructor (userId: string, courseId: int, moduleProgress: seq<ModuleProgress>,
                 currentModule: string, now: int)
      ensures this.userId == userId && this.courseId == courseId
      ensures this.moduleProgress == moduleProgress && this.currentModule == currentModule
      ensures overallProgress == 0 && !isCompleted
      ensures enrollmentDate == now && lastAccessDate == now
    {
      this.userId := userId;
      this.courseId := courseId;
      this.moduleProgress := moduleProgress;
      this.currentModule := currentModule;
      overallProgress := 0;
      isCompleted := false;
      enrollmentDate := now;
      lastAccessDate := now;
    }

    /** Applies one lesson-progress report in place. Only the module list and the
        access time change; the new module list is `RecordedModules` of the old
        one, unique ids stay unique, and the returned summary is that of the
        touched module. */
    method RecordLessonProgress(moduleId: string, lessonId: string, progress: int,
                                position: Option<int>, now: int)
      returns (summary: ModuleSummary)
      modifies this`moduleProgress, this`lastAccessDate
      ensures moduleProgress == RecordedModules(old(moduleProgress), moduleId, lessonId, progress, position)
      ensures summary == Summary(RecordedModule(TouchedModule(old(moduleProgress), moduleId),
                                                lessonId, progress, position))
      ensures lastAccessDate == now
      ensures WellFormed(old(moduleProgress)) ==> WellFormed(moduleProgress)
    {
      ghost var before := moduleProgress;
      var k := FindModuleEntry(moduleProgress, moduleId);
      var mp: ModuleProgress;
      if k < |moduleProgress| {
        mp := moduleProgress[k];
      } else {
        mp := ZeroedModule(moduleId);
        moduleProgress := moduleProgress + [mp];
      }
      mp := RecordModule(mp, lessonId, progress, position);
      moduleProgress := moduleProgress[k := mp];
      assert k == |before| ==> moduleProgress == before + [mp];
      lastAccessDate := now;
      summary := Summary(mp);
      if WellFormed(before) {
        RecordedPreservesWellFormed(before, moduleId, lessonId, progress, position);
      }
    }
  }
}
