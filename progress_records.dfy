/** Per-module and per-lesson progress records of an enrollment, and the update
    that the lesson-progress POST handler (src/app/api/progress/lesson/route.ts)
    applies to them, stated as pure functions. The handler itself changes an
    enrollment document in place; `EnrollmentModel.Enrollment.RecordLessonProgress`
    is that in-place version and is proved equal to `RecordedModules` below.

    Progress values are JavaScript numbers without any range check; they are
    modelled as unbounded integers (fractions are not modelled). */
module ProgressRecords {
  import opened Wrappers

  datatype LessonProgress = LessonProgress(
    lessonId: string, progress: int, completed: bool, lastPosition: Option<int>)

  datatype ModuleProgress = ModuleProgress(
    moduleId: string,
    completed: bool,
    assessmentCompleted: bool,
    videoProgress: int,
    lastWatchedPosition: int,
    lessons: seq<LessonProgress>)

  /** The percentage from which a lesson counts as completed. */
  const CompletionThreshold: int := 90

  function Max(a: int, b: int): int {
    if a >= b then a else b
  }

  /** The entry pushed when no module entry with that id exists yet. */
  function ZeroedModule(moduleId: string): ModuleProgress {
    ModuleProgress(moduleId, false, false, 0, 0, [])
  }

  /** Position of the entry `moduleProgress.find` returns, or the length when absent. */
  function ModuleSlot(mps: seq<ModuleProgress>, moduleId: string): (k: nat)
    ensures k <= |mps|
    ensures k < |mps| ==> mps[k].moduleId == moduleId
    ensures forall j :: 0 <= j < k ==> mps[j].moduleId != moduleId
  {
    FirstIndex(mps, (mp: ModuleProgress) => mp.moduleId == moduleId)
  }

  /** Position of the entry `lessons.find` returns, or the length when absent. */
  function LessonSlot(ls: seq<LessonProgress>, lessonId: string): (k: nat)
    ensures k <= |ls|
    ensures k < |ls| ==> ls[k].lessonId == lessonId
    ensures forall j :: 0 <= j < k ==> ls[j].lessonId != lessonId
  {
    FirstIndex(ls, (lp: LessonProgress) => lp.lessonId == lessonId)
  }

  /** The sum the handler's `reduce` computes, added left to right. */
  function SumProgress(ls: seq<LessonProgress>): int {
    if ls == [] then 0 else SumProgress(ls[..|ls| - 1]) + ls[|ls| - 1].progress
  }

  predicate AllCompleted(ls: seq<LessonProgress>) {
    forall i :: 0 <= i < |ls| ==> ls[i].completed
  }

  predicate UniqueLessonIds(ls: seq<LessonProgress>) {
    forall i, j :: 0 <= i < j < |ls| ==> ls[i].lessonId != ls[j].lessonId
  }

  predicate UniqueModuleIds(mps: seq<ModuleProgress>) {
    forall i, j :: 0 <= i < j < |mps| ==> mps[i].moduleId != mps[j].moduleId
  }

  /** No two module entries share an id, and no module holds two entries for one lesson. */
  predicate WellFormed(mps: seq<ModuleProgress>) {
    UniqueModuleIds(mps) && forall i :: 0 <= i < |mps| ==> UniqueLessonIds(mps[i].lessons)
  }

  /** An existing lesson entry after a report: the stored value is the running
      maximum, the position is replaced only when one is reported, and the
      completion flag follows the reported value, not the stored one. */
  function UpdatedLesson(lp: LessonProgress, progress: int, position: Option<int>): LessonProgress {
    lp.(progress := Max(lp.progress, progress),
        lastPosition := if position.Some? then position else lp.lastPosition,
        completed := progress >= CompletionThreshold)
  }

  /** A lesson entry created by a first report. */
  function NewLesson(lessonId: string, progress: int, position: Option<int>): LessonProgress {
    LessonProgress(lessonId, progress, progress >= CompletionThreshold, position)
  }

  function RecordedLessons(ls: seq<LessonProgress>, lessonId: string, progress: int, position: Option<int>)
    : (r: seq<LessonProgress>)
    ensures |r| > 0
  {
    var k := LessonSlot(ls, lessonId);
    if k < |ls| then ls[k := UpdatedLesson(ls[k], progress, position)]
    else ls + [NewLesson(lessonId, progress, position)]
  }

  /** A module entry after a report about one of its lessons: floored mean of the
      recorded lessons, and a completion flag that is set once every recorded
      lesson is completed and never cleared. */
  function RecordedModule(mp: ModuleProgress, lessonId: string, progress: int, position: Option<int>)
    : ModuleProgress
  {
    var ls := RecordedLessons(mp.lessons, lessonId, progress, position);
    mp.(lessons := ls,
        videoProgress := SumProgress(ls) / |ls|,
        completed := mp.completed || (|ls| > 0 && AllCompleted(ls)))
  }

  /** The entry the handler finds for `moduleId`, or the zeroed one it creates. */
  function TouchedModule(mps: seq<ModuleProgress>, moduleId: string): ModuleProgress {
    var k := ModuleSlot(mps, moduleId);
    if k < |mps| then mps[k] else ZeroedModule(moduleId)
  }

  /** The enrollment's module list after one lesson-progress report. */
  function RecordedModules(
    mps: seq<ModuleProgress>, moduleId: string, lessonId: string, progress: int, position: Option<int>)
    : seq<ModuleProgress>
  {
    var k := ModuleSlot(mps, moduleId);
    var mp := RecordedModule(TouchedModule(mps, moduleId), lessonId, progress, position);
    if k < |mps| then mps[k := mp] else mps + [mp]
  }

  // ---------------------------------------------------------------------------
  // Properties of one report

  /** A module entry is appended only when none has the id; every other module
      entry is left as it was; the touched entry keeps its id, its assessment flag
      and its resume position. */
  lemma RecordedModulesFrame(
    mps: seq<ModuleProgress>, moduleId: string, lessonId: string, progress: int, position: Option<int>)
    ensures var k := ModuleSlot(mps, moduleId);
            var r := RecordedModules(mps, moduleId, lessonId, progress, position);
            var before := TouchedModule(mps, moduleId);
            && |r| == (if k < |mps| then |mps| else |mps| + 1)
            && k < |r|
            && (forall j :: 0 <= j < |mps| && j != k ==> r[j] == mps[j])
            && r[k].moduleId == moduleId
            && r[k].assessmentCompleted == before.assessmentCompleted
            && r[k].lastWatchedPosition == before.lastWatchedPosition
            && (k == |mps| ==> !before.assessmentCompleted && before.lessons == [])
  {
  }

  /** The touched module entry is the report applied to the entry found (or to
      a zeroed one). */
  lemma TouchedEntry(
    mps: seq<ModuleProgress>, moduleId: string, lessonId: string, progress: int, position: Option<int>)
    ensures var k := ModuleSlot(mps, moduleId);
            var r := RecordedModules(mps, moduleId, lessonId, progress, position);
            && k < |r|
            && r[k] == RecordedModule(TouchedModule(mps, moduleId), lessonId, progress, position)
            && r[k].lessons == RecordedLessons(TouchedModule(mps, moduleId).lessons, lessonId, progress, position)
            && (k < |mps| ==> TouchedModule(mps, moduleId) == mps[k])
  {
  }

  /** The lesson list after a report, entry by entry: the entry at the found
      slot is updated (or appended at the end), every other entry is kept. */
  lemma RecordedLessonsShape(ls: seq<LessonProgress>, lessonId: string, progress: int, position: Option<int>)
    ensures var i := LessonSlot(ls, lessonId);
            var r := RecordedLessons(ls, lessonId, progress, position);
            && |r| == (if i < |ls| then |ls| else |ls| + 1)
            && i < |r|
            && r[i].lessonId == lessonId
            && r[i].progress == (if i < |ls| then Max(ls[i].progress, progress) else progress)
            && r[i].completed == (progress >= CompletionThreshold)
            && r[i].lastPosition == (if i < |ls| && position.None? then ls[i].lastPosition else position)
            && (forall t :: 0 <= t < |ls| && t != i ==> r[t] == ls[t])
  {
  }

  /** `ModuleSlot` is determined by its three properties. */
  lemma ModuleSlotIs(mps: seq<ModuleProgress>, moduleId: string, k: nat)
    requires k <= |mps|
    requires k < |mps| ==> mps[k].moduleId == moduleId
    requires forall j :: 0 <= j < k ==> mps[j].moduleId != moduleId
    ensures ModuleSlot(mps, moduleId) == k
  {
    FirstIndexUnique(mps, (mp: ModuleProgress) => mp.moduleId == moduleId, k);
  }

  /** `LessonSlot` is determined by its three properties. */
  lemma LessonSlotIs(ls: seq<LessonProgress>, lessonId: string, k: nat)
    requires k <= |ls|
    requires k < |ls| ==> ls[k].lessonId == lessonId
    requires forall j :: 0 <= j < k ==> ls[j].lessonId != lessonId
    ensures LessonSlot(ls, lessonId) == k
  {
    FirstIndexUnique(ls, (lp: LessonProgress) => lp.lessonId == lessonId, k);
  }

  /** The touched lesson: created only when absent; its stored progress becomes the
      maximum of the old value and the report; its `completed` flag is the report's
      own threshold test; its position changes only when one is given. Every other
      lesson of the module is unchanged. */
  lemma RecordedLessonEffect(
    mps: seq<ModuleProgress>, moduleId: string, lessonId: string, progress: int, position: Option<int>)
    ensures var k := ModuleSlot(mps, moduleId);
            var r := RecordedModules(mps, moduleId, lessonId, progress, position);
            var old_ls := TouchedModule(mps, moduleId).lessons;
            var i := LessonSlot(old_ls, lessonId);
            var ls := r[k].lessons;
            && k < |r|
            && |ls| == (if i < |old_ls| then |old_ls| else |old_ls| + 1)
            && i < |ls|
            && ls[i].lessonId == lessonId
            && ls[i].progress == (if i < |old_ls| then Max(old_ls[i].progress, progress) else progress)
            && ls[i].completed == (progress >= CompletionThreshold)
            && ls[i].lastPosition == (if i < |old_ls| && position.None? then old_ls[i].lastPosition else position)
            && (forall t :: 0 <= t < |old_ls| && t != i ==> ls[t] == old_ls[t])
  {
    TouchedEntry(mps, moduleId, lessonId, progress, position);
    RecordedLessonsShape(TouchedModule(mps, moduleId).lessons, lessonId, progress, position);
  }

  /** Every lesson entry of `before` is still in `after` at the same place, with
      the same id and a progress value at least as large. */
  predicate LessonsExtend(before: seq<LessonProgress>, after: seq<LessonProgress>) {
    && |before| <= |after|
    && forall t :: 0 <= t < |before| ==>
         after[t].lessonId == before[t].lessonId && after[t].progress >= before[t].progress
  }

  /** Within one module, a report keeps every earlier lesson entry in place and
      never lowers its progress. */
  lemma RecordedLessonsExtend(ls: seq<LessonProgress>, lessonId: string, progress: int, position: Option<int>)
    ensures LessonsExtend(ls, RecordedLessons(ls, lessonId, progress, position))
  {
    RecordedLessonsShape(ls, lessonId, progress, position);
  }

  /** Stored lesson progress never decreases: every module entry that existed
      before the report is still at the same place, and each of its lesson
      entries keeps its place and id with a progress value at least as large. */
  lemma ProgressNeverDecreases(
    mps: seq<ModuleProgress>, moduleId: string, lessonId: string, progress: int, position: Option<int>)
    ensures var r := RecordedModules(mps, moduleId, lessonId, progress, position);
            && |mps| <= |r|
            && forall j :: 0 <= j < |mps| ==> r[j].moduleId == mps[j].moduleId && LessonsExtend(mps[j].lessons, r[j].lessons)
  {
    var k := ModuleSlot(mps, moduleId);
    var r := RecordedModules(mps, moduleId, lessonId, progress, position);
    RecordedModulesFrame(mps, moduleId, lessonId, progress, position);
    TouchedEntry(mps, moduleId, lessonId, progress, position);
    forall j | 0 <= j < |mps|
      ensures r[j].moduleId == mps[j].moduleId && LessonsExtend(mps[j].lessons, r[j].lessons)
    {
      if j == k {
        RecordedLessonsExtend(mps[k].lessons, lessonId, progress, position);
      } else {
        assert r[j] == mps[j];
      }
    }
  }


  /** `videoProgress` is the floor of the mean over the recorded lessons, whose
      number is at least one because the reported lesson is always recorded. */
  lemma VideoProgressIsFlooredMean(
    mps: seq<ModuleProgress>, moduleId: string, lessonId: string, progress: int, position: Option<int>)
    ensures var k := ModuleSlot(mps, moduleId);
            var r := RecordedModules(mps, moduleId, lessonId, progress, position);
            && k < |r|
            && var n := |r[k].lessons|;
            && n >= 1
            && r[k].videoProgress * n <= SumProgress(r[k].lessons) < (r[k].videoProgress + 1) * n
  {
    RecordedModulesFrame(mps, moduleId, lessonId, progress, position);
    var k := ModuleSlot(mps, moduleId);
    var r := RecordedModules(mps, moduleId, lessonId, progress, position);
    FlooredQuotient(SumProgress(r[k].lessons), |r[k].lessons|);
  }

  lemma FlooredQuotient(s: int, n: int)
    requires n > 0
    ensures (s / n) * n <= s < (s / n + 1) * n
  {
    assert s == (s / n) * n + s % n;
  }

  /** The module flag is set exactly when it was set already or every recorded
      lesson is now completed; once true it stays true. */
  lemma ModuleCompletionSticky(
    mps: seq<ModuleProgress>, moduleId: string, lessonId: string, progress: int, position: Option<int>)
    ensures var k := ModuleSlot(mps, moduleId);
            var r := RecordedModules(mps, moduleId, lessonId, progress, position);
            var before := TouchedModule(mps, moduleId);
            && k < |r|
            && |r[k].lessons| > 0
            && (r[k].completed <==> before.completed || AllCompleted(r[k].lessons))
            && (before.completed ==> r[k].completed)
  {
  }

  /** Ids stay unique: a report never introduces a second entry for a module or
      for a lesson within a module. */
  lemma {:induction false} RecordedPreservesWellFormed(
    mps: seq<ModuleProgress>, moduleId: string, lessonId: string, progress: int, position: Option<int>)
    requires WellFormed(mps)
    ensures WellFormed(RecordedModules(mps, moduleId, lessonId, progress, position))
  {
    var k := ModuleSlot(mps, moduleId);
    var r := RecordedModules(mps, moduleId, lessonId, progress, position);
    RecordedModulesFrame(mps, moduleId, lessonId, progress, position);
    RecordedLessonEffect(mps, moduleId, lessonId, progress, position);
    var old_ls := TouchedModule(mps, moduleId).lessons;
    var i := LessonSlot(old_ls, lessonId);
    var ls := r[k].lessons;
    assert UniqueLessonIds(old_ls);
    forall a, b | 0 <= a < b < |ls| ensures ls[a].lessonId != ls[b].lessonId {
      if b == i && i == |old_ls| {
        assert ls[a] == old_ls[a];
      } else if a != i && b != i {
        assert ls[a] == old_ls[a] && ls[b] == old_ls[b];
      } else {
        assert ls[a].lessonId == old_ls[a].lessonId && ls[b].lessonId == old_ls[b].lessonId;
      }
    }
    forall a, b | 0 <= a < b < |r| ensures r[a].moduleId != r[b].moduleId {
      if b == k && k == |mps| {
        assert r[a] == mps[a];
      } else if a != k && b != k {
        assert r[a] == mps[a] && r[b] == mps[b];
      } else {
        assert r[a].moduleId == mps[a].moduleId && r[b].moduleId == mps[b].moduleId;
      }
    }
  }

  // ---------------------------------------------------------------------------
  // The GET handler's view of a lesson

  datatype ModuleSummary = ModuleSummary(completed: bool, videoProgress: int, assessmentCompleted: bool)

  datatype LessonView = LessonView(
    progress: int, completed: bool, lastPosition: int, moduleSummary: Option<ModuleSummary>)

  function Summary(mp: ModuleProgress): ModuleSummary {
    ModuleSummary(mp.completed, mp.videoProgress, mp.assessmentCompleted)
  }

  /** What GET returns for an existing enrollment: zeros and `false` for an
      absent module (without a module summary) or an absent lesson, otherwise the
      stored values, with an unset position read as 0. */
  function GetLessonProgress(mps: seq<ModuleProgress>, moduleId: string, lessonId: string): (r: LessonView)
    ensures ModuleSlot(mps, moduleId) == |mps| ==> r == LessonView(0, false, 0, None)
    ensures ModuleSlot(mps, moduleId) < |mps| ==>
              r.moduleSummary == Some(Summary(mps[ModuleSlot(mps, moduleId)]))
    ensures ModuleSlot(mps, moduleId) < |mps| &&
            LessonSlot(mps[ModuleSlot(mps, moduleId)].lessons, lessonId) ==
              |mps[ModuleSlot(mps, moduleId)].lessons| ==>
              r.progress == 0 && !r.completed && r.lastPosition == 0
  {
    var k := ModuleSlot(mps, moduleId);
    if k == |mps| then LessonView(0, false, 0, None)
    else
      var ls := mps[k].lessons;
      var i := LessonSlot(ls, lessonId);
      if i == |ls| then LessonView(0, false, 0, Some(Summary(mps[k])))
      else LessonView(ls[i].progress, ls[i].completed, ls[i].lastPosition.GetOr(0), Some(Summary(mps[k])))
  }

  /** After a report the touched module and lesson are found again at the
      slots they were found at (or appended to). */
  lemma RecordedSlots(
    mps: seq<ModuleProgress>, moduleId: string, lessonId: string, progress: int, position: Option<int>)
    ensures var k := ModuleSlot(mps, moduleId);
            var r := RecordedModules(mps, moduleId, lessonId, progress, position);
            var old_ls := TouchedModule(mps, moduleId).lessons;
            && k < |r|
            && ModuleSlot(r, moduleId) == k
            && r[k].lessons == RecordedLessons(old_ls, lessonId, progress, position)
            && LessonSlot(r[k].lessons, lessonId) == LessonSlot(old_ls, lessonId)
  {
    var k := ModuleSlot(mps, moduleId);
    var r := RecordedModules(mps, moduleId, lessonId, progress, position);
    var old_ls := TouchedModule(mps, moduleId).lessons;
    TouchedEntry(mps, moduleId, lessonId, progress, position);
    assert forall j :: 0 <= j < k ==> r[j].moduleId != moduleId by {
      RecordedModulesFrame(mps, moduleId, lessonId, progress, position);
    }
    ModuleSlotIs(r, moduleId, k);
    var ls := RecordedLessons(old_ls, lessonId, progress, position);
    RecordedLessonsShape(old_ls, lessonId, progress, position);
    LessonSlotIs(ls, lessonId, LessonSlot(old_ls, lessonId));
  }

  /** The view of a lesson whose module and lesson entries are both found. */
  lemma ViewAt(mps: seq<ModuleProgress>, moduleId: string, lessonId: string, k: nat, i: nat)
    requires k < |mps| && ModuleSlot(mps, moduleId) == k
    requires i < |mps[k].lessons| && LessonSlot(mps[k].lessons, lessonId) == i
    ensures var lp := mps[k].lessons[i];
            GetLessonProgress(mps, moduleId, lessonId) ==
              LessonView(lp.progress, lp.completed, lp.lastPosition.GetOr(0), Some(Summary(mps[k])))
  {
  }

  /** Reading a lesson back right after reporting it gives the running maximum,
      the reported value's completion test, and the newest known position. */
  lemma GetAfterRecord(
    mps: seq<ModuleProgress>, moduleId: string, lessonId: string, progress: int, position: Option<int>)
    ensures var old_ls := TouchedModule(mps, moduleId).lessons;
            var i := LessonSlot(old_ls, lessonId);
            var v := GetLessonProgress(RecordedModules(mps, moduleId, lessonId, progress, position),
                                       moduleId, lessonId);
            && v.progress == (if i < |old_ls| then Max(old_ls[i].progress, progress) else progress)
            && v.completed == (progress >= CompletionThreshold)
            && v.lastPosition == (if i < |old_ls| && position.None? then old_ls[i].lastPosition
                                  else position).GetOr(0)
            && v.moduleSummary.Some?
  {
    var k := ModuleSlot(mps, moduleId);
    var r := RecordedModules(mps, moduleId, lessonId, progress, position);
    var old_ls := TouchedModule(mps, moduleId).lessons;
    RecordedSlots(mps, moduleId, lessonId, progress, position);
    RecordedLessonsShape(old_ls, lessonId, progress, position);
    ViewAt(r, moduleId, lessonId, k, LessonSlot(old_ls, lessonId));
  }

  // ---------------------------------------------------------------------------
  // Worked cases

  /** A lower later report keeps the stored 95 but clears the lesson's completed
      flag, while the module flag, once set, stays set. */
  lemma LowerReportClearsLessonFlagOnly()
    ensures var mps := [ModuleProgress("m", true, false, 95, 0,
                                       [LessonProgress("l", 95, true, Some(30))])];
            var r := RecordedModules(mps, "m", "l", 40, None);
            && r == [ModuleProgress("m", true, false, 95, 0,
                                    [LessonProgress("l", 95, false, Some(30))])]
  {
    var mps := [ModuleProgress("m", true, false, 95, 0, [LessonProgress("l", 95, true, Some(30))])];
    assert ModuleSlot(mps, "m") == 0;
    assert LessonSlot(mps[0].lessons, "l") == 0;
    var ls := [LessonProgress("l", 95, false, Some(30))];
    assert RecordedLessons(mps[0].lessons, "l", 40, None) == ls;
    assert SumProgress(ls) == 95 by { assert ls[..0] == []; }
  }

  /** Lessons at 95 and 40 in a module first touched by the 40: the mean is
      floor((95 + 40) / 2) = 67 and the module is not completed. */
  lemma TwoLessonMean()
    ensures var mps := RecordedModules(RecordedModules([ZeroedModule("m")], "m", "L2", 40, None),
                                       "m", "L1", 95, None);
            && |mps| == 1
            && mps[0].videoProgress == 67
            && !mps[0].completed
            && |mps[0].lessons| == 2
  {
    var m0 := [ZeroedModule("m")];
    assert ModuleSlot(m0, "m") == 0;
    assert LessonSlot(m0[0].lessons, "L2") == 0;
    var m1 := RecordedModules(m0, "m", "L2", 40, None);
    assert SumProgress([LessonProgress("L2", 40, false, None)]) == 40;
    assert m1 == [ModuleProgress("m", false, false, 40, 0, [LessonProgress("L2", 40, false, None)])];
    assert ModuleSlot(m1, "m") == 0;
    assert LessonSlot(m1[0].lessons, "L1") == 1;
    var ls := [LessonProgress("L2", 40, false, None), LessonProgress("L1", 95, true, None)];
    assert SumProgress(ls[..1]) == 40 by { assert ls[..1][..0] == []; }
    assert SumProgress(ls) == 135;
    assert RecordedLessons(m1[0].lessons, "L1", 95, None) == ls;
    assert !ls[0].completed;
  }

  /** The same two reports in the other order leave the module completed: the
      flag set by the first report (then the only recorded lesson) is never
      cleared, although a recorded lesson is now below the threshold. */
  lemma CompletionDependsOnReportOrder()
    ensures var mps := RecordedModules(RecordedModules([ZeroedModule("m")], "m", "L1", 95, None),
                                       "m", "L2", 40, None);
            && |mps| == 1
            && mps[0].videoProgress == 67
            && mps[0].completed
            && !AllCompleted(mps[0].lessons)
  {
    var m0 := [ZeroedModule("m")];
    assert ModuleSlot(m0, "m") == 0;
    assert LessonSlot(m0[0].lessons, "L1") == 0;
    var m1 := RecordedModules(m0, "m", "L1", 95, None);
    assert SumProgress([LessonProgress("L1", 95, true, None)]) == 95;
    assert m1 == [ModuleProgress("m", true, false, 95, 0, [LessonProgress("L1", 95, true, None)])];
    assert ModuleSlot(m1, "m") == 0;
    assert LessonSlot(m1[0].lessons, "L2") == 1;
    var ls := [LessonProgress("L1", 95, true, None), LessonProgress("L2", 40, false, None)];
    assert SumProgress(ls[..1]) == 95 by { assert ls[..1][..0] == []; }
    assert SumProgress(ls) == 135;
    assert RecordedLessons(m1[0].lessons, "L2", 40, None) == ls;
    assert !ls[1].completed;
  }
}
