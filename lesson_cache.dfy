/** The client-side lesson progress cache (src/hooks/use-lesson-progress.ts): a
    map from lesson id to the last progress the client reported, replaced entry
    by entry after each successful report, and the module completion count read
    from it.

    The POST request itself is outside the model: the caller passes whether the
    response was ok. The parsed response body the update returns is not
    modelled. */
module LessonCache {
  import opened Wrappers
  import opened ProgressRecords
  import opened EnrollmentModel

  /** The entry `updateLessonProgress` stores for a lesson. */
  datatype CachedLesson = CachedLesson(
    lessonId: string, progress: int, completed: bool, lastPosition: Option<int>)

  datatype CompletionStatus = CompletionStatus(completed: bool, totalLessons: nat, completedLessons: nat)

  /** `lessonProgressMap.get(id)?.completed`: an absent entry is not completed. */
  predicate Done(entries: map<string, CachedLesson>, lessonId: string) {
    lessonId in entries && entries[lessonId].completed
  }

  /** The length of `lessons.filter(...)`: how many of the given lesson ids
      (repetitions included) have a completed entry. */
  function CountDone(entries: map<string, CachedLesson>, lessonIds: seq<string>): (n: nat)
    ensures n == |DoneIndices(entries, lessonIds)|
    ensures n <= |lessonIds|
  {
    if lessonIds == [] then
      assert DoneIndices(entries, lessonIds) == {};
      0
    else
      var init := lessonIds[..|lessonIds| - 1];
      var last := |lessonIds| - 1;
      var k := CountDone(entries, init);
      DoneIndicesSnoc(entries, lessonIds);
      k + (if Done(entries, lessonIds[last]) then 1 else 0)
  }

  /** The positions of the given list whose lesson has a completed entry. */
  function DoneIndices(entries: map<string, CachedLesson>, lessonIds: seq<string>): set<int> {
    set i | 0 <= i < |lessonIds| && Done(entries, lessonIds[i])
  }

  /** Extending the list by one lesson adds its position exactly when that
      lesson is completed; the new position is not among the earlier ones. */
  lemma DoneIndicesSnoc(entries: map<string, CachedLesson>, lessonIds: seq<string>)
    requires lessonIds != []
    ensures var last := |lessonIds| - 1;
            && last !in DoneIndices(entries, lessonIds[..last])
            && DoneIndices(entries, lessonIds) ==
               DoneIndices(entries, lessonIds[..last]) + (if Done(entries, lessonIds[last]) then {last} else {})
  {
  }

  /** The count reaches the number of lessons exactly when every listed lesson
      has a completed entry (vacuously so for an empty list). */
  lemma {:induction false} CountDoneAll(entries: map<string, CachedLesson>, lessonIds: seq<string>)
    ensures CountDone(entries, lessonIds) == |lessonIds| <==>
              forall i :: 0 <= i < |lessonIds| ==> Done(entries, lessonIds[i])
  {
    if lessonIds != [] {
      var init := lessonIds[..|lessonIds| - 1];
      CountDoneAll(entries, init);
      assert forall i :: 0 <= i < |init| ==> init[i] == lessonIds[i];
    }
  }

  /** The state of one `useLessonProgress` hook. */
  class LessonProgressCache {
    var entries: map<string, CachedLesson>

    constructor ()
      ensures entries == map[]
    {
      entries := map[];
    }

    /** `updateLessonProgress`: after an ok response the lesson's entry becomes
        the reported progress (not the maximum with what was cached), completed
        from the 90 threshold, with the given position even when absent; every
        other entry is kept. After a failed response nothing changes and the
        call reports failure (the hook throws). */
    method UpdateLessonProgress(courseId: string, moduleId: string, lessonId: string,
                                progress: int, position: Option<int>, responseOk: bool)
      returns (ok: bool)
      modifies this`entries
      ensures ok == responseOk
      ensures !ok ==> entries == old(entries)
      ensures ok ==> lessonId in entries && entries[lessonId] ==
                       CachedLesson(lessonId, progress, progress >= CompletionThreshold, position)
      ensures ok ==> forall id :: id != lessonId ==>
                       (id in entries <==> id in old(entries)) &&
                       (id in entries ==> entries[id] == old(entries)[id])
    {
      if !responseOk {
        return false;
      }
      entries := entries[lessonId := CachedLesson(lessonId, progress, progress >= CompletionThreshold, position)];
      ok := true;
    }

    /** `checkModuleCompletion`: the number of the module's lessons whose cached
        entry is completed, the lesson count, and whether the two agree. The
        module id plays no part, since the cache is keyed by lesson id alone. */
    function CheckModuleCompletion(moduleId: string, lessonIds: seq<string>): (st: CompletionStatus)
      reads this
      ensures st.totalLessons == |lessonIds|
      ensures st.completedLessons == |DoneIndices(entries, lessonIds)|
      ensures st.completedLessons <= st.totalLessons
      ensures st.completed <==> forall i :: 0 <= i < |lessonIds| ==> Done(entries, lessonIds[i])
      ensures lessonIds == [] ==> st.completed
    {
      var n := CountDone(entries, lessonIds);
      CountDoneAll(entries, lessonIds);
      CompletionStatus(n == |lessonIds|, |lessonIds|, n)
    }

    /** `getLessonProgress`: the cached entry, `None` for undefined. */
    function GetLessonProgress(lessonId: string): (r: Option<CachedLesson>)
      reads this
      ensures r.Some? <==> lessonId in entries
      ensures r.Some? ==> r.value == entries[lessonId]
    {
      if lessonId in entries then Some(entries[lessonId]) else None
    }
  }

  /** The cache and the server disagree after a lower report: the reports 95
      then 40 on a fresh lesson, sent through the cache's update and through the
      server's find-or-push step, leave 40 in the cache while the server record
      keeps the maximum 95; both mark the lesson not completed. */
  method CacheKeepsLatestServerKeepsMaximum(lessonId: string)
    returns (cached: CachedLesson, server: seq<LessonProgress>)
    ensures cached.lessonId == lessonId && cached.progress == 40 && !cached.completed
    ensures |server| == 1 && server[0].lessonId == lessonId
    ensures server[0].progress == 95 && !server[0].completed
  {
    var cache := new LessonProgressCache();
    var ok := cache.UpdateLessonProgress("course", "module", lessonId, 95, None, true);
    ok := cache.UpdateLessonProgress("course", "module", lessonId, 40, None, true);
    cached := cache.entries[lessonId];
    var first := RecordLesson([], lessonId, 95, None);
    assert first == [LessonProgress(lessonId, 95, true, None)];
    assert LessonSlot(first, lessonId) == 0;
    server := RecordLesson(first, lessonId, 40, None);
  }
}
