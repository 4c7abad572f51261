/** The prerequisite gate of src/lib/prerequisites.ts: `canAccessModule` and
    `getPrerequisiteNames`, over the constant module table. */
module Prerequisites {
  import opened Wrappers
  import opened CourseCatalog
  import opened ProgressRecords

  /** `a` is `b` with some elements left out, the rest in the same order. */
  predicate IsSubsequence(a: seq<string>, b: seq<string>)
    decreases |b|
  {
    if a == [] then true
    else if b == [] then false
    else if a[0] == b[0] then IsSubsequence(a[1..], b[1..])
    else IsSubsequence(a, b[1..])
  }

  /** A progress entry unlocks its module only when the module is completed AND
      its assessment is completed. */
  predicate Satisfied(mp: ModuleProgress) {
    mp.completed && mp.assessmentCompleted
  }

  /** Some entry for `id` satisfies the gate. */
  predicate HasSatisfiedEntry(mps: seq<ModuleProgress>, id: string) {
    exists i :: 0 <= i < |mps| && mps[i].moduleId == id && Satisfied(mps[i])
  }

  /** `completedModules`: the ids of the satisfying entries, in entry order. */
  function SatisfiedIds(mps: seq<ModuleProgress>): (r: seq<string>)
    ensures forall id :: id in r <==> HasSatisfiedEntry(mps, id)
  {
    if mps == [] then []
    else
      var rest := SatisfiedIds(mps[1..]);
      assert forall id :: HasSatisfiedEntry(mps[1..], id) ==> HasSatisfiedEntry(mps, id) by {
        forall id | HasSatisfiedEntry(mps[1..], id) ensures HasSatisfiedEntry(mps, id) {
          var i :| 0 <= i < |mps[1..]| && mps[1..][i].moduleId == id && Satisfied(mps[1..][i]);
          assert mps[i + 1] == mps[1..][i];
        }
      }
      assert forall id :: HasSatisfiedEntry(mps, id) && id != mps[0].moduleId ==>
                            HasSatisfiedEntry(mps[1..], id) by {
        forall id | HasSatisfiedEntry(mps, id) && id != mps[0].moduleId
          ensures HasSatisfiedEntry(mps[1..], id)
        {
          var i :| 0 <= i < |mps| && mps[i].moduleId == id && Satisfied(mps[i]);
          assert i > 0 && mps[1..][i - 1] == mps[i];
        }
      }
      assert forall id :: HasSatisfiedEntry(mps, id) && !Satisfied(mps[0]) ==>
                            HasSatisfiedEntry(mps[1..], id) by {
        forall id | HasSatisfiedEntry(mps, id) && !Satisfied(mps[0])
          ensures HasSatisfiedEntry(mps[1..], id)
        {
          var i :| 0 <= i < |mps| && mps[i].moduleId == id && Satisfied(mps[i]);
          assert i > 0 && mps[1..][i - 1] == mps[i];
        }
      }
      (if Satisfied(mps[0]) then [mps[0].moduleId] else []) + rest
  }

  /** `prerequisiteModules.filter(id => !completedModules.includes(id))`: exactly
      the prerequisites that are not done, each as often as it is listed, in
      prerequisite order. */
  function Missing(prereqs: seq<string>, done: seq<string>): (r: seq<string>)
    ensures forall x :: x in r <==> x in prereqs && x !in done
    ensures forall x :: multiset(r)[x] == if x in done then 0 else multiset(prereqs)[x]
    ensures IsSubsequence(r, prereqs)
  {
    if prereqs == [] then []
    else
      var rest := Missing(prereqs[1..], done);
      assert prereqs == [prereqs[0]] + prereqs[1..];
      if prereqs[0] in done then rest
      else [prereqs[0]] + rest
  }

  lemma {:induction false} SubsequenceOfTail(a: seq<string>, b: seq<string>)
    requires b != [] && IsSubsequence(a, b[1..])
    ensures IsSubsequence(a, b)
    decreases |b|, 0
  {
    if a != [] && a[0] == b[0] {
      DropFirst(a, b[1..]);
    }
  }

  lemma {:induction false} DropFirst(a: seq<string>, c: seq<string>)
    requires a != [] && IsSubsequence(a, c)
    ensures IsSubsequence(a[1..], c)
    decreases |c|, 1
  {
    if a[0] == c[0] {
      SubsequenceOfTail(a[1..], c);
    } else {
      DropFirst(a, c[1..]);
      SubsequenceOfTail(a[1..], c);
    }
  }

  /** Having done more never adds to the missing list: what is missing afterwards
      is a subsequence of what was missing before. */
  lemma {:induction false} MissingMonotone(prereqs: seq<string>, done: seq<string>, more: seq<string>)
    requires forall x :: x in done ==> x in more
    ensures IsSubsequence(Missing(prereqs, more), Missing(prereqs, done))
    decreases |prereqs|
  {
    if prereqs != [] {
      MissingMonotone(prereqs[1..], done, more);
      var tailMore := Missing(prereqs[1..], more);
      var tailDone := Missing(prereqs[1..], done);
      if prereqs[0] !in done {
        assert Missing(prereqs, done) == [prereqs[0]] + tailDone;
        if prereqs[0] in more {
          SubsequenceOfTail(tailMore, [prereqs[0]] + tailDone);
        } else {
          assert ([prereqs[0]] + tailMore)[1..] == tailMore;
          assert ([prereqs[0]] + tailDone)[1..] == tailDone;
        }
      }
    }
  }

  datatype Access = Access(canAccess: bool, missingPrerequisites: seq<string>)

  /** `canAccessModule`: an unknown course or module is refused with an empty
      missing list; otherwise the missing list is the prerequisites without a
      satisfying progress entry, and access is granted iff it is empty. */
  function CanAccessModule(courseId: int, moduleId: string, mps: seq<ModuleProgress>): (r: Access)
    ensures GetModuleDetails(courseId, moduleId).None? ==> r == Access(false, [])
    ensures GetModuleDetails(courseId, moduleId).Some? ==>
              && (forall x :: x in r.missingPrerequisites <==>
                    x in GetModuleDetails(courseId, moduleId).value.prerequisiteModules &&
                    !HasSatisfiedEntry(mps, x))
              && IsSubsequence(r.missingPrerequisites,
                               GetModuleDetails(courseId, moduleId).value.prerequisiteModules)
              && (r.canAccess <==> r.missingPrerequisites == [])
              && (r.canAccess <==>
                    forall x :: x in GetModuleDetails(courseId, moduleId).value.prerequisiteModules ==>
                                  HasSatisfiedEntry(mps, x))
  {
    match GetModuleDetails(courseId, moduleId)
    case None => Access(false, [])
    case Some(m) =>
      var missing := Missing(m.prerequisiteModules, SatisfiedIds(mps));
      assert missing == [] <==> forall x :: x in m.prerequisiteModules ==> HasSatisfiedEntry(mps, x) by {
        if missing != [] {
          assert missing[0] in missing;
        }
      }
      Access(missing == [], missing)
  }

  /** The gate agrees with `checkPrerequisites` run on the satisfied ids. */
  lemma CanAccessAgreesWithCheck(courseId: int, moduleId: string, mps: seq<ModuleProgress>)
    ensures CanAccessModule(courseId, moduleId, mps).canAccess ==
            CheckPrerequisites(courseId, moduleId, SatisfiedIds(mps))
  {
  }

  /** Satisfying more entries never adds a missing prerequisite and never revokes access. */
  lemma MoreProgressNeverAddsMissing(courseId: int, moduleId: string,
                                     mps: seq<ModuleProgress>, more: seq<ModuleProgress>)
    requires forall x :: HasSatisfiedEntry(mps, x) ==> HasSatisfiedEntry(more, x)
    ensures IsSubsequence(CanAccessModule(courseId, moduleId, more).missingPrerequisites,
                          CanAccessModule(courseId, moduleId, mps).missingPrerequisites)
    ensures CanAccessModule(courseId, moduleId, mps).canAccess ==>
            CanAccessModule(courseId, moduleId, more).canAccess
  {
    match GetModuleDetails(courseId, moduleId)
    case None =>
    case Some(m) =>
      MissingMonotone(m.prerequisiteModules, SatisfiedIds(mps), SatisfiedIds(more));
  }

  /** A completed module whose assessment is not completed does not unlock its
      dependants; completing the assessment does. No module of the table defines
      an assessment, so only an outside writer of `assessmentCompleted` can open
      the gate. */
  lemma AssessmentFlagRequired()
    ensures var done := ModuleProgress("ai-basics", true, false, 100, 0, []);
            CanAccessModule(2, "dl-basics", [done]) == Access(false, ["ai-basics"])
    ensures var passed := ModuleProgress("ai-basics", true, true, 100, 0, []);
            CanAccessModule(2, "dl-basics", [passed]) == Access(true, [])
  {
    CrossCoursePrerequisite();
    var done := ModuleProgress("ai-basics", true, false, 100, 0, []);
    assert SatisfiedIds([done]) == [];
    assert Missing(["ai-basics"], []) == ["ai-basics"];
    var passed := ModuleProgress("ai-basics", true, true, 100, 0, []);
    assert SatisfiedIds([passed]) == ["ai-basics"];
    assert Missing(["ai-basics"], ["ai-basics"]) == [];
  }

  /** No entry has its assessment completed. */
  predicate NoAssessmentDone(mps: seq<ModuleProgress>) {
    forall i :: 0 <= i < |mps| ==> !mps[i].assessmentCompleted
  }

  /** Lesson-progress reports never set `assessmentCompleted`, so on a record where
      no assessment is done the gate stays shut for every module that has a
      prerequisite, however many lessons are reported. */
  lemma LessonReportsNeverOpenGate(
    mps: seq<ModuleProgress>, moduleId: string, lessonId: string, progress: int, position: Option<int>,
    courseId: int, target: string)
    requires NoAssessmentDone(mps)
    ensures NoAssessmentDone(RecordedModules(mps, moduleId, lessonId, progress, position))
    ensures GetModuleDetails(courseId, target).Some? &&
            GetModuleDetails(courseId, target).value.prerequisiteModules != [] ==>
              !CanAccessModule(courseId, target, RecordedModules(mps, moduleId, lessonId, progress, position)).canAccess
  {
    RecordedModulesFrame(mps, moduleId, lessonId, progress, position);
    var r := RecordedModules(mps, moduleId, lessonId, progress, position);
    if GetModuleDetails(courseId, target).Some? && GetModuleDetails(courseId, target).value.prerequisiteModules != [] {
      var p := GetModuleDetails(courseId, target).value.prerequisiteModules[0];
      assert !HasSatisfiedEntry(r, p);
    }
  }

  /** `getPrerequisiteNames`: for a known course, each id is replaced by the title of
      the module with that id in the course, or kept when there is none; for an
      unknown course the result is empty. */
  function GetPrerequisiteNames(courseId: int, prerequisites: seq<string>): (r: seq<string>)
    ensures courseId !in CourseModules ==> r == []
    ensures courseId in CourseModules ==>
              && |r| == |prerequisites|
              && forall i :: 0 <= i < |r| ==>
                   match FindModule(CourseModules[courseId], prerequisites[i])
                   case Some(m) => r[i] == m.title
                   case None => r[i] == prerequisites[i]
  {
    if courseId !in CourseModules then []
    else seq(|prerequisites|, i requires 0 <= i < |prerequisites| =>
               match FindModule(CourseModules[courseId], prerequisites[i])
               case Some(m) => m.title
               case None => prerequisites[i])
  }

  /** Course 2's prerequisite lives in course 1, so its name is not resolved. */
  lemma CrossCourseNameFallsBack()
    ensures GetPrerequisiteNames(2, ["ai-basics"]) == ["ai-basics"]
    ensures GetPrerequisiteNames(3, ["dl-basics"]) == ["dl-basics"]
  {
    var names2 := GetPrerequisiteNames(2, ["ai-basics"]);
    assert CourseModules[2][0].id[0] != "ai-basics"[0];
    assert names2[0] == "ai-basics";
    var names3 := GetPrerequisiteNames(3, ["dl-basics"]);
    assert CourseModules[3][0].id[0] != "dl-basics"[0];
    assert names3[0] == "dl-basics";
  }

  /** A prerequisite id of the same course is replaced by its module's title;
      an unknown course gives no names at all. */
  lemma SameCourseNameResolves()
    ensures GetPrerequisiteNames(2, ["dl-basics"]) == ["Deep Learning Fundamentals"]
    ensures GetPrerequisiteNames(9, ["dl-basics"]) == []
  {
    var names := GetPrerequisiteNames(2, ["dl-basics"]);
    assert CourseModules[2][0].id == "dl-basics";
    assert FindModule(CourseModules[2], "dl-basics") == Some(CourseModules[2][0]);
    assert names[0] == "Deep Learning Fundamentals";
  }

}
