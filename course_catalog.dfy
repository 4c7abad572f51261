/** The static module table of src/data/courseModules.ts and its two lookups,
    `checkPrerequisites` and `getModuleDetails`. Course keys are JavaScript
    numbers; only integer keys can ever hit the table, so they are `int` here. */
module CourseCatalog {
  import opened Wrappers

  /** A catalogue lesson; resources, estimated time, difficulty and skills are
      display-only and not modelled. */
  datatype Lesson = Lesson(id: string, title: string, videoUrl: string, duration: string)

  datatype Question = Question(
    id: string, text: string, options: seq<string>, correctAnswer: int, explanation: string)

  datatype Assessment = Assessment(
    id: string, title: string, questions: seq<Question>, passingScore: int, timeLimit: int)

  datatype Module = Module(
    id: string,
    title: string,
    description: string,
    prerequisiteModules: seq<string>,
    lessons: seq<Lesson>,
    assessment: Option<Assessment>)

  /** `courseModules`: course number to its ordered module list. */
  const CourseModules: map<int, seq<Module>> := map[
    1 := Course1,
    2 := Course2,
    3 := Course3,
    4 := Course4,
    5 := Course5
  ]

  const Course1: seq<Module> :=
    [Module("ai-basics", "Introduction to AI",
            "Fundamental concepts of Artificial Intelligence", [],
            [Lesson("ai-intro", "What is Artificial Intelligence?",
                    "https://www.youtube.com/embed/JMUxmLyrhSk", "15:00")], None)]

  const Course2: seq<Module> :=
    [Module("dl-basics", "Deep Learning Fundamentals",
            "Understanding Neural Networks", ["ai-basics"],
            [Lesson("neural-networks-intro", "Introduction to Neural Networks",
                    "https://www.youtube.com/embed/aircAruvnKk", "20:00")], None)]

  const Course3: seq<Module> :=
    [Module("nlp-basics", "Natural Language Processing",
            "Basics of NLP and text processing", ["dl-basics"],
            [Lesson("nlp-intro", "Introduction to NLP",
                    "https://www.youtube.com/embed/CMrHM8a3hqw", "25:00")], None)]

  const Course4: seq<Module> :=
    [Module("cv-basics", "Computer Vision Fundamentals",
            "Introduction to image processing and recognition", ["dl-basics"],
            [Lesson("cv-intro", "Introduction to Computer Vision",
                    "https://www.youtube.com/embed/OcycT1Jwp5g", "22:00")], None)]

  const Course5: seq<Module> :=
    [Module("rl-basics", "Reinforcement Learning",
            "Introduction to RL concepts", ["dl-basics"],
            [Lesson("rl-intro", "Introduction to Reinforcement Learning",
                    "https://www.youtube.com/embed/Mut_u40Sqz4", "28:00")], None)]

  /** `course.find(m => m.id === moduleId)`. */
  function FindModule(course: seq<Module>, moduleId: string): (r: Option<Module>)
    ensures r.None? <==> forall i :: 0 <= i < |course| ==> course[i].id != moduleId
    ensures r.Some? ==> r.value.id == moduleId && r.value in course
  {
    Find(course, (m: Module) => m.id == moduleId)
  }

  /** `getModuleDetails`: the module record, or `null` for an unknown course or module. */
  function GetModuleDetails(courseId: int, moduleId: string): (r: Option<Module>)
    ensures courseId !in CourseModules ==> r.None?
    ensures r.Some? ==> r.value.id == moduleId && r.value in CourseModules[courseId]
    ensures courseId in CourseModules && r.None? ==>
              forall i :: 0 <= i < |CourseModules[courseId]| ==> CourseModules[courseId][i].id != moduleId
  {
    if courseId !in CourseModules then None else FindModule(CourseModules[courseId], moduleId)
  }

  /** `prereqs.every(p => done.includes(p))`. */
  function AllIncluded(prereqs: seq<string>, done: seq<string>): (r: bool)
    ensures r <==> forall i :: 0 <= i < |prereqs| ==> prereqs[i] in done
  {
    if prereqs == [] then true else prereqs[0] in done && AllIncluded(prereqs[1..], done)
  }

  /** `checkPrerequisites`: false for an unknown course or module; otherwise every
      listed prerequisite id must occur in `completedModules`. */
  function CheckPrerequisites(courseId: int, moduleId: string, completedModules: seq<string>): (r: bool)
    ensures r <==> GetModuleDetails(courseId, moduleId).Some? &&
                   forall p :: p in GetModuleDetails(courseId, moduleId).value.prerequisiteModules ==>
                                 p in completedModules
  {
    match GetModuleDetails(courseId, moduleId)
    case None => false
    case Some(m) => AllIncluded(m.prerequisiteModules, completedModules)
  }

  /** A module without prerequisites passes whatever has been completed. */
  lemma NoPrerequisitesAlwaysPass(courseId: int, moduleId: string, completedModules: seq<string>)
    requires GetModuleDetails(courseId, moduleId).Some?
    requires GetModuleDetails(courseId, moduleId).value.prerequisiteModules == []
    ensures CheckPrerequisites(courseId, moduleId, completedModules)
  {
  }

  /** Completing more modules never revokes a passed check. */
  lemma CheckPrerequisitesMonotone(courseId: int, moduleId: string, done: seq<string>, more: seq<string>)
    requires forall x :: x in done ==> x in more
    requires CheckPrerequisites(courseId, moduleId, done)
    ensures CheckPrerequisites(courseId, moduleId, more)
  {
  }

  /** Shape of the table: keys 1 to 5, each a non-empty list of modules with
      pairwise distinct ids, none of which defines an assessment. */
  lemma CatalogueShape()
    ensures CourseModules.Keys == {1, 2, 3, 4, 5}
    ensures forall c :: c in CourseModules ==> |CourseModules[c]| > 0
    ensures forall c, i :: c in CourseModules && 0 <= i < |CourseModules[c]| ==>
              CourseModules[c][i].assessment.None?
    ensures forall c, i, j :: c in CourseModules && 0 <= i < j < |CourseModules[c]| ==>
              CourseModules[c][i].id != CourseModules[c][j].id
  {
  }

  /** Course 2's only module lists "ai-basics", a module of course 1, as its
      prerequisite: prerequisite ids are not confined to the course. */
  lemma CrossCoursePrerequisite()
    ensures GetModuleDetails(2, "dl-basics").Some?
    ensures GetModuleDetails(2, "dl-basics").value.prerequisiteModules == ["ai-basics"]
    ensures GetModuleDetails(2, "ai-basics").None?
    ensures GetModuleDetails(1, "ai-basics").Some?
    ensures CheckPrerequisites(2, "dl-basics", ["ai-basics"])
    ensures !CheckPrerequisites(2, "dl-basics", [])
  {
    assert CourseModules[2][0].id == "dl-basics";
    assert CourseModules[1][0].id == "ai-basics";
    assert "ai-basics" != "dl-basics";
  }
}
