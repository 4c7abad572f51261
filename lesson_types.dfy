/** The lesson content types and their lookup helpers (src/types/lesson.ts):
    course contents keyed by course id, each a list of modules whose lessons
    are keyed by lesson id. The helpers are stated over any contents table,
    then instantiated with the table the file declares, which is empty.
    Lookups of keys inherited from `Object.prototype` are not modelled. */
module LessonTypes {
  import opened Wrappers

  datatype Resource = Resource(title: string, kind: string, url: string)

  /** One quiz item attached to a lesson. */
  datatype AssessmentItem = AssessmentItem(
    id: string, question: string, options: seq<string>, correctAnswer: int, explanation: string)

  datatype Lesson = Lesson(
    title: string, videoUrl: string, description: string, resources: seq<Resource>,
    estimatedTime: string, difficulty: string, skills: seq<string>, assessment: seq<AssessmentItem>)

  datatype ContentModule = ContentModule(id: string, title: string, lessons: map<string, Lesson>)

  type CourseContent = map<string, seq<ContentModule>>

  /** `courseContents`: declared with no entries. */
  const CourseContents: CourseContent := map[]

  /** `getModule`: the first module of the course with that id; undefined when
      the course key or the module is absent. */
  function GetModuleIn(contents: CourseContent, courseId: string, moduleId: string): (r: Option<ContentModule>)
    ensures courseId !in contents ==> r.None?
    ensures courseId in contents ==>
              var mods := contents[courseId];
              var k := FirstIndex(mods, (m: ContentModule) => m.id == moduleId);
              (r.Some? <==> k < |mods|) && (r.Some? ==> r.value == mods[k] && r.value.id == moduleId)
  {
    if courseId !in contents then None
    else Find(contents[courseId], (m: ContentModule) => m.id == moduleId)
  }

  /** `getLesson`: undefined when the module is missing, otherwise the lesson
      stored under that key of the module (undefined when absent). */
  function GetLessonIn(contents: CourseContent, courseId: string, moduleId: string, lessonId: string)
    : (r: Option<Lesson>)
    ensures GetModuleIn(contents, courseId, moduleId).None? ==> r.None?
    ensures GetModuleIn(contents, courseId, moduleId).Some? ==>
              var m := GetModuleIn(contents, courseId, moduleId).value;
              (r.Some? <==> lessonId in m.lessons) && (r.Some? ==> r.value == m.lessons[lessonId])
  {
    match GetModuleIn(contents, courseId, moduleId)
    case None => None
    case Some(m) => if lessonId in m.lessons then Some(m.lessons[lessonId]) else None
  }

  /** `getAssessment`: undefined when the lesson is missing, otherwise the
      lesson's assessment list. */
  function GetAssessmentIn(contents: CourseContent, courseId: string, moduleId: string, lessonId: string)
    : (r: Option<seq<AssessmentItem>>)
    ensures r.Some? <==> GetLessonIn(contents, courseId, moduleId, lessonId).Some?
    ensures r.Some? ==> r.value == GetLessonIn(contents, courseId, moduleId, lessonId).value.assessment
  {
    match GetLessonIn(contents, courseId, moduleId, lessonId)
    case None => None
    case Some(l) => Some(l.assessment)
  }

  /** With a module of a course holding a lesson under some key, the three
      helpers find the module, the lesson and its assessment, provided no earlier
      module of that course has the same id. */
  lemma LookupsFindStoredLesson(contents: CourseContent, courseId: string, i: nat, lessonId: string)
    requires courseId in contents && i < |contents[courseId]|
    requires forall j :: 0 <= j < i ==> contents[courseId][j].id != contents[courseId][i].id
    requires lessonId in contents[courseId][i].lessons
    ensures var m := contents[courseId][i];
            && GetModuleIn(contents, courseId, m.id) == Some(m)
            && GetLessonIn(contents, courseId, m.id, lessonId) == Some(m.lessons[lessonId])
            && GetAssessmentIn(contents, courseId, m.id, lessonId) == Some(m.lessons[lessonId].assessment)
  {
    var mods := contents[courseId];
    FirstIndexUnique(mods, (m: ContentModule) => m.id == mods[i].id, i);
  }

  /** `getModule` over the declared table: undefined for every input. */
  function GetModule(courseId: string, moduleId: string): (r: Option<ContentModule>)
    ensures r.None?
  {
    GetModuleIn(CourseContents, courseId, moduleId)
  }

  /** `getLesson` over the declared table: undefined for every input. */
  function GetLesson(courseId: string, moduleId: string, lessonId: string): (r: Option<Lesson>)
    ensures r.None?
  {
    GetLessonIn(CourseContents, courseId, moduleId, lessonId)
  }

  /** `getAssessment` over the declared table: undefined for every input. */
  function GetAssessment(courseId: string, moduleId: string, lessonId: string): (r: Option<seq<AssessmentItem>>)
    ensures r.None?
  {
    GetAssessmentIn(CourseContents, courseId, moduleId, lessonId)
  }
}
