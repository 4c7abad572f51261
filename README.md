# Course platform progress core, modelled in Dafny

This project models the logic at the centre of the seproject course platform, a
Next.js application. Learners enrol in courses, watch the video lessons of each
module and take module assessments. Prerequisites between modules gate what a
learner may open. The model covers these parts:

- **The lesson-progress engine** (`ProgressRecords`, `EnrollmentModel`,
  `LessonRoute`). A POST finds or creates the module entry, then finds or
  creates the lesson entry. It keeps the lesson's running maximum and sets its
  completed flag from the 90 threshold. It then recomputes the module's floored
  mean and sets the module flag once every recorded lesson is completed; that
  flag is never cleared. The enrollment document is a class updated in place,
  by a method proved against the pure function `RecordedModules`.
- **The prerequisite gate** (`CourseCatalog`, `Prerequisites`). This covers the
  constant five-course module table, `checkPrerequisites`, `getModuleDetails`,
  `canAccessModule` and `getPrerequisiteNames`.
- **Enrollment** (`Enrollments`): the POST checks, per-module seeding and the
  GET `courseDetails`.
- **Module assessments** (`ModuleAssessment`): the score, the inclusive pass
  rule, and the quiz state updated by the answer, Next and Previous controls.
- **The client progress cache** (`LessonCache`) and **the completed-lesson
  list handler** (`CompletedLessons`).
- **Small decision functions**: password strength (`PasswordValidation`), the
  route guard (`RouteGuard`), the content lookups (`LessonTypes`) and the video
  player's id extraction, time label and completion trigger (`VideoPlayer`).
- **The one-time code stores of the four auth routes** (`AuthCodes`).

Shared helpers sit in `Wrappers` (Option, first-match search), `Text` (decimal
text, prefixes, padding) and `JsNumber`. `JsNumber` models JavaScript
percentages, including the NaN and Infinity of a division by zero.

The database, cookies, JWT signing, password hashing, e-mail, `Math.random`
and `Date.now` are not modelled. Each becomes a parameter carrying its outcome:
a `Session` for the token cookie, the document `findOne` returned (or `null`),
booleans for "the e-mail was sent" and "the response was ok", the random draw,
and the current time.

### Behaviour of the code worth knowing

- Nothing in the code recomputes an enrollment's `overallProgress` after a
  lesson update, and there is no operation that picks the next accessible
  module. Neither is modelled.
- The gate opens a module only when each prerequisite's entry is completed
  and has `assessmentCompleted` set. No lesson report ever sets that flag, so
  lesson reports alone never open a gated module
  (`Prerequisites.AssessmentFlagRequired`, `Prerequisites.LessonReportsNeverOpenGate`).
- Whether a module with lessons at 95 and 40 ends up completed depends on the
  order of the reports. The mean is 67 either way. If 40 comes first the module
  is not completed (`ProgressRecords.TwoLessonMean`). If 95 comes first the
  module is marked completed while that lesson is its only one, and the flag
  stays set (`ProgressRecords.CompletionDependsOnReportOrder`).
- Prerequisites are not confined to one course: course 2's module lists a
  module of course 1 (`CourseCatalog.CrossCoursePrerequisite`).

## Model

| member | source | states |
|---|---|---|
| Wrappers.FirstIndex | src/app/api/progress/lesson/route.ts:70-72 | the index `find` stops at: the first match, or the length when no element matches |
| Wrappers.Find | src/lib/prerequisites.ts:15 | `find` returns `None` exactly when no element matches, otherwise the element at the first matching index |
| Text.NatStr | src/components/video-player.tsx:101 | `toString` of a natural is non-empty decimal digits with no leading zero, and a single digit exactly for n < 10 |
| Text.ParseNatStr | src/components/video-player.tsx:101 | reading the decimal text of n gives n back |
| Text.NatStrLength | src/app/api/auth/register/route.ts:26 | a number between 10^(k-1) and 10^k prints as exactly k characters |
| Text.PadStart2 | src/components/video-player.tsx:101 | `padStart(2, '0')` gives at least two characters, keeps the text as its suffix and fills with '0' |
| JsNumber.Percent | src/app/api/progress/route.ts:46 | `(part / whole) * 100` is finite with value·whole = 100·part for a non-zero whole; for a zero whole it is NaN, +Infinity or -Infinity by the sign of part |
| JsNumber.PercentAtLeast | src/components/assessment/module-assessment.tsx:71 | for a positive whole, the percentage reaches t exactly when 100·part ≥ t·whole |
| JsNumber.PercentBounds | src/app/api/progress/route.ts:46 | a part between 0 and a positive whole gives a finite percentage in [0, 100] |
| CourseCatalog.FindModule | src/data/courseModules.ts:205 | the module found has the requested id and belongs to the course; none is found only when no module has that id |
| CourseCatalog.GetModuleDetails | src/data/courseModules.ts:212-217 | null for an unknown course or module id; otherwise a module of that course with the requested id |
| CourseCatalog.AllIncluded | src/data/courseModules.ts:208 | `every(... includes ...)` holds exactly when every prerequisite occurs in the completed list |
| CourseCatalog.CheckPrerequisites | src/data/courseModules.ts:201-209 | true exactly when the module exists and each of its prerequisites is in `completedModules` |
| CourseCatalog.NoPrerequisitesAlwaysPass | src/data/courseModules.ts:208 | an existing module with no prerequisites passes for any completed list |
| CourseCatalog.CheckPrerequisitesMonotone | src/data/courseModules.ts:208 | adding completed modules never turns a passed check into a failed one |
| CourseCatalog.CatalogueShape | src/data/courseModules.ts:46-198 | the table's keys are 1 to 5, each course has modules with distinct ids, and no module defines an assessment |
| CourseCatalog.CrossCoursePrerequisite | src/data/courseModules.ts:79-83 | course 2's only module requires "ai-basics", which is a module of course 1 and not of course 2 |
| ProgressRecords.RecordedLessons | src/app/api/progress/lesson/route.ts:87-107 | after a report the lesson list is never empty |
| ProgressRecords.RecordedModulesFrame | src/app/api/progress/lesson/route.ts:69-84 | a module entry is appended only when none has the id; other entries are unchanged; `assessmentCompleted` and `lastWatchedPosition` are kept; a new entry is zeroed |
| ProgressRecords.RecordedLessonEffect | src/app/api/progress/lesson/route.ts:86-107 | a lesson entry is created only when absent; its progress becomes max(old, new); `completed` tests the incoming value against 90; the position changes only when given; other lessons are unchanged |
| ProgressRecords.ProgressNeverDecreases | src/app/api/progress/lesson/route.ts:93 | a report keeps every existing module entry in its place with its id; inside each, every existing lesson entry keeps its place and id, and its progress never decreases |
| ProgressRecords.RecordedLessonsShape | src/app/api/progress/lesson/route.ts:86-107 | on one lesson list: an absent lesson is appended with the reported progress; a present one keeps its slot, takes max(old, new), tests completion on the incoming value, and changes position only when one is given; all other entries stay |
| ProgressRecords.RecordedLessonsExtend | src/app/api/progress/lesson/route.ts:86-107 | within one module, a report only appends lessons; existing lessons keep their ids and never lose progress |
| ProgressRecords.VideoProgressIsFlooredMean | src/app/api/progress/lesson/route.ts:110-114 | `videoProgress` is the floor of the mean over at least one recorded lesson |
| ProgressRecords.ModuleCompletionSticky | src/app/api/progress/lesson/route.ts:117-122 | the module flag is set exactly when it already was or every recorded lesson is completed; once true it stays true |
| ProgressRecords.RecordedPreservesWellFormed | src/app/api/progress/lesson/route.ts:70-107 | a report never introduces a duplicate module id or a duplicate lesson id within a module |
| ProgressRecords.GetLessonProgress | src/app/api/progress/lesson/route.ts:189-214 | an absent module gives zeros and no module summary; an absent lesson gives zeros with the summary |
| ProgressRecords.GetAfterRecord | src/app/api/progress/lesson/route.ts:87-107 | reading a lesson right after reporting it gives the running maximum, the report's completion test and the newest known position |
| ProgressRecords.LowerReportClearsLessonFlagOnly | src/app/api/progress/lesson/route.ts:93-97 | a report of 40 on a stored 95 keeps 95 but clears the lesson's flag, while the module flag stays set |
| ProgressRecords.TwoLessonMean | src/app/api/progress/lesson/route.ts:110-122 | reports 40 then 95 on two lessons give mean 67 and a module that is not completed |
| ProgressRecords.CompletionDependsOnReportOrder | src/app/api/progress/lesson/route.ts:117-122 | reports 95 then 40 give mean 67 and a completed module, although a recorded lesson is below 90 |
| EnrollmentModel.FindModuleEntry | src/app/api/progress/lesson/route.ts:70-72 | the loop stops at the first entry with the module id, or the end |
| EnrollmentModel.FindLessonEntry | src/app/api/progress/lesson/route.ts:87-89 | the loop stops at the first entry with the lesson id, or the end |
| EnrollmentModel.SumLessons | src/app/api/progress/lesson/route.ts:111-113 | the `reduce` computes the sum of the recorded progress values |
| EnrollmentModel.EveryCompleted | src/app/api/progress/lesson/route.ts:118 | true exactly when every recorded lesson is completed |
| EnrollmentModel.Enrollment.constructor | src/app/api/enrollments/route.ts:70-79 | a new document has the given fields, zero overall progress, not completed, and both dates set to now |
| EnrollmentModel.RecordLesson | src/app/api/progress/lesson/route.ts:86-107 | the find-or-push step on a module's lesson list gives `RecordedLessons` of the old list |
| EnrollmentModel.RecordModule | src/app/api/progress/lesson/route.ts:86-122 | the lesson step, the floored-mean `videoProgress` and the all-completed flag together give `RecordedModule` of the old entry |
| EnrollmentModel.Enrollment.RecordLessonProgress | src/app/api/progress/lesson/route.ts:69-125 | the in-place update leaves the module list equal to `RecordedModules` of the old one and stamps the access time; unique ids stay unique; it returns the touched module's summary |
| LessonRoute.PostLessonProgress | src/app/api/progress/lesson/route.ts:33-148 | 401, 500, 400 and 404 for no cookie, a failed verification, a missing field and a missing enrollment, with the document untouched; otherwise the report is applied and echoed |
| LessonRoute.GetLessonHandler | src/app/api/progress/lesson/route.ts:150-223 | the same failure statuses, with 400 for a missing query parameter; otherwise the stored lesson view with defaults |
| Prerequisites.SatisfiedIds | src/lib/prerequisites.ts:20-22 | an id is listed exactly when some entry for it is both completed and assessment-completed |
| Prerequisites.Missing | src/lib/prerequisites.ts:24-26 | the missing list holds exactly the prerequisites not done, each as many times as it is listed, as a subsequence of the prerequisite list |
| Prerequisites.MissingMonotone | src/lib/prerequisites.ts:24-26 | with more done, the missing list is a subsequence of what was missing before |
| Prerequisites.CanAccessModule | src/lib/prerequisites.ts:5-32 | an unknown course or module is refused with no missing ids; otherwise the missing ids are the unsatisfied prerequisites in order, and access holds exactly when none is missing |
| Prerequisites.CanAccessAgreesWithCheck | src/lib/prerequisites.ts:20-29 | the gate's verdict equals `checkPrerequisites` applied to the satisfied ids |
| Prerequisites.MoreProgressNeverAddsMissing | src/lib/prerequisites.ts:20-31 | satisfying more entries never adds a missing prerequisite and never revokes access |
| Prerequisites.AssessmentFlagRequired | src/lib/prerequisites.ts:21 | a completed prerequisite without its assessment keeps the gate shut; with the assessment done the gate opens |
| Prerequisites.LessonReportsNeverOpenGate | src/lib/prerequisites.ts:21 | lesson reports never set `assessmentCompleted`, so a module with prerequisites stays locked however many lessons are reported |
| Prerequisites.GetPrerequisiteNames | src/lib/prerequisites.ts:34-42 | an empty list for an unknown course; otherwise the same length and order, each id mapped to its module's title or kept when not found |
| Prerequisites.CrossCourseNameFallsBack | src/lib/prerequisites.ts:38-41 | a prerequisite id from another course keeps its raw id as its name |
| Prerequisites.SameCourseNameResolves | src/lib/prerequisites.ts:34-42 | an id of the same course maps to its module's title; an unknown course gives an empty list |
| Enrollments.CourseNumber | src/app/api/enrollments/route.ts:35 | a number is kept; a decimal digit string is read in base 10; any other string yields no course number |
| Enrollments.InitialModuleProgress | src/app/api/enrollments/route.ts:60-67 | one zeroed, lesson-free entry per course module, in course order |
| Enrollments.SeededRecordWellFormed | src/app/api/enrollments/route.ts:60-67 | a seeded record has distinct module ids and no completed module |
| Enrollments.EnrollmentStore.Enroll | src/app/api/enrollments/route.ts:10-93 | 401/500/400 for the cookie and a falsy id, 404 for a number outside the table, 400 when enrolled already (nothing stored); otherwise a fresh seeded record with the first module current is stored under (user, course) |
| Enrollments.CourseDetailsOf | src/app/api/enrollments/route.ts:115-124 | null exactly for a course outside the table, otherwise the first module's title and description |
| Enrollments.EnrollTwice | src/app/api/enrollments/route.ts:47-57 | a second enrolment in the same course, even with the id given as text, is refused with 400 and the first record stays stored |
| ModuleAssessment.CountCorrect | src/components/assessment/module-assessment.tsx:52-57 | the count of correctly answered questions never exceeds the number of questions |
| ModuleAssessment.Score | src/components/assessment/module-assessment.tsx:51-59 | NaN for no questions; otherwise a percentage in [0, 100] that is 100 exactly when all answers are right and 0 exactly when none is |
| ModuleAssessment.PassedIffCount | src/components/assessment/module-assessment.tsx:71 | passed exactly when there are questions and 100·correct ≥ passingScore·n, so the threshold is inclusive |
| ModuleAssessment.CountCorrectExtremes | src/components/assessment/module-assessment.tsx:53-57 | the count is full exactly when every answer is right, and zero exactly when none is |
| ModuleAssessment.UnansweringNeverRaises | src/components/assessment/module-assessment.tsx:54 | an unanswered question is incorrect, so removing an answer never raises the count |
| ModuleAssessment.NoAnswersScoreZero | src/components/assessment/module-assessment.tsx:54-71 | with no answers the count is 0, and the quiz passes only when the passing score is at most 0 |
| ModuleAssessment.CountCorrectLoop | src/components/assessment/module-assessment.tsx:51-57 | the mutable-counter loop computes `CountCorrect` |
| ModuleAssessment.Quiz.constructor | src/components/assessment/module-assessment.tsx:36-38 | the quiz starts on the first question with no answers and no results shown |
| ModuleAssessment.Quiz.ProgressValue | src/components/assessment/module-assessment.tsx:42 | the progress bar is 0 on the first question and below 100 throughout the quiz |
| ModuleAssessment.Quiz.HandleAnswer | src/components/assessment/module-assessment.tsx:44-49 | only the current question's answer is set, replacing any earlier choice; choosing option 0 leaves Next disabled |
| ModuleAssessment.Quiz.ClickNext | src/components/assessment/module-assessment.tsx:61-94 | before the last question the index advances; on the last it submits, and only an ok response shows results and calls `onComplete` with the pass verdict; the index stays in range |
| ModuleAssessment.Quiz.ClickPrevious | src/components/assessment/module-assessment.tsx:216-219 | Previous is enabled only past the first question and steps back one |
| LessonCache.CountDone | src/hooks/use-lesson-progress.ts:70-72 | the count is the number of positions of the lesson list (repetitions included) whose lesson has a completed cached entry, so at most the number of lessons |
| LessonCache.CountDoneAll | src/hooks/use-lesson-progress.ts:70-75 | the count equals the lesson count exactly when every listed lesson is completed in the cache |
| LessonCache.LessonProgressCache.constructor | src/hooks/use-lesson-progress.ts:18 | the cache starts empty |
| LessonCache.LessonProgressCache.UpdateLessonProgress | src/hooks/use-lesson-progress.ts:20-64 | after an ok response the lesson's entry becomes the report itself (no maximum) and other entries are kept; after a failure nothing changes and failure is reported |
| LessonCache.LessonProgressCache.CheckModuleCompletion | src/hooks/use-lesson-progress.ts:66-79 | the total is the lesson count; the completed count is the number of listed lessons whose cached entry is completed, so at most the total; completed holds exactly when every listed lesson is completed, so it holds for no lessons; the module id plays no part |
| LessonCache.LessonProgressCache.GetLessonProgress | src/hooks/use-lesson-progress.ts:81-83 | the cached entry, or undefined when there is none |
| LessonCache.CacheKeepsLatestServerKeepsMaximum | src/hooks/use-lesson-progress.ts:48-57 | reports of 95 then 40, sent through the cache update and through the server's find-or-push step, leave 40 in the cache while the server record keeps 95; both mark the lesson not completed |
| CompletedLessons.WithLesson | src/app/api/progress/route.ts:31-35 | adding yields a list that contains the id, keeps the old list as its prefix and grows by at most one |
| CompletedLessons.WithoutLesson | src/app/api/progress/route.ts:36-41 | removing drops every occurrence of the id and keeps exactly the other ids |
| CompletedLessons.AddIdempotent | src/app/api/progress/route.ts:33-35 | adding the same id twice is the same as adding it once |
| CompletedLessons.RemoveKeepsOrder | src/app/api/progress/route.ts:38-40 | the remaining ids keep their original order |
| CompletedLessons.RemoveAbsentIsIdentity | src/app/api/progress/route.ts:38-40 | removing an id that is not listed changes nothing |
| CompletedLessons.RemoveAppend | src/app/api/progress/route.ts:38-40 | the filter distributes over concatenation |
| CompletedLessons.TogglesKeepDistinct | src/app/api/progress/route.ts:31-41 | neither toggle introduces a duplicate id |
| CompletedLessons.Includes | src/app/api/progress/route.ts:33 | the `includes` scan finds the id exactly when it is listed |
| CompletedLessons.FilterOut | src/app/api/progress/route.ts:38-40 | the filter loop computes `WithoutLesson` |
| CompletedLessons.Toggled | src/app/api/progress/route.ts:31-41 | after the toggle the id is listed exactly when `completed` is true |
| CompletedLessons.ProgressDocument.constructor | src/app/api/progress/route.ts:19-22 | the document holds the given list and percentage |
| CompletedLessons.ToggleLocally | src/app/api/progress/route.ts:31-41 | the in-memory change is the toggle |
| CompletedLessons.PostProgressAsWritten | src/app/api/progress/route.ts:7-61 | 401 without a token, 500 on a failed verification, 404 without an enrollment, and 500 for every other request: no request succeeds |
| CompletedLessons.PostProgress | src/app/api/progress/route.ts:7-61 | intended handler: the same failure statuses, 500 for a missing course, otherwise the toggled list and its percentage of the course's lessons are saved and echoed |
| CompletedLessons.IntendedProgressBounded | src/app/api/progress/route.ts:45-46 | on a distinct list the toggle keeps it distinct; with no more ids than lessons the percentage is finite and within [0, 100]; a course with no lessons gives NaN or Infinity |
| CompletedLessons.GetProgress | src/app/api/progress/route.ts:63-99 | 401/500/404 as for POST; otherwise the stored percentage and list, unchanged |
| PasswordValidation.Contains | src/lib/password-validation.ts:26-29 | the class test holds exactly when some character of the password is in the class |
| PasswordValidation.Utf16Length | src/lib/password-validation.ts:25 | `password.length` counts UTF-16 code units: between the number of characters and twice it |
| PasswordValidation.Utf16LengthOfBasicPlane | src/lib/password-validation.ts:25 | for text without characters beyond the Basic Multilingual Plane the code-unit length is the character count |
| PasswordValidation.ValidatePassword | src/lib/password-validation.ts:21-35 | the length criterion holds exactly when the UTF-16 length is at least 8; each other criterion holds exactly when its character class is met, and the password is valid exactly when all five hold |
| PasswordValidation.EmptyPasswordInvalid | src/lib/password-validation.ts:25-33 | the empty password fails every criterion |
| PasswordValidation.SpecialIsNotAlphanumeric | src/lib/password-validation.ts:4-7 | a special character is not a letter or a digit |
| PasswordValidation.ValidNeedsFourKinds | src/lib/password-validation.ts:26-33 | a valid password has four distinct positions: an upper-case letter, a lower-case letter, a digit and a special character |
| PasswordValidation.ValidExample | src/lib/password-validation.ts:21-35 | "Passw0rd!" is valid |
| PasswordValidation.AstralExample | src/lib/password-validation.ts:25 | "Aa1!" followed by two emoji is eight code units long and valid |
| PasswordValidation.ShortExample | src/lib/password-validation.ts:25 | "Pa0!" meets every criterion except the length and is invalid |
| PasswordValidation.NoUpperCaseExample | src/lib/password-validation.ts:26 | "password1!" has no upper-case letter and is invalid |
| RouteGuard.Middleware | src/middleware.ts:5-29 | API paths always pass; an auth page with a token goes to /dashboard; a dashboard page without a token goes to /signin with `from`; it passes exactly when neither redirect applies |
| RouteGuard.RulesDisjoint | src/middleware.ts:7-22 | no path is both an auth page and a dashboard page, and neither is an API path |
| RouteGuard.RedirectTargetsPass | src/middleware.ts:17-26 | a redirect target passes for the same cookie state, so redirects never chain |
| RouteGuard.RawPrefixMatches | src/middleware.ts:7-22 | the raw prefix tests match `/signinx` and `/dashboardx`, and `/apix/...` skips every rule |
| LessonTypes.GetModuleIn | src/types/lesson.ts:46-48 | undefined for an absent course; otherwise the first module with the id, or undefined |
| LessonTypes.GetLessonIn | src/types/lesson.ts:50-53 | undefined when the module is missing; otherwise the lesson stored under the key, if any |
| LessonTypes.GetAssessmentIn | src/types/lesson.ts:55-58 | defined exactly when the lesson is, and then it is the lesson's assessment list |
| LessonTypes.LookupsFindStoredLesson | src/types/lesson.ts:46-58 | a stored lesson whose module id comes first in its course is found by all three lookups |
| LessonTypes.GetModule | src/types/lesson.ts:42-48 | over the declared empty table, undefined for every input |
| LessonTypes.GetLesson | src/types/lesson.ts:42-53 | over the declared empty table, undefined for every input |
| LessonTypes.GetAssessment | src/types/lesson.ts:42-58 | over the declared empty table, undefined for every input |
| VideoPlayer.FirstMatchFrom | src/components/video-player.tsx:94 | the leftmost position of `embed/` followed by a character other than `?`, or the end when there is none |
| VideoPlayer.UpToQuery | src/components/video-player.tsx:94 | the longest prefix without `?`: the capture of `[^?]+` |
| VideoPlayer.GetYouTubeVideoId | src/components/video-player.tsx:93-96 | the id has no `?`; it is empty exactly when nothing matches; otherwise it is the text after the leftmost match up to the next `?` or the end |
| VideoPlayer.IdOfEmbedUrl | src/components/video-player.tsx:93-96 | an embed URL yields exactly the id between `embed/` and its query string |
| VideoPlayer.FormatTimeSplit | src/components/video-player.tsx:98-102 | for a non-negative time, the label is the decimal minutes, a colon and the two-character seconds field of ⌊s⌋ = 60q + r |
| VideoPlayer.FormatTimeFields | src/components/video-player.tsx:98-102 | for a non-negative time, the label is minutes, a colon and two digits below 60; minutes·60 + seconds is the whole seconds |
| VideoPlayer.TrackTick | src/components/video-player.tsx:67-79 | a tick reports the percentage; with a positive duration it completes exactly from 90% on; with a zero duration exactly when playback has moved |
| VideoPlayer.CompletesOnEveryLateTick | src/components/video-player.tsx:76-78 | `onComplete` is called on every tick at or past 90%, not once |
| AuthCodes.IssuedNumber | src/app/api/auth/register/route.ts:26 | the drawn code lies in [100000, 999999] |
| AuthCodes.IssuedCode | src/app/api/auth/login/route.ts:22 | the code text is six digits with no leading zero and reads back as the drawn number |
| AuthCodes.ExpiryBoundary | src/app/api/auth/verify/route.ts:18-24 | a code is accepted up to and including its expiry instant and rejected after it; a different code or a missing entry is rejected |
| AuthCodes.CodeStore.constructor | src/app/api/auth/register/route.ts:28 | a store starts empty |
| AuthCodes.CodeStore.Lookup | src/app/api/auth/verify/route.ts:18 | the entry for the e-mail, or none when absent |
| AuthCodes.CodeStore.Issue | src/app/api/auth/register/route.ts:29-32 | the e-mail's entry is replaced by the code and now + ttl; other entries are kept |
| AuthCodes.CodeStore.Consume | src/app/api/auth/verify/route.ts:41 | the e-mail's entry is removed and nothing else |
| AuthCodes.Register | src/app/api/auth/register/route.ts:13-49 | a registered e-mail gets 400 with nothing stored; otherwise a ten-minute code is stored before sending, and a failed send answers 500 with the code kept |
| AuthCodes.Login | src/app/api/auth/login/route.ts:7-45 | bad credentials get 401 with nothing stored; otherwise a five-minute code is stored before sending, and a failed send answers 500 with the code kept |
| AuthCodes.Verify | src/app/api/auth/verify/route.ts:14-67 | 400 unless an unexpired matching code is stored; 500 with the code kept when creation or signing fails; success deletes the code and sets a strict, http-only, seven-day cookie |
| AuthCodes.Verify2FA | src/app/api/auth/verify-2fa/route.ts:7-62 | 400 unless an unexpired matching 2FA code is stored; 404 for an unknown user and 500 for a signing failure, keeping the code; success deletes it and returns the token in the body and in a lax cookie |
| AuthCodes.VerifyIsSingleUse | src/app/api/auth/verify/route.ts:41 | replaying a successful verification is refused with 400 |
| AuthCodes.LoginCodeDoesNotRegister | src/app/api/auth/verify/route.ts:18 | a login code does not pass the registration check, because the two stores are separate |

## Left out

- Persistence and request plumbing are not modelled: `connectDB`, `findOne`, `save`, `Enrollment.create`, the JSON body, cookies, and the exceptions these throw. A stored document is an object passed in, or `null`. The generic 500 of each `catch` is modelled only for token verification, for user creation, for token signing and for the unbound `Course`.
- The lesson-progress route builds an ObjectId from `courseId` to look up the enrollment, while enrollments store a numeric course id. This mismatch lies in the storage layer, so the model takes the document the lookup returned.
- Token verification and signing (JWT), password hashing and comparison (bcrypt) and e-mail delivery are not modelled. Each is an outcome parameter: `Session`, `credentialsOk`, `created`, `token`, `sendOk`.
- `Math.random` and `Date.now` are not modelled; the caller passes the random draw in [0, 1) and the current time in milliseconds.
- Floating-point rounding is not modelled. Percentages are exact reals, with NaN and the infinities modelled where a division by zero can occur. Progress values in the lesson engine are integers, so fractional reports are not covered.
- The interval timer, the DOM, the YouTube player API and the React rendering are not modelled. A tracking tick takes the reported current time and duration. The empty-`src` early return of the video player is not modelled.
- The `reviewing` screen of the assessment component and its toast messages are not modelled. The request to the assessment-submit endpoint is reduced to whether its response was ok; that endpoint is not part of this model.
- ModuleAssessment.Quiz.constructor: requires at least one question, because the component dereferences the current question while rendering and an empty list throws.
- ModuleAssessment.Quiz.ClickNext: requires Next to be enabled, because the button cannot be clicked while it is disabled.
- The response body that `updateLessonProgress` returns is not modelled; only the cache update and the thrown error are.
- Enrollments.CourseNumber: reads only plain decimal digit strings; `Number`'s whitespace trimming, signs, decimal points, exponents and hexadecimal forms are treated as NaN. Of these, only such spellings of 1 to 5 would name a course in the table.
- The enrollment schema has no `completedLessons` or `progress` field, so how those fields are stored is not modelled. The completed-lesson handler works on a `ProgressDocument` holding just the two fields it uses.
- `overallProgress` and `isCompleted` are never recomputed by the code, so they are not modelled beyond their initial values. Server-side setting of `assessmentCompleted` and a next-module selector do not appear in the code either.
- Lookups of keys inherited from `Object.prototype` (such as `"constructor"`) in the content tables are not modelled.
- The `secure` cookie flag depends on the deployment environment, so it is not modelled.
- The middleware's `matcher` configuration, which limits the paths the guard runs on, is not modelled. The decision function is modelled for every path.
- EnrollmentModel.Enrollment.RecordLessonProgress: gives the module entry pushed at src/app/api/progress/lesson/route.ts:74-83 reference semantics, so the later lesson push and the `videoProgress` and `completed` writes reach the stored entry. The stored list is a Mongoose subdocument array (src/models/enrollment.ts:60-87), which copies a pushed plain object into a new subdocument; if the stored copy does not see those later writes, a first report for a module leaves its stored entry with no lessons, zero progress and not completed. That library behaviour is outside the model.
- Landing-page, dashboard and navigation components, static content tables other than the module table, and the course search route are not part of this model.

## Findings

| source | as written | input that shows it | evidently intended | confidence | as-written member | corrected member |
|---|---|---|---|---|---|---|
| src/app/api/progress/route.ts:44 | `Course.findById` refers to `Course`, which the module never imports. Every request that reaches line 44 throws a ReferenceError and answers 500 before `save`, so no list change is ever persisted | any request with a valid token and an existing enrollment, e.g. `{lessonId: "l1", completed: true}` | look up the course, save the toggled list with its percentage of the course's lessons, and echo both | not executed | CompletedLessons.PostProgressAsWritten | CompletedLessons.PostProgress |
