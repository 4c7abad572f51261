/** The completed-lesson list handler (src/app/api/progress/route.ts): a POST
    that adds a lesson id to or removes it from an enrollment's
    `completedLessons` and recomputes a percentage, and a GET that reads both
    back.

    The handler refers to `Course` at line 44 without importing it, so as
    written every request that reaches that line ends in the 500 branch before
    the document is saved. `PostProgressAsWritten` models that behaviour and
    `PostProgress` the evidently intended one, in which the course's lesson
    count is looked up and the change is saved.

    The document stands for the stored enrollment: changes the handler makes to
    its in-memory copy reach it only through `save`. The bearer token, its
    verification, the JSON body and the database lookups are outside the model:
    the caller passes what they produced. */
module CompletedLessons {
  import opened Wrappers
  import opened JsNumber
  import opened EnrollmentModel
  import opened Prerequisites

  /** The list after `completed` is true: the id appended unless already present. */
  function WithLesson(ids: seq<string>, lessonId: string): (r: seq<string>)
    ensures lessonId in r
    ensures forall x :: x in r <==> x in ids || x == lessonId
    ensures |ids| <= |r| <= |ids| + 1 && r[..|ids|] == ids
  {
    if lessonId in ids then ids else ids + [lessonId]
  }

  /** The list after `completed` is false: every occurrence of the id dropped,
      the other entries kept in order. */
  function WithoutLesson(ids: seq<string>, lessonId: string): (r: seq<string>)
    ensures lessonId !in r
    ensures forall x :: x in r <==> x in ids && x != lessonId
    ensures |r| <= |ids|
  {
    if ids == [] then []
    else if ids[0] == lessonId then WithoutLesson(ids[1..], lessonId)
    else [ids[0]] + WithoutLesson(ids[1..], lessonId)
  }

  predicate Distinct(ids: seq<string>) {
    forall i, j :: 0 <= i < j < |ids| ==> ids[i] != ids[j]
  }

  /** Adding is idempotent: a second add of the same id changes nothing. */
  lemma AddIdempotent(ids: seq<string>, lessonId: string)
    ensures WithLesson(WithLesson(ids, lessonId), lessonId) == WithLesson(ids, lessonId)
  {
  }

  /** Removing keeps the remaining entries in their original order. */
  lemma {:induction false} RemoveKeepsOrder(ids: seq<string>, lessonId: string)
    ensures IsSubsequence(WithoutLesson(ids, lessonId), ids)
  {
    if ids != [] {
      RemoveKeepsOrder(ids[1..], lessonId);
      if ids[0] == lessonId {
        SubsequenceOfTail(WithoutLesson(ids, lessonId), ids);
      } else {
        var r := WithoutLesson(ids, lessonId);
        assert r[0] == ids[0] && r[1..] == WithoutLesson(ids[1..], lessonId);
      }
    }
  }

  /** Removing an id that is not in the list changes nothing. */
  lemma {:induction false} RemoveAbsentIsIdentity(ids: seq<string>, lessonId: string)
    requires lessonId !in ids
    ensures WithoutLesson(ids, lessonId) == ids
  {
    if ids != [] {
      RemoveAbsentIsIdentity(ids[1..], lessonId);
      assert ids == [ids[0]] + ids[1..];
    }
  }

  /** Filtering distributes over concatenation. */
  lemma {:induction false} RemoveAppend(a: seq<string>, b: seq<string>, lessonId: string)
    ensures WithoutLesson(a + b, lessonId) == WithoutLesson(a, lessonId) + WithoutLesson(b, lessonId)
  {
    if a != [] {
      RemoveAppend(a[1..], b, lessonId);
      assert (a + b)[1..] == a[1..] + b;
    } else {
      assert a + b == b;
    }
  }

  /** Neither toggle introduces a duplicate, so a list built only by this
      handler names each lesson at most once. */
  lemma {:induction false} TogglesKeepDistinct(ids: seq<string>, lessonId: string)
    requires Distinct(ids)
    ensures Distinct(WithLesson(ids, lessonId))
    ensures Distinct(WithoutLesson(ids, lessonId))
  {
    if ids != [] {
      TogglesKeepDistinct(ids[1..], lessonId);
      var r := WithoutLesson(ids, lessonId);
      if ids[0] != lessonId {
        assert ids[0] !in ids[1..];
        assert r[0] == ids[0] && r[1..] == WithoutLesson(ids[1..], lessonId);
        forall i, j | 0 <= i < j < |r| ensures r[i] != r[j] {
          if i == 0 {
            assert r[j] in WithoutLesson(ids[1..], lessonId);
          } else {
            assert r[i] == r[1..][i - 1] && r[j] == r[1..][j - 1];
          }
        }
      }
    }
  }

  /** `completedLessons.includes(lessonId)`. */
  method Includes(ids: seq<string>, lessonId: string) returns (found: bool)
    ensures found <==> lessonId in ids
  {
    found := false;
    var i := 0;
    while i < |ids| && !found
      invariant i <= |ids|
      invariant found <==> lessonId in ids[..i]
    {
      assert ids[..i + 1] == ids[..i] + [ids[i]];
      found := ids[i] == lessonId;
      i := i + 1;
    }
    assert !found ==> ids[..i] == ids;
  }

  /** `completedLessons.filter(id => id.toString() !== lessonId)`. */
  method FilterOut(ids: seq<string>, lessonId: string) returns (kept: seq<string>)
    ensures kept == WithoutLesson(ids, lessonId)
  {
    kept := [];
    var i := 0;
    while i < |ids|
      invariant i <= |ids|
      invariant kept == WithoutLesson(ids[..i], lessonId)
    {
      assert ids[..i + 1] == ids[..i] + [ids[i]];
      RemoveAppend(ids[..i], [ids[i]], lessonId);
      if ids[i] != lessonId {
        kept := kept + [ids[i]];
      }
      i := i + 1;
    }
    assert ids[..i] == ids;
  }

  /** The list the POST computes: add when `completed`, remove otherwise. */
  function Toggled(ids: seq<string>, lessonId: string, completed: bool): (r: seq<string>)
    ensures completed <==> lessonId in r
  {
    if completed then WithLesson(ids, lessonId) else WithoutLesson(ids, lessonId)
  }

  /** The enrollment as this handler reads and writes it. */
  class ProgressDocument {
    var completedLessons: seq<string>
    var progress: Num

    constructor (completedLessons: seq<string>, progress: Num)
      ensures this.completedLessons == completedLessons && this.progress == progress
    {
      this.completedLessons := completedLessons;
      this.progress := progress;
    }
  }

  datatype ProgressBody = ProgressBody(lessonId: string, completed: bool)

  datatype ProgressResponse =
    | ProgressFailed(status: int)
    | ProgressOk(progress: Num, completedLessons: seq<string>)

  /** The list change made on the in-memory document, before line 44. */
  method ToggleLocally(ids: seq<string>, body: ProgressBody) returns (r: seq<string>)
    ensures r == Toggled(ids, body.lessonId, body.completed)
  {
    if body.completed {
      var present := Includes(ids, body.lessonId);
      r := if present then ids else ids + [body.lessonId];
    } else {
      r := FilterOut(ids, body.lessonId);
    }
  }

  /** POST as written: 401 without a token, 500 when verification throws, 404
      without an enrollment; every other request reaches the unbound `Course`,
      whose ReferenceError lands in the catch, so the answer is 500 and nothing
      is saved. No request ever succeeds. */
  method PostProgressAsWritten(session: Session, body: ProgressBody, doc: ProgressDocument?)
    returns (resp: ProgressResponse)
    ensures session.NoToken? ==> resp == ProgressFailed(401)
    ensures session.InvalidToken? ==> resp == ProgressFailed(500)
    ensures session.Token? && doc == null ==> resp == ProgressFailed(404)
    ensures session.Token? && doc != null ==> resp == ProgressFailed(500)
    ensures !resp.ProgressOk?
  {
    if session.NoToken? {
      return ProgressFailed(401);
    }
    if session.InvalidToken? {
      return ProgressFailed(500);
    }
    if doc == null {
      return ProgressFailed(404);
    }
    var local := ToggleLocally(doc.completedLessons, body);
    // `Course.findById` throws: `Course` is not bound in this module.
    resp := ProgressFailed(500);
  }

  /** POST as evidently intended: `courseLessons` is the number of keys of the
      course's `lessons` (`None` when the course is not found, where reading
      `course.lessons` throws and the handler answers 500 without saving). On
      success the list is toggled, the percentage is the list length over the
      lesson count, both are saved and echoed back. */
  method PostProgress(session: Session, body: ProgressBody, doc: ProgressDocument?,
                      courseLessons: Option<nat>)
    returns (resp: ProgressResponse)
    modifies doc
    ensures session.NoToken? ==> resp == ProgressFailed(401)
    ensures session.InvalidToken? ==> resp == ProgressFailed(500)
    ensures session.Token? && doc == null ==> resp == ProgressFailed(404)
    ensures session.Token? && doc != null && courseLessons.None? ==> resp == ProgressFailed(500)
    ensures resp.ProgressOk? <==> session.Token? && doc != null && courseLessons.Some?
    ensures resp.ProgressFailed? && doc != null ==> unchanged(doc)
    ensures resp.ProgressOk? ==>
              && doc.completedLessons == Toggled(old(doc.completedLessons), body.lessonId, body.completed)
              && doc.progress == Percent(|doc.completedLessons| as real, courseLessons.value as real)
              && resp == ProgressOk(doc.progress, doc.completedLessons)
  {
    if session.NoToken? {
      return ProgressFailed(401);
    }
    if session.InvalidToken? {
      return ProgressFailed(500);
    }
    if doc == null {
      return ProgressFailed(404);
    }
    var local := ToggleLocally(doc.completedLessons, body);
    if courseLessons.None? {
      return ProgressFailed(500);
    }
    doc.completedLessons := local;
    doc.progress := Percent(|local| as real, courseLessons.value as real);
    resp := ProgressOk(doc.progress, doc.completedLessons);
  }

  /** After the intended POST on a list of distinct lessons of the course, the
      list stays distinct, and when it holds no more ids than the course has
      lessons the percentage is finite and within [0, 100]; an empty course
      gives NaN for an empty list and Infinity otherwise. */
  lemma IntendedProgressBounded(ids: seq<string>, body: ProgressBody, courseLessons: nat)
    requires Distinct(ids)
    ensures Distinct(Toggled(ids, body.lessonId, body.completed))
    ensures var r := Toggled(ids, body.lessonId, body.completed);
            |r| <= courseLessons && courseLessons > 0 ==>
              && Percent(|r| as real, courseLessons as real).Finite?
              && 0.0 <= Percent(|r| as real, courseLessons as real).value <= 100.0
    ensures courseLessons == 0 ==>
              Percent(|Toggled(ids, body.lessonId, body.completed)| as real, 0.0) ==
                (if body.completed then PositiveInfinity
                 else if WithoutLesson(ids, body.lessonId) == [] then NaN else PositiveInfinity)
  {
    TogglesKeepDistinct(ids, body.lessonId);
    var r := Toggled(ids, body.lessonId, body.completed);
    if |r| <= courseLessons && courseLessons > 0 {
      PercentBounds(|r| as real, courseLessons as real);
    }
  }

  /** GET: 401/500/404 as for POST, otherwise the stored percentage and list
      exactly as they are. */
  function GetProgress(session: Session, doc: ProgressDocument?): (r: ProgressResponse)
    reads doc
    ensures session.NoToken? ==> r == ProgressFailed(401)
    ensures session.InvalidToken? ==> r == ProgressFailed(500)
    ensures r.ProgressOk? <==> session.Token? && doc != null
    ensures r.ProgressOk? ==> r.progress == doc.progress && r.completedLessons == doc.completedLessons
  {
    if session.NoToken? then ProgressFailed(401)
    else if session.InvalidToken? then ProgressFailed(500)
    else if doc == null then ProgressFailed(404)
    else ProgressOk(doc.progress, doc.completedLessons)
  }
}
