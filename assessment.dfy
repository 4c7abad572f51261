/** Module-assessment scoring and quiz navigation
    (src/components/assessment/module-assessment.tsx): the count of exact-match
    answers, the score and its inclusive pass rule, and the quiz state that the
    answer, Next and Previous controls update step by step.

    The score is the JavaScript number `(correct / n) * 100`, a `JsNumber.Num`:
    an exact `real`, or the NaN an empty question list yields.
    The submit request is outside the model: the caller passes whether its
    response was ok. */
module ModuleAssessment {
  import opened Wrappers
  import opened CourseCatalog
  import opened JsNumber

  /** `answers[question.id] === question.correctAnswer`: an unanswered question
      (no key) is never correct. */
  predicate AnsweredCorrectly(q: Question, answers: map<string, int>) {
    q.id in answers && answers[q.id] == q.correctAnswer
  }

  /** The number of questions answered correctly, counted in list order. */
  function CountCorrect(qs: seq<Question>, answers: map<string, int>): (c: nat)
    ensures c <= |qs|
  {
    if qs == [] then 0
    else CountCorrect(qs[..|qs| - 1], answers) + (if AnsweredCorrectly(qs[|qs| - 1], answers) then 1 else 0)
  }

  /** `(correct / questions.length) * 100`: NaN for an empty list, otherwise
      a finite percentage that is 100 exactly when every answer is right and 0
      exactly when none is. */
  function Score(qs: seq<Question>, answers: map<string, int>): (s: Num)
    ensures qs == [] ==> s.NaN?
    ensures qs != [] ==> s.Finite? && 0.0 <= s.value <= 100.0
    ensures qs != [] ==> (s.value == 100.0 <==> CountCorrect(qs, answers) == |qs|)
    ensures qs != [] ==> (s.value == 0.0 <==> CountCorrect(qs, answers) == 0)
  {
    var c := CountCorrect(qs, answers);
    if qs == [] then Percent(c as real, |qs| as real)
    else
      PercentBounds(c as real, |qs| as real);
      Percent(c as real, |qs| as real)
  }

  /** `score >= passingScore`; a NaN score never passes. */
  predicate Passed(score: Num, passingScore: int) {
    AtLeast(score, passingScore as real)
  }

  /** The pass rule stated on counts: with n questions and c correct answers the
      assessment is passed exactly when 100·c ≥ passingScore·n, so the threshold
      is inclusive; an empty assessment is never passed. */
  lemma PassedIffCount(qs: seq<Question>, answers: map<string, int>, passingScore: int)
    ensures Passed(Score(qs, answers), passingScore) <==>
              qs != [] && 100 * CountCorrect(qs, answers) >= passingScore * |qs|
  {
    if qs != [] {
      CountComparison(CountCorrect(qs, answers), |qs|, passingScore);
    }
  }

  /** The percentage test on integer counts, free of division. */
  lemma CountComparison(c: int, n: int, p: int)
    requires n > 0
    ensures AtLeast(Percent(c as real, n as real), p as real) <==> 100 * c >= p * n
  {
    PercentAtLeast(c as real, n as real, p as real);
    assert (100 * c) as real == 100.0 * c as real;
    assert (p * n) as real == p as real * n as real;
  }

  /** Every question answered correctly gives the full count; no question
      answered correctly gives zero. */
  lemma {:induction false} CountCorrectExtremes(qs: seq<Question>, answers: map<string, int>)
    ensures CountCorrect(qs, answers) == |qs| <==> forall i :: 0 <= i < |qs| ==> AnsweredCorrectly(qs[i], answers)
    ensures CountCorrect(qs, answers) == 0 <==> forall i :: 0 <= i < |qs| ==> !AnsweredCorrectly(qs[i], answers)
  {
    if qs != [] {
      var init := qs[..|qs| - 1];
      CountCorrectExtremes(init, answers);
      assert forall i :: 0 <= i < |init| ==> init[i] == qs[i];
    }
  }

  /** Withdrawing the answer to one question id never raises the count: an
      unanswered question is incorrect. */
  lemma {:induction false} UnansweringNeverRaises(qs: seq<Question>, answers: map<string, int>, id: string)
    ensures CountCorrect(qs, answers - {id}) <= CountCorrect(qs, answers)
  {
    if qs != [] {
      UnansweringNeverRaises(qs[..|qs| - 1], answers, id);
    }
  }

  /** With no answers at all the count is zero and the assessment is passed only
      when the passing score is at most 0. */
  lemma NoAnswersScoreZero(qs: seq<Question>, passingScore: int)
    requires qs != []
    ensures CountCorrect(qs, map[]) == 0
    ensures Passed(Score(qs, map[]), passingScore) <==> passingScore <= 0
  {
    CountCorrectExtremes(qs, map[]);
    PassedIffCount(qs, map[], passingScore);
  }

  /** The `forEach` with a mutable counter inside `calculateScore`. */
  method CountCorrectLoop(qs: seq<Question>, answers: map<string, int>) returns (correct: nat)
    ensures correct == CountCorrect(qs, answers)
  {
    correct := 0;
    var i := 0;
    while i < |qs|
      invariant i <= |qs|
      invariant correct == CountCorrect(qs[..i], answers)
    {
      assert qs[..i + 1][..i] == qs[..i];
      if qs[i].id in answers && answers[qs[i].id] == qs[i].correctAnswer {
        correct := correct + 1;
      }
      i := i + 1;
    }
    assert qs[..i] == qs;
  }

  /** The state of one `ModuleAssessment` component: the current question
      index, the answers chosen so far keyed by question id, and whether the
      results are shown. The component indexes `questions[currentQuestionIndex]`
      while rendering, so it is only usable with at least one question. */
  class Quiz {
    const moduleId: string
    const questions: seq<Question>
    const passingScore: int
    var index: int
    var answers: map<string, int>
    var showResults: bool

    predicate Valid()
      reads this
    {
      |questions| > 0 && 0 <= index < |questions|
    }

    constructor (moduleId: string, questions: seq<Question>, passingScore: int)
      requires |questions| > 0
      ensures Valid()
      ensures this.moduleId == moduleId && this.questions == questions && this.passingScore == passingScore
      ensures index == 0 && answers == map[] && !showResults
    {
      this.moduleId := moduleId;
      this.questions := questions;
      this.passingScore := passingScore;
      index := 0;
      answers := map[];
      showResults := false;
    }

    /** The id of the question on screen. */
    function CurrentId(): string
      reads this
      requires Valid()
    {
      questions[index].id
    }

    /** The progress bar's `currentQuestionIndex / questions.length * 100`: it
        never reaches 100 while a question is on screen. */
    function ProgressValue(): (v: real)
      reads this
      requires Valid()
      ensures 0.0 <= v < 100.0
      ensures index == 0 ==> v == 0.0
    {
      (index as real / |questions| as real) * 100.0
    }

    /** Next/Submit is enabled when `answers[currentQuestion.id]` is truthy: an
        absent answer and the answer 0 (the first option) both disable it. */
    predicate NextEnabled()
      reads this
      requires Valid()
    {
      CurrentId() in answers && answers[CurrentId()] != 0
    }

    /** Previous is disabled only on the first question. */
    predicate PreviousEnabled()
      reads this
    {
      index != 0
    }

    /** `handleAnswer`: records the chosen option for the current question,
        replacing an earlier choice; nothing else changes. Choosing the first
        option (0) leaves Next disabled. */
    method HandleAnswer(value: int)
      requires Valid()
      modifies this`answers
      ensures Valid()
      ensures answers == old(answers)[old(CurrentId()) := value]
      ensures NextEnabled() <==> value != 0
    {
      answers := answers[questions[index].id := value];
    }

    /** `handleNext` on an enabled button: before the last question it moves to
        the next one; on the last it submits. `onComplete(passed)` is called, and
        the results shown, only when the submit response is ok; the index never
        leaves the question list. The returned value is the argument passed to
        `onComplete`, `None` when it is not called. */
    method ClickNext(responseOk: bool) returns (completed: Option<bool>)
      requires Valid() && NextEnabled()
      modifies this`index, this`showResults
      ensures Valid()
      ensures old(index) < |questions| - 1 ==>
                index == old(index) + 1 && showResults == old(showResults) && completed.None?
      ensures old(index) == |questions| - 1 ==> index == old(index)
      ensures old(index) == |questions| - 1 && !responseOk ==> showResults == old(showResults) && completed.None?
      ensures old(index) == |questions| - 1 && responseOk ==>
                showResults && completed == Some(Passed(Score(questions, answers), passingScore))
    {
      if index < |questions| - 1 {
        index := index + 1;
        completed := None;
      } else {
        var correct := CountCorrectLoop(questions, answers);
        var score := Percent(correct as real, |questions| as real);
        var passed := AtLeast(score, passingScore as real);
        if responseOk {
          showResults := true;
          completed := Some(passed);
        } else {
          completed := None;
        }
      }
    }

    /** The Previous button, enabled only past the first question: steps back one. */
    method ClickPrevious()
      requires Valid() && PreviousEnabled()
      modifies this`index
      ensures Valid()
      ensures index == old(index) - 1
    {
      index := index - 1;
    }
  }
}
