/** The scoring side of the exam page: the points-weighted percentage, the
    count of unanswered questions, the attempt handed to the progress store
    on submission, and the component state that submit and retry reset. */
module ExamViewer {
  import opened Strings
  import opened Types
  import ProgressStore

  /** A loaded exam (`ExamData`); the title, description and time limit only
      feed the page. */
  datatype ExamData = ExamData(
    examId: string,
    examType: ExamType,
    passingScore: int,
    questions: seq<ExamQuestion>)

  /** The recorded answer per question id. */
  type Answers = map<string, AnswerValue>

  /** The route parameters, as the strings a template literal prints. */
  datatype Route = Route(grade: string, subject: string, quarter: string, topicName: string)

  // ---------------------------------------------------------------------
  // Scoring
  // ---------------------------------------------------------------------

  /** The sum of the points of `qs`. */
  function TotalPoints(qs: seq<ExamQuestion>): nat
  {
    if qs == [] then 0 else TotalPoints(qs[..|qs| - 1]) + qs[|qs| - 1].points
  }

  /** Whether the recorded answer is strictly equal to the correct one; an
      index never equals a string. */
  predicate AnsweredCorrectly(q: ExamQuestion, answers: Answers) {
    q.id in answers && answers[q.id] == q.correctAnswer
  }

  /** The sum of the points of the questions answered correctly. */
  function CorrectPoints(qs: seq<ExamQuestion>, answers: Answers): nat
  {
    if qs == [] then 0
    else CorrectPoints(qs[..|qs| - 1], answers)
         + (if AnsweredCorrectly(qs[|qs| - 1], answers) then qs[|qs| - 1].points else 0)
  }

  /** `Math.round(correct / total * 100)`, computed exactly: the integer
      nearest to the percentage, halves rounded up; `0 / 0` is NaN. */
  function Percentage(correct: nat, total: nat): (r: Score)
    ensures total == 0 <==> r.NaN?
    ensures r.Finite? ==> 2 * r.n * total <= 200 * correct + total < 2 * (r.n + 1) * total
  {
    if total == 0 then NaN else Finite((200 * correct + total) / (2 * total))
  }

  /** `calculateScore`: 0 with no exam loaded; otherwise the rounded
      percentage of points earned. */
  method CalculateScore(exam: Option<ExamData>, answers: Answers) returns (score: Score)
    ensures exam.None? ==> score == Finite(0)
    ensures exam.Some? ==>
              score == Percentage(CorrectPoints(exam.value.questions, answers), TotalPoints(exam.value.questions))
  {
    if exam.None? {
      return Finite(0);
    }
    var qs := exam.value.questions;
    var correct: nat := 0;
    var total: nat := 0;
    var i := 0;
    while i < |qs|
      invariant 0 <= i <= |qs|
      invariant total == TotalPoints(qs[..i])
      invariant correct == CorrectPoints(qs[..i], answers)
    {
      assert qs[..i + 1][..i] == qs[..i];
      total := total + qs[i].points;
      if qs[i].id in answers && answers[qs[i].id] == qs[i].correctAnswer {
        correct := correct + qs[i].points;
      }
      i := i + 1;
    }
    assert qs[..i] == qs;
    score := Percentage(correct, total);
  }

  lemma {:induction false} CorrectAtMostTotal(qs: seq<ExamQuestion>, answers: Answers)
    ensures CorrectPoints(qs, answers) <= TotalPoints(qs)
  {
    if qs != [] {
      CorrectAtMostTotal(qs[..|qs| - 1], answers);
    }
  }

  lemma {:induction false} AllCorrectIsTotal(qs: seq<ExamQuestion>, answers: Answers)
    requires forall i :: 0 <= i < |qs| ==> AnsweredCorrectly(qs[i], answers)
    ensures CorrectPoints(qs, answers) == TotalPoints(qs)
  {
    if qs != [] {
      AllCorrectIsTotal(qs[..|qs| - 1], answers);
    }
  }

  lemma {:induction false} NoneCorrectIsZero(qs: seq<ExamQuestion>, answers: Answers)
    requires forall i :: 0 <= i < |qs| ==> !AnsweredCorrectly(qs[i], answers)
    ensures CorrectPoints(qs, answers) == 0
  {
    if qs != [] {
      NoneCorrectIsZero(qs[..|qs| - 1], answers);
    }
  }

  lemma ScaleTwice(a: int, b: int, t: nat)
    requires a <= b
    ensures 2 * a * t <= 2 * b * t
  {
  }

  /** The rounded percentage of `correct <= total` points lies in 0..100,
      and is 100 for full marks and 0 for no marks. */
  lemma PercentageRange(c: nat, t: nat)
    requires c <= t && t > 0
    ensures Percentage(c, t).Finite? && 0 <= Percentage(c, t).n <= 100
    ensures c == t ==> Percentage(c, t).n == 100
    ensures c == 0 ==> Percentage(c, t).n == 0
  {
    var n := Percentage(c, t).n;
    if n > 100 {
      ScaleTwice(101, n, t);
      assert false;
    }
    if n < 0 {
      ScaleTwice(n + 1, 0, t);
      assert false;
    }
    if c == t && n < 100 {
      ScaleTwice(n + 1, 100, t);
      assert false;
    }
    if c == 0 && n > 0 {
      ScaleTwice(1, n, t);
      assert false;
    }
  }

  /** With points that add up to something, the score is a percentage in
      0..100; it is 100 when every question is answered correctly and 0
      when none is. With no points at all it is NaN. */
  lemma ScoreRange(qs: seq<ExamQuestion>, answers: Answers)
    ensures TotalPoints(qs) == 0 ==> Percentage(CorrectPoints(qs, answers), TotalPoints(qs)) == NaN
    ensures TotalPoints(qs) > 0 ==>
              var s := Percentage(CorrectPoints(qs, answers), TotalPoints(qs));
              s.Finite? && 0 <= s.n <= 100
    ensures TotalPoints(qs) > 0 && (forall i :: 0 <= i < |qs| ==> AnsweredCorrectly(qs[i], answers)) ==>
              Percentage(CorrectPoints(qs, answers), TotalPoints(qs)) == Finite(100)
    ensures TotalPoints(qs) > 0 && (forall i :: 0 <= i < |qs| ==> !AnsweredCorrectly(qs[i], answers)) ==>
              Percentage(CorrectPoints(qs, answers), TotalPoints(qs)) == Finite(0)
  {
    var c, t := CorrectPoints(qs, answers), TotalPoints(qs);
    CorrectAtMostTotal(qs, answers);
    if t > 0 {
      PercentageRange(c, t);
      if forall i :: 0 <= i < |qs| ==> AnsweredCorrectly(qs[i], answers) {
        AllCorrectIsTotal(qs, answers);
      }
      if forall i :: 0 <= i < |qs| ==> !AnsweredCorrectly(qs[i], answers) {
        NoneCorrectIsZero(qs, answers);
      }
    }
  }

  // ---------------------------------------------------------------------
  // Submission
  // ---------------------------------------------------------------------

  /** `exam.questions.filter(q => answers[q.id] === undefined).length`. */
  function UnansweredCount(qs: seq<ExamQuestion>, answers: Answers): (n: nat)
    ensures n <= |qs|
  {
    if qs == [] then 0
    else UnansweredCount(qs[..|qs| - 1], answers) + (if qs[|qs| - 1].id in answers then 0 else 1)
  }

  /** No question is unanswered iff every question id has an answer. */
  lemma {:induction false} UnansweredSpec(qs: seq<ExamQuestion>, answers: Answers)
    ensures UnansweredCount(qs, answers) == 0 <==> forall i :: 0 <= i < |qs| ==> qs[i].id in answers
    ensures UnansweredCount(qs, answers) == |qs| <==> forall i :: 0 <= i < |qs| ==> qs[i].id !in answers
  {
    if qs != [] {
      var init := qs[..|qs| - 1];
      UnansweredSpec(init, answers);
      assert forall i :: 0 <= i < |init| ==> init[i] == qs[i];
    }
  }

  /** The lesson id the exam page saves attempts under:
      `grade-{grade}-{subject}-q{quarter}-{topicName}` with the first
      `topic-` removed. */
  function ExamLessonId(route: Route): string
  {
    ReplaceFirst("grade-" + route.grade + "-" + route.subject + "-q" + route.quarter + "-" + route.topicName,
                 "topic-", "")
  }

  /** The lesson id the lesson page reads progress and attempts under. */
  function ViewerLessonId(route: Route): string
  {
    route.grade + "-" + route.subject + "-" + route.quarter + "-" + route.topicName
  }

  lemma ReplaceFirstLength(s: string, pattern: string)
    ensures |ReplaceFirst(s, pattern, "")| == |s| || |ReplaceFirst(s, pattern, "")| == |s| - |pattern|
  {
  }

  /** The two pages never agree on a lesson id: the exam page's id is 7
      characters longer than the lesson page's, or 1 when `topic-` was
      removed. So an attempt saved by
      the exam page never shows among the attempts the lesson page reads. */
  lemma LessonIdsDiffer(route: Route, progress: ProgressStore.ProgressState, attempt: ExamAttempt)
    ensures ExamLessonId(route) != ViewerLessonId(route)
    ensures attempt.lessonId == ExamLessonId(route) ==>
              ProgressStore.GetExamAttempts(ProgressStore.SaveExamAttempt(progress, attempt), ViewerLessonId(route))
              == ProgressStore.GetExamAttempts(progress, ViewerLessonId(route))
  {
    var full := "grade-" + route.grade + "-" + route.subject + "-q" + route.quarter + "-" + route.topicName;
    ReplaceFirstLength(full, "topic-");
    assert |ExamLessonId(route)| > |ViewerLessonId(route)|;
    if attempt.lessonId == ExamLessonId(route) {
      ProgressStore.SaveLeavesOtherLessons(progress, attempt, ViewerLessonId(route));
    }
  }

  /** `calculatedScore >= exam.passingScore`; NaN passes nothing. */
  predicate Passed(score: Score, passingScore: int) {
    score.Finite? && score.n >= passingScore
  }

  /** The attempt `handleSubmit` saves. */
  function BuildAttempt(exam: ExamData, answers: Answers, route: Route, score: Score, now: Timestamp): (a: ExamAttempt)
    ensures a.lessonId == ExamLessonId(route) && a.examType == exam.examType
    ensures a.attemptId == exam.examId + "-" + NatToString(now)
    ensures a.startedAt == now && a.completedAt == Some(now) && a.answers == answers
    ensures a.score == Some(score) && a.totalPoints == Some(100)
    ensures a.passed == Some(Passed(score, exam.passingScore))
    ensures !a.released && a.releasedAt.None?
  {
    ExamAttempt(exam.examId + "-" + NatToString(now), ExamLessonId(route), exam.examType, now, Some(now),
                answers, Some(score), Some(100), Some(Passed(score, exam.passingScore)), false, None)
  }

  /** A saved attempt passes iff its score reaches the passing score, and
      records 100 as its total whatever the exam's points add up to. */
  lemma AttemptPassedIff(exam: ExamData, answers: Answers, route: Route, now: Timestamp)
    requires TotalPoints(exam.questions) > 0
    ensures var a := BuildAttempt(exam, answers, route,
                                  Percentage(CorrectPoints(exam.questions, answers), TotalPoints(exam.questions)), now);
            && a.score.Some? && a.score.value.Finite? && 0 <= a.score.value.n <= 100
            && (a.passed == Some(true) <==> a.score.value.n >= exam.passingScore)
            && a.totalPoints == Some(100)
  {
    ScoreRange(exam.questions, answers);
  }

  // ---------------------------------------------------------------------
  // Component state
  // ---------------------------------------------------------------------

  /** The exam page's state. */
  class ExamSession {
    var answers: Answers
    var submitted: bool
    var score: Option<Score>
    var showExplanations: bool

    constructor ()
      ensures answers == map[] && !submitted && score.None? && !showExplanations
    {
      answers := map[];
      submitted := false;
      score := None;
      showExplanations := false;
    }

    /** `handleAnswerChange`. */
    method AnswerChange(questionId: string, answer: AnswerValue)
      modifies this
      ensures answers == old(answers)[questionId := answer]
      ensures submitted == old(submitted) && score == old(score) && showExplanations == old(showExplanations)
    {
      answers := answers[questionId := answer];
    }

    /** `handleSubmit`: with no exam, or when the student declines to submit
        with unanswered questions, nothing happens; otherwise the score is
        shown and the attempt is saved. `confirmed` is the answer to the
        confirmation dialog, asked only when some question is unanswered. */
    method HandleSubmit(exam: Option<ExamData>, confirmed: bool, route: Route, now: Timestamp,
                        progress: ProgressStore.ProgressState)
      returns (saved: ProgressStore.ProgressState)
      modifies this
      ensures answers == old(answers) && showExplanations == old(showExplanations)
      ensures exam.None? || (UnansweredCount(exam.value.questions, old(answers)) > 0 && !confirmed) ==>
                saved == progress && submitted == old(submitted) && score == old(score)
      ensures exam.Some? && (UnansweredCount(exam.value.questions, old(answers)) == 0 || confirmed) ==>
                var s := Percentage(CorrectPoints(exam.value.questions, answers), TotalPoints(exam.value.questions));
                && submitted && score == Some(s)
                && saved == ProgressStore.SaveExamAttempt(progress, BuildAttempt(exam.value, answers, route, s, now))
    {
      saved := progress;
      if exam.None? {
        return;
      }
      var unanswered := UnansweredCount(exam.value.questions, answers);
      if unanswered > 0 && !confirmed {
        return;
      }
      var calculated := CalculateScore(exam, answers);
      score := Some(calculated);
      submitted := true;
      var attempt := BuildAttempt(exam.value, answers, route, calculated, now);
      saved := ProgressStore.SaveExamAttempt(progress, attempt);
    }

    /** `handleRetry`: back to a blank, unsubmitted exam. */
    method HandleRetry()
      modifies this
      ensures answers == map[] && !submitted && score.None? && !showExplanations
    {
      answers := map[];
      submitted := false;
      score := None;
      showExplanations := false;
    }
  }
}
