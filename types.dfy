/** The records of the portal's data model: children, exam questions,
    exam attempts and per-lesson progress. Timestamps are milliseconds
    since the epoch; the source stores them as ISO-8601 strings. */
module Types {
  import opened Strings

  type Timestamp = nat
  type ChildId = string
  type LessonId = string

  datatype Child = Child(id: ChildId, name: string, grade: int, avatar: Option<string>)

  datatype QuestionType = MultipleChoice | TrueFalse | FillIn | ShortAnswer

  /** An answer or a correct answer: an option index or a string. The two
      kinds are never strictly equal to each other. */
  datatype AnswerValue = Index(n: int) | Text(s: string)

  datatype ExamQuestion = ExamQuestion(
    id: string,
    qtype: QuestionType,
    question: string,
    options: Option<seq<string>>,
    correctAnswer: AnswerValue,
    explanation: Option<string>,
    points: nat)

  datatype ExamType = Practice | Assessment

  /** A numeric score: an integer percentage, or NaN (the score of an exam
      whose points add up to zero). */
  datatype Score = Finite(n: int) | NaN

  datatype ExamAttempt = ExamAttempt(
    attemptId: string,
    lessonId: LessonId,
    examType: ExamType,
    startedAt: Timestamp,
    completedAt: Option<Timestamp>,
    answers: map<string, AnswerValue>,
    score: Option<Score>,
    totalPoints: Option<int>,
    passed: Option<bool>,
    released: bool,
    releasedAt: Option<Timestamp>)

  datatype LessonProgress = LessonProgress(
    lessonId: LessonId,
    completed: bool,
    startedAt: Option<Timestamp>,
    completedAt: Option<Timestamp>,
    timeSpent: int,
    examAttempts: seq<ExamAttempt>,
    bestScore: Option<Score>)
}
