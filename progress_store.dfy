/** The per-child progress store: for every child a map from lesson id to
    that lesson's progress record. Each action is a transition from one
    store state to the next; the actions that work on "the current child"
    do nothing while no child is active. */
module ProgressStore {
  import opened Strings
  import opened Types

  datatype ChildProgress = ChildProgress(lessons: map<LessonId, LessonProgress>)

  datatype ProgressState = ProgressState(
    activeChildId: Option<ChildId>,
    children: map<ChildId, ChildProgress>)

  const Initial: ProgressState := ProgressState(None, map[])

  /** The active child, when `activeChildId` is truthy: set and non-empty. */
  function Active(s: ProgressState): (r: Option<ChildId>)
    ensures r.Some? <==> s.activeChildId.Some? && s.activeChildId.value != ""
    ensures r.Some? ==> r == s.activeChildId
  {
    if s.activeChildId.Some? && s.activeChildId.value != "" then s.activeChildId else None
  }

  /** The lessons map of a child; a child without an entry has none. */
  function LessonsOf(s: ProgressState, c: ChildId): map<LessonId, LessonProgress>
  {
    if c in s.children then s.children[c].lessons else map[]
  }

  function Lookup(s: ProgressState, c: ChildId, id: LessonId): Option<LessonProgress>
  {
    if id in LessonsOf(s, c) then Some(LessonsOf(s, c)[id]) else None
  }

  /** `r` differs from `s` at most in lesson `id` of child `c`: the active
      child, every other child and every other lesson of `c` are as they were. */
  ghost predicate OnlyLessonChanged(s: ProgressState, r: ProgressState, c: ChildId, id: LessonId)
  {
    && r.activeChildId == s.activeChildId
    && r.children.Keys == s.children.Keys + {c}
    && (forall k :: k in s.children && k != c ==> r.children[k] == s.children[k])
    && LessonsOf(r, c).Keys == LessonsOf(s, c).Keys + {id}
    && (forall l :: l in LessonsOf(s, c) && l != id ==> LessonsOf(r, c)[l] == LessonsOf(s, c)[l])
  }

  /** Writes one lesson record of one child, keeping everything else. */
  function PutLesson(s: ProgressState, c: ChildId, id: LessonId, p: LessonProgress): (r: ProgressState)
    ensures OnlyLessonChanged(s, r, c, id)
    ensures Lookup(r, c, id) == Some(p)
  {
    s.(children := s.children[c := ChildProgress(LessonsOf(s, c)[id := p])])
  }

  /** `setActiveChild`: makes `c` the active child and gives it an empty
      lessons map when it has no entry yet; existing progress is kept. */
  function SetActiveChild(s: ProgressState, c: ChildId): (r: ProgressState)
    ensures r.activeChildId == Some(c)
    ensures r.children.Keys == s.children.Keys + {c}
    ensures forall k :: k in s.children ==> r.children[k] == s.children[k]
    ensures c !in s.children ==> r.children[c] == ChildProgress(map[])
  {
    var s1 := s.(activeChildId := Some(c));
    if c in s1.children then s1 else s1.(children := s1.children[c := ChildProgress(map[])])
  }

  /** The record `markStarted` writes. */
  function StartedRecord(id: LessonId, now: Timestamp): LessonProgress
  {
    LessonProgress(id, false, Some(now), None, 0, [], None)
  }

  /** `markStarted`: a lesson that already has a start time is left alone;
      otherwise its record is replaced by a fresh started record. */
  function MarkStarted(s: ProgressState, id: LessonId, now: Timestamp): (r: ProgressState)
    ensures Active(s).None? ==> r == s
    ensures Active(s).Some? ==> OnlyLessonChanged(s, r, Active(s).value, id)
    ensures Active(s).Some? ==>
              var c := Active(s).value;
              var old_ := Lookup(s, c, id);
              if old_.Some? && old_.value.startedAt.Some? then r == s
              else Lookup(r, c, id) == Some(StartedRecord(id, now))
  {
    match Active(s)
    case None => s
    case Some(c) =>
      var existing := Lookup(s, c, id);
      if existing.Some? && existing.value.startedAt.Some? then s
      else PutLesson(s, c, id, StartedRecord(id, now))
  }

  /** The record `markComplete` writes over `existing`. */
  function CompletedRecord(id: LessonId, existing: Option<LessonProgress>, now: Timestamp): (p: LessonProgress)
    ensures p.completed && p.completedAt == Some(now) && p.lessonId == id
    ensures existing.Some? && existing.value.startedAt.Some? ==> p.startedAt == existing.value.startedAt
    ensures !(existing.Some? && existing.value.startedAt.Some?) ==> p.startedAt == Some(now)
    ensures existing.Some? ==> p.timeSpent == existing.value.timeSpent
                               && p.examAttempts == existing.value.examAttempts
                               && p.bestScore == existing.value.bestScore
    ensures existing.None? ==> p.timeSpent == 0 && p.examAttempts == [] && p.bestScore.None?
  {
    match existing
    case None => LessonProgress(id, true, Some(now), Some(now), 0, [], None)
    case Some(e) =>
      LessonProgress(id, true, if e.startedAt.Some? then e.startedAt else Some(now),
                     Some(now), e.timeSpent, e.examAttempts, e.bestScore)
  }

  /** `markComplete`. */
  function MarkComplete(s: ProgressState, id: LessonId, now: Timestamp): (r: ProgressState)
    ensures Active(s).None? ==> r == s
    ensures Active(s).Some? ==> OnlyLessonChanged(s, r, Active(s).value, id)
    ensures Active(s).Some? ==>
              Lookup(r, Active(s).value, id) == Some(CompletedRecord(id, Lookup(s, Active(s).value, id), now))
  {
    match Active(s)
    case None => s
    case Some(c) => PutLesson(s, c, id, CompletedRecord(id, Lookup(s, c, id), now))
  }

  /** `getProgress`: the active child's record of a lesson. */
  function GetProgress(s: ProgressState, id: LessonId): (r: Option<LessonProgress>)
    ensures Active(s).None? ==> r.None?
    ensures r.Some? ==> Active(s).Some? && Active(s).value in s.children
                        && id in s.children[Active(s).value].lessons
                        && r.value == s.children[Active(s).value].lessons[id]
  {
    match Active(s)
    case None => None
    case Some(c) => Lookup(s, c, id)
  }

  /** `getExamAttempts`: the attempts of the active child's record, or none. */
  function GetExamAttempts(s: ProgressState, id: LessonId): (r: seq<ExamAttempt>)
    ensures GetProgress(s, id).None? ==> r == []
    ensures GetProgress(s, id).Some? ==> r == GetProgress(s, id).value.examAttempts
  {
    match GetProgress(s, id)
    case None => []
    case Some(p) => p.examAttempts
  }

  /** `Math.max` of two scores: NaN if either is NaN. */
  function MaxScore(a: Score, b: Score): Score
  {
    if a.NaN? || b.NaN? then NaN else Finite(if a.n >= b.n then a.n else b.n)
  }

  /** `Math.max(...scores)` over the defined scores of `attempts`, folded
      from the left; no defined score gives no best score. */
  function BestScore(attempts: seq<ExamAttempt>): Option<Score>
  {
    if attempts == [] then None
    else
      var prefix := BestScore(attempts[..|attempts| - 1]);
      var last := attempts[|attempts| - 1].score;
      if last.None? then prefix
      else if prefix.None? then last
      else Some(MaxScore(prefix.value, last.value))
  }

  /** The best score is absent iff no attempt has a score, NaN iff some
      attempt scored NaN, and otherwise the largest recorded score. */
  lemma {:induction false} BestScoreSpec(attempts: seq<ExamAttempt>)
    ensures BestScore(attempts).None? <==> forall i :: 0 <= i < |attempts| ==> attempts[i].score.None?
    ensures BestScore(attempts) == Some(NaN) <==> exists i :: 0 <= i < |attempts| && attempts[i].score == Some(NaN)
    ensures BestScore(attempts).Some? && BestScore(attempts).value.Finite? ==>
              && (exists i :: 0 <= i < |attempts| && attempts[i].score == BestScore(attempts))
              && (forall i :: 0 <= i < |attempts| && attempts[i].score.Some? ==>
                    attempts[i].score.value.Finite? && attempts[i].score.value.n <= BestScore(attempts).value.n)
  {
    if attempts != [] {
      var init := attempts[..|attempts| - 1];
      BestScoreSpec(init);
      assert forall i :: 0 <= i < |init| ==> init[i] == attempts[i];
      var last := attempts[|attempts| - 1];
      if BestScore(init).Some? && BestScore(init).value.Finite? && last.score.Some? && last.score.value.Finite? {
        var k :| 0 <= k < |init| && init[k].score == BestScore(init);
        assert attempts[k].score == BestScore(init);
      } else if BestScore(init).Some? && BestScore(init).value.Finite? && last.score.None? {
        var k :| 0 <= k < |init| && init[k].score == BestScore(init);
        assert attempts[k].score == BestScore(init);
      }
    }
  }

  /** The record a first exam attempt on a lesson is saved into. */
  function EmptyRecord(id: LessonId): LessonProgress
  {
    LessonProgress(id, false, None, None, 0, [], None)
  }

  /** `saveExamAttempt`: appends the attempt to its lesson's list (creating
      a record without a start time if there is none) and recomputes the
      best score over all attempts. */
  function SaveExamAttempt(s: ProgressState, a: ExamAttempt): (r: ProgressState)
    ensures Active(s).None? ==> r == s
    ensures Active(s).Some? ==> OnlyLessonChanged(s, r, Active(s).value, a.lessonId)
    ensures Active(s).Some? ==>
              var before := Lookup(s, Active(s).value, a.lessonId);
              var p := Lookup(r, Active(s).value, a.lessonId).value;
              && Lookup(r, Active(s).value, a.lessonId).Some?
              && p.examAttempts == (if before.Some? then before.value.examAttempts else []) + [a]
              && p.bestScore == BestScore(p.examAttempts)
              && p.lessonId == (if before.Some? then before.value.lessonId else a.lessonId)
              && p.completed == (before.Some? && before.value.completed)
              && p.startedAt == (if before.Some? then before.value.startedAt else None)
              && p.timeSpent == (if before.Some? then before.value.timeSpent else 0)
              && p.completedAt == (if before.Some? then before.value.completedAt else None)
  {
    match Active(s)
    case None => s
    case Some(c) =>
      var lp := match Lookup(s, c, a.lessonId) case Some(p) => p case None => EmptyRecord(a.lessonId);
      var attempts := lp.examAttempts + [a];
      PutLesson(s, c, a.lessonId, lp.(examAttempts := attempts, bestScore := BestScore(attempts)))
  }

  /** `findIndex` of an attempt id. */
  function FindAttempt(attempts: seq<ExamAttempt>, attemptId: string): (r: Option<nat>)
    ensures r.Some? ==> r.value < |attempts| && attempts[r.value].attemptId == attemptId
                        && forall j :: 0 <= j < r.value ==> attempts[j].attemptId != attemptId
    ensures r.None? ==> forall j :: 0 <= j < |attempts| ==> attempts[j].attemptId != attemptId
  {
    if attempts == [] then None
    else if attempts[0].attemptId == attemptId then Some(0)
    else match FindAttempt(attempts[1..], attemptId)
         case None => None
         case Some(i) => Some(i + 1)
  }

  /** One lesson after `releaseAssessmentResults`: its first attempt with
      the id, if any, is marked released at `now`. */
  function ReleaseInLesson(l: LessonProgress, attemptId: string, now: Timestamp): LessonProgress
  {
    match FindAttempt(l.examAttempts, attemptId)
    case None => l
    case Some(i) =>
      l.(examAttempts := l.examAttempts[i := l.examAttempts[i].(released := true, releasedAt := Some(now))])
  }

  lemma ReleaseInLessonSpec(l: LessonProgress, attemptId: string, now: Timestamp)
    ensures var r := ReleaseInLesson(l, attemptId, now);
            && r.(examAttempts := l.examAttempts) == l
            && |r.examAttempts| == |l.examAttempts|
            && forall j :: 0 <= j < |l.examAttempts| ==>
                 if j == FindFirst(l.examAttempts, attemptId)
                 then r.examAttempts[j] == l.examAttempts[j].(released := true, releasedAt := Some(now))
                 else r.examAttempts[j] == l.examAttempts[j]
  {
  }

  /** The index of the first attempt with the id, or -1 as `findIndex` gives. */
  function FindFirst(attempts: seq<ExamAttempt>, attemptId: string): int
  {
    match FindAttempt(attempts, attemptId)
    case None => -1
    case Some(i) => i
  }

  /** The state `releaseAssessmentResults` produces. */
  function Released(s: ProgressState, c: ChildId, attemptId: string, now: Timestamp): (r: ProgressState)
    ensures c !in s.children ==> r == s
    ensures c in s.children ==>
              && r.activeChildId == s.activeChildId
              && r.children.Keys == s.children.Keys
              && (forall k :: k in s.children && k != c ==> r.children[k] == s.children[k])
              && r.children[c].lessons.Keys == s.children[c].lessons.Keys
              && forall l :: l in s.children[c].lessons ==>
                   r.children[c].lessons[l] == ReleaseInLesson(s.children[c].lessons[l], attemptId, now)
  {
    if c !in s.children then s
    else
      var lessons := s.children[c].lessons;
      s.(children := s.children[c := ChildProgress(map l | l in lessons :: ReleaseInLesson(lessons[l], attemptId, now))])
  }

  /** `releaseAssessmentResults`: visits every lesson of the child and marks
      the first attempt with the id as released. */
  method ReleaseAssessmentResults(s: ProgressState, c: ChildId, attemptId: string, now: Timestamp)
    returns (r: ProgressState)
    ensures r == Released(s, c, attemptId, now)
  {
    if c !in s.children {
      return s;
    }
    var lessons := s.children[c].lessons;
    var updated := lessons;
    var pending := lessons.Keys;
    while pending != {}
      invariant pending <= lessons.Keys && updated.Keys == lessons.Keys
      invariant forall l :: l in lessons && l !in pending ==>
                  updated[l] == ReleaseInLesson(lessons[l], attemptId, now)
      invariant forall l :: l in pending ==> updated[l] == lessons[l]
      decreases pending
    {
      var l :| l in pending;
      var lesson := updated[l];
      var index := FindAttempt(lesson.examAttempts, attemptId);
      if index.Some? {
        var i := index.value;
        var attempts := lesson.examAttempts[i := lesson.examAttempts[i].(released := true, releasedAt := Some(now))];
        updated := updated[l := lesson.(examAttempts := attempts)];
      }
      pending := pending - {l};
    }
    assert updated == map l | l in lessons :: ReleaseInLesson(lessons[l], attemptId, now);
    r := s.(children := s.children[c := ChildProgress(updated)]);
  }

  /** `updateLessonTime`: adds `minutes` to an existing record's time. */
  function UpdateLessonTime(s: ProgressState, id: LessonId, minutes: int): (r: ProgressState)
    ensures Active(s).None? || Lookup(s, Active(s).value, id).None? ==> r == s
    ensures Active(s).Some? && Lookup(s, Active(s).value, id).Some? ==>
              && OnlyLessonChanged(s, r, Active(s).value, id)
              && var before := Lookup(s, Active(s).value, id).value;
                 Lookup(r, Active(s).value, id) == Some(before.(timeSpent := before.timeSpent + minutes))
  {
    match Active(s)
    case None => s
    case Some(c) =>
      match Lookup(s, c, id)
      case None => s
      case Some(e) => PutLesson(s, c, id, e.(timeSpent := e.timeSpent + minutes))
  }

  /** The `children` field of a parsed import document. */
  datatype ChildrenField =
    | Absent                                     // missing or falsy
    | NotObject                                  // a number, string or `true`
    | Entries(entries: map<ChildId, ChildProgress>)

  /** The exported document `{version, exportDate, children}`. */
  datatype ProgressDoc = ProgressDoc(version: string, exportDate: Timestamp, children: ChildrenField)

  /** `exportProgress`; serialising to JSON text and parsing it back is
      taken to give this document again, which holds when no score is NaN. */
  function ExportProgress(s: ProgressState, now: Timestamp): (d: ProgressDoc)
    ensures d.version == "2.0" && d.exportDate == now
    ensures d.children == Entries(s.children)
  {
    ProgressDoc("2.0", now, Entries(s.children))
  }

  /** `importProgress` of a parse result (`None` when the text is not JSON):
      fails without change unless `children` is an object, otherwise merges
      it over the existing children, one whole child entry at a time. */
  function ImportProgress(s: ProgressState, parsed: Option<ProgressDoc>): (r: (bool, ProgressState))
    ensures !r.0 <==> parsed.None? || !parsed.value.children.Entries?
    ensures !r.0 ==> r.1 == s
    ensures r.0 ==>
              var e := parsed.value.children.entries;
              && r.1.activeChildId == s.activeChildId
              && r.1.children.Keys == s.children.Keys + e.Keys
              && (forall k :: k in e ==> r.1.children[k] == e[k])
              && (forall k :: k in s.children && k !in e ==> r.1.children[k] == s.children[k])
  {
    match parsed
    case None => (false, s)
    case Some(doc) =>
      match doc.children
      case Entries(e) => (true, s.(children := s.children + e))
      case _ => (false, s)
  }

  /** No attempt and no best score anywhere in the store is NaN. */
  predicate NoNaNScores(s: ProgressState) {
    forall c, l :: c in s.children && l in s.children[c].lessons ==>
      && s.children[c].lessons[l].bestScore != Some(NaN)
      && forall a :: a in s.children[c].lessons[l].examAttempts ==> a.score != Some(NaN)
  }

  /** Export followed by import into a store with no children reproduces
      every child's lessons exactly, as long as no score is NaN (JSON
      writes NaN as null, which this model does not represent). */
  lemma ExportImportRoundTrip(s: ProgressState, target: ProgressState, now: Timestamp)
    requires target.children == map[]
    requires NoNaNScores(s)
    ensures ImportProgress(target, Some(ExportProgress(s, now))) == (true, target.(children := s.children))
  {
    assert map[] + s.children == s.children;
  }

  /** `markComplete` after `markStarted` keeps the start time and records
      the completion time. */
  lemma CompleteAfterStart(s: ProgressState, id: LessonId, t1: Timestamp, t2: Timestamp)
    requires Active(s).Some?
    ensures var c := Active(s).value;
            var started := MarkStarted(s, id, t1);
            var p := Lookup(MarkComplete(started, id, t2), c, id).value;
            && Lookup(MarkComplete(started, id, t2), c, id).Some?
            && p.completed && p.completedAt == Some(t2)
            && p.startedAt == Lookup(started, c, id).value.startedAt
            && p.startedAt.Some?
  {
    var c := Active(s).value;
    var started := MarkStarted(s, id, t1);
    assert Active(started) == Active(s);
    assert Lookup(started, c, id).Some? && Lookup(started, c, id).value.startedAt.Some?;
  }

  /** An attempt saved before the lesson was opened creates a record with
      no start time, so opening the lesson afterwards replaces the record
      and the saved attempts are lost. */
  lemma StartAfterAttemptDiscardsAttempts(s: ProgressState, a: ExamAttempt, now: Timestamp)
    requires Active(s).Some? && Lookup(s, Active(s).value, a.lessonId).None?
    ensures GetExamAttempts(SaveExamAttempt(s, a), a.lessonId) == [a]
    ensures GetExamAttempts(MarkStarted(SaveExamAttempt(s, a), a.lessonId, now), a.lessonId) == []
  {
    var c := Active(s).value;
    var saved := SaveExamAttempt(s, a);
    assert Active(saved) == Active(s);
    assert Lookup(saved, c, a.lessonId).Some? && Lookup(saved, c, a.lessonId).value.startedAt.None?;
    var started := MarkStarted(saved, a.lessonId, now);
    assert Active(started) == Active(s);
    assert Lookup(started, c, a.lessonId) == Some(StartedRecord(a.lessonId, now));
  }

  /** Saving attempts under a lesson id leaves the attempts every other
      lesson id reports unchanged. */
  lemma SaveLeavesOtherLessons(s: ProgressState, a: ExamAttempt, other: LessonId)
    requires other != a.lessonId
    ensures GetExamAttempts(SaveExamAttempt(s, a), other) == GetExamAttempts(s, other)
  {
    var r := SaveExamAttempt(s, a);
    assert Active(r) == Active(s);
    if Active(s).Some? {
      var c := Active(s).value;
      assert Lookup(r, c, other) == Lookup(s, c, other);
    }
  }
}
