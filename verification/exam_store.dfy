/** The in-memory exam session of the past-paper trainer: start, answer, navigate,
    bookmark, count down and grade. Every action is a pure transition on `Store`;
    the wall clock is a parameter. */
module ExamStore {
  import opened Wrappers
  import Percent

  /** The parts of a question the exam session reads. */
  datatype Question = Question(id: string, choiceLabels: seq<string>, correctAnswer: string)

  datatype ExamMode = Exam | Practice | WeakReview | RandomMode

  datatype ExamConfig = ExamConfig(
    qualificationId: string,
    subjectId: Option<string>,
    year: Option<int>,
    session: Option<string>,
    timeLimit: int,
    warningThreshold: int,
    criticalThreshold: int,
    questionCount: int,
    shuffleQuestions: bool,
    shuffleChoices: bool,
    mode: ExamMode)

  datatype ExamStatus = NotStarted | InProgress | Paused | Completed | TimeUp

  datatype ExamState = ExamState(
    config: ExamConfig,
    questions: seq<Question>,
    currentIndex: int,
    answers: map<string, string>,
    bookmarked: set<string>,
    startedAt: int,
    timeRemaining: int,
    status: ExamStatus)

  datatype ExamAnswer = ExamAnswer(questionId: string, selected: string, correct: string, isCorrect: bool)

  datatype ExamResult = ExamResult(
    qualificationId: string,
    subjectId: Option<string>,
    year: Option<int>,
    totalQuestions: nat,
    correctCount: nat,
    accuracy: int,
    timeTaken: int,
    answers: seq<ExamAnswer>,
    completedAt: string)

  datatype Store = Store(examState: Option<ExamState>, result: Option<ExamResult>)

  const Initial := Store(None, None)

  /** Begins a fresh session; any earlier result is dropped. */
  function StartExam(config: ExamConfig, questions: seq<Question>, now: int): (st: Store)
    ensures st.examState.Some? && st.result.None?
    ensures st.examState.value.status == InProgress
    ensures st.examState.value.currentIndex == 0
    ensures st.examState.value.answers == map[] && st.examState.value.bookmarked == {}
    ensures st.examState.value.timeRemaining == config.timeLimit
    ensures st.examState.value.questions == questions && st.examState.value.startedAt == now
  {
    Store(Some(ExamState(config, questions, 0, map[], {}, now, config.timeLimit, InProgress)), None)
  }

  /** Records (or overwrites) the answer for one question, whatever the status. */
  function AnswerQuestion(st: Store, questionId: string, answer: string): (r: Store)
    ensures st.examState.None? ==> r == st
    ensures st.examState.Some? ==>
      && r.examState.Some?
      && r.examState.value.answers == st.examState.value.answers[questionId := answer]
      && r.examState.value == st.examState.value.(answers := r.examState.value.answers)
      && r.result == st.result
  {
    match st.examState
    case None => st
    case Some(e) => st.(examState := Some(e.(answers := e.answers[questionId := answer])))
  }

  /** `Math.max(0, Math.min(index, count - 1))`. */
  function Clamp(index: int, count: int): (i: int)
    ensures i >= 0
    ensures count > 0 ==> i < count
    ensures count > 0 && 0 <= index < count ==> i == index
    ensures index <= 0 || count <= 0 ==> i == 0
    ensures count > 0 && index >= count ==> i == count - 1
  {
    var m := if index < count - 1 then index else count - 1;
    if m > 0 then m else 0
  }

  function GoToQuestion(st: Store, index: int): (r: Store)
    ensures st.examState.None? ==> r == st
    ensures st.examState.Some? ==>
      var e := st.examState.value;
      && r.examState.Some?
      && r.examState.value == e.(currentIndex := r.examState.value.currentIndex)
      && r.result == st.result
      && 0 <= r.examState.value.currentIndex
      && (|e.questions| > 0 ==> r.examState.value.currentIndex < |e.questions|)
      && (0 <= index < |e.questions| ==> r.examState.value.currentIndex == index)
      && r.examState.value.currentIndex == Clamp(index, |e.questions|)
  {
    match st.examState
    case None => st
    case Some(e) => st.(examState := Some(e.(currentIndex := Clamp(index, |e.questions|))))
  }

  /** Going to a question twice is going there once, and going to the question
      already shown changes nothing. */
  lemma GoToSettles(st: Store, index: int)
    ensures GoToQuestion(GoToQuestion(st, index), index) == GoToQuestion(st, index)
    ensures st.examState.Some? && 0 <= st.examState.value.currentIndex < |st.examState.value.questions| ==>
      GoToQuestion(st, st.examState.value.currentIndex) == st
  {
  }

  /** Moves forward unless already on the last question. Only the index changes; an
      index below zero lands on the first question. */
  function NextQuestion(st: Store): (r: Store)
    ensures st.examState.Some? && 0 <= st.examState.value.currentIndex < |st.examState.value.questions| - 1 ==>
      r == st.(examState := Some(st.examState.value.(currentIndex := st.examState.value.currentIndex + 1)))
    ensures st.examState.Some? && st.examState.value.currentIndex < 0 && st.examState.value.currentIndex < |st.examState.value.questions| - 1 ==>
      r == st.(examState := Some(st.examState.value.(currentIndex := 0)))
    ensures st.examState.None? || st.examState.value.currentIndex >= |st.examState.value.questions| - 1 ==> r == st
  {
    match st.examState
    case None => st
    case Some(e) =>
      if e.currentIndex < |e.questions| - 1 then GoToQuestion(st, e.currentIndex + 1) else st
  }

  /** Moves back unless already on the first question. Only the index changes; an
      index past the end lands on the last question. */
  function PrevQuestion(st: Store): (r: Store)
    ensures st.examState.Some? && 0 < st.examState.value.currentIndex <= |st.examState.value.questions| ==>
      r == st.(examState := Some(st.examState.value.(currentIndex := st.examState.value.currentIndex - 1)))
    ensures st.examState.Some? && 0 < st.examState.value.currentIndex && |st.examState.value.questions| < st.examState.value.currentIndex ==>
      r == st.(examState := Some(st.examState.value.(currentIndex :=
        if |st.examState.value.questions| > 0 then |st.examState.value.questions| - 1 else 0)))
    ensures st.examState.None? || st.examState.value.currentIndex <= 0 ==> r == st
  {
    match st.examState
    case None => st
    case Some(e) =>
      if e.currentIndex > 0 then GoToQuestion(st, e.currentIndex - 1) else st
  }

  lemma PrevUndoesNext(st: Store)
    requires st.examState.Some?
    requires 0 <= st.examState.value.currentIndex < |st.examState.value.questions| - 1
    ensures PrevQuestion(NextQuestion(st)) == st
  {
  }

  function ToggleBookmark(st: Store, questionId: string): (r: Store)
    ensures st.examState.None? ==> r == st
    ensures st.examState.Some? ==>
      var e := st.examState.value;
      && r.examState.Some?
      && r.examState.value == e.(bookmarked := r.examState.value.bookmarked)
      && r.result == st.result
      && (questionId in r.examState.value.bookmarked <==> questionId !in e.bookmarked)
      && (forall q :: q != questionId ==> (q in r.examState.value.bookmarked <==> q in e.bookmarked))
  {
    match st.examState
    case None => st
    case Some(e) =>
      var b := if questionId in e.bookmarked then e.bookmarked - {questionId} else e.bookmarked + {questionId};
      st.(examState := Some(e.(bookmarked := b)))
  }

  lemma ToggleBookmarkTwice(st: Store, questionId: string)
    ensures ToggleBookmark(ToggleBookmark(st, questionId), questionId) == st
  {
    if st.examState.Some? {
      var e := st.examState.value;
      var once := ToggleBookmark(st, questionId).examState.value.bookmarked;
      var twice := ToggleBookmark(ToggleBookmark(st, questionId), questionId).examState.value.bookmarked;
      assert twice == e.bookmarked;
    }
  }

  /** One second of the exam clock; only an exam in progress counts down. */
  function Tick(st: Store): (r: Store)
    ensures st.examState.None? || st.examState.value.status != InProgress ==> r == st
    ensures st.examState.Some? && st.examState.value.status == InProgress ==>
      var e := st.examState.value;
      && r.examState.Some?
      && r.result == st.result
      && r.examState.value.timeRemaining >= 0
      && (e.timeRemaining > 1 ==> r.examState.value == e.(timeRemaining := e.timeRemaining - 1))
      && (e.timeRemaining <= 1 ==> r.examState.value == e.(timeRemaining := 0, status := TimeUp))
  {
    match st.examState
    case None => st
    case Some(e) =>
      if e.status != InProgress then st
      else if e.timeRemaining - 1 <= 0 then st.(examState := Some(e.(timeRemaining := 0, status := TimeUp)))
      else st.(examState := Some(e.(timeRemaining := e.timeRemaining - 1)))
  }

  function Ticks(st: Store, k: nat): Store
    decreases k
  {
    if k == 0 then st else Ticks(Tick(st), k - 1)
  }

  /** A running exam with `T` seconds left is still running after `k < T` ticks,
      with `T - k` left, and reaches time-up with 0 left after exactly `T` ticks;
      further ticks change nothing. */
  lemma {:induction false} CountdownReachesTimeUp(st: Store, k: nat)
    requires st.examState.Some? && st.examState.value.status == InProgress
    requires st.examState.value.timeRemaining >= 1
    decreases k
    ensures var e := st.examState.value;
      var r := Ticks(st, k);
      && r.examState.Some?
      && r.result == st.result
      && (k < e.timeRemaining ==> r.examState.value == e.(timeRemaining := e.timeRemaining - k))
      && (k >= e.timeRemaining ==> r.examState.value == e.(timeRemaining := 0, status := TimeUp))
  {
    var e := st.examState.value;
    if k > 0 {
      var next := Tick(st);
      if e.timeRemaining > 1 {
        CountdownReachesTimeUp(next, k - 1);
      } else {
        StoppedClockStays(next, k - 1);
      }
    }
  }

  lemma {:induction false} StoppedClockStays(st: Store, k: nat)
    requires st.examState.None? || st.examState.value.status != InProgress
    decreases k
    ensures Ticks(st, k) == st
  {
    if k > 0 {
      StoppedClockStays(Tick(st), k - 1);
    }
  }

  /** The grade of one question: a missing answer shows as '' and is never correct. */
  function Grade(q: Question, answers: map<string, string>): (a: ExamAnswer)
    ensures a.questionId == q.id && a.correct == q.correctAnswer
    ensures a.isCorrect <==> q.id in answers && answers[q.id] == q.correctAnswer
    ensures a.selected == if q.id in answers then answers[q.id] else ""
  {
    if q.id in answers then
      ExamAnswer(q.id, answers[q.id], q.correctAnswer, answers[q.id] == q.correctAnswer)
    else
      ExamAnswer(q.id, "", q.correctAnswer, false)
  }

  function GradeAll(qs: seq<Question>, answers: map<string, string>): (g: seq<ExamAnswer>)
    ensures |g| == |qs|
    ensures forall i :: 0 <= i < |qs| ==> g[i] == Grade(qs[i], answers)
  {
    seq(|qs|, i requires 0 <= i < |qs| => Grade(qs[i], answers))
  }

  function CorrectCount(g: seq<ExamAnswer>): (n: nat)
    ensures n <= |g|
    ensures n == |g| <==> forall i :: 0 <= i < |g| ==> g[i].isCorrect
    ensures n == 0 <==> forall i :: 0 <= i < |g| ==> !g[i].isCorrect
  {
    if g == [] then 0
    else
      var rest := CorrectCount(g[1..]);
      assert forall i :: 1 <= i < |g| ==> g[i] == g[1..][i - 1];
      rest + (if g[0].isCorrect then 1 else 0)
  }

  /** Grades the session and marks it completed. The result is computed afresh on
      every call, so a second submission regrades with the clock of that call. */
  function SubmitExam(st: Store, now: int, nowIso: string): (r: Result<(Store, ExamResult), string>)
    ensures st.examState.None? <==> r.Err?
    ensures r.Err? ==> r.error == "No exam in progress"
    ensures r.Ok? ==>
      var e := st.examState.value;
      var (st', res) := r.value;
      && st' == Store(Some(e.(status := Completed)), Some(res))
      && res.qualificationId == e.config.qualificationId
      && res.subjectId == e.config.subjectId && res.year == e.config.year
      && res.totalQuestions == |e.questions| == |res.answers|
      && (forall i :: 0 <= i < |e.questions| ==> res.answers[i] == Grade(e.questions[i], e.answers))
      && res.correctCount == CorrectCount(res.answers) <= res.totalQuestions
      && res.accuracy == Percent.RoundedPercent(res.correctCount, res.totalQuestions)
      && 0 <= res.accuracy <= 100
      && 2000 * res.timeTaken - 1000 <= 2 * (now - e.startedAt) < 2000 * res.timeTaken + 1000
      && res.completedAt == nowIso
  {
    match st.examState
    case None => Err("No exam in progress")
    case Some(e) =>
      var graded := GradeAll(e.questions, e.answers);
      var correct := CorrectCount(graded);
      var res := ExamResult(
        e.config.qualificationId, e.config.subjectId, e.config.year,
        |e.questions|, correct,
        Percent.RoundedPercent(correct, |e.questions|),
        Percent.RoundedQuotient(now - e.startedAt, 1000),
        graded, nowIso);
      Ok((Store(Some(e.(status := Completed)), Some(res)), res))
  }

  function ResetExam(st: Store): (r: Store)
    ensures r.examState.None? && r.result.None?
  {
    Initial
  }

  /** Submitting again at the same instant reproduces the same result: the
      regrade ignores the status the first submission set. */
  lemma SubmitTwiceSameInstant(st: Store, now: int, nowIso: string)
    requires st.examState.Some?
    ensures var first := SubmitExam(st, now, nowIso).value;
      var second := SubmitExam(first.0, now, nowIso);
      second.Ok? && second.value == first
  {
  }

  /** Submitting straight after starting scores nothing: no question has an answer. */
  lemma SubmitUnansweredScoresZero(config: ExamConfig, questions: seq<Question>, start: int, now: int, nowIso: string)
    ensures var res := SubmitExam(StartExam(config, questions, start), now, nowIso).value.1;
      res.correctCount == 0 && res.accuracy == 0
      && forall i :: 0 <= i < |res.answers| ==> res.answers[i].selected == ""
  {
    var st := StartExam(config, questions, start);
    var e := st.examState.value;
    var res := SubmitExam(st, now, nowIso).value.1;
    forall i | 0 <= i < |res.answers|
      ensures !res.answers[i].isCorrect && res.answers[i].selected == ""
    {
      assert res.answers[i] == Grade(e.questions[i], e.answers);
    }
    Percent.NoPercent(|e.questions|);
  }

  /** Answering every question with its key gives a full score. */
  lemma SubmitAllCorrectScoresFull(st: Store, now: int, nowIso: string)
    requires st.examState.Some?
    requires |st.examState.value.questions| > 0
    requires forall q :: q in st.examState.value.questions ==>
      q.id in st.examState.value.answers && st.examState.value.answers[q.id] == q.correctAnswer
    ensures var res := SubmitExam(st, now, nowIso).value.1;
      res.correctCount == res.totalQuestions && res.accuracy == 100
  {
    var e := st.examState.value;
    var graded := GradeAll(e.questions, e.answers);
    forall i | 0 <= i < |graded|
      ensures graded[i].isCorrect
    {
      assert e.questions[i] in e.questions;
    }
    assert CorrectCount(graded) == |e.questions|;
    Percent.FullPercent(|e.questions|);
  }
}
