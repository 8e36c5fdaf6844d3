/** The per-visitor progress ledger of the exam-preparation app: answers keyed by
    qualification, subject, year and question, the global weak-question list and the
    bookmark list. Records are insertion-ordered dictionaries (module Assoc);
    timestamps are passed in as ISO strings instead of being read from the clock. */
module ProgressStore {
  import opened Wrappers
  import opened Assoc
  import opened Percent

  datatype QuestionAnswer = QuestionAnswer(
    selectedAnswer: string,
    isCorrect: bool,
    attemptCount: int,
    lastAttemptAt: string,
    bookmarked: bool)

  datatype YearProgress = YearProgress(
    questionsTotal: int,
    questionsAnswered: int,
    questionsCorrect: int,
    lastAttemptAt: string,
    timeSpentSeconds: int,
    answers: Record<QuestionAnswer>)

  datatype SubjectProgress = SubjectProgress(years: Record<YearProgress>)

  datatype QualificationProgress = QualificationProgress(
    subjects: Record<SubjectProgress>,
    overallAccuracy: int,
    totalTimeSpent: int,
    lastStudiedAt: string)

  datatype UserProgress = UserProgress(
    visitorId: string,
    qualifications: Record<QualificationProgress>,
    weakQuestions: seq<string>,
    bookmarks: seq<string>)

  datatype LastSession = LastSession(qualificationId: string, subjectId: string, year: string, questionId: string)

  /** The persisted store: the ledger and the pointer to the last session. */
  datatype Store = Store(progress: UserProgress, lastSession: Option<LastSession>)

  const EmptyProgress: UserProgress := UserProgress("", [], [], [])

  function EmptyYear(now: string): YearProgress {
    YearProgress(0, 0, 0, now, 0, [])
  }

  function EmptyQualification(now: string): QualificationProgress {
    QualificationProgress([], 0, 0, now)
  }

  /** The year bucket at qualification/subject/year, if it exists. */
  function Bucket(p: UserProgress, q: string, s: string, y: string): Option<YearProgress> {
    match Get(p.qualifications, q)
    case None => None
    case Some(qual) =>
      match Get(qual.subjects, s)
      case None => None
      case Some(subj) => Get(subj.years, y)
  }

  /** `ids.filter((x) => x !== id)`. */
  function Without(ids: seq<string>, id: string): (r: seq<string>)
    ensures id !in r
    ensures forall x :: x != id ==> (x in r <==> x in ids)
    ensures NoDup(ids) ==> NoDup(r)
  {
    if |ids| == 0 then []
    else
      var rest := Without(ids[1..], id);
      if ids[0] == id then rest
      else
        assert forall x :: x in ids <==> x == ids[0] || x in ids[1..];
        assert NoDup(ids) ==> ids[0] !in ids[1..] && NoDup(ids[1..]);
        [ids[0]] + rest
  }

  predicate NoDup(ids: seq<string>) {
    forall i, j :: 0 <= i < j < |ids| ==> ids[i] != ids[j]
  }

  /** The upsert into one year bucket (the `existing` / new-entry branches). */
  function UpsertAnswer(y: YearProgress, id: string, selected: string, correct: bool,
                        timeSpent: int, now: string): (b: YearProgress)
    ensures b.questionsAnswered == y.questionsAnswered + (if HasKey(y.answers, id) then 0 else 1)
    ensures b.questionsCorrect == y.questionsCorrect + (if correct then 1 else 0)
    ensures b.timeSpentSeconds == y.timeSpentSeconds + timeSpent
    ensures Get(b.answers, id).Some?
    ensures Get(b.answers, id).value.selectedAnswer == selected
    ensures Get(b.answers, id).value.isCorrect == correct
    ensures Get(b.answers, id).value.attemptCount
            == (match Get(y.answers, id) case Some(a) => a.attemptCount + 1 case None => 1)
    ensures forall other :: other != id ==> Get(b.answers, other) == Get(y.answers, other)
    ensures |b.answers| == |y.answers| + (if HasKey(y.answers, id) then 0 else 1)
    ensures UniqueKeys(y.answers) ==> UniqueKeys(b.answers)
  {
    var existing := Get(y.answers, id);
    var entry := match existing
      case Some(a) => a.(selectedAnswer := selected, isCorrect := correct,
                         attemptCount := a.attemptCount + 1, lastAttemptAt := now)
      case None => QuestionAnswer(selected, correct, 1, now, false);
    y.(answers := Put(y.answers, id, entry),
       questionsAnswered := y.questionsAnswered + (if existing.None? then 1 else 0),
       questionsCorrect := y.questionsCorrect + (if correct then 1 else 0),
       timeSpentSeconds := y.timeSpentSeconds + timeSpent,
       lastAttemptAt := now)
  }

  /** The weak-question list after one recording: an incorrect answer appends the id
      when it is absent, a correct one removes every occurrence. */
  function UpdateWeak(weak: seq<string>, id: string, correct: bool): (r: seq<string>)
    ensures correct ==> id !in r
    ensures !correct ==> id in r
    ensures forall x :: x != id ==> (x in r <==> x in weak)
    ensures NoDup(weak) ==> NoDup(r)
  {
    if !correct && id !in weak then weak + [id]
    else if correct then Without(weak, id)
    else weak
  }

  /** The subject-level step of `recordAnswer`: upsert into the year bucket,
      creating a zeroed bucket when the year is missing. */
  function RecordInSubject(subj: SubjectProgress, y: string, id: string, selected: string,
                           correct: bool, timeSpent: int, now: string): SubjectProgress
  {
    var year := Get(subj.years, y).GetOr(EmptyYear(now));
    SubjectProgress(Put(subj.years, y, UpsertAnswer(year, id, selected, correct, timeSpent, now)))
  }

  /** The qualification-level step of `recordAnswer`, which also accumulates the
      time spent and stamps `lastStudiedAt`. */
  function RecordInQualification(qual: QualificationProgress, s: string, y: string, id: string,
                                 selected: string, correct: bool, timeSpent: int, now: string)
    : QualificationProgress
  {
    var subj := Get(qual.subjects, s).GetOr(SubjectProgress([]));
    qual.(subjects := Put(qual.subjects, s, RecordInSubject(subj, y, id, selected, correct, timeSpent, now)),
          totalTimeSpent := qual.totalTimeSpent + timeSpent,
          lastStudiedAt := now)
  }

  /** `recordAnswer`. The addressed year bucket (created zeroed when missing, along
      with its subject and qualification) receives the upsert; every other bucket is
      untouched; the weak list follows the latest outcome for the question. */
  function RecordAnswer(p: UserProgress, q: string, s: string, y: string, id: string,
                        selected: string, correct: bool, timeSpent: int, now: string): (r: UserProgress)
    ensures Bucket(r, q, s, y)
            == Some(UpsertAnswer(Bucket(p, q, s, y).GetOr(EmptyYear(now)), id, selected, correct, timeSpent, now))
    ensures forall q', s', y' :: (q', s', y') != (q, s, y) ==> Bucket(r, q', s', y') == Bucket(p, q', s', y')
    ensures correct ==> id !in r.weakQuestions
    ensures !correct ==> id in r.weakQuestions
    ensures forall x :: x != id ==> (x in r.weakQuestions <==> x in p.weakQuestions)
    ensures r.bookmarks == p.bookmarks && r.visitorId == p.visitorId
    ensures NoDup(p.weakQuestions) ==> NoDup(r.weakQuestions)
    ensures Get(r.qualifications, q).Some?
    ensures Get(r.qualifications, q).value.totalTimeSpent
            == Get(p.qualifications, q).GetOr(EmptyQualification(now)).totalTimeSpent + timeSpent
    ensures Get(r.qualifications, q).value.lastStudiedAt == now
    ensures Get(r.qualifications, q).value.overallAccuracy
            == Get(p.qualifications, q).GetOr(EmptyQualification(now)).overallAccuracy
    ensures forall q' :: q' != q ==> Get(r.qualifications, q') == Get(p.qualifications, q')
  {
    var qual := Get(p.qualifications, q).GetOr(EmptyQualification(now));
    var r := p.(qualifications := Put(p.qualifications, q,
                                      RecordInQualification(qual, s, y, id, selected, correct, timeSpent, now)),
                weakQuestions := UpdateWeak(p.weakQuestions, id, correct));
    RecordAnswerBuckets(p, r, q, s, y, id, selected, correct, timeSpent, now);
    r
  }

  /** `recordAnswer` on the store: only the ledger changes; the pointer to the last
      session is kept. */
  function RecordAnswerIn(st: Store, q: string, s: string, y: string, id: string,
                          selected: string, correct: bool, timeSpent: int, now: string): (r: Store)
    ensures r.lastSession == st.lastSession
    ensures r.progress == RecordAnswer(st.progress, q, s, y, id, selected, correct, timeSpent, now)
  {
    st.(progress := RecordAnswer(st.progress, q, s, y, id, selected, correct, timeSpent, now))
  }

  lemma RecordAnswerBuckets(p: UserProgress, r: UserProgress, q: string, s: string, y: string, id: string,
                            selected: string, correct: bool, timeSpent: int, now: string)
    requires r.qualifications
             == Put(p.qualifications, q, RecordInQualification(Get(p.qualifications, q).GetOr(EmptyQualification(now)),
                                                               s, y, id, selected, correct, timeSpent, now))
    ensures Bucket(r, q, s, y)
            == Some(UpsertAnswer(Bucket(p, q, s, y).GetOr(EmptyYear(now)), id, selected, correct, timeSpent, now))
    ensures forall q', s', y' :: (q', s', y') != (q, s, y) ==> Bucket(r, q', s', y') == Bucket(p, q', s', y')
  {
    var qual := Get(p.qualifications, q).GetOr(EmptyQualification(now));
    var subj := Get(qual.subjects, s).GetOr(SubjectProgress([]));
    var subj' := RecordInSubject(subj, y, id, selected, correct, timeSpent, now);
    var qual' := RecordInQualification(qual, s, y, id, selected, correct, timeSpent, now);
    assert Get(r.qualifications, q) == Some(qual');
    assert Get(qual'.subjects, s) == Some(subj');
    forall q', s', y' | (q', s', y') != (q, s, y)
      ensures Bucket(r, q', s', y') == Bucket(p, q', s', y')
    {
      if q' == q && s' == s {
        assert Get(subj'.years, y') == Get(subj.years, y');
      } else if q' == q {
        assert Get(qual'.subjects, s') == Get(qual.subjects, s');
      }
    }
  }

  /** `toggleBookmark`: removes every occurrence of a bookmarked id, appends an
      absent one. */
  function ToggleBookmark(p: UserProgress, id: string): (r: UserProgress)
    ensures id in r.bookmarks <==> id !in p.bookmarks
    ensures forall x :: x != id ==> (x in r.bookmarks <==> x in p.bookmarks)
    ensures r.qualifications == p.qualifications && r.weakQuestions == p.weakQuestions
    ensures r.visitorId == p.visitorId
    ensures NoDup(p.bookmarks) ==> NoDup(r.bookmarks)
  {
    if id in p.bookmarks then p.(bookmarks := Without(p.bookmarks, id))
    else p.(bookmarks := p.bookmarks + [id])
  }

  /** Toggling the same id twice restores every bookmark's membership, and restores
      the list itself when the id was not bookmarked. */
  lemma ToggleBookmarkTwice(p: UserProgress, id: string)
    ensures forall x :: x in ToggleBookmark(ToggleBookmark(p, id), id).bookmarks <==> x in p.bookmarks
    ensures id !in p.bookmarks ==> ToggleBookmark(ToggleBookmark(p, id), id) == p
  {
    if id !in p.bookmarks {
      WithoutAbsentAppended(p.bookmarks, id);
    }
  }

  lemma WithoutAbsentAppended(ids: seq<string>, id: string)
    requires id !in ids
    ensures Without(ids + [id], id) == ids
  {
    if |ids| > 0 {
      assert (ids + [id])[1..] == ids[1..] + [id];
      WithoutAbsentAppended(ids[1..], id);
    } else {
      assert Without([id][1..], id) == [];
    }
  }

  // ---------------------------------------------------------------------------
  // Aggregates
  // ---------------------------------------------------------------------------

  function CountCorrect(answers: Record<QuestionAnswer>): (n: nat)
    ensures n <= |answers|
  {
    if |answers| == 0 then 0
    else CountCorrect(answers[..|answers| - 1]) + (if answers[|answers| - 1].1.isCorrect then 1 else 0)
  }

  /** Answer entries and correct entries over the years of a subject. */
  function YearsEntries(years: Record<YearProgress>): (n: nat) {
    if |years| == 0 then 0 else YearsEntries(years[..|years| - 1]) + |years[|years| - 1].1.answers|
  }

  function YearsCorrectEntries(years: Record<YearProgress>): (n: nat)
    ensures n <= YearsEntries(years)
  {
    if |years| == 0 then 0
    else YearsCorrectEntries(years[..|years| - 1]) + CountCorrect(years[|years| - 1].1.answers)
  }

  function SubjectsEntries(subjects: Record<SubjectProgress>): (n: nat) {
    if |subjects| == 0 then 0
    else SubjectsEntries(subjects[..|subjects| - 1]) + YearsEntries(subjects[|subjects| - 1].1.years)
  }

  function SubjectsCorrectEntries(subjects: Record<SubjectProgress>): (n: nat)
    ensures n <= SubjectsEntries(subjects)
  {
    if |subjects| == 0 then 0
    else SubjectsCorrectEntries(subjects[..|subjects| - 1]) + YearsCorrectEntries(subjects[|subjects| - 1].1.years)
  }

  function QualsEntries(quals: Record<QualificationProgress>): (n: nat) {
    if |quals| == 0 then 0
    else QualsEntries(quals[..|quals| - 1]) + SubjectsEntries(quals[|quals| - 1].1.subjects)
  }

  function QualsCorrectEntries(quals: Record<QualificationProgress>): (n: nat)
    ensures n <= QualsEntries(quals)
  {
    if |quals| == 0 then 0
    else QualsCorrectEntries(quals[..|quals| - 1]) + SubjectsCorrectEntries(quals[|quals| - 1].1.subjects)
  }

  /** The qualifications `getAccuracy` walks: only the named one when a non-empty
      id is given (an empty string is falsy and means all of them). */
  function AccuracyScope(p: UserProgress, qualificationId: Option<string>): Record<QualificationProgress> {
    match qualificationId
    case Some(q) =>
      if q == "" then p.qualifications
      else (match Get(p.qualifications, q) case Some(qual) => [(q, qual)] case None => [])
    case None => p.qualifications
  }

  /** `getAccuracy`: the rounded percentage of answer entries whose latest
      recording was correct; 0 when the scope holds no entries. */
  function GetAccuracy(p: UserProgress, qualificationId: Option<string>): (r: int)
    ensures 0 <= r <= 100
    ensures var scope := AccuracyScope(p, qualificationId);
            var total := QualsEntries(scope);
            var correct := QualsCorrectEntries(scope);
            && (total == 0 ==> r == 0)
            && (total > 0 ==> 2 * total * r - total <= 200 * correct < 2 * total * r + total)
  {
    var scope := AccuracyScope(p, qualificationId);
    RoundedPercent(QualsCorrectEntries(scope), QualsEntries(scope))
  }

  function YearsAnswered(years: Record<YearProgress>): int {
    if |years| == 0 then 0 else YearsAnswered(years[..|years| - 1]) + years[|years| - 1].1.questionsAnswered
  }

  function YearsCorrect(years: Record<YearProgress>): int {
    if |years| == 0 then 0 else YearsCorrect(years[..|years| - 1]) + years[|years| - 1].1.questionsCorrect
  }

  function SubjectsAnswered(subjects: Record<SubjectProgress>): int {
    if |subjects| == 0 then 0
    else SubjectsAnswered(subjects[..|subjects| - 1]) + YearsAnswered(subjects[|subjects| - 1].1.years)
  }

  function SubjectsCorrect(subjects: Record<SubjectProgress>): int {
    if |subjects| == 0 then 0
    else SubjectsCorrect(subjects[..|subjects| - 1]) + YearsCorrect(subjects[|subjects| - 1].1.years)
  }

  /** `getTotalAnswered`: the sum of every bucket's `questionsAnswered`. On a
      consistent ledger that is the number of answer entries. */
  function GetTotalAnswered(p: UserProgress): (r: int)
    ensures p.qualifications == [] ==> r == 0
    ensures Consistent(p) ==> r == QualsEntries(p.qualifications)
  {
    var r := QualsAnswered(p.qualifications);
    assert Consistent(p) ==> r == QualsEntries(p.qualifications) by {
      if Consistent(p) {
        QualsTotals(p.qualifications);
      }
    }
    r
  }

  function QualsAnswered(quals: Record<QualificationProgress>): int {
    if |quals| == 0 then 0
    else QualsAnswered(quals[..|quals| - 1]) + SubjectsAnswered(quals[|quals| - 1].1.subjects)
  }

  /** `getTotalCorrect`: the sum of every bucket's `questionsCorrect`. On a
      consistent ledger it is at least the number of entries whose latest answer is
      correct (a question answered correctly twice counts twice). */
  function GetTotalCorrect(p: UserProgress): (r: int)
    ensures p.qualifications == [] ==> r == 0
    ensures Consistent(p) ==> r >= QualsCorrectEntries(p.qualifications) >= 0
  {
    var r := QualsCorrect(p.qualifications);
    assert Consistent(p) ==> r >= QualsCorrectEntries(p.qualifications) by {
      if Consistent(p) {
        QualsTotals(p.qualifications);
      }
    }
    r
  }

  function QualsCorrect(quals: Record<QualificationProgress>): int {
    if |quals| == 0 then 0
    else QualsCorrect(quals[..|quals| - 1]) + SubjectsCorrect(quals[|quals| - 1].1.subjects)
  }

  /** `setLastSession`. */
  function SetLastSession(st: Store, q: string, s: string, y: string, id: string): (r: Store)
    ensures r.lastSession == Some(LastSession(q, s, y, id)) && r.progress == st.progress
  {
    st.(lastSession := Some(LastSession(q, s, y, id)))
  }

  /** `resetProgress`: the empty ledger and no last session. */
  function ResetProgress(st: Store): (r: Store)
    ensures r.progress.qualifications == []
    ensures GetTotalAnswered(r.progress) == 0 && GetTotalCorrect(r.progress) == 0
    ensures GetAccuracy(r.progress, None) == 0
    ensures r.progress.weakQuestions == [] && r.progress.bookmarks == []
    ensures r.lastSession.None?
  {
    Store(EmptyProgress, None)
  }

  // ---------------------------------------------------------------------------
  // Ledger invariants over sequences of recordings
  // ---------------------------------------------------------------------------

  /** One call of `recordAnswer`, with the clock reading it would take. */
  datatype Recording = Recording(
    qualificationId: string, subjectId: string, year: string, questionId: string,
    selected: string, correct: bool, timeSpent: int, at: string)

  function Apply(p: UserProgress, e: Recording): UserProgress {
    RecordAnswer(p, e.qualificationId, e.subjectId, e.year, e.questionId,
                 e.selected, e.correct, e.timeSpent, e.at)
  }

  /** The ledger after replaying `events` in order, starting from `p`. */
  function Replay(p: UserProgress, events: seq<Recording>): UserProgress {
    if |events| == 0 then p else Apply(Replay(p, events[..|events| - 1]), events[|events| - 1])
  }

  /** The outcome of the most recent recording of `id`, if any. */
  function LatestOutcome(events: seq<Recording>, id: string): Option<bool> {
    if |events| == 0 then None
    else if events[|events| - 1].questionId == id then Some(events[|events| - 1].correct)
    else LatestOutcome(events[..|events| - 1], id)
  }

  /** Starting from the empty ledger, a question is in the weak list exactly when
      its most recent recording was incorrect, and no id is listed twice. */
  lemma {:induction false} WeakListTracksLatestOutcome(events: seq<Recording>)
    ensures NoDup(Replay(EmptyProgress, events).weakQuestions)
    ensures forall id :: id in Replay(EmptyProgress, events).weakQuestions
                         <==> LatestOutcome(events, id) == Some(false)
  {
    if |events| > 0 {
      WeakListTracksLatestOutcome(events[..|events| - 1]);
    }
  }

  /** The bucket counters agree with the entries they summarise. */
  predicate YearOk(b: YearProgress) {
    && UniqueKeys(b.answers)
    && b.questionsAnswered == |b.answers|
    && b.questionsCorrect >= CountCorrect(b.answers)
  }

  predicate YearsOk(years: Record<YearProgress>) {
    UniqueKeys(years) && forall i :: 0 <= i < |years| ==> YearOk(years[i].1)
  }

  predicate SubjectsOk(subjects: Record<SubjectProgress>) {
    UniqueKeys(subjects) && forall i :: 0 <= i < |subjects| ==> YearsOk(subjects[i].1.years)
  }

  predicate Consistent(p: UserProgress) {
    UniqueKeys(p.qualifications)
    && forall i :: 0 <= i < |p.qualifications| ==> SubjectsOk(p.qualifications[i].1.subjects)
  }

  lemma {:induction false} CountCorrectUpdate(a: Record<QuestionAnswer>, i: nat, e: (string, QuestionAnswer))
    requires i < |a|
    ensures CountCorrect(a[i := e]) + (if a[i].1.isCorrect then 1 else 0)
            == CountCorrect(a) + (if e.1.isCorrect then 1 else 0)
    decreases |a|
  {
    var a' := a[i := e];
    if i < |a| - 1 {
      assert a'[..|a'| - 1] == a[..|a| - 1][i := e];
      CountCorrectUpdate(a[..|a| - 1], i, e);
    } else {
      assert a'[..|a'| - 1] == a[..|a| - 1];
    }
  }

  lemma UpsertKeepsYearOk(b: YearProgress, id: string, selected: string, correct: bool,
                          timeSpent: int, now: string)
    requires YearOk(b)
    ensures YearOk(UpsertAnswer(b, id, selected, correct, timeSpent, now))
  {
    var b' := UpsertAnswer(b, id, selected, correct, timeSpent, now);
    var entry := Get(b'.answers, id).value;
    if HasKey(b.answers, id) {
      var i :| 0 <= i < |b.answers| && b.answers[i].0 == id && b'.answers == b.answers[i := (id, entry)];
      CountCorrectUpdate(b.answers, i, (id, entry));
    } else {
      assert b'.answers == b.answers + [(id, entry)];
      assert (b.answers + [(id, entry)])[..|b.answers|] == b.answers;
    }
  }

  lemma GetYearOk(years: Record<YearProgress>, k: string)
    requires YearsOk(years)
    requires HasKey(years, k)
    ensures YearOk(Get(years, k).value)
  {
    assert Get(years, k).value == years[IndexOf(years, k).value].1;
  }

  lemma GetYearsOk(subjects: Record<SubjectProgress>, k: string)
    requires SubjectsOk(subjects)
    requires HasKey(subjects, k)
    ensures YearsOk(Get(subjects, k).value.years)
  {
    assert Get(subjects, k).value == subjects[IndexOf(subjects, k).value].1;
  }

  lemma GetSubjectsOk(p: UserProgress, k: string)
    requires Consistent(p)
    requires HasKey(p.qualifications, k)
    ensures SubjectsOk(Get(p.qualifications, k).value.subjects)
  {
    assert Get(p.qualifications, k).value == p.qualifications[IndexOf(p.qualifications, k).value].1;
  }

  lemma RecordInSubjectOk(subj: SubjectProgress, y: string, id: string, selected: string,
                           correct: bool, timeSpent: int, now: string)
    requires YearsOk(subj.years)
    ensures YearsOk(RecordInSubject(subj, y, id, selected, correct, timeSpent, now).years)
  {
    var year := Get(subj.years, y).GetOr(EmptyYear(now));
    if HasKey(subj.years, y) {
      GetYearOk(subj.years, y);
    }
    UpsertKeepsYearOk(year, id, selected, correct, timeSpent, now);
    var v := UpsertAnswer(year, id, selected, correct, timeSpent, now);
    var r := Put(subj.years, y, v);
    forall i | 0 <= i < |r| ensures YearOk(r[i].1) {
      assert r[i] in r;
    }
  }

  lemma RecordInQualificationOk(qual: QualificationProgress, s: string, y: string, id: string,
                                selected: string, correct: bool, timeSpent: int, now: string)
    requires SubjectsOk(qual.subjects)
    ensures SubjectsOk(RecordInQualification(qual, s, y, id, selected, correct, timeSpent, now).subjects)
  {
    var subj := Get(qual.subjects, s).GetOr(SubjectProgress([]));
    if HasKey(qual.subjects, s) {
      GetYearsOk(qual.subjects, s);
    }
    RecordInSubjectOk(subj, y, id, selected, correct, timeSpent, now);
    var r := Put(qual.subjects, s, RecordInSubject(subj, y, id, selected, correct, timeSpent, now));
    forall i | 0 <= i < |r| ensures YearsOk(r[i].1.years) {
      assert r[i] in r;
    }
  }

  /** Every recording keeps the counters consistent with the entries. */
  lemma RecordAnswerKeepsConsistent(p: UserProgress, e: Recording)
    requires Consistent(p)
    ensures Consistent(Apply(p, e))
  {
    var qual := Get(p.qualifications, e.qualificationId).GetOr(EmptyQualification(e.at));
    if HasKey(p.qualifications, e.qualificationId) {
      GetSubjectsOk(p, e.qualificationId);
    }
    RecordInQualificationOk(qual, e.subjectId, e.year, e.questionId, e.selected, e.correct, e.timeSpent, e.at);
    var r := Put(p.qualifications, e.qualificationId,
                 RecordInQualification(qual, e.subjectId, e.year, e.questionId, e.selected, e.correct,
                                       e.timeSpent, e.at));
    PutQualificationOk(p.qualifications, e.qualificationId,
                       RecordInQualification(qual, e.subjectId, e.year, e.questionId, e.selected, e.correct,
                                             e.timeSpent, e.at));
    assert Apply(p, e).qualifications == r;
  }

  lemma PutQualificationOk(quals: Record<QualificationProgress>, k: string, v: QualificationProgress)
    requires UniqueKeys(quals) && forall i :: 0 <= i < |quals| ==> SubjectsOk(quals[i].1.subjects)
    requires SubjectsOk(v.subjects)
    ensures var r := Put(quals, k, v);
            UniqueKeys(r) && forall i :: 0 <= i < |r| ==> SubjectsOk(r[i].1.subjects)
  {
    var r := Put(quals, k, v);
    forall i | 0 <= i < |r| ensures SubjectsOk(r[i].1.subjects) {
      assert r[i] in r;
    }
  }

  lemma {:induction false} YearsTotals(years: Record<YearProgress>)
    requires forall i :: 0 <= i < |years| ==> YearOk(years[i].1)
    ensures YearsAnswered(years) == YearsEntries(years)
    ensures YearsCorrect(years) >= YearsCorrectEntries(years)
  {
    if |years| > 0 {
      YearsTotals(years[..|years| - 1]);
    }
  }

  lemma {:induction false} SubjectsTotals(subjects: Record<SubjectProgress>)
    requires forall i :: 0 <= i < |subjects| ==> YearsOk(subjects[i].1.years)
    ensures SubjectsAnswered(subjects) == SubjectsEntries(subjects)
    ensures SubjectsCorrect(subjects) >= SubjectsCorrectEntries(subjects)
  {
    if |subjects| > 0 {
      SubjectsTotals(subjects[..|subjects| - 1]);
      YearsTotals(subjects[|subjects| - 1].1.years);
    }
  }

  lemma {:induction false} QualsTotals(quals: Record<QualificationProgress>)
    requires forall i :: 0 <= i < |quals| ==> SubjectsOk(quals[i].1.subjects)
    ensures QualsAnswered(quals) == QualsEntries(quals)
    ensures QualsCorrect(quals) >= QualsCorrectEntries(quals)
  {
    if |quals| > 0 {
      QualsTotals(quals[..|quals| - 1]);
      SubjectsTotals(quals[|quals| - 1].1.subjects);
    }
  }

  /** For a ledger built by recordings from the empty one, `getTotalAnswered` is
      the number of answer entries `getAccuracy` counts, and `getTotalCorrect` is at
      least the number of entries whose latest answer is correct. */
  lemma {:induction false} TotalsAgreeWithEntries(events: seq<Recording>)
    ensures Consistent(Replay(EmptyProgress, events))
    ensures var p := Replay(EmptyProgress, events);
            && GetTotalAnswered(p) == QualsEntries(p.qualifications)
            && GetTotalCorrect(p) >= QualsCorrectEntries(p.qualifications)
  {
    if |events| > 0 {
      TotalsAgreeWithEntries(events[..|events| - 1]);
      RecordAnswerKeepsConsistent(Replay(EmptyProgress, events[..|events| - 1]), events[|events| - 1]);
    }
    QualsTotals(Replay(EmptyProgress, events).qualifications);
  }

  /** Two correct recordings of one question: one question answered, two correct
      (the correct counter counts recordings, not questions). */
  lemma CorrectCounterCountsRecordings()
    ensures var p := RecordAnswer(RecordAnswer(EmptyProgress, "A1", "S", "2023", "q1", "1", true, 10, "t0"),
                                  "A1", "S", "2023", "q1", "1", true, 10, "t1");
            && Bucket(p, "A1", "S", "2023").value.questionsAnswered == 1
            && Bucket(p, "A1", "S", "2023").value.questionsCorrect == 2
  {
    var p1 := RecordAnswer(EmptyProgress, "A1", "S", "2023", "q1", "1", true, 10, "t0");
    var b1 := UpsertAnswer(EmptyYear("t0"), "q1", "1", true, 10, "t0");
    assert Bucket(p1, "A1", "S", "2023") == Some(b1);
    assert HasKey(b1.answers, "q1");
  }

  /** A wrong answer followed by a correct re-answer of the same question: one
      question answered, one correct, and the question is no longer weak. */
  lemma WrongThenRightScenario()
    ensures var p1 := RecordAnswer(EmptyProgress, "A1", "S", "2023", "q1", "2", false, 30, "t0");
            var p2 := RecordAnswer(p1, "A1", "S", "2023", "q1", "1", true, 20, "t1");
            && Bucket(p1, "A1", "S", "2023").value.questionsAnswered == 1
            && Bucket(p1, "A1", "S", "2023").value.questionsCorrect == 0
            && "q1" in p1.weakQuestions
            && Bucket(p2, "A1", "S", "2023").value.questionsAnswered == 1
            && Bucket(p2, "A1", "S", "2023").value.questionsCorrect == 1
            && Get(Bucket(p2, "A1", "S", "2023").value.answers, "q1").value.attemptCount == 2
            && "q1" !in p2.weakQuestions
  {
    var p1 := RecordAnswer(EmptyProgress, "A1", "S", "2023", "q1", "2", false, 30, "t0");
    var b1 := UpsertAnswer(EmptyYear("t0"), "q1", "2", false, 30, "t0");
    assert Bucket(p1, "A1", "S", "2023") == Some(b1);
    assert HasKey(b1.answers, "q1");
    var b2 := UpsertAnswer(b1, "q1", "1", true, 20, "t1");
    var p2 := RecordAnswer(p1, "A1", "S", "2023", "q1", "1", true, 20, "t1");
    assert Bucket(p2, "A1", "S", "2023") == Some(b2);
  }
}
