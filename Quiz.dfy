/**
 * The quiz session of app.js: the module globals `questions`,
 * `currentQuestionIndex`, `sessionAnswers`, `historyData` and `state`,
 * gathered into one object, and the handlers that change them
 * (`startNewSession`, `submitAnswer`, `nextQuestion`, `showSummary`,
 * `mergeSessionIntoHistory` and the Enter-key dispatch).
 */
module Quiz {
  import opened Wrappers
  import opened Text
  import opened Judge
  import opened History
  import opened Ints

  /** app.js:1 */
  const SESSION_LENGTH: nat := 10

  /** One element of the question bank (`data/questions.json`). */
  datatype Question = Question(id: int, question: string, answer: string, explanation: Option<string>)

  /** The `state` global: "question", "answer" or "summary". */
  datatype State = QuestionShown | AnswerShown | SummaryShown

  /** The banner of the summary screen: "correctCount / total correct". */
  datatype Score = Score(correctCount: nat, total: nat)

  predicate DistinctQuestionIds(qs: seq<Question>) {
    forall i, j :: 0 <= i < j < |qs| ==> qs[i].id != qs[j].id
  }

  // ---------------------------------------------------------------- sampling

  lemma {:induction false} DistinctOccursOnce(s: seq<Question>, q: Question)
    requires DistinctQuestionIds(s)
    ensures multiset(s)[q] <= 1
  {
    if s != [] {
      assert s == [s[0]] + s[1..];
      assert DistinctQuestionIds(s[1..]);
      DistinctOccursOnce(s[1..], q);
      if q == s[0] {
        assert q !in s[1..] by {
          forall j | 0 <= j < |s[1..]| ensures s[1..][j] != q { assert s[1..][j] == s[j + 1]; }
        }
      }
    }
  }

  lemma RepeatOccursTwice(s: seq<Question>, i: nat, j: nat)
    requires i < j < |s| && s[i] == s[j]
    ensures multiset(s)[s[i]] >= 2
  {
    assert s == s[..j] + [s[j]] + s[j + 1..];
    assert s[i] in s[..j];
  }

  /** Reordering the bank cannot introduce a repeated id. */
  lemma PermutationKeepsIdsDistinct(bank: seq<Question>, shuffled: seq<Question>)
    requires multiset(shuffled) == multiset(bank)
    requires DistinctQuestionIds(bank)
    ensures DistinctQuestionIds(shuffled)
  {
    forall i, j | 0 <= i < j < |shuffled| ensures shuffled[i].id != shuffled[j].id {
      assert shuffled[i] in multiset(bank) && shuffled[j] in multiset(bank);
      var p :| 0 <= p < |bank| && bank[p] == shuffled[i];
      var q :| 0 <= q < |bank| && bank[q] == shuffled[j];
      if shuffled[i] == shuffled[j] {
        RepeatOccursTwice(shuffled, i, j);
        DistinctOccursOnce(bank, shuffled[i]);
        assert false;
      }
      assert p != q;
    }
  }

  /**
   * The session drawn by startNewSession (app.js:25-27): the first
   * min(SESSION_LENGTH, |bank|) questions of a shuffled copy of the bank.
   * The shuffle itself is an arbitrary reordering given by the caller.
   */
  function Sample(bank: seq<Question>, shuffled: seq<Question>): (qs: seq<Question>)
    requires multiset(shuffled) == multiset(bank)
    ensures |qs| == Min(SESSION_LENGTH, |bank|)
    ensures multiset(qs) <= multiset(bank)
    ensures forall q :: q in qs ==> q in bank
    ensures DistinctQuestionIds(bank) ==> DistinctQuestionIds(qs)
  {
    assert |shuffled| == |multiset(shuffled)| == |bank|;
    var n := Min(SESSION_LENGTH, |bank|);
    assert shuffled == shuffled[..n] + shuffled[n..];
    assert forall q :: q in shuffled[..n] ==> q in multiset(bank);
    assert DistinctQuestionIds(bank) ==> DistinctQuestionIds(shuffled) by {
      if DistinctQuestionIds(bank) { PermutationKeepsIdsDistinct(bank, shuffled); }
    }
    shuffled[..n]
  }

  // ---------------------------------------------------------------- judging and scoring

  /** `sessionAnswers.filter(a => a.correct === 1).length` (app.js:113). */
  function CorrectCount(answers: seq<SessionAnswer>): (n: nat)
    ensures n <= |answers|
    ensures n == |answers| <==> forall i :: 0 <= i < |answers| ==> answers[i].correct == 1
    ensures n == 0 <==> forall i :: 0 <= i < |answers| ==> answers[i].correct != 1
  {
    if answers == [] then 0
    else
      var init := answers[..|answers| - 1];
      assert forall i :: 0 <= i < |init| ==> init[i] == answers[i];
      CorrectCount(init) + if answers[|answers| - 1].correct == 1 then 1 else 0
  }

  lemma {:induction false} CorrectCountAppend(answers: seq<SessionAnswer>, more: seq<SessionAnswer>)
    ensures CorrectCount(answers + more) == CorrectCount(answers) + CorrectCount(more)
    decreases |more|
  {
    if more != [] {
      var init, last := more[..|more| - 1], more[|more| - 1];
      var all := answers + more;
      assert all[..|all| - 1] == answers + init;
      assert all[|all| - 1] == last;
      var bit := if last.correct == 1 then 1 else 0;
      assert CorrectCount(all) == CorrectCount(answers + init) + bit;
      assert CorrectCount(more) == CorrectCount(init) + bit;
      CorrectCountAppend(answers, init);
    } else {
      assert answers + more == answers;
    }
  }

  /** An entry was recorded for question `q`: its id, its trimmed text and the verdict on that text. */
  predicate RecordedFor(a: SessionAnswer, q: Question) {
    && a.id == q.id
    && Trim(a.userAnswer) == a.userAnswer
    && a.correct == if Matches(a.userAnswer, q.answer) then 1 else 0
  }

  /** The entry submitAnswer pushes for question `q` (app.js:71-80): recorded for `q`, with the given timestamp. */
  function Answered(q: Question, input: string, timestamp: Timestamp): (a: SessionAnswer)
    ensures RecordedFor(a, q) && a.timestamp == timestamp
    ensures a.userAnswer == Trim(input)
  {
    TrimIdempotent(input);
    var userAnswer := Trim(input);
    SessionAnswer(q.id, if Matches(userAnswer, q.answer) then 1 else 0, timestamp, userAnswer)
  }

  /** Each answer so far was recorded for the question at its position. */
  predicate AllRecorded(answers: seq<SessionAnswer>, qs: seq<Question>) {
    && |answers| <= |qs|
    && forall i :: 0 <= i < |answers| ==> RecordedFor(answers[i], qs[i])
  }

  lemma RecordOne(answers: seq<SessionAnswer>, qs: seq<Question>, a: SessionAnswer)
    requires AllRecorded(answers, qs) && |answers| < |qs| && RecordedFor(a, qs[|answers|])
    ensures AllRecorded(answers + [a], qs)
  {
    var all := answers + [a];
    forall i | 0 <= i < |all| ensures RecordedFor(all[i], qs[i]) {
      if i < |answers| { assert all[i] == answers[i]; }
    }
  }

  // ---------------------------------------------------------------- the session object

  class Session {
    var allQuestions: seq<Question>
    var questions: seq<Question>
    var currentQuestionIndex: nat
    var sessionAnswers: seq<SessionAnswer>
    var historyData: seq<HistoryRecord>
    var state: State

    /** The session invariant that every handler keeps. */
    ghost predicate Valid()
      reads this`allQuestions, this`questions, this`currentQuestionIndex, this`sessionAnswers, this`state
    {
      && |allQuestions| > 0
      && |questions| == Min(SESSION_LENGTH, |allQuestions|)
      && multiset(questions) <= multiset(allQuestions)
      && (DistinctQuestionIds(allQuestions) ==> DistinctQuestionIds(questions))
      && currentQuestionIndex < |questions|
      && |sessionAnswers| == (match state
                              case QuestionShown => currentQuestionIndex
                              case AnswerShown => currentQuestionIndex + 1
                              case SummaryShown => |questions|)
      && (state == SummaryShown ==> currentQuestionIndex == |questions| - 1)
      && AllRecorded(sessionAnswers, questions)
    }

    /** loadHistory then loadQuestions: the stored history and the loaded bank, and a first session. */
    constructor (bank: seq<Question>, shuffled: seq<Question>, storedHistory: seq<HistoryRecord>)
      requires |bank| > 0
      requires multiset(shuffled) == multiset(bank)
      ensures Valid()
      ensures allQuestions == bank && historyData == storedHistory
      ensures questions == Sample(bank, shuffled)
      ensures currentQuestionIndex == 0 && sessionAnswers == [] && state == QuestionShown
    {
      allQuestions := bank;
      historyData := storedHistory;
      questions := Sample(bank, shuffled);
      currentQuestionIndex := 0;
      sessionAnswers := [];
      state := QuestionShown;
    }

    /** startNewSession / restartQuiz: a fresh sample, back to the first question, no answers. */
    method Restart(shuffled: seq<Question>)
      requires |allQuestions| > 0
      requires multiset(shuffled) == multiset(allQuestions)
      modifies this`questions, this`currentQuestionIndex, this`sessionAnswers, this`state
      ensures Valid()
      ensures questions == Sample(allQuestions, shuffled)
      ensures currentQuestionIndex == 0 && sessionAnswers == [] && state == QuestionShown
    {
      questions := Sample(allQuestions, shuffled);
      currentQuestionIndex := 0;
      sessionAnswers := [];
      state := QuestionShown;
    }

    /** submitAnswer then showAnswer: judge the current question, record one answer, show the feedback. */
    method Submit(input: string, timestamp: Timestamp) returns (isCorrect: bool)
      requires Valid() && state == QuestionShown
      modifies this`sessionAnswers, this`state
      ensures Valid() && state == AnswerShown
      ensures isCorrect <==> Matches(Trim(input), questions[currentQuestionIndex].answer)
      ensures sessionAnswers == old(sessionAnswers) + [Answered(questions[currentQuestionIndex], input, timestamp)]
    {
      var q := questions[currentQuestionIndex];
      var userAnswer := Trim(input);
      isCorrect := Lower(userAnswer) == Lower(q.answer);
      var entry := SessionAnswer(q.id, if isCorrect then 1 else 0, timestamp, userAnswer);
      assert entry == Answered(q, input, timestamp);
      RecordOne(sessionAnswers, questions, entry);
      sessionAnswers := sessionAnswers + [entry];
      state := AnswerShown;
    }

    /** nextQuestion: the next question, or the summary after the last one. */
    method Next() returns (summary: Option<Score>)
      requires Valid() && state == AnswerShown
      modifies this`currentQuestionIndex, this`historyData, this`state
      ensures Valid()
      ensures old(currentQuestionIndex) < |questions| - 1 ==>
        && currentQuestionIndex == old(currentQuestionIndex) + 1
        && state == QuestionShown
        && historyData == old(historyData)
        && summary == None
      ensures old(currentQuestionIndex) == |questions| - 1 ==>
        && currentQuestionIndex == old(currentQuestionIndex)
        && state == SummaryShown
        && historyData == Merge(old(historyData), sessionAnswers)
        && summary == Some(Score(CorrectCount(sessionAnswers), |questions|))
    {
      if currentQuestionIndex < |questions| - 1 {
        currentQuestionIndex := currentQuestionIndex + 1;
        state := QuestionShown;
        summary := None;
      } else {
        var score := ShowSummary();
        summary := Some(score);
      }
    }

    /** showSummary: count the correct answers, merge the session into the history, show the summary. */
    method ShowSummary() returns (score: Score)
      requires Valid() && state == AnswerShown && currentQuestionIndex == |questions| - 1
      modifies this`historyData, this`state
      ensures Valid() && state == SummaryShown
      ensures historyData == Merge(old(historyData), sessionAnswers)
      ensures score == Score(CorrectCount(sessionAnswers), |questions|)
      ensures score.correctCount <= score.total
    {
      score := Score(CorrectCount(sessionAnswers), |questions|);
      // `state` and `historyData` are independent; setting `state` first lets
      // the invariant be re-established before the history is touched.
      state := SummaryShown;
      assert Valid();
      MergeSessionIntoHistory();
    }

    /** mergeSessionIntoHistory (app.js:192-204): each answer of the session, in order, pushed into its record. */
    method MergeSessionIntoHistory()
      modifies this`historyData
      ensures historyData == Merge(old(historyData), sessionAnswers)
    {
      var i := 0;
      while i < |sessionAnswers|
        invariant 0 <= i <= |sessionAnswers|
        invariant Merge(historyData, sessionAnswers[i..]) == Merge(old(historyData), sessionAnswers)
      {
        assert sessionAnswers[i..][0] == sessionAnswers[i] && sessionAnswers[i..][1..] == sessionAnswers[i + 1..];
        PushAttempt(sessionAnswers[i]);
        i := i + 1;
      }
    }

    /** The body of the `forEach` (app.js:194-202): find or create the record of `a.id`, then push the attempt. */
    method PushAttempt(a: SessionAnswer)
      modifies this`historyData
      ensures historyData == MergeOne(old(historyData), a)
    {
      var existing := Find(historyData, a.id);
      if existing.None? {
        historyData := historyData + [HistoryRecord(a.id, [])];
        existing := Some(|historyData| - 1);
      }
      var j := existing.value;
      historyData := historyData[j := historyData[j].(history := historyData[j].history + [AttemptOf(a)])];
      assert Find(old(historyData), a.id).None? ==> historyData == old(historyData) + [HistoryRecord(a.id, [AttemptOf(a)])] by {
        assert [] + [AttemptOf(a)] == [AttemptOf(a)];
      }
    }

    /** The keydown handler (app.js:264-274): Enter submits, advances or restarts, depending on `state`. */
    method Enter(input: string, timestamp: Timestamp, shuffled: seq<Question>)
      requires Valid()
      requires multiset(shuffled) == multiset(allQuestions)
      modifies this`questions, this`currentQuestionIndex, this`sessionAnswers, this`historyData, this`state
      ensures Valid()
      ensures old(state) == QuestionShown ==>
        && state == AnswerShown
        && questions == old(questions) && currentQuestionIndex == old(currentQuestionIndex)
        && sessionAnswers == old(sessionAnswers) + [Answered(questions[currentQuestionIndex], input, timestamp)]
        && historyData == old(historyData)
      ensures old(state) == AnswerShown && old(currentQuestionIndex) < |old(questions)| - 1 ==>
        && state == QuestionShown
        && questions == old(questions) && currentQuestionIndex == old(currentQuestionIndex) + 1
        && sessionAnswers == old(sessionAnswers) && historyData == old(historyData)
      ensures old(state) == AnswerShown && old(currentQuestionIndex) == |old(questions)| - 1 ==>
        && state == SummaryShown
        && questions == old(questions) && currentQuestionIndex == old(currentQuestionIndex)
        && sessionAnswers == old(sessionAnswers)
        && historyData == Merge(old(historyData), sessionAnswers)
      ensures old(state) == SummaryShown ==>
        && state == QuestionShown
        && questions == Sample(allQuestions, shuffled) && currentQuestionIndex == 0
        && sessionAnswers == [] && historyData == old(historyData)
    {
      match state
      case QuestionShown =>
        var _ := Submit(input, timestamp);
      case AnswerShown =>
        var _ := Next();
      case SummaryShown =>
        Restart(shuffled);
    }
  }
}
