# Quiz engine model

A Dafny model of the self-quizzing flashcard engine in `app.js` and of the
id-assigning append rule of the editor's server (`editor/server.py`).

A session draws at most `SESSION_LENGTH` (10) questions from the bank, in
shuffled order. It shows them one at a time. Each typed answer is trimmed and
judged correct when it equals the expected answer after lower-casing. The
result is recorded as `1` or `0`, and each answer passes through a feedback
screen. After the last question a summary shows the number of correct answers.
At that point the session's answers are merged into a history that persists
across sessions, with one record per question id. For wrong answers the
summary highlights the user's answer, character by character, against the
expected one. The editor's server appends a submitted question record to the
question file. It gives the record the id one above the largest existing id.

Modules:

- `Text` (Text.dfy): `String.prototype.trim` over the exact ECMAScript
  white-space and line-terminator set, and `toLowerCase` restricted to ASCII
  letters, with the lemmas the judge needs.
- `Judge` (Judge.dfy): the verdict (`Matches`) and `HighlightDifferences`, the
  position-aligned diff. The diff yields a sequence of `(char, wrong)` marks,
  not HTML.
- `History` (History.dfy): history records and the specification of
  `mergeSessionIntoHistory` (`MergeOne`, `Merge`), with its preservation
  lemmas.
- `Quiz` (Quiz.dfy): the session sample and the summary count, and
  `class Session`. The class holds the module globals of app.js as fields. Its
  methods are `Restart`, `Submit`, `Next`, `ShowSummary`,
  `MergeSessionIntoHistory` (the in-place loop, one `PushAttempt` per answer)
  and `Enter` (the keydown dispatch). `Valid()` is the counter invariant that every handler keeps.
- `QuestionFile` (QuestionFile.dfy): `LastId` and `AppendRecord` from
  `do_POST`.
- `Wrappers` (Wrappers.dfy): `Option`.
- `Ints` (Ints.dfy): `Min` and `Max`.

Points where the code behaves differently from what one might expect; the model follows the code:

- Only the user's text is trimmed. The expected answer is lower-cased but not
  trimmed. So a blank answer is correct exactly when the expected answer is the
  empty string (`Judge.JudgeBlank`).
- An empty or blank answer is not rejected. It is judged and recorded like any
  other.
- The shuffle is a random-comparator sort. The model takes an arbitrary
  reordering of the bank (`multiset(shuffled) == multiset(bank)`) from the
  caller.
- A session over an empty bank is not handled: `showQuestion` reads
  `questions[0]`. The constructor and `Restart` require a non-empty bank.
- `correct` is stored as `1`/`0`, and the summary counts entries whose
  `correct === 1`.

## Model

| member | source | states |
|---|---|---|
| Text.Trim | app.js:72 | the result starts and ends with a kept character, and is empty exactly when the input is all white space |
| Text.Lower | app.js:73 | same length as the input; each character is lower-cased independently |
| Text.TrimPadded | app.js:72 | trimming white space around a trimmed core gives back exactly the core |
| Text.TrimSplit | app.js:72 | every string is its trimmed form with only white space before and after it |
| Text.TrimIgnoresPadding | app.js:72 | extra white space around an input does not change its trimmed form |
| Text.TrimIdempotent | app.js:72 | trimming twice is trimming once, so the recorded answer is already trimmed |
| Text.LowerTrim | app.js:72-73 | trimming and lower-casing commute |
| Judge.Matches | app.js:73 | the verdict: the trimmed answer and the expected answer are equal after lower-casing (the expected answer is not trimmed) |
| Judge.JudgeIgnoresPadding | app.js:72-73 | white space typed around an answer changes neither the recorded text nor the verdict |
| Judge.JudgeIgnoresCase | app.js:72-73 | inputs that differ only in letter case get the same verdict |
| Judge.JudgeBlank | app.js:72-80 | a white-space-only input is recorded as the empty answer and is correct exactly when the expected answer is empty |
| Judge.JudgeAcceptsExample | app.js:72-73 | " Paris " is accepted for "paris" |
| Judge.JudgeRefusesExample | app.js:72-73 | "paris" is refused for "Paris!" |
| Judge.HighlightDifferences | app.js:35-52 | removing the tags gives back the user's answer, one mark per user character in order; position i is tagged iff the expected answer has ended or differs there (case-sensitive); equal strings give no tags |
| History.MergeOne | app.js:194-202 | one `forEach` step: push the attempt onto the first record with the answer's id, or append a new record holding only that attempt |
| History.Merge | app.js:192-204 | the steps applied in session order, starting from the stored history; its properties are the lemmas below |
| History.Find | app.js:194 | the index of the first record with the id, or none exactly when no record has that id |
| History.MergeCount | app.js:192-204 | the total number of history entries grows by exactly the number of session answers |
| History.MergeExtends | app.js:192-204 | existing records keep their position and id, and each old history is a prefix of its new history |
| History.MergeUntouched | app.js:192-204 | a record whose id the session never answered is unchanged |
| History.MergeKeepsIdsDistinct | app.js:192-204 | record ids that were unique stay unique |
| History.MergeOneHistoryOf | app.js:194-202 | one step appends {correct, timestamp} to the history of the record `find` reaches for its id, and to no other id's history |
| History.MergeHistoryOf | app.js:192-204 | for every id, the new history is the old one followed by that id's session answers in session order |
| History.MergeNewIdsFresh | app.js:195-198 | every appended record comes after the existing ones, with an id that was absent from the history and occurs in the session |
| History.MergeCoversAnswers | app.js:193-198 | after the merge every answered id has a record |
| History.MergeNewInSessionOrder | app.js:193-198 | appended records are in order of their ids' first occurrence in the session |
| Quiz.PermutationKeepsIdsDistinct | app.js:25-26 | a reordering of a bank without repeated ids has no repeated ids |
| Quiz.Sample | app.js:25-27 | the session has min(SESSION_LENGTH, bank size) questions, all drawn from the bank (as a sub-multiset), without repeated ids when the bank has none |
| Quiz.Answered | app.js:71-80 | the pushed entry: the question's id, the trimmed text (already trimmed, so recorded for the question), the verdict on it as 1/0, and the given timestamp |
| Quiz.CorrectCount | app.js:113 | at most the number of answers; all answers correct iff it equals that number; none correct iff it is 0 |
| Quiz.CorrectCountAppend | app.js:113 | the count of a concatenation is the sum of the counts |
| Quiz.Session.constructor | app.js:10-16 | loads the bank and the stored history, starts a session at question 0 with no answers, and establishes the session invariant |
| Quiz.Session.Restart | app.js:23-31 | a fresh sample, index 0, no answers, state "question"; the history is kept |
| Quiz.Session.Submit | app.js:70-86 | appends exactly one entry for the current question (its id, the verdict as 1/0, the timestamp, the trimmed text) and moves to "answer"; the result is the verdict |
| Quiz.Session.Next | app.js:103-110 | from "answer": index + 1 and "question" iff the index is below the last; otherwise "summary" with the index unchanged, the history merged and the score reported |
| Quiz.Session.ShowSummary | app.js:112-173 | reports CorrectCount of the answers out of the session length (correct ≤ total), merges the session into the history, and moves to "summary" |
| Quiz.Session.MergeSessionIntoHistory | app.js:192-204 | the in-place find-or-create-then-push loop leaves exactly Merge(old history, session answers) |
| Quiz.Session.PushAttempt | app.js:194-202 | one step of that loop: finding the answer's record (or appending a fresh one with no attempts) and pushing the attempt leaves exactly MergeOne(old history, answer) |
| Quiz.Session.Enter | app.js:264-274 | Enter submits in "question", advances in "answer" and restarts in "summary", keeping the session invariant (answers == index in "question", index + 1 in "answer", the session length in "summary", each answer recorded for the question at its position) |
| QuestionFile.IdOrZero | editor/server.py:33 | `item.get('id', 0)`: the record's id, or 0 when it has none |
| QuestionFile.LastId | editor/server.py:33 | the largest id, a missing id counting as 0; 0 for an empty file |
| QuestionFile.AppendRecord | editor/server.py:33-44 | the new id exceeds every existing id and is 1 for an empty file; the file grows by one record after the unchanged old ones; that record is the submitted one with its id set to the reported id (any id the client sent is replaced); unique ids stay unique |

## Left out

- Judge.HighlightDifferences: JavaScript indexes and measures strings in
  UTF-16 code units, while the model's `string` is a sequence of Unicode
  scalar values. A character outside the Basic Multilingual Plane (an emoji,
  say) is one position in the model and two in the source, so every later
  position is compared against a different expected character. The model
  agrees with the source on strings made only of BMP characters; `Trim` and
  `Lower` are unaffected because they never split such a character.
- Text.Lower: only the ASCII letters A-Z are lower-cased. JavaScript's
  `toLowerCase` applies the full Unicode case mapping, which can even change
  a string's length. The verdicts proved here hold for that mapping only
  where it agrees with ASCII.
- Rendering: the markup of `showQuestion`, `showAnswer` and the summary table
  is not modelled. That covers the "(blank)" shown for an empty answer before
  it is highlighted, button labels, listener attachment and the missing HTML
  escaping. The explanation tooltips (`attachExplanationTooltips`) are left
  out too: they are browser layout code with floating-point pixel arithmetic.
- Randomness and the clock: the comparator shuffle becomes a reordering
  supplied by the caller. `new Date().toISOString()` becomes an opaque
  timestamp argument.
- Persistence and network: `fetch` in `loadQuestions`, its error screen,
  `loadHistory`, `saveHistory` and `exportResults` are I/O. The constructor
  receives the already parsed bank and stored history, and saving after the
  merge is not modelled. Corrupt stored history would make `JSON.parse`
  throw; stored history that parses but has the wrong shape (`null`, or a
  record without `history`) would throw later, in `mergeSessionIntoHistory`
  at `historyData.find` or `existing.history.push`. The typing of
  `HistoryRecord` excludes both; neither path is modelled.
- Calls outside the offered controls: `Submit` requires state "question" and
  `Next` requires state "answer". The page offers those controls only in those
  states, and the Enter key dispatches on `state`. Pressing Enter before the
  bank has loaded would call `submitAnswer` on an empty session and throw;
  this is not modelled.
- Null fields: the editor stores an empty form field as JSON `null`. A
  question whose `answer` is null makes `toLowerCase` throw. In the model,
  `Question.answer` is always a string.
- Order inside `showSummary`: the model sets `state` to "summary" before the
  merge rather than after it. The two writes touch different fields, and
  nothing between them reads or writes `state`; `saveHistory` only reads the
  already merged `historyData`. So the final state is the same when nothing
  throws.
- Quiz.Session.ShowSummary: a throw from `saveHistory` (a `localStorage`
  quota error, say) or from the listener and tooltip code after the merge
  would leave `state` at "answer" with the history already merged, so a
  second Enter would merge the session again. That path is not modelled.
- Aliasing: `mergeSessionIntoHistory` pushes through a reference to a record
  held in `historyData`. The model updates that record within the sequence
  value. This is equivalent because each record object occurs once in the
  array.
- editor/server.py: the HTTP handling (`do_GET`, `do_OPTIONS`, headers), the
  reading and writing of the question file, and the JSON response body other
  than its id are not modelled. Ids are modelled as integers or absent. A
  non-numeric id would make Python's `max` or `+ 1` raise, and is not
  modelled.
- editor/editor.js (form building and the POST; its only logic maps `''` to
  `null`) and scrape_uk_test_figures.py (HTTP, HTML parsing and CSV) are not
  part of this model.
