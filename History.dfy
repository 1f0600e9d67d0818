/**
 * The cumulative answer history of app.js (`historyData`) and the rule by
 * which `mergeSessionIntoHistory` (lines 192-204) folds a finished session
 * into it. The functions here specify the merge; the in-place loop that
 * performs it is `Quiz.Session.MergeSessionIntoHistory`.
 */
module History {
  import opened Wrappers

  /** `new Date().toISOString()`, taken as an opaque value supplied by the caller. */
  type Timestamp = string

  /** One entry of `sessionAnswers` (app.js:75-80); `correct` is 1 or 0 as in the source. */
  datatype SessionAnswer = SessionAnswer(id: int, correct: int, timestamp: Timestamp, userAnswer: string)

  /** One entry of a record's `history` array. */
  datatype Attempt = Attempt(correct: int, timestamp: Timestamp)

  /** One element of `historyData`: a question id and the attempts recorded for it. */
  datatype HistoryRecord = HistoryRecord(id: int, history: seq<Attempt>)

  function AttemptOf(a: SessionAnswer): Attempt {
    Attempt(a.correct, a.timestamp)
  }

  function Ids(records: seq<HistoryRecord>): seq<int> {
    seq(|records|, i requires 0 <= i < |records| => records[i].id)
  }

  function AnswerIds(answers: seq<SessionAnswer>): seq<int> {
    seq(|answers|, i requires 0 <= i < |answers| => answers[i].id)
  }

  /** The position of the first `x` in `xs`, or `|xs|` when `x` does not occur. */
  function FirstIndex(xs: seq<int>, x: int): (k: nat)
    ensures k <= |xs|
    ensures k < |xs| ==> xs[k] == x
    ensures forall j :: 0 <= j < k ==> xs[j] != x
    ensures k < |xs| <==> x in xs
  {
    if xs == [] then 0 else if xs[0] == x then 0 else 1 + FirstIndex(xs[1..], x)
  }

  /** `historyData.find(h => h.id === id)`, as the index of the record it finds. */
  function Find(records: seq<HistoryRecord>, id: int): (r: Option<nat>)
    ensures r.Some? ==> r.value < |records| && records[r.value].id == id
    ensures r.Some? ==> forall j :: 0 <= j < r.value ==> records[j].id != id
    ensures r.None? <==> id !in Ids(records)
  {
    var ids := Ids(records);
    assert forall j :: 0 <= j < |records| ==> ids[j] == records[j].id;
    var k := FirstIndex(ids, id);
    if k < |records| then Some(k) else None
  }

  /** One step of the `forEach` in mergeSessionIntoHistory: find or create the record, then push the attempt. */
  function MergeOne(records: seq<HistoryRecord>, a: SessionAnswer): seq<HistoryRecord> {
    match Find(records, a.id)
    case Some(j) => records[j := records[j].(history := records[j].history + [AttemptOf(a)])]
    case None => records + [HistoryRecord(a.id, [AttemptOf(a)])]
  }

  /** `mergeSessionIntoHistory`: the session's answers merged one by one, in session order. */
  function Merge(records: seq<HistoryRecord>, answers: seq<SessionAnswer>): seq<HistoryRecord>
    decreases |answers|
  {
    if answers == [] then records else Merge(MergeOne(records, answers[0]), answers[1..])
  }

  /** The number of attempts stored in all records together. */
  function TotalEntries(records: seq<HistoryRecord>): nat {
    if records == [] then 0 else |records[0].history| + TotalEntries(records[1..])
  }

  /** The attempts stored for `id`: those of the first record with that id (what `find` reaches), or none. */
  function HistoryOf(records: seq<HistoryRecord>, id: int): seq<Attempt> {
    match Find(records, id)
    case Some(j) => records[j].history
    case None => []
  }

  /** The attempts a session contributes to `id`, in session order. */
  function AttemptsFor(answers: seq<SessionAnswer>, id: int): seq<Attempt>
    decreases |answers|
  {
    if answers == [] then []
    else (if answers[0].id == id then [AttemptOf(answers[0])] else []) + AttemptsFor(answers[1..], id)
  }

  predicate DistinctRecordIds(records: seq<HistoryRecord>) {
    forall i, j :: 0 <= i < j < |records| ==> records[i].id != records[j].id
  }

  // ---------------------------------------------------------------- helpers

  lemma TotalEntriesUpdate(records: seq<HistoryRecord>, j: nat, r: HistoryRecord)
    requires j < |records|
    ensures TotalEntries(records[j := r]) + |records[j].history| == TotalEntries(records) + |r.history|
  {
    if j > 0 {
      assert records[j := r][1..] == records[1..][j - 1 := r];
      TotalEntriesUpdate(records[1..], j - 1, r);
    }
  }

  lemma TotalEntriesAppend(records: seq<HistoryRecord>, r: HistoryRecord)
    ensures TotalEntries(records + [r]) == TotalEntries(records) + |r.history|
  {
    if records != [] {
      assert (records + [r])[1..] == records[1..] + [r];
      TotalEntriesAppend(records[1..], r);
    }
  }

  lemma {:induction false} FirstIndexAppend(xs: seq<int>, y: int, x: int)
    ensures FirstIndex(xs + [y], x)
         == if FirstIndex(xs, x) < |xs| then FirstIndex(xs, x) else if y == x then |xs| else |xs| + 1
  {
    if xs != [] {
      assert (xs + [y])[1..] == xs[1..] + [y];
      FirstIndexAppend(xs[1..], y, x);
    }
  }

  lemma FirstIndexCons(y: int, xs: seq<int>, x: int)
    requires x != y
    ensures FirstIndex([y] + xs, x) == 1 + FirstIndex(xs, x)
  {
    assert ([y] + xs)[1..] == xs;
  }

  /** What one merge step does to the records and their ids. */
  lemma MergeOneShape(records: seq<HistoryRecord>, a: SessionAnswer)
    ensures var r := MergeOne(records, a);
      && |r| == (if a.id in Ids(records) then |records| else |records| + 1)
      && (forall i :: 0 <= i < |records| ==> r[i].id == records[i].id)
      && (forall i :: 0 <= i < |records| ==> records[i].history <= r[i].history)
      && (forall i :: 0 <= i < |records| && records[i].id != a.id ==> r[i] == records[i])
      && Ids(r) == (if a.id in Ids(records) then Ids(records) else Ids(records) + [a.id])
      && (a.id !in Ids(records) ==> r[|records|] == HistoryRecord(a.id, [AttemptOf(a)]))
  {
  }

  // ---------------------------------------------------------------- properties

  /** The merge adds exactly one attempt per session answer. */
  lemma {:induction false} MergeCount(records: seq<HistoryRecord>, answers: seq<SessionAnswer>)
    ensures TotalEntries(Merge(records, answers)) == TotalEntries(records) + |answers|
    decreases |answers|
  {
    if answers != [] {
      var a := answers[0];
      MergeCount(MergeOne(records, a), answers[1..]);
      match Find(records, a.id)
      case Some(j) =>
        TotalEntriesUpdate(records, j, records[j].(history := records[j].history + [AttemptOf(a)]));
      case None =>
        TotalEntriesAppend(records, HistoryRecord(a.id, [AttemptOf(a)]));
    }
  }

  /** Existing records keep their place and id, and their old history is a prefix of the new one. */
  lemma {:induction false} MergeExtends(records: seq<HistoryRecord>, answers: seq<SessionAnswer>)
    ensures |Merge(records, answers)| >= |records|
    ensures forall i :: 0 <= i < |records| ==> Merge(records, answers)[i].id == records[i].id
    ensures forall i :: 0 <= i < |records| ==> records[i].history <= Merge(records, answers)[i].history
    decreases |answers|
  {
    if answers != [] {
      var m := MergeOne(records, answers[0]);
      MergeOneShape(records, answers[0]);
      MergeExtends(m, answers[1..]);
      var r := Merge(records, answers);
      forall i | 0 <= i < |records| ensures records[i].history <= r[i].history {
        assert records[i].history <= m[i].history <= r[i].history;
      }
    }
  }

  /** A record whose id the session never answered is left exactly as it was. */
  lemma {:induction false} MergeUntouched(records: seq<HistoryRecord>, answers: seq<SessionAnswer>, i: nat)
    requires i < |records|
    requires records[i].id !in AnswerIds(answers)
    ensures i < |Merge(records, answers)| && Merge(records, answers)[i] == records[i]
    decreases |answers|
  {
    MergeExtends(records, answers);
    if answers != [] {
      var m := MergeOne(records, answers[0]);
      MergeOneShape(records, answers[0]);
      assert records[i].id != AnswerIds(answers)[0];
      assert AnswerIds(answers[1..]) == AnswerIds(answers)[1..];
      MergeUntouched(m, answers[1..], i);
    }
  }

  /** Unique record ids stay unique. */
  lemma {:induction false} MergeKeepsIdsDistinct(records: seq<HistoryRecord>, answers: seq<SessionAnswer>)
    requires DistinctRecordIds(records)
    ensures DistinctRecordIds(Merge(records, answers))
    decreases |answers|
  {
    if answers != [] {
      var a := answers[0];
      var m := MergeOne(records, a);
      MergeOneShape(records, a);
      assert DistinctRecordIds(m) by {
        if a.id !in Ids(records) {
          forall i, j | 0 <= i < j < |m| ensures m[i].id != m[j].id {
            if j == |records| { assert m[i].id == Ids(records)[i]; }
          }
        }
      }
      MergeKeepsIdsDistinct(m, answers[1..]);
    }
  }

  /** One merge step appends the attempt to the history `find` reaches for its id, and to no other. */
  lemma MergeOneHistoryOf(records: seq<HistoryRecord>, a: SessionAnswer, id: int)
    ensures HistoryOf(MergeOne(records, a), id)
         == HistoryOf(records, id) + (if a.id == id then [AttemptOf(a)] else [])
  {
    var r := MergeOne(records, a);
    MergeOneShape(records, a);
    if a.id in Ids(records) {
      assert FirstIndex(Ids(r), id) == FirstIndex(Ids(records), id);
    } else {
      var k := FirstIndex(Ids(records), id);
      FirstIndexAppend(Ids(records), a.id, id);
      if k < |records| {
        assert FirstIndex(Ids(r), id) == k;
      } else if id == a.id {
        assert FirstIndex(Ids(r), id) == |records|;
      } else {
        assert FirstIndex(Ids(r), id) == |records| + 1;
      }
    }
  }

  /** For every id, the merged history is the old one followed by that id's session answers, in session order. */
  lemma {:induction false} MergeHistoryOf(records: seq<HistoryRecord>, answers: seq<SessionAnswer>, id: int)
    ensures HistoryOf(Merge(records, answers), id) == HistoryOf(records, id) + AttemptsFor(answers, id)
    decreases |answers|
  {
    if answers != [] {
      var a := answers[0];
      MergeOneHistoryOf(records, a, id);
      MergeHistoryOf(MergeOne(records, a), answers[1..], id);
    }
  }

  /** Each record the merge appends has an id that was absent from the history and present in the session. */
  lemma {:induction false} MergeNewIdsFresh(records: seq<HistoryRecord>, answers: seq<SessionAnswer>)
    ensures var r := Merge(records, answers);
      && |r| >= |records|
      && forall p :: |records| <= p < |r| ==> r[p].id !in Ids(records) && r[p].id in AnswerIds(answers)
    decreases |answers|
  {
    MergeExtends(records, answers);
    if answers != [] {
      var a, rest := answers[0], answers[1..];
      var m := MergeOne(records, a);
      var r := Merge(records, answers);
      assert AnswerIds(answers) == [a.id] + AnswerIds(rest);
      MergeOneShape(records, a);
      MergeNewIdsFresh(m, rest);
      MergeExtends(m, rest);
      forall p | |records| <= p < |r| ensures r[p].id !in Ids(records) && r[p].id in AnswerIds(answers) {
        if p < |m| {
          assert r[p].id == m[p].id == a.id;
        } else {
          assert r[p].id in AnswerIds(rest);
        }
      }
    }
  }

  /** After the merge every answered question has a record. */
  lemma {:induction false} MergeCoversAnswers(records: seq<HistoryRecord>, answers: seq<SessionAnswer>)
    ensures forall k :: 0 <= k < |answers| ==> answers[k].id in Ids(Merge(records, answers))
    decreases |answers|
  {
    if answers != [] {
      var a, rest := answers[0], answers[1..];
      var m := MergeOne(records, a);
      var r := Merge(records, answers);
      MergeOneShape(records, a);
      MergeCoversAnswers(m, rest);
      MergeExtends(m, rest);
      forall k | 0 <= k < |answers| ensures answers[k].id in Ids(r) {
        if k == 0 {
          var j := FirstIndex(Ids(m), a.id);
          assert Ids(r)[j] == r[j].id == m[j].id == a.id;
        } else {
          assert answers[k] == rest[k - 1];
          assert r == Merge(m, rest);
        }
      }
    }
  }

  /** The records the merge appends are in order of their ids' first occurrence in the session. */
  lemma {:induction false} MergeNewInSessionOrder(records: seq<HistoryRecord>, answers: seq<SessionAnswer>)
    ensures var r := Merge(records, answers);
      forall p, q :: |records| <= p < q < |r| ==>
        FirstIndex(AnswerIds(answers), r[p].id) < FirstIndex(AnswerIds(answers), r[q].id)
    decreases |answers|
  {
    if answers != [] {
      var a, rest := answers[0], answers[1..];
      var m := MergeOne(records, a);
      var r := Merge(records, answers);
      var ids, restIds := AnswerIds(answers), AnswerIds(rest);
      assert ids == [a.id] + restIds;
      MergeOneShape(records, a);
      MergeNewInSessionOrder(m, rest);
      MergeNewIdsFresh(m, rest);
      MergeExtends(m, rest);
      assert a.id in Ids(m);
      forall p | |m| <= p < |r| ensures FirstIndex(ids, r[p].id) == 1 + FirstIndex(restIds, r[p].id) {
        FirstIndexCons(a.id, restIds, r[p].id);
      }
      forall p, q | |records| <= p < q < |r|
        ensures FirstIndex(ids, r[p].id) < FirstIndex(ids, r[q].id)
      {
        if p < |m| {
          assert r[p].id == m[p].id == a.id;
        }
      }
    }
  }
}
