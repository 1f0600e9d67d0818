/**
 * The answer judge of app.js: the verdict on a submitted answer (line 73) and
 * the position-aligned highlighting of a wrong answer (`highlightDifferences`,
 * lines 35-52).
 */
module Judge {
  import opened Wrappers
  import opened Text
  import opened Ints

  /**
   * The verdict of app.js:73 on an answer that submitAnswer has already
   * trimmed: equal after lower-casing. The expected answer is not trimmed.
   */
  predicate Matches(userAnswer: string, expected: string) {
    Lower(userAnswer) == Lower(expected)
  }

  /** White space typed around an answer never changes the verdict. */
  lemma JudgeIgnoresPadding(pre: string, input: string, post: string, expected: string)
    requires AllSpace(pre) && AllSpace(post)
    ensures Trim(pre + input + post) == Trim(input)
    ensures Matches(Trim(pre + input + post), expected) <==> Matches(Trim(input), expected)
  {
    TrimIgnoresPadding(pre, input, post);
  }

  /** Two inputs that differ only in ASCII letter case get the same verdict. */
  lemma JudgeIgnoresCase(input1: string, input2: string, expected: string)
    requires Lower(input1) == Lower(input2)
    ensures Matches(Trim(input1), expected) <==> Matches(Trim(input2), expected)
  {
    LowerTrim(input1);
    LowerTrim(input2);
  }

  /**
   * A blank or white-space-only input is not rejected: it is recorded as the
   * empty answer and judged correct exactly when the expected answer is empty.
   */
  lemma JudgeBlank(input: string, expected: string)
    requires AllSpace(input)
    ensures Trim(input) == []
    ensures Matches(Trim(input), expected) <==> expected == []
  {
  }

  /** " Paris " is accepted for "paris": surrounding blanks and letter case are ignored. */
  lemma JudgeAcceptsExample(input: string, expected: string)
    requires input == " Paris " && expected == "paris"
    ensures Matches(Trim(input), expected)
  {
    var word := input[1..6];
    assert Trim(input) == word by {
      var blank := input[..1];
      assert input == blank + word + input[6..];
      assert Trimmed(word) && AllSpace(blank) && AllSpace(input[6..]);
      TrimPadded(blank, word, input[6..]);
    }
    assert Lower(word) == Lower(expected) by {
      var l, r := Lower(word), Lower(expected);
      forall i | 0 <= i < 5 ensures l[i] == r[i] {
        assert LowerChar(word[i]) == LowerChar(expected[i]);
      }
    }
  }

  /** "paris" is refused for "Paris!": punctuation is not normalised away. */
  lemma JudgeRefusesExample(input: string, expected: string)
    requires input == "paris" && expected == "Paris!"
    ensures !Matches(Trim(input), expected)
  {
  }

  /** One character of the highlighted user answer; `wrong` means it is wrapped in the char-wrong span. */
  datatype Mark = Mark(ch: char, wrong: bool)

  /** The text of a highlighted answer with the tags removed. */
  function Plain(marks: seq<Mark>): (s: string)
    ensures |s| == |marks|
    ensures forall i :: 0 <= i < |marks| ==> s[i] == marks[i].ch
  {
    if marks == [] then [] else [marks[0].ch] + Plain(marks[1..])
  }

  /**
   * `highlightDifferences`: walks both strings position by position up to the
   * longer length and emits the user's character at each position, tagged when
   * it differs from the expected character there (case-sensitively) or the
   * expected answer has ended. Nothing is emitted for positions past the end of
   * the user's answer.
   */
  method HighlightDifferences(userAnswer: string, correctAnswer: string) returns (marked: seq<Mark>)
    ensures |marked| == |userAnswer|
    ensures Plain(marked) == userAnswer
    ensures forall i :: 0 <= i < |marked| ==>
      (marked[i].wrong <==> i >= |correctAnswer| || userAnswer[i] != correctAnswer[i])
    ensures userAnswer == correctAnswer ==> forall i :: 0 <= i < |marked| ==> !marked[i].wrong
  {
    marked := [];
    var maxLen := Max(|userAnswer|, |correctAnswer|);
    for i := 0 to maxLen
      invariant |marked| == if i < |userAnswer| then i else |userAnswer|
      invariant forall k :: 0 <= k < |marked| ==> marked[k].ch == userAnswer[k]
      invariant forall k :: 0 <= k < |marked| ==>
        (marked[k].wrong <==> k >= |correctAnswer| || userAnswer[k] != correctAnswer[k])
    {
      var userChar := if i < |userAnswer| then Some(userAnswer[i]) else None;
      var correctChar := if i < |correctAnswer| then Some(correctAnswer[i]) else None;
      if userChar != correctChar {
        if userChar.Some? {
          marked := marked + [Mark(userChar.value, true)];
        }
      } else {
        marked := marked + [Mark(userAnswer[i], false)];
      }
    }
  }
}
