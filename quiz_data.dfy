/** The question rows the quiz loops work on. */
module QuizData {
  import opened PyValues

  function OptText(o: Option<string>): Cell {
    if o.Some? then Text(o.value) else Null
  }

  /**
   * A row of `get_questions`, in the column order of its query: question,
   * correct_answer, wrong_answer1 .. wrong_answer4, difficulty. The first four
   * text columns are NOT NULL in the topic tables, the last two wrong answers
   * may be NULL.
   */
  datatype Question = Question(
    text: string, correct: string, wrong1: string, wrong2: string,
    wrong3: Option<string>, wrong4: Option<string>, difficulty: int)
  {
    /** The row as the Python tuple that the loops index and slice. */
    function Row(): (r: seq<Cell>)
      ensures |r| == 7
      ensures r[0] == Text(text) && r[1] == Text(correct) && r[6] == Num(difficulty)
    {
      [Text(text), Text(correct), Text(wrong1), Text(wrong2), OptText(wrong3), OptText(wrong4), Num(difficulty)]
    }
  }

  /** A row of the five-column queries, destructured as `question, correct, *wrong`. */
  datatype Fetched = Fetched(question: Cell, correct: Cell, wrong: seq<Cell>)

  /** `[correct] + [ans for ans in wrong if ans]`: the options before shuffling. */
  function Options(q: Fetched): (r: seq<Cell>)
    ensures |r| >= 1 && r[0] == q.correct
  {
    [q.correct] + FilterTruthy(q.wrong)
  }

  /** After the correct answer come exactly the truthy wrong answers. */
  lemma OptionsMembers(q: Fetched, c: Cell)
    ensures c in Options(q)[1..] <==> c in q.wrong && Truthy(c)
  {
    assert Options(q)[1..] == FilterTruthy(q.wrong);
    FilterTruthyMembers(q.wrong, c);
  }
}
