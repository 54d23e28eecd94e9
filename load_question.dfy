/**
 * The JSON loader of scripts/load_question.py: every question listed under
 * the topic has its `wrong_answers` list padded in place with None up to
 * five entries, and one row is inserted per question.
 *
 * The parsed file is the map `data` (topic to its questions); reading the
 * file and the database are left out, so the rows are returned in the order
 * of the INSERT statements.
 */
module LoadQuestion {
  import opened PyValues
  import opened PyStrings

  /** One entry of the JSON list: its `question`, `correct_answer`,
      `wrong_answers` and `difficulty` keys. */
  datatype JsonQuestion = JsonQuestion(question: string, correct: string, wrongAnswers: seq<Option<string>>,
                                       difficulty: int)

  /** The values of one INSERT: module, submodule, difficulty, question,
      correct answer and wrong_answer1 .. wrong_answer5. */
  datatype InsertRow = InsertRow(moduleName: string, submoduleName: string, difficulty: int, question: string,
                                 correct: string, wrong: seq<Option<string>>)

  /** The list after padding: its entries, then None until there are five. */
  function Padded(ws: seq<Option<string>>): (r: seq<Option<string>>)
    ensures |r| == if |ws| >= 5 then |ws| else 5
    ensures r[..|ws|] == ws
    ensures forall i :: |ws| <= i < |r| ==> r[i].None?
  {
    if |ws| >= 5 then ws else ws + seq(5 - |ws|, _ => None)
  }

  /** `while len(wrong_answers) < 5: wrong_answers.append(None)`
      (scripts/load_question.py:41-43). */
  method PadAnswers(wrongAnswers: PyList<Option<string>>)
    modifies wrongAnswers
    ensures wrongAnswers.items == Padded(old(wrongAnswers.items))
  {
    ghost var original := wrongAnswers.items;
    while |wrongAnswers.items| < 5
      invariant |original| <= |wrongAnswers.items| <= if |original| >= 5 then |original| else 5
      invariant wrongAnswers.items[..|original|] == original
      invariant forall i :: |original| <= i < |wrongAnswers.items| ==> wrongAnswers.items[i].None?
      decreases 5 - |wrongAnswers.items|
    {
      wrongAnswers.Append(None);
    }
    assert |wrongAnswers.items| == |Padded(original)|;
    assert forall i :: 0 <= i < |original| ==> wrongAnswers.items[i] == original[i];
  }

  /** The row inserted for question `q` of `topic`: the capitalised topic,
      "General", and the first five entries of the padded answers. */
  function RowOf(topic: string, q: JsonQuestion): (r: InsertRow)
    ensures |r.wrong| == 5
  {
    InsertRow(Capitalize(topic), "General", q.difficulty, q.question, q.correct, Padded(q.wrongAnswers)[..5])
  }

  /** `data.get(topic, [])`. */
  function QuestionsOf(data: map<string, seq<JsonQuestion>>, topic: string): seq<JsonQuestion> {
    if topic in data then data[topic] else []
  }

  /**
   * insert_questions_from_json (scripts/load_question.py:24-61): one row per
   * listed question, in order; a topic missing from the file gives no rows.
   * Each question's answer list is padded on a list object of its own.
   */
  method InsertQuestionsFromJson(topic: string, data: map<string, seq<JsonQuestion>>)
    returns (rows: seq<InsertRow>)
    ensures |rows| == |QuestionsOf(data, topic)|
    ensures forall i :: 0 <= i < |rows| ==> rows[i] == RowOf(topic, QuestionsOf(data, topic)[i])
  {
    var questions := QuestionsOf(data, topic);
    rows := [];
    for i := 0 to |questions|
      invariant |rows| == i
      invariant forall k :: 0 <= k < i ==> rows[k] == RowOf(topic, questions[k])
    {
      var questionData := questions[i];
      var wrongAnswers := new PyList(questionData.wrongAnswers);
      PadAnswers(wrongAnswers);
      var w := wrongAnswers.items;
      rows := rows + [InsertRow(Capitalize(topic), "General", questionData.difficulty, questionData.question,
                                questionData.correct, [w[0], w[1], w[2], w[3], w[4]])];
      assert w[..5] == [w[0], w[1], w[2], w[3], w[4]];
    }
  }

  /** A list of five or more is left as it is, and only its first five
      entries reach the row; a shorter list keeps its entries, in order,
      followed by None. */
  lemma RowAnswers(topic: string, q: JsonQuestion)
    ensures |q.wrongAnswers| >= 5 ==> RowOf(topic, q).wrong == q.wrongAnswers[..5]
    ensures |q.wrongAnswers| < 5 ==>
              RowOf(topic, q).wrong == q.wrongAnswers + seq(5 - |q.wrongAnswers|, _ => None)
  {
  }

  /** Entries after the fifth never change the row. */
  lemma ExtraAnswersDropped(topic: string, q: JsonQuestion, extra: seq<Option<string>>)
    requires |q.wrongAnswers| >= 5
    ensures RowOf(topic, q.(wrongAnswers := q.wrongAnswers + extra)) == RowOf(topic, q)
  {
    assert (q.wrongAnswers + extra)[..5] == q.wrongAnswers[..5];
  }

  /** The module column of a lower-case topic such as "general_knowledge":
      only its first character is upper-cased, the rest is kept. */
  lemma ModuleColumn(topic: string)
    requires topic != "" && forall i :: 0 <= i < |topic| ==> !IsUpper(topic[i])
    ensures Capitalize(topic) == [UpperChar(topic[0])] + topic[1..]
    ensures |Capitalize(topic)| == |topic|
  {
    LowerFixed(topic[1..]);
  }
}
