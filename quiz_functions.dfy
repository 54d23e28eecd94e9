/**
 * The menu actions of scripts/quiz_functions.py: adding a question to a
 * chosen or a new topic, deleting a topic by its number, listing a topic's
 * questions grouped by difficulty, and the login guard of the score view.
 *
 * What the user types is passed in: lines of text, or the integer that
 * `int(input())` gave (None when it raised ValueError). The catalogue of
 * topics is `rows`, the stored names that get_topics reads; the topic
 * tables are `bank(t)`.
 */
module QuizFunctions {
  import opened PyValues
  import opened PyStrings
  import opened QuizData
  import opened Topics
  import opened Grouping

  /** The catalogue as the set add_topic and delete_topic_from_db consult. */
  function Catalogue(rows: seq<string>): set<string> {
    set t | t in rows
  }

  /**
   * `valid_topics[name]` for `valid_topics = {k.lower(): k for k in keys}`
   * (scripts/quiz_functions.py:39-45): a later key with the same lower case
   * overwrites an earlier one, so the LAST such key is found.
   */
  function FindLower(keys: seq<string>, name: string): (r: Option<string>)
    ensures r.Some? ==> r.value in keys && Lower(r.value) == name
  {
    if keys == [] then None
    else if Lower(keys[|keys| - 1]) == name then Some(keys[|keys| - 1])
    else FindLower(keys[..|keys| - 1], name)
  }

  /** The lookup misses exactly when no key lower-cases to the name. */
  lemma {:induction false} FindLowerMisses(keys: seq<string>, name: string)
    ensures FindLower(keys, name).None? <==> forall i :: 0 <= i < |keys| ==> Lower(keys[i]) != name
  {
    if keys != [] && Lower(keys[|keys| - 1]) != name {
      var init := keys[..|keys| - 1];
      FindLowerMisses(init, name);
      assert forall i :: 0 <= i < |init| ==> init[i] == keys[i];
    }
  }

  /** A lookup that finds a key finds the last key that lower-cases to the
      name; `i` is where it sits. */
  lemma {:induction false} FindLowerFinds(keys: seq<string>, name: string) returns (i: nat)
    requires FindLower(keys, name).Some?
    ensures i < |keys| && keys[i] == FindLower(keys, name).value && Lower(keys[i]) == name
    ensures forall j :: i < j < |keys| ==> Lower(keys[j]) != name
  {
    if Lower(keys[|keys| - 1]) == name {
      i := |keys| - 1;
    } else {
      var init := keys[..|keys| - 1];
      i := FindLowerFinds(init, name);
      assert forall j :: i < j < |init| ==> init[j] == keys[j];
    }
  }

  /** The loop `for i in range(4)` that reads the four wrong answers, each
      stripped, in order (scripts/quiz_functions.py:53-55). */
  method ReadWrongAnswers(wrongLine: nat -> string) returns (wrongAnswers: seq<string>)
    ensures |wrongAnswers| == 4
    ensures forall k :: 0 <= k < 4 ==> wrongAnswers[k] == Strip(wrongLine(k))
  {
    wrongAnswers := [];
    for i := 0 to 4
      invariant |wrongAnswers| == i
      invariant forall k :: 0 <= k < i ==> wrongAnswers[k] == Strip(wrongLine(k))
    {
      var stripped := Strip(wrongLine(i));
      wrongAnswers := wrongAnswers + [stripped];
    }
  }

  datatype NewQuestion =
    | InvalidChoice
    | UnknownTopic(name: string)
    | DifficultyError(catalogue: set<string>)
    | Added(topic: string, catalogue: set<string>, wrongAnswers: seq<string>, effect: AddQuestionsEffect)

  /**
   * add_new_question (scripts/quiz_functions.py:22-83). The choice is
   * stripped and lower-cased; "choose" looks the typed name up among the
   * display names regardless of case and passes the DISPLAY name on,
   * "create" adds the stripped name as a topic first; anything else adds
   * nothing. A difficulty that is not an integer raises ValueError, which
   * nothing catches: after "create" the topic then exists already.
   */
  method AddNewQuestion(rows: seq<string>, choiceLine: string, topicLine: string, difficulty: Option<int>,
                        questionLine: string, correctLine: string, wrongLine: nat -> string)
    returns (o: NewQuestion)
    ensures var choice := Lower(Strip(choiceLine));
            o.InvalidChoice? <==> choice != "choose" && choice != "create"
    ensures Lower(Strip(choiceLine)) == "choose" ==>
              var found := FindLower(Keys(MappingOf(rows)), Lower(Strip(topicLine)));
              && (o.UnknownTopic? <==> found.None?)
              && (o.UnknownTopic? ==> o.name == Lower(Strip(topicLine)))
              && (found.Some? && difficulty.None? ==> o == DifficultyError(Catalogue(rows)))
              && (found.Some? && difficulty.Some? ==> o.Added? && o.topic == found.value && o.catalogue == Catalogue(rows))
    ensures Lower(Strip(choiceLine)) == "create" ==>
              var added := AddTopic(Catalogue(rows), Strip(topicLine)).topics;
              && (difficulty.None? ==> o == DifficultyError(added))
              && (difficulty.Some? ==> o.Added? && o.topic == Strip(topicLine) && o.catalogue == added)
    ensures o.Added? ==>
              && |o.wrongAnswers| == 4 && (forall k :: 0 <= k < 4 ==> o.wrongAnswers[k] == Strip(wrongLine(k)))
              && o.effect == AddQuestions(o.topic, difficulty.value, Strip(questionLine), Strip(correctLine), o.wrongAnswers)
              && o.effect.inserted.Some?
  {
    var choice := Lower(Strip(choiceLine));
    var topic;
    var catalogue := Catalogue(rows);
    if choice == "choose" {
      var topicName := Lower(Strip(topicLine));
      var selected := FindLower(Keys(MappingOf(rows)), topicName);
      if selected.None? {
        return UnknownTopic(topicName);
      }
      topic := selected.value;
    } else if choice == "create" {
      topic := Strip(topicLine);
      catalogue := AddTopic(catalogue, topic).topics;
    } else {
      return InvalidChoice;
    }
    if difficulty.None? {
      return DifficultyError(catalogue);
    }
    var question := Strip(questionLine);
    var correctAnswer := Strip(correctLine);
    var wrongAnswers := ReadWrongAnswers(wrongLine);
    return Added(topic, catalogue, wrongAnswers, AddQuestions(topic, difficulty.value, question, correctAnswer, wrongAnswers));
  }

  datatype DeleteChoice =
    | InvalidInput
    | InvalidSelection
    | Cancelled(topic: string)
    | Deleted(topic: string, result: DeleteOutcome)

  /**
   * delete_topic (scripts/quiz_functions.py:100-125): `keys[n - 1]` with
   * Python's indexing, so 0 and small negative numbers count from the end
   * and anything else raises IndexError; the topic is deleted, through its
   * display name, only when the confirmation lower-cases to "y".
   */
  function DeleteTopic(rows: seq<string>, topicNumber: Option<int>, confirmation: string): (r: DeleteChoice)
    ensures r.InvalidInput? <==> topicNumber.None?
    ensures r.InvalidSelection? <==>
              topicNumber.Some? && PyIndex(Keys(MappingOf(rows)), topicNumber.value - 1).None?
    ensures r.Cancelled? || r.Deleted? ==>
              Some(r.topic) == PyIndex(Keys(MappingOf(rows)), topicNumber.value - 1)
    ensures r.Deleted? <==> (r.Cancelled? || r.Deleted?) && Lower(confirmation) == "y"
    ensures r.Deleted? ==> r.result == DeleteTopicFromDb(Catalogue(rows), r.topic)
  {
    if topicNumber.None? then InvalidInput
    else
      var selected := PyIndex(Keys(MappingOf(rows)), topicNumber.value - 1);
      if selected.None? then InvalidSelection
      else if Lower(confirmation) == "y" then Deleted(selected.value, DeleteTopicFromDb(Catalogue(rows), selected.value))
      else Cancelled(selected.value)
  }

  /** Which topic a number selects: 1..n the n-th, 0 down to 1 - n from the
      end, any other number none. */
  lemma DeleteTopicPicks(rows: seq<string>, n: int, confirmation: string)
    ensures var keys := Keys(MappingOf(rows));
            var r := DeleteTopic(rows, Some(n), confirmation);
            && (1 <= n <= |keys| ==> !r.InvalidSelection? && r.topic == keys[n - 1])
            && (1 - |keys| <= n <= 0 ==> !r.InvalidSelection? && r.topic == keys[|keys| + n - 1])
            && (r.InvalidSelection? <==> n < 1 - |keys| || n > |keys|)
  {
    var keys := Keys(MappingOf(rows));
    var r := DeleteTopic(rows, Some(n), confirmation);
    var selected := PyIndex(keys, n - 1);
    assert r.InvalidSelection? <==> selected.None?;
    if selected.Some? {
      assert r.Cancelled? || r.Deleted?;
      assert Some(r.topic) == selected;
    }
  }

  /** The confirmation that deletes is exactly "y" or "Y". */
  lemma ConfirmationWords(confirmation: string)
    ensures Lower(confirmation) == "y" <==> confirmation == "y" || confirmation == "Y"
  {
    if Lower(confirmation) == "y" {
      assert |confirmation| == 1;
      assert Lower(confirmation)[0] == LowerChar(confirmation[0]) == 'y';
      assert confirmation == [confirmation[0]];
    }
  }

  datatype QuestionList =
    | NoTopics
    | NotANumber
    | OutOfRange
    | NoQuestions(topic: string)
    | Shown(topic: string, listing: seq<(int, seq<(int, string)>)>)

  /** `(q[-1], q[0])` for every row: the text keyed by the last column, the difficulty. */
  function TextByDifficulty(rows: seq<Question>): (r: seq<(int, string)>)
    ensures |r| == |rows|
    ensures forall i :: 0 <= i < |rows| ==>
              Num(r[i].0) == rows[i].Row()[|rows[i].Row()| - 1] && Text(r[i].1) == rows[i].Row()[0]
  {
    seq(|rows|, i requires 0 <= i < |rows| => (rows[i].difficulty, rows[i].text))
  }

  /**
   * display_questions (scripts/quiz_functions.py:203-243): a number outside
   * 1..len selects nothing; otherwise the raw name `values[n - 1]` is
   * fetched and its question texts are grouped by difficulty in a
   * defaultdict, listed in ascending difficulty and numbered from 1 per group.
   */
  method DisplayQuestions(rows: seq<string>, topicChoice: Option<int>, bank: string -> seq<Question>)
    returns (d: QuestionList)
    ensures d.NoTopics? <==> rows == []
    ensures d.NotANumber? <==> rows != [] && topicChoice.None?
    ensures d.OutOfRange? <==> rows != [] && topicChoice.Some? && SelectOneBased(Values(MappingOf(rows)), topicChoice).None?
    ensures d.NoQuestions? || d.Shown? ==> SelectOneBased(Values(MappingOf(rows)), topicChoice) == Some(d.topic)
    ensures d.NoQuestions? ==> GetQuestions(bank(TableName(d.topic)), None) == []
    ensures d.Shown? ==> var questions := GetQuestions(bank(TableName(d.topic)), None);
                         questions != [] && d.listing == Listing(TextByDifficulty(questions))
  {
    var topicMapping := GetTopics(rows);
    GetTopicsEmpty(rows);
    if |topicMapping| == 0 {
      return NoTopics;
    }
    if topicChoice.None? {
      return NotANumber;
    }
    if topicChoice.value < 1 || topicChoice.value > |topicMapping| {
      return OutOfRange;
    }
    var selectedTopic := Values(topicMapping)[topicChoice.value - 1];
    var questions := GetQuestions(bank(TableName(selectedTopic)), None);
    if |questions| == 0 {
      return NoQuestions(selectedTopic);
    }
    var listing := ListGroups(TextByDifficulty(questions));
    return Shown(selectedTopic, listing);
  }

  datatype ScoreView = NeedLogin | NoScores(user: string) | Scores(user: string, scores: seq<(string, real)>)

  /** view_user_scores (scripts/quiz_functions.py:129-153): a falsy user is
      turned away before `view(user)` fetches anything. */
  function ViewUserScores(loggedInUser: Option<string>, view: string -> seq<(string, real)>): (r: ScoreView)
    ensures r.NeedLogin? <==> loggedInUser.None? || loggedInUser.value == ""
    ensures !r.NeedLogin? ==> r.user == loggedInUser.value
    ensures r.NoScores? <==> !r.NeedLogin? && view(loggedInUser.value) == []
    ensures r.Scores? ==> r.scores == view(loggedInUser.value) != []
  {
    if loggedInUser.None? || loggedInUser.value == "" then NeedLogin
    else
      var scores := view(loggedInUser.value);
      if scores != [] then Scores(loggedInUser.value, scores) else NoScores(loggedInUser.value)
  }
}
