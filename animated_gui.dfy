/**
 * The quiz state and the form logic of the animated Tkinter application in
 * scripts/animated_gui_new.py.
 *
 * The window, the sounds and the animations are left out. A button press is
 * a method call; `check_answer` schedules the next `show_question` on a timer,
 * so here the caller makes that call. The shuffles are the codes passed in,
 * and get_questions, login_user and register_user are parameters.
 */
module AnimatedGui {
  import opened PyValues
  import opened PyStrings
  import opened QuizData
  import opened Topics
  import opened Grouping

  /** The most questions one quiz asks. */
  const MaxRounds := 7

  /** `[answer for answer in question_data[1:6] if answer]`: the choices of a
      round. The slice stops before the difficulty column, so every choice is
      an answer text and the correct one is offered when it is non-empty. */
  function Choices(q: Question): (r: seq<Cell>)
    ensures |r| <= 5
    ensures Text(q.correct) in r <==> q.correct != ""
    ensures forall c :: c in r ==> c.Text? && c.s != ""
    ensures forall c :: c in r <==> c in Slice(q.Row(), 1, 6) && Truthy(c)
  {
    var row := q.Row();
    var columns := Slice(row, 1, 6);
    assert columns[0] == row[1];
    assert forall c :: c in columns ==> c.Text? || c.Null?;
    FilterTruthyMembers(columns, Text(q.correct));
    forall c
      ensures c in FilterTruthy(columns) <==> c in columns && Truthy(c)
      ensures c in FilterTruthy(columns) ==> c.Text? && c.s != ""
    {
      FilterTruthyMembers(columns, c);
    }
    FilterTruthy(columns)
  }

  /** The buttons `show_question` shows are, whatever the shuffle, exactly
      the non-empty columns 1..5 of the row. */
  lemma ShownChoices(q: Question, code: seq<nat>, c: Cell)
    ensures c in Shuffle(Choices(q), code) <==> c in Slice(q.Row(), 1, 6) && Truthy(c)
  {
    ShuffleKeeps(Choices(q), code, c);
  }

  /** What the window shows after a step. */
  datatype Screen =
    | DifficultyMenu
    | Asking(choices: seq<Cell>, correct: Cell)
    | Completed(user: Option<string>, topic: Cell, score: nat, rounds: nat)
    | IndexError

  class AnimatedQuizApp {
    var currentUser: Option<string>
    var questions: seq<Question>
    var rounds: nat
    var score: nat

    /** The invariant of a quiz: at most seven questions, the score never
        passes the rounds and the rounds never pass the questions. */
    predicate Valid()
      reads this
    {
      score <= rounds <= |questions| <= MaxRounds
    }

    /** `__init__` (scripts/animated_gui_new.py:48-53). */
    constructor()
      ensures currentUser == None && questions == [] && rounds == 0 && score == 0
      ensures Valid()
    {
      currentUser := None;
      questions := [];
      rounds := 0;
      score := 0;
    }

    /** `login` and `process_login` (scripts/animated_gui_new.py:486-522):
        the user is recorded only when login_user accepted the credentials. */
    method Login(username: string, accepted: bool)
      modifies this
      ensures currentUser == if accepted then Some(username) else old(currentUser)
      ensures questions == old(questions) && rounds == old(rounds) && score == old(score)
    {
      if accepted {
        currentUser := Some(username);
      }
    }

    /** `register` and `process_registration` (scripts/animated_gui_new.py:586-623):
        a successful registration logs the new user in. */
    method Register(username: string, registered: bool)
      modifies this
      ensures currentUser == if registered then Some(username) else old(currentUser)
      ensures questions == old(questions) && rounds == old(rounds) && score == old(score)
    {
      if registered {
        currentUser := Some(username);
      }
    }

    /** `direct_to_menu` (scripts/animated_gui_new.py:296-301). */
    method DirectToMenu()
      modifies this
      ensures currentUser == Some("Guest")
      ensures questions == old(questions) && rounds == old(rounds) && score == old(score)
    {
      currentUser := Some("Guest");
    }

    /** `logout` (scripts/animated_gui_new.py:1969-1977). */
    method Logout()
      modifies this
      ensures currentUser == None
      ensures questions == old(questions) && rounds == old(rounds) && score == old(score)
    {
      currentUser := None;
    }

    /**
     * `show_question` (scripts/animated_gui_new.py:855-929). The quiz is
     * complete exactly when the rounds reach the number of questions or
     * seven; the score is then saved under element 6 of the first row,
     * which is its difficulty, and a quiz without rows fails on that index.
     * Otherwise the next row is asked with its shuffled choices.
     */
    method ShowQuestion(code: seq<nat>) returns (screen: Screen)
      ensures screen.Asking? <==> rounds < |questions| && rounds < MaxRounds
      ensures screen.IndexError? <==> questions == []
      ensures screen.Completed? ==> screen == Completed(currentUser, Num(questions[0].difficulty), score, rounds)
      ensures screen.Asking? ==> && screen.choices == Shuffle(Choices(questions[rounds]), code)
                                 && screen.correct == Text(questions[rounds].correct)
      ensures !screen.DifficultyMenu?
    {
      if rounds >= |questions| || rounds >= MaxRounds {
        if |questions| == 0 {
          return IndexError;
        }
        var topicName := questions[0].Row()[6];
        return Completed(currentUser, topicName, score, rounds);
      }
      var questionData := questions[rounds];
      var allAnswers := FilterTruthy(Slice(questionData.Row(), 1, 6));
      allAnswers := Shuffle(allAnswers, code);
      return Asking(allAnswers, questionData.Row()[1]);
    }

    /**
     * `start_quiz` (scripts/animated_gui_new.py:833-853): without rows the
     * difficulty menu comes back and nothing changes; otherwise the rows are
     * shuffled, the first seven kept, the counters reset and the first
     * question shown.
     */
    method StartQuiz(rows: seq<Question>, shuffleCode: seq<nat>, choiceCode: seq<nat>) returns (screen: Screen)
      modifies this
      ensures currentUser == old(currentUser)
      ensures rows == [] ==> && screen == DifficultyMenu
                             && questions == old(questions) && rounds == old(rounds) && score == old(score)
      ensures rows != [] ==> && questions == Shuffle(rows, shuffleCode)[..Min(MaxRounds, |rows|)]
                             && rounds == 0 && score == 0 && Valid()
                             && screen == Asking(Shuffle(Choices(questions[0]), choiceCode), Text(questions[0].correct))
    {
      if |rows| == 0 {
        return DifficultyMenu;
      }
      var shuffled := Shuffle(rows, shuffleCode);
      questions := shuffled[..Min(MaxRounds, |shuffled|)];
      rounds := 0;
      score := 0;
      screen := ShowQuestion(choiceCode);
    }

    /**
     * `check_answer` (scripts/animated_gui_new.py:1046-1098): one point iff
     * the selection equals the correct answer the button was given, one
     * more round in every case. Answering a shown question keeps the
     * invariant.
     */
    method CheckAnswer(selected: Cell, correct: Cell)
      modifies this
      ensures score == old(score) + if selected == correct then 1 else 0
      ensures rounds == old(rounds) + 1
      ensures currentUser == old(currentUser) && questions == old(questions)
      ensures old(Valid()) && old(rounds) < |questions| ==> Valid()
    {
      if selected == correct {
        score := score + 1;
      }
      rounds := rounds + 1;
    }
  }

  /** The quiz plays a prefix of a permutation of the fetched rows: at most
      seven of them, each taken once. */
  lemma StartQuizSelection(rows: seq<Question>, code: seq<nat>)
    ensures |Shuffle(rows, code)[..Min(MaxRounds, |rows|)]| == Min(MaxRounds, |rows|)
    ensures multiset(Shuffle(rows, code)[..Min(MaxRounds, |rows|)]) <= multiset(rows)
  {
    var s := Shuffle(rows, code);
    var n := Min(MaxRounds, |rows|);
    ShufflePermutes(rows, code);
    assert s == s[..n] + s[n..];
    assert multiset(s) == multiset(s[..n]) + multiset(s[n..]);
  }

  // ---------------------------------------------------------------------
  // Adding questions and topics

  /** The check of `submit_question` (scripts/animated_gui_new.py:1492): the
      question, the correct answer and the first two wrong answers (as many
      as there are) must all be non-empty. */
  predicate Complete(question: string, correct: string, wrongAnswers: seq<string>) {
    question != "" && correct != "" && forall w :: w in Slice(wrongAnswers, 0, 2) ==> w != ""
  }

  /** `submit_question` (scripts/animated_gui_new.py:1489-1501): nothing is
      added unless the form is complete; otherwise add_questions runs. */
  function SubmitQuestion(topic: string, difficulty: int, question: string, correct: string,
                          wrongAnswers: seq<string>): (r: Option<AddQuestionsEffect>)
    ensures r.None? <==> !Complete(question, correct, wrongAnswers)
    ensures r.Some? ==> r.value == AddQuestions(topic, difficulty, question, correct, wrongAnswers)
  {
    if !Complete(question, correct, wrongAnswers) then None
    else Some(AddQuestions(topic, difficulty, question, correct, wrongAnswers))
  }

  /** The form has four wrong-answer fields: a question is inserted exactly
      when the question, the correct answer and the first two wrong answers
      are filled in; the last two may stay empty. */
  lemma SubmitFormInserts(topic: string, difficulty: int, question: string, correct: string,
                          wrongAnswers: seq<string>)
    requires |wrongAnswers| == 4
    ensures SubmitQuestion(topic, difficulty, question, correct, wrongAnswers).Some? <==>
              question != "" && correct != "" && wrongAnswers[0] != "" && wrongAnswers[1] != ""
    ensures SubmitQuestion(topic, difficulty, question, correct, wrongAnswers).Some? ==>
              SubmitQuestion(topic, difficulty, question, correct, wrongAnswers).value.inserted.Some?
  {
    var firstTwo := Slice(wrongAnswers, 0, 2);
    assert firstTwo == [wrongAnswers[0], wrongAnswers[1]];
    assert forall w :: w in firstTwo <==> w == wrongAnswers[0] || w == wrongAnswers[1];
    assert wrongAnswers[0] in firstTwo && wrongAnswers[1] in firstTwo;
  }

  datatype NewTopic = Rejected | Created(topics: set<string>, inserted: bool, raw: string, display: string)

  /**
   * `process_new_topic` (scripts/animated_gui_new.py:1305-1316): a name that
   * is empty after stripping is rejected; otherwise add_topic runs on the
   * name as typed, and the question form receives the stripped, lower-cased,
   * space-to-underscore name with the typed name for display.
   */
  function ProcessNewTopic(topics: set<string>, topicName: string): (r: NewTopic)
    ensures r.Rejected? <==> Strip(topicName) == ""
    ensures r.Created? ==> && r.topics == AddTopic(topics, topicName).topics
                           && r.inserted == AddTopic(topics, topicName).inserted
                           && r.raw == Normalise(topicName) && r.display == topicName
  {
    if Strip(topicName) == "" then NewTopic.Rejected
    else
      var added := AddTopic(topics, topicName);
      Created(added.topics, added.inserted, Normalise(topicName), topicName)
  }

  /** The name handed to the question form is the catalogue entry add_topic
      made, and add_questions on it writes to that very table. */
  lemma NewTopicFormTable(topics: set<string>, topicName: string, difficulty: int, question: string,
                          correct: string, wrongAnswers: seq<string>)
    requires ProcessNewTopic(topics, topicName).Created?
    ensures ProcessNewTopic(topics, topicName).raw in ProcessNewTopic(topics, topicName).topics
    ensures AddQuestions(ProcessNewTopic(topics, topicName).raw, difficulty, question, correct, wrongAnswers).table
              == ProcessNewTopic(topics, topicName).raw
  {
    NormaliseIdempotent(topicName);
  }

  // ---------------------------------------------------------------------
  // view_topics and show_topic_questions

  datatype Columns = Columns(left: seq<(int, string)>, right: seq<(int, string)>)

  /**
   * The two columns of `view_topics` (scripts/animated_gui_new.py:1565-1592):
   * the first half, rounded up, goes left and the rest right, numbered on
   * from 1 without a gap.
   */
  function SplitColumns(topicList: seq<string>): (r: Columns)
    ensures |r.left| == (|topicList| + 1) / 2 && |r.right| == |topicList| / 2
    ensures r.left + r.right == Enumerate(topicList, 1)
  {
    var halfPoint := |topicList| / 2 + |topicList| % 2;
    var r := Columns(Enumerate(topicList[..halfPoint], 1), Enumerate(topicList[halfPoint..], halfPoint + 1));
    assert forall i :: 0 <= i < |topicList| ==> (r.left + r.right)[i] == Enumerate(topicList, 1)[i];
    r
  }

  /** `(q[6], q)` for every row: each row keyed by its difficulty. */
  function ByDifficulty(rows: seq<Question>): (r: seq<(int, Question)>)
    ensures |r| == |rows| && forall i :: 0 <= i < |rows| ==> r[i] == (rows[i].Row()[6].n, rows[i])
  {
    seq(|rows|, i requires 0 <= i < |rows| => (rows[i].difficulty, rows[i]))
  }

  /**
   * `show_topic_questions` (scripts/animated_gui_new.py:1866-1900): the
   * `difficulty_groups` dictionary is filled row by row and then listed in
   * ascending difficulty, each group numbered from 1. An empty result shows
   * the "no questions" label instead.
   */
  method ShowTopicQuestions(rows: seq<Question>) returns (listing: seq<(int, seq<(int, Question)>)>)
    ensures listing == Listing(ByDifficulty(rows))
    ensures listing == [] <==> rows == []
  {
    if |rows| == 0 {
      return [];
    }
    listing := ListGroups(ByDifficulty(rows));
    ListingEmpty(ByDifficulty(rows));
  }
}
