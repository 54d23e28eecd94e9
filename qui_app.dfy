/**
 * The quiz state of the Tkinter application in scripts/qui_app.py.
 *
 * The window is left out; what remains is the object's fields and the
 * ask/check cycle that updates them. A button press is a method call:
 * `CheckAnswer(a)` is the press of the button showing `a`, and those buttons
 * exist only after AskQuestion has shown a question. The shuffle of the
 * answers is the code `code`; get_questions and login_user are the
 * parameters `rows` and `accepted`.
 */
module QuiApp {
  import opened PyValues
  import opened QuizData
  import TakeQuiz

  class QuizApp {
    var currentUser: Option<string>
    var questions: seq<Question>
    var rounds: nat
    var score: nat
    /** `current_question`; None before the first question is asked. */
    var currentQuestion: Option<Question>

    /** The invariant of the ask/check cycle: the score never passes the
        number of rounds, the rounds never pass the number of questions,
        and while questions remain the current one is the next to answer. */
    predicate Cycle()
      reads this
    {
      && score <= rounds <= |questions|
      && (rounds < |questions| ==> currentQuestion == Some(questions[rounds]))
    }

    /** `__init__` (scripts/qui_app.py:10-22). */
    constructor()
      ensures currentUser == None && questions == [] && rounds == 0 && score == 0
      ensures currentQuestion == None
    {
      currentUser := None;
      questions := [];
      rounds := 0;
      score := 0;
      currentQuestion := None;
    }

    /** `login` (scripts/qui_app.py:39-46): the user is recorded only when
        login_user accepted the credentials. */
    method Login(username: string, accepted: bool)
      modifies this
      ensures currentUser == if accepted then Some(username) else old(currentUser)
      ensures questions == old(questions) && rounds == old(rounds) && score == old(score)
      ensures currentQuestion == old(currentQuestion)
    {
      if accepted {
        currentUser := Some(username);
      }
    }

    /** `logout` (scripts/qui_app.py:143-145). */
    method Logout()
      modifies this
      ensures currentUser == None
      ensures questions == old(questions) && rounds == old(rounds) && score == old(score)
      ensures currentQuestion == old(currentQuestion)
    {
      currentUser := None;
    }

    /**
     * `ask_question` (scripts/qui_app.py:106-121): the quiz ends exactly when
     * the rounds have reached the number of questions; otherwise the next
     * question becomes the current one and its truthy entries at positions
     * 1..6 are shown, shuffled.
     */
    method AskQuestion(code: seq<nat>) returns (ended: bool, choices: seq<Cell>)
      modifies this
      ensures ended <==> rounds >= |questions|
      ensures ended ==> choices == [] && currentQuestion == old(currentQuestion)
      ensures !ended ==> && currentQuestion == Some(questions[rounds])
                         && choices == Shuffle(TakeQuiz.AllAnswers(questions[rounds]), code)
      ensures currentUser == old(currentUser) && questions == old(questions)
      ensures rounds == old(rounds) && score == old(score)
    {
      if rounds >= |questions| {
        return true, [];
      }
      var question := questions[rounds];
      currentQuestion := Some(question);
      var allAnswers := FilterTruthy(Slice(question.Row(), 1, 7));
      allAnswers := Shuffle(allAnswers, code);
      return false, allAnswers;
    }

    /**
     * `start_quiz` (scripts/qui_app.py:94-104): the fetched rows replace the
     * questions even when there are none; only a non-empty result resets
     * the counters and asks the first question.
     */
    method StartQuiz(rows: seq<Question>, code: seq<nat>) returns (started: bool, choices: seq<Cell>)
      modifies this
      ensures questions == rows && currentUser == old(currentUser)
      ensures started <==> rows != []
      ensures !started ==> && rounds == old(rounds) && score == old(score)
                           && currentQuestion == old(currentQuestion) && choices == []
      ensures started ==> && rounds == 0 && score == 0 && Cycle()
                          && currentQuestion == Some(rows[0])
                          && choices == Shuffle(TakeQuiz.AllAnswers(rows[0]), code)
    {
      questions := rows;
      if |questions| == 0 {
        return false, [];
      }
      rounds := 0;
      score := 0;
      var ended;
      ended, choices := AskQuestion(code);
      return true, choices;
    }

    /**
     * `check_answer` (scripts/qui_app.py:123-134): one point iff the
     * selection equals position 1 of the current row, one more round in
     * every case, then the next question. Pressing an answer button of a
     * shown question keeps the cycle invariant.
     */
    method CheckAnswer(selected: Cell, code: seq<nat>) returns (ended: bool, choices: seq<Cell>)
      requires currentQuestion.Some?
      modifies this
      ensures score == old(score) + if selected == old(currentQuestion).value.Row()[1] then 1 else 0
      ensures rounds == old(rounds) + 1
      ensures currentUser == old(currentUser) && questions == old(questions)
      ensures ended <==> rounds >= |questions|
      ensures ended ==> choices == [] && currentQuestion == old(currentQuestion)
      ensures !ended ==> && currentQuestion == Some(questions[rounds])
                         && choices == Shuffle(TakeQuiz.AllAnswers(questions[rounds]), code)
      ensures old(Cycle()) && old(rounds) < |questions| ==> Cycle()
    {
      var correctAnswer := currentQuestion.value.Row()[1];
      if selected == correctAnswer {
        score := score + 1;
      }
      rounds := rounds + 1;
      ended, choices := AskQuestion(code);
    }
  }

  /** The correct answer of a shown question is among its buttons exactly
      when it is non-empty, so pressing it scores. */
  lemma CorrectIsShown(q: Question, code: seq<nat>)
    ensures Text(q.correct) in Shuffle(TakeQuiz.AllAnswers(q), code) <==> q.correct != ""
    ensures q.Row()[1] == Text(q.correct)
  {
    ShuffleKeeps(TakeQuiz.AllAnswers(q), code, Text(q.correct));
    TakeQuiz.AllAnswersOffers(q);
  }

  /** Every shown choice is a truthy entry of the row at positions 1..6,
      so the difficulty (position 6) is shown whenever it is non-zero. */
  lemma ChoicesFromRow(q: Question, code: seq<nat>, c: Cell)
    ensures c in Shuffle(TakeQuiz.AllAnswers(q), code) <==> c in Slice(q.Row(), 1, 7) && Truthy(c)
  {
    ShuffleKeeps(TakeQuiz.AllAnswers(q), code, c);
    TakeQuiz.AllAnswersMembers(q, c);
  }
}
