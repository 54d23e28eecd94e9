/**
 * The console quiz of scripts/quiz_application.py: topic selection by a
 * 1-based number, the difficulty that defaults to 1, the scoring loop
 * over the fetched five-column rows, and the score recorded under the
 * name typed at the end. The same scoring loop is the one of quiz.py.
 *
 * The keyboard is a parameter: `answer(i)` is what `int(input())` gave
 * for question `i` (None when it raised ValueError) and `optionCode(i)`
 * the order random.shuffle gave its options.
 */
module QuizApplication {
  import opened PyValues
  import opened QuizData

  /** The difficulty `start_quiz` settles on (scripts/quiz_application.py:133-142):
      the number typed when it is 1, 2 or 3, and 1 otherwise, including
      when int() raised ValueError (None). */
  function Difficulty(typed: Option<int>): (d: int)
    ensures d in {1, 2, 3}
    ensures typed.Some? && typed.value in {1, 2, 3} ==> d == typed.value
    ensures typed.None? || typed.value !in {1, 2, 3} ==> d == 1
  {
    if typed.Some? && typed.value in {1, 2, 3} then typed.value else 1
  }

  /** Whether question `q` scores: the number typed selects, among the
      shuffled options, one equal to the correct answer. */
  predicate Scores(q: Fetched, code: seq<nat>, typed: Option<int>) {
    typed.Some? && 1 <= typed.value <= |Options(q)| && Shuffle(Options(q), code)[typed.value - 1] == q.correct
  }

  /** For each question, whether it scores. */
  function Hits(qs: seq<Fetched>, optionCode: nat -> seq<nat>, answer: nat -> Option<int>): (r: seq<bool>)
    ensures |r| == |qs|
    ensures forall i :: 0 <= i < |qs| ==> r[i] == Scores(qs[i], optionCode(i), answer(i))
  {
    seq(|qs|, i requires 0 <= i < |qs| => Scores(qs[i], optionCode(i), answer(i)))
  }

  /** How many of the first `n` flags are set. */
  function Count(hits: seq<bool>, n: nat): (r: nat)
    requires n <= |hits|
    ensures r <= n
  {
    if n == 0 then 0 else Count(hits, n - 1) + if hits[n - 1] then 1 else 0
  }

  /** The number of the first `n` questions that score. */
  function Correct(qs: seq<Fetched>, optionCode: nat -> seq<nat>, answer: nat -> Option<int>, n: nat): (r: nat)
    requires n <= |qs|
    ensures r <= n
  {
    Count(Hits(qs, optionCode, answer), n)
  }

  /**
   * The scoring loop (scripts/quiz_application.py:160-181, and
   * quiz.py:112-130): every fetched row is asked once, in order; its
   * options are the correct answer and the non-empty wrong answers,
   * shuffled; a point is awarded when the typed number is in range and
   * selects an option equal to the correct answer.
   */
  method ScoreQuestions(questions: seq<Fetched>, optionCode: nat -> seq<nat>, answer: nat -> Option<int>)
    returns (score: nat)
    ensures score == Correct(questions, optionCode, answer, |questions|)
    ensures score <= |questions|
  {
    score := 0;
    for i := 0 to |questions|
      invariant score == Correct(questions, optionCode, answer, i)
    {
      var q := questions[i];
      var options := Options(q);
      options := Shuffle(options, optionCode(i));
      var typed := answer(i);
      if typed.Some? {
        var userAnswer := typed.value - 1;
        if 0 <= userAnswer < |options| && options[userAnswer] == q.correct {
          score := score + 1;
        }
      }
    }
  }

  /** The correct answer is among the options whatever the shuffle, so
      some number always scores. */
  lemma CorrectIsOffered(q: Fetched, code: seq<nat>) returns (n: int)
    ensures Scores(q, code, Some(n))
  {
    var options := Shuffle(Options(q), code);
    ShuffleKeeps(Options(q), code, q.correct);
    var k :| 0 <= k < |options| && options[k] == q.correct;
    n := k + 1;
  }

  /** A value that occurs at least twice in a sequence sits at two positions. */
  lemma {:induction false} TwoPositions<T>(s: seq<T>, x: T) returns (i: nat, j: nat)
    requires multiset(s)[x] >= 2
    ensures i < j < |s| && s[i] == x && s[j] == x
  {
    assert s == [s[0]] + s[1..];
    assert multiset(s) == multiset([s[0]]) + multiset(s[1..]);
    if s[0] == x {
      assert x in multiset(s[1..]);
      var k :| 0 <= k < |s[1..]| && s[1..][k] == x;
      i, j := 0, k + 1;
    } else {
      var a, b := TwoPositions(s[1..], x);
      i, j := a + 1, b + 1;
    }
  }

  /** A wrong answer with the same text as the correct one scores too:
      whatever the shuffle, two different numbers then score. */
  lemma DuplicateOptionScores(q: Fetched, code: seq<nat>) returns (n1: int, n2: int)
    requires q.correct in q.wrong && Truthy(q.correct)
    ensures n1 != n2 && Scores(q, code, Some(n1)) && Scores(q, code, Some(n2))
  {
    var options := Options(q);
    OptionsMembers(q, q.correct);
    assert options == [q.correct] + options[1..];
    assert multiset(options) == multiset([q.correct]) + multiset(options[1..]);
    assert multiset(options)[q.correct] >= 2;
    ShufflePermutes(options, code);
    var i, j := TwoPositions(Shuffle(options, code), q.correct);
    n1, n2 := i + 1, j + 1;
  }

  /** For each question, whether `int(input())` raised ValueError. */
  function NonNumeric(qs: seq<Fetched>, answer: nat -> Option<int>): (r: seq<bool>)
    ensures |r| == |qs|
    ensures forall i :: 0 <= i < |qs| ==> r[i] == answer(i).None?
  {
    seq(|qs|, i requires 0 <= i < |qs| => answer(i).None?)
  }

  /** Two sets of flags that are never set together count at most `n`. */
  lemma {:induction false} CountDisjoint(a: seq<bool>, b: seq<bool>, n: nat)
    requires n <= |a| && n <= |b|
    requires forall i :: 0 <= i < n ==> !(a[i] && b[i])
    ensures Count(a, n) + Count(b, n) <= n
  {
    if n > 0 {
      CountDisjoint(a, b, n - 1);
    }
  }

  /** Non-numeric input never scores, and the loop goes on: over the whole
      quiz, the score and the number of non-numeric answers together are
      at most the number of questions. */
  lemma {:induction false} InvalidInputScoresNothing(qs: seq<Fetched>, optionCode: nat -> seq<nat>, answer: nat -> Option<int>, n: nat)
    requires n <= |qs|
    ensures Correct(qs, optionCode, answer, n) + Count(NonNumeric(qs, answer), n) <= n
  {
    CountDisjoint(Hits(qs, optionCode, answer), NonNumeric(qs, answer), n);
  }

  lemma {:induction false} CountAll(hits: seq<bool>, n: nat)
    requires n <= |hits|
    requires forall i :: 0 <= i < n ==> hits[i]
    ensures Count(hits, n) == n
  {
    if n > 0 {
      CountAll(hits, n - 1);
    }
  }

  lemma {:induction false} CountNone(hits: seq<bool>, n: nat)
    requires n <= |hits|
    requires forall i :: 0 <= i < n ==> !hits[i]
    ensures Count(hits, n) == 0
  {
    if n > 0 {
      CountNone(hits, n - 1);
    }
  }

  /** Answering every question correctly scores one per question. */
  lemma AllCorrect(qs: seq<Fetched>, optionCode: nat -> seq<nat>, answer: nat -> Option<int>, n: nat)
    requires n <= |qs|
    requires forall i :: 0 <= i < n ==> Scores(qs[i], optionCode(i), answer(i))
    ensures Correct(qs, optionCode, answer, n) == n
  {
    CountAll(Hits(qs, optionCode, answer), n);
  }

  /** Answering no question with a number scores nothing. */
  lemma NoneNumeric(qs: seq<Fetched>, optionCode: nat -> seq<nat>, answer: nat -> Option<int>, n: nat)
    requires n <= |qs|
    requires forall i :: 0 <= i < n ==> answer(i).None?
    ensures Correct(qs, optionCode, answer, n) == 0
  {
    CountNone(Hits(qs, optionCode, answer), n);
  }

  datatype Outcome =
    | NoTopics
    | InvalidTopic
    | NoQuestions(topic: string, difficulty: int)
    | Recorded(topic: string, difficulty: int, score: nat, asked: nat, saved: (string, nat))

  /**
   * take_quiz and start_quiz (scripts/quiz_application.py:104-189). `topics`
   * is what get_topics returned, `topicChoice` and `difficultyTyped` the
   * numbers typed (None for ValueError), `fetch(t, d)` the rows the query
   * returns for topic `t` at difficulty `d`, and `username` the name typed
   * at the end, under which the score is inserted.
   */
  method TakeQuizFlow(topics: seq<string>, topicChoice: Option<int>, difficultyTyped: Option<int>,
                      fetch: (string, int) -> seq<Fetched>,
                      optionCode: nat -> seq<nat>, answer: nat -> Option<int>, username: string)
    returns (o: Outcome)
    ensures o.NoTopics? <==> topics == []
    ensures o.InvalidTopic? <==> topics != [] && SelectOneBased(topics, topicChoice).None?
    ensures o.NoQuestions? || o.Recorded? ==>
              && SelectOneBased(topics, topicChoice) == Some(o.topic)
              && o.difficulty == Difficulty(difficultyTyped)
    ensures o.NoQuestions? <==> (topics != [] && SelectOneBased(topics, topicChoice).Some?
                                 && fetch(topics[topicChoice.value - 1], Difficulty(difficultyTyped)) == [])
    ensures o.Recorded? ==>
              var qs := fetch(o.topic, o.difficulty);
              && o.asked == |qs| > 0
              && o.score == Correct(qs, optionCode, answer, |qs|) <= o.asked
              && o.saved == (username, o.score)
  {
    if |topics| == 0 {
      return NoTopics;
    }
    if topicChoice.None? {
      return InvalidTopic;
    }
    var choice := topicChoice.value - 1;
    if !(0 <= choice < |topics|) {
      return InvalidTopic;
    }
    var topic := topics[choice];
    var difficulty;
    if difficultyTyped.None? {
      difficulty := 1;
    } else {
      difficulty := difficultyTyped.value;
      if difficulty !in [1, 2, 3] {
        difficulty := 1;
      }
    }
    var questions := fetch(topic, difficulty);
    if |questions| == 0 {
      return NoQuestions(topic, difficulty);
    }
    var score := ScoreQuestions(questions, optionCode, answer);
    return Recorded(topic, difficulty, score, |questions|, (username, score));
  }
}
