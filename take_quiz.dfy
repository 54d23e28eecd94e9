/**
 * The console quiz of scripts/take_quiz.py: the menu of topics from
 * get_topics, the difficulty check, and the round loop that plays at most
 * ten distinct, well-formed questions of the shuffled list and counts the
 * correct answers.
 *
 * The keyboard is a parameter: `answer(r)` is what `int(input())` gave in
 * round `r` (None when it raised ValueError), `answerCode(r)` the choices
 * random.shuffle made for that round's answers.
 */
module TakeQuiz {
  import opened PyValues
  import opened QuizData
  import opened Topics

  /** validate_difficulty (scripts/take_quiz.py:4-10): only the exact
      strings "1", "2" and "3" are accepted. */
  function ValidateDifficulty(input: string): (r: Option<int>)
    ensures r.Some? <==> input in ["1", "2", "3"]
    ensures r.Some? ==> 1 <= r.value <= 3 && input == [('0' as int + r.value) as char]
  {
    if input == "1" then Some(1)
    else if input == "2" then Some(2)
    else if input == "3" then Some(3)
    else None
  }

  /** `list(filter(None, question[1:7]))`: the truthy columns after the
      question text, at most six of them. */
  function AllAnswers(q: Question): (r: seq<Cell>)
    ensures |r| <= 6
  {
    FilterTruthy(Slice(q.Row(), 1, 7))
  }

  /** An answer is offered exactly when it is a truthy column among 1..6. */
  lemma AllAnswersMembers(q: Question, c: Cell)
    ensures c in AllAnswers(q) <==> c in Slice(q.Row(), 1, 7) && Truthy(c)
  {
    FilterTruthyMembers(Slice(q.Row(), 1, 7), c);
  }

  /** The slice reaches the difficulty column: the correct answer is offered
      exactly when it is non-empty, and the difficulty exactly when it is
      non-zero. */
  lemma AllAnswersOffers(q: Question)
    ensures Text(q.correct) in AllAnswers(q) <==> q.correct != ""
    ensures Num(q.difficulty) in AllAnswers(q) <==> q.difficulty != 0
  {
    var row := q.Row();
    var columns := Slice(row, 1, 7);
    assert columns[0] == row[1] && columns[5] == row[6];
    AllAnswersMembers(q, Text(q.correct));
    AllAnswersMembers(q, Num(q.difficulty));
  }

  /** A question that the loop does not skip as malformed. */
  predicate Playable(q: Question) { |AllAnswers(q)| >= 2 }

  /**
   * The questions the loop plays, in order, when given `qs` with the texts
   * in `asked` already used: each well-formed question whose text has not
   * been played yet.
   */
  function Eligible(qs: seq<Question>, asked: set<string>): (r: seq<Question>)
    ensures |r| <= |qs|
  {
    if qs == [] then []
    else if qs[0].text in asked || !Playable(qs[0]) then Eligible(qs[1..], asked)
    else [qs[0]] + Eligible(qs[1..], asked + {qs[0].text})
  }

  /** A question played is well-formed, one of those given, and not asked before. */
  lemma {:induction false} EligibleMembers(qs: seq<Question>, asked: set<string>, q: Question)
    ensures q in Eligible(qs, asked) ==> q in qs && Playable(q) && q.text !in asked
  {
    if qs != [] {
      assert q in qs[1..] ==> q in qs;
      if qs[0].text in asked || !Playable(qs[0]) {
        EligibleMembers(qs[1..], asked, q);
      } else {
        EligibleMembers(qs[1..], asked + {qs[0].text}, q);
      }
    }
  }

  /** No two questions played have the same text. */
  lemma {:induction false} EligibleDistinct(qs: seq<Question>, asked: set<string>)
    ensures forall i, j :: 0 <= i < j < |Eligible(qs, asked)| ==> Eligible(qs, asked)[i].text != Eligible(qs, asked)[j].text
  {
    if qs != [] {
      if qs[0].text in asked || !Playable(qs[0]) {
        EligibleDistinct(qs[1..], asked);
      } else {
        var seen := asked + {qs[0].text};
        var rest := Eligible(qs[1..], seen);
        EligibleDistinct(qs[1..], seen);
        var r := Eligible(qs, asked);
        assert r == [qs[0]] + rest;
        forall i, j | 0 <= i < j < |r|
          ensures r[i].text != r[j].text
        {
          assert r[j] == rest[j - 1];
          if i == 0 {
            assert rest[j - 1] in rest;
            EligibleMembers(qs[1..], seen, rest[j - 1]);
          } else {
            assert r[i] == rest[i - 1];
          }
        }
      }
    }
  }

  /** No well-formed question is left out of Eligible except for having the
      text of one that is in it. */
  lemma {:induction false} EligibleComplete(qs: seq<Question>, asked: set<string>, q: Question)
    requires q in qs && Playable(q) && q.text !in asked
    ensures exists p :: p in Eligible(qs, asked) && p.text == q.text
  {
    if q != qs[0] {
      assert q in qs[1..];
    }
    if qs[0].text in asked || !Playable(qs[0]) {
      EligibleComplete(qs[1..], asked, q);
    } else if q.text != qs[0].text {
      EligibleComplete(qs[1..], asked + {qs[0].text}, q);
      var p :| p in Eligible(qs[1..], asked + {qs[0].text}) && p.text == q.text;
      assert p in Eligible(qs, asked);
    } else {
      assert qs[0] in Eligible(qs, asked);
    }
  }

  datatype Round = Round(question: Question, choices: seq<Cell>, answer: Option<int>, scored: bool)

  /** One round: the answers are shuffled, and the round scores when the
      number typed selects an answer equal to the correct one. */
  function PlayRound(q: Question, code: seq<nat>, answer: Option<int>): Round {
    var choices := Shuffle(AllAnswers(q), code);
    Round(q, choices, answer, SelectOneBased(choices, answer) == Some(Text(q.correct)))
  }

  /** What decides a round: the question asked, the order the shuffle gave
      its answers, and the number typed. */
  datatype Turn = Turn(question: Question, code: seq<nat>, answer: Option<int>)

  /** The round a turn plays. */
  function Play(t: Turn): Round {
    PlayRound(t.question, t.code, t.answer)
  }

  /** The number of turns in `log` whose round scored. */
  function Score(log: seq<Turn>): (r: nat)
    ensures r <= |log|
  {
    if log == [] then 0 else Score(log[..|log| - 1]) + if Play(log[|log| - 1]).scored then 1 else 0
  }

  /** A round scores exactly when the chosen answer is the correct text, and
      only a question with a non-empty correct answer can score. */
  lemma PlayRoundScores(q: Question, code: seq<nat>, answer: Option<int>)
    ensures PlayRound(q, code, answer).scored <==>
              answer.Some? && 1 <= answer.value <= |AllAnswers(q)|
              && Shuffle(AllAnswers(q), code)[answer.value - 1] == Text(q.correct)
    ensures PlayRound(q, code, answer).scored ==> q.correct != ""
  {
    var choices := Shuffle(AllAnswers(q), code);
    ShuffleKeeps(AllAnswers(q), code, Text(q.correct));
    AllAnswersOffers(q);
    if PlayRound(q, code, answer).scored {
      assert choices[answer.value - 1] in choices;
    }
  }

  /** Whatever the shuffle, a question with a non-empty correct answer has a
      number that scores. */
  lemma CorrectIsOffered(q: Question, code: seq<nat>) returns (n: int)
    requires q.correct != ""
    ensures PlayRound(q, code, Some(n)).scored
  {
    var choices := Shuffle(AllAnswers(q), code);
    ShuffleKeeps(AllAnswers(q), code, Text(q.correct));
    AllAnswersOffers(q);
    var k :| 0 <= k < |choices| && choices[k] == Text(q.correct);
    n := k + 1;
  }

  /** The difficulty column is one of the answers offered: a question of
      difficulty 2 with two wrong answers offers three answers plus `2`. */
  lemma DifficultyIsOffered(q: Question, code: seq<nat>)
    requires q.difficulty != 0
    ensures Num(q.difficulty) in PlayRound(q, code, None).choices
  {
    ShuffleKeeps(AllAnswers(q), code, Num(q.difficulty));
    AllAnswersOffers(q);
  }

  lemma EligibleStep(qs: seq<Question>, index: nat, asked: set<string>)
    requires index < |qs|
    ensures Eligible(qs[index..], asked) ==
              if qs[index].text in asked || !Playable(qs[index]) then Eligible(qs[index + 1..], asked)
              else [qs[index]] + Eligible(qs[index + 1..], asked + {qs[index].text})
  {
    assert qs[index..][0] == qs[index];
    assert qs[index..][1..] == qs[index + 1..];
  }

  /** One iteration of the loop in terms of what is still to be played:
      a skipped question leaves it as it is, a played one is its head. */
  lemma PlanAdvance(plan: seq<Question>, qs: seq<Question>, index: nat, asked: set<string>, n: nat)
    requires index < |qs| && n <= |plan| && plan[n..] == Eligible(qs[index..], asked)
    ensures qs[index].text in asked || !Playable(qs[index]) ==> plan[n..] == Eligible(qs[index + 1..], asked)
    ensures qs[index].text !in asked && Playable(qs[index]) ==>
              && n < |plan| && plan[n] == qs[index]
              && plan[n + 1..] == Eligible(qs[index + 1..], asked + {qs[index].text})
  {
    EligibleStep(qs, index, asked);
    if qs[index].text !in asked && Playable(qs[index]) {
      assert plan[n..][0] == plan[n];
      assert plan[n..][1..] == plan[n + 1..];
    }
  }

  /**
   * One round of the loop (scripts/take_quiz.py:62-88) after the checks:
   * the answers are shuffled, the number typed is read, and the round
   * scores when it is in range and selects an answer equal to the correct one.
   */
  method AskRound(question: Question, code: seq<nat>, typed: Option<int>) returns (round: Round)
    ensures round == PlayRound(question, code, typed)
  {
    var allAnswers := AllAnswers(question);
    allAnswers := Shuffle(allAnswers, code);
    var scored := false;
    if typed.Some? {
      var answerIndex := typed.value - 1;
      if 0 <= answerIndex < |allAnswers| && allAnswers[answerIndex] == Text(question.correct) {
        scored := true;
      }
    }
    round := Round(question, allAnswers, typed, scored);
  }

  /** The turns of the first `n` rounds played on `plan`. */
  function Played(plan: seq<Question>, answerCode: nat -> seq<nat>, answer: nat -> Option<int>, n: nat): (r: seq<Turn>)
    requires n <= |plan|
    ensures |r| == n
  {
    if n == 0 then [] else Played(plan, answerCode, answer, n - 1) + [Turn(plan[n - 1], answerCode(n - 1), answer(n - 1))]
  }

  /** Turn `i` of the log plays the `i`-th planned question with the `i`-th
      shuffle and answer. */
  lemma {:induction false} PlayedRounds(plan: seq<Question>, answerCode: nat -> seq<nat>, answer: nat -> Option<int>, n: nat)
    requires n <= |plan|
    ensures forall i :: 0 <= i < n ==> Played(plan, answerCode, answer, n)[i] == Turn(plan[i], answerCode(i), answer(i))
  {
    if n > 0 {
      PlayedRounds(plan, answerCode, answer, n - 1);
      var init := Played(plan, answerCode, answer, n - 1);
      assert forall i :: 0 <= i < n - 1 ==> Played(plan, answerCode, answer, n)[i] == init[i];
    }
  }

  lemma ScoreAppend(log: seq<Turn>, t: Turn)
    ensures Score(log + [t]) == Score(log) + if Play(t).scored then 1 else 0
  {
    assert (log + [t])[..|log|] == log;
  }

  /** One round asked, and its point added to the score
      (scripts/take_quiz.py:62-88). */
  method ScoreTurn(ghost log: seq<Turn>, score: nat, turn: Turn) returns (score': nat)
    requires score == Score(log)
    ensures score' == Score(log + [turn])
  {
    var round := AskRound(turn.question, turn.code, turn.answer);
    score' := score;
    if round.scored {
      score' := score' + 1;
    }
    ScoreAppend(log, turn);
  }

  /** When the loop stops, it has played min(10, number of eligible questions) rounds. */
  lemma RoundCount(n: nat, total: nat, eligible: nat, available: nat)
    requires total == Min(10, available) && n <= total && n <= eligible <= available
    requires n == total || n == eligible
    ensures n == Min(10, eligible)
  {
  }

  /**
   * The round loop of take_quiz (scripts/take_quiz.py:47-91) over the
   * shuffled question list: it plays the first min(10, len) of the eligible
   * questions (there may be fewer), in order, and the score is the number
   * of rounds that scored.
   */
  method PlayRounds(questions: seq<Question>, answerCode: nat -> seq<nat>, answer: nat -> Option<int>)
    returns (score: nat, rounds: nat, log: seq<Turn>)
    ensures rounds == Min(10, |Eligible(questions, {})|)
    ensures log == Played(Eligible(questions, {}), answerCode, answer, rounds)
    ensures score == Score(log) <= rounds
  {
    ghost var plan := Eligible(questions, {});
    var asked: set<string> := {};
    score, rounds, log := 0, 0, [];
    var totalRounds := Min(10, |questions|);
    var index := 0;
    while rounds < totalRounds && index < |questions|
      invariant index <= |questions|
      invariant rounds == |log| <= totalRounds && |log| <= |plan|
      invariant log == Played(plan, answerCode, answer, |log|)
      invariant plan[|log|..] == Eligible(questions[index..], asked)
      invariant score == Score(log)
      decreases |questions| - index
    {
      var question := questions[index];
      PlanAdvance(plan, questions, index, asked, rounds);
      index := index + 1;
      if question.text in asked {
        continue;
      }
      if |AllAnswers(question)| < 2 {
        continue;
      }
      var turn := Turn(question, answerCode(rounds), answer(rounds));
      score := ScoreTurn(log, score, turn);
      log := log + [turn];
      asked := asked + {question.text};
      rounds := rounds + 1;
    }
    if index == |questions| {
      assert questions[index..] == [];
    }
    RoundCount(|log|, totalRounds, |plan|, |questions|);
  }

  datatype Outcome =
    | NoTopics
    | InvalidTopic
    | InvalidDifficulty(topic: string)
    | NoQuestions(topic: string, difficulty: int)
    | Finished(topic: string, difficulty: int, score: nat, rounds: nat, log: seq<Turn>,
               saved: (string, string, nat))

  /**
   * take_quiz (scripts/take_quiz.py:13-94). `topicRows` are the stored topic
   * names, `bank(t)` the rows of table `t`, `topicChoice` the number typed for
   * the topic (None when int() raised ValueError), `difficultyInput` the text
   * typed for the difficulty and `shuffleCode` the order random.shuffle gave
   * the questions. A finished quiz saves (user, topic, score).
   */
  method TakeQuizFlow(user: string, topicRows: seq<string>, topicChoice: Option<int>, difficultyInput: string,
                      bank: string -> seq<Question>, shuffleCode: seq<nat>,
                      answerCode: nat -> seq<nat>, answer: nat -> Option<int>)
    returns (o: Outcome)
    ensures o.NoTopics? <==> topicRows == []
    ensures o.InvalidTopic? <==> topicRows != [] && SelectOneBased(Values(MappingOf(topicRows)), topicChoice).None?
    ensures !o.NoTopics? && !o.InvalidTopic? ==> o.topic == SelectOneBased(Values(MappingOf(topicRows)), topicChoice).value
    ensures o.InvalidDifficulty? ==> ValidateDifficulty(difficultyInput).None?
    ensures o.NoQuestions? || o.Finished? ==> Some(o.difficulty) == ValidateDifficulty(difficultyInput)
    ensures o.NoQuestions? ==> GetQuestions(bank(TableName(o.topic)), Some(o.difficulty)) == []
    ensures o.Finished? ==>
              var qs := Shuffle(GetQuestions(bank(TableName(o.topic)), Some(o.difficulty)), shuffleCode);
              && qs != []
              && o.rounds == |o.log| == Min(10, |Eligible(qs, {})|)
              && o.log == Played(Eligible(qs, {}), answerCode, answer, o.rounds)
              && o.score == Score(o.log)
              && o.saved == (user, o.topic, o.score)
  {
    var topicMapping := GetTopics(topicRows);
    GetTopicsEmpty(topicRows);
    if |topicMapping| == 0 {
      return NoTopics;
    }
    var values := Values(topicMapping);
    if topicChoice.None? || topicChoice.value - 1 < 0 || topicChoice.value - 1 >= |topicMapping| {
      return InvalidTopic;
    }
    var topic := values[topicChoice.value - 1];
    var difficultyLevel := ValidateDifficulty(difficultyInput);
    if difficultyLevel.None? {
      return InvalidDifficulty(topic);
    }
    var questions := GetQuestions(bank(TableName(topic)), difficultyLevel);
    if |questions| == 0 {
      return NoQuestions(topic, difficultyLevel.value);
    }
    questions := Shuffle(questions, shuffleCode);
    var score, rounds, log := PlayRounds(questions, answerCode, answer);
    return Finished(topic, difficultyLevel.value, score, rounds, log, (user, topic, score));
  }
}
