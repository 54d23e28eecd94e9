/**
 * The console quiz of quiz.py: topic selection by a 1-based number and the
 * scoring loop over the fetched rows, with no difficulty level and no score
 * recorded. The loop is the one of scripts/quiz_application.py, so
 * QuizApplication.ScoreQuestions models both.
 *
 * `topics` is what get_topics returned, `topicChoice` what
 * `int(input())` gave (None when it raised ValueError), `fetch(t)` the
 * rows the query of start_quiz returns for topic `t`.
 */
module ConsoleQuiz {
  import opened PyValues
  import opened QuizData
  import QuizApplication

  datatype Outcome =
    | NoTopics
    | InvalidTopic
    | NoQuestions(topic: string)
    | Finished(topic: string, score: nat, total: nat)

  /** take_quiz and start_quiz (quiz.py:62-132). */
  method TakeQuizFlow(topics: seq<string>, topicChoice: Option<int>, fetch: string -> seq<Fetched>,
                      optionCode: nat -> seq<nat>, answer: nat -> Option<int>)
    returns (o: Outcome)
    ensures o.NoTopics? <==> topics == []
    ensures o.InvalidTopic? <==> topics != [] && SelectOneBased(topics, topicChoice).None?
    ensures o.NoQuestions? || o.Finished? ==> SelectOneBased(topics, topicChoice) == Some(o.topic)
    ensures o.NoQuestions? <==> (topics != [] && SelectOneBased(topics, topicChoice).Some?
                                 && fetch(topics[topicChoice.value - 1]) == [])
    ensures o.Finished? ==>
              var qs := fetch(o.topic);
              && o.total == |qs| > 0
              && o.score == QuizApplication.Correct(qs, optionCode, answer, |qs|) <= o.total
  {
    if |topics| == 0 {
      return NoTopics;
    }
    if topicChoice.None? {
      return InvalidTopic;
    }
    var choice := topicChoice.value - 1;
    if !(0 <= choice < |topics|) {
      return InvalidTopic;
    }
    var topic := topics[choice];
    var questions := fetch(topic);
    if |questions| == 0 {
      return NoQuestions(topic);
    }
    var score := QuizApplication.ScoreQuestions(questions, optionCode, answer);
    return Finished(topic, score, |questions|);
  }
}
