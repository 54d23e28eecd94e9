# Quiz application: a Dafny model of its quiz logic

The repository is a Python quiz application over a PostgreSQL database. It
has three consoles (`quiz.py`, `scripts/take_quiz.py` and
`scripts/quiz_application.py`), two Tkinter windows (`scripts/qui_app.py`
and `scripts/animated_gui_new.py`), the menu actions of
`scripts/quiz_functions.py`, the catalogue helpers of
`scripts/questions.py` and the JSON loader `scripts/load_question.py`.
This project models the logic under them:

- the round loops, which shuffle the answers, compare the choice with the
  correct answer, and count score and rounds;
- the topic-name normalisations and the display mapping of `get_topics`;
- the validators, and the lists they pad in place;
- menu selection by number;
- the two-column split and the grouping by difficulty.

Every variant has a module of its own, modelled as written, with two
exceptions, both listed under "## Left out". `quiz.py` is modelled as its
author intended, because as written its queries fail before a quiz
starts. The `main` menu of `scripts/quiz_application.py` calls its
`take_quiz` with a missing argument, so `take_quiz` is modelled as if
called correctly. The scoring loop of `quiz.py` has the same text as the
one in `scripts/quiz_application.py:162-179`, so both use the one model of
that loop.

Layout, one module per source file:

| module | file | form |
|---|---|---|
| `PyValues` | shared | Python values as the scripts see them: cells of a row, truthiness, clamped slices, negative indexing, 1-based menu choice, `enumerate`, `random.shuffle` driven by a code, and a list appended to in place (`PyList`) |
| `PyStrings` | shared | `strip`, `lower`, `replace`, `title`, `capitalize` over ASCII |
| `QuizData` | shared | the 7-column row of `get_questions` (`Question`) and the 5-column rows of the consoles (`Fetched`) |
| `Topics` | `scripts/questions.py` | functions and lemmas for the names; methods with loops for `get_topics`, `validate_question_data` and `add_hardcoded_questions` |
| `TakeQuiz` | `scripts/take_quiz.py` | the `while` loop as a method, proved against `Eligible`, `PlayRound` and `Score` |
| `QuizApplication` | `scripts/quiz_application.py` | the `for` loop as a method, proved against `Correct` |
| `ConsoleQuiz` | `quiz.py` | the same scoring loop, with its own topic selection |
| `QuiApp` | `scripts/qui_app.py` | class `QuizApp` with its fields and the ask/check cycle |
| `AnimatedGui` | `scripts/animated_gui_new.py` | class `AnimatedQuizApp`, plus the form and listing logic |
| `Grouping` | shared | the dictionary that groups rows by a key, listed in ascending key order |
| `QuizFunctions` | `scripts/quiz_functions.py` | the menu actions |
| `LoadQuestion` | `scripts/load_question.py` | the padding loop and the rows inserted |

Some functions are plain definitions of Python built-ins and carry no
row of their own: `Slice` is `s[lo:hi]`, `Enumerate` is `enumerate`,
`Keys` is `keys()` of a dictionary kept as its pairs (the topic mapping
and the difficulty groups alike), `Values` is `values()` of the topic
mapping, `Entries` lists the assignments of the `get_topics` loop, and
`Tag` pairs the tuples of `add_hardcoded_questions` with their topic. The
lemmas about them have rows.

How the outside world enters the model:

- **Randomness.** `random.shuffle` is `Shuffle(s, code)`: each entry of the
  code picks the next element among those left. `ShufflePermutes` proves
  that every code gives a permutation, and `ShuffleReaches` that every
  permutation comes from some code.
- **Keyboard input.** `int(input())` is a parameter of type `Option<int>`,
  which is `None` where it raised ValueError. A text line is a parameter of
  type `string`. Per-round input is a function of the round number.
- **Database.** Database reads are parameters: the stored topic names, the
  rows of a table, and the `bool` that `login_user` or `register_user`
  returned.
- **Button presses.** A button press in the windows is a method call.

## Model

| member | source | states |
|---|---|---|
| PyValues.FilterTruthy | scripts/take_quiz.py:62 | `filter(None, …)` never gives more elements than the input |
| PyValues.FilterTruthyMembers | scripts/take_quiz.py:62 | `filter(None, …)` keeps exactly the truthy elements |
| PyValues.PyIndex | scripts/quiz_functions.py:106 | indexing is defined exactly for `-len .. len-1`; negative indices count from the end, anything else is IndexError |
| PyValues.SelectOneBased | scripts/quiz_application.py:114-121 | a typed number `n` selects `s[n-1]` exactly when it is an integer in `1..len` |
| PyValues.Shuffle | scripts/take_quiz.py:52 | a shuffle keeps the length |
| PyValues.ShufflePermutes | scripts/take_quiz.py:70 | every shuffle is a permutation (same multiset) |
| PyValues.ShuffleKeeps | scripts/take_quiz.py:70 | an element is present after shuffling exactly when it was before |
| PyValues.ShuffleReaches | scripts/take_quiz.py:52 | every permutation of the list is the result of some shuffle, so the model rules out no outcome of `random.shuffle` |
| PyValues.PyList.Append | scripts/load_question.py:43 | `list.append` adds the element at the end and changes nothing else |
| PyStrings.StripLeftShape | scripts/questions.py:63 | `lstrip()` gives the longest suffix not starting with whitespace, and only whitespace is removed |
| PyStrings.StripRightShape | scripts/questions.py:63 | `rstrip()` gives the longest prefix not ending with whitespace, and only whitespace is removed |
| PyStrings.StripShape | scripts/questions.py:63 | `strip()` keeps a contiguous part of the string and removes only whitespace around it |
| PyStrings.StripEnds | scripts/questions.py:120 | a stripped name has no whitespace at either end |
| PyStrings.StripTrimmed | scripts/questions.py:120 | strip leaves a name without edge whitespace unchanged |
| PyStrings.StripEmpty | scripts/animated_gui_new.py:1307 | `strip()` is empty exactly for all-whitespace input |
| PyStrings.LowerFixed | scripts/questions.py:120 | `lower()` leaves a name without capitals unchanged |
| PyStrings.ReplaceFixed | scripts/questions.py:120 | replacing an absent character changes nothing |
| PyStrings.LowerSpace | scripts/questions.py:73 | `lower()` neither creates nor removes whitespace |
| PyStrings.LowerTitle | scripts/questions.py:64 | lower-casing a title-cased name is the same as lower-casing it |
| PyStrings.TitleOfLower | scripts/questions.py:64 | `title()` ignores the case of its input |
| QuizData.Question.Row | scripts/questions.py:166-167 | the row has seven columns: text at 0, correct answer at 1, difficulty at 6 |
| QuizData.Options | scripts/quiz_application.py:163 | the options start with the correct answer |
| QuizData.OptionsMembers | scripts/quiz_application.py:163 | after the correct answer come exactly the truthy wrong answers |
| Topics.RawName | scripts/questions.py:63 | the raw name of a stored topic has no capital and no whitespace at either end, and is no longer than the stored name |
| Topics.DisplayName | scripts/questions.py:64 | the display name has the raw name's length and no underscore; apart from letter case, it is the raw name with each underscore read as a space |
| Topics.Normalise | scripts/questions.py:120 | the `add_topic` normalisation gives a lower-case name with no space and no edge whitespace, no longer than its input |
| Topics.TableName | scripts/questions.py:160 | the table name of `get_questions` keeps the length and has no space and no capital; every other character is the topic's, lower-cased |
| Topics.NormalisedFixed | scripts/questions.py:160 | such a name is a fixed point of the `add_topic`, `get_topics` and `get_questions` normalisations |
| Topics.NormaliseIdempotent | scripts/questions.py:207 | normalising twice is normalising once |
| Topics.StoredNameRoundTrip | scripts/questions.py:61-65 | a name stored by `add_topic` comes back from `get_topics` as the same raw name, and `get_questions` reads the table `add_topic` created |
| Topics.TableNameKeepsEdgeSpaces | scripts/questions.py:160 | `get_questions` does not strip: `" art"` reads table `_art`, while `add_topic` stores `art` |
| Topics.Put | scripts/questions.py:65 | dictionary assignment: the key maps to the new value, every other key keeps its value, and the size grows only for a new key |
| Topics.PutDistinct | scripts/questions.py:65 | assignment keeps the keys distinct |
| Topics.KeysListed | scripts/quiz_functions.py:106 | a display name is in `list(m.keys())` exactly when the dictionary has an entry for it |
| Topics.ValuesLookup | scripts/take_quiz.py:32 | with distinct keys, the i-th entry of `values()` is what the dictionary holds for the i-th entry of `keys()` |
| Topics.LastIndex | scripts/questions.py:62-65 | finds the last row assigning a key, or reports that none does |
| Topics.FoldLookup | scripts/questions.py:62-65 | after the loop each key holds the value of the LAST assignment to it |
| Topics.FoldShape | scripts/questions.py:62-65 | the dictionary has distinct keys, at most one entry per row, and only assigned pairs |
| Topics.GetTopics | scripts/questions.py:61-65 | the loop of `get_topics` builds exactly the dictionary of its rows |
| Topics.GetTopicsLookup | scripts/questions.py:62-65 | a display name maps to the raw name of the last row with that display name, and is absent when no row has it |
| Topics.GetTopicsEmpty | scripts/questions.py:53-67 | the mapping is empty exactly when there are no stored topics |
| Topics.GetTopicsShape | scripts/questions.py:61-65 | at most as many entries as rows; every key is the display name of its value, and every value is the raw name of a stored row |
| Topics.AddTopic | scripts/questions.py:118-133 | the normalised name is inserted exactly when absent; otherwise the catalogue is unchanged |
| Topics.AddTopicTwice | scripts/questions.py:126-133 | adding the same name again inserts nothing |
| Topics.AddedTopicIsListed | scripts/questions.py:118-133 | after `add_topic`, `get_topics` lists the topic, and the raw name it lists under that display name, whichever stored row it came from, reads the table `add_topic` created |
| Topics.SameDisplaySameTable | scripts/questions.py:61-65 | two raw names with the same display name differ only in `_` against space, so a second stored spelling of a topic reads the same table as its normalised name |
| Topics.DeleteTopicFromDb | scripts/questions.py:70-93 | with the stripped, lower-cased argument as key (no space conversion): every name lower-casing to the key is deleted; the table dropped has underscores; if no name matches, nothing changes |
| Topics.DisplayNameMissesUnderscores | scripts/quiz_functions.py:106-110 | deleting through the display name never deletes a stored name that contains an underscore |
| Topics.GeneralKnowledgeNotDeleted | scripts/quiz_functions.py:106-110 | concretely, `general_knowledge` is listed with a space in place of its underscore, and deleting it by that display name deletes nothing |
| Topics.DisplayRoundTrip | scripts/questions.py:63-64 | for a normalised raw name without edge underscores, normalising its display name gives it back |
| Topics.DeleteTopicNormalised | scripts/questions.py:70-93 | the corrected delete: the key is normalised as `add_topic` stores names |
| Topics.DeleteByDisplayRemoves | scripts/quiz_functions.py:106-110 | with the corrected delete, deleting a topic through its display name removes it and drops its table |
| Topics.NormalisedKeyRemoves | scripts/questions.py:73-87 | with the corrected key, a stored name equal to the key is deleted and its table dropped |
| Topics.GetQuestions | scripts/questions.py:157-184 | with a truthy difficulty, exactly the table's rows of that difficulty; with a falsy one, every row, as fetched |
| Topics.GetQuestionsCounts | scripts/questions.py:165-179 | each row of the difficulty comes back as often as the table holds it, duplicates included; rows of another difficulty not at all |
| Topics.AddQuestions | scripts/questions.py:205-235 | the normalised table is created first; a row is inserted exactly when there are at least four wrong answers, and it holds the first four |
| Topics.ValidateQuestionData | scripts/questions.py:188-202 | fewer than five: rejected, list untouched; five: padded with `''` to six and rejected; more than six: the unpack fails; six: accepted exactly when all are non-empty and the first three are ≤ 255 characters |
| Topics.SevensMembers | scripts/questions.py:404-410 | the filter keeps exactly the tuples of length seven (or exactly the others) |
| Topics.SevensAppend | scripts/questions.py:402-410 | the filter distributes over concatenation |
| Topics.SevensSplit | scripts/questions.py:402-410 | inserted and reported tuples together are all the data |
| Topics.InsertTopicQuestions | scripts/questions.py:404-410 | the inner loop inserts exactly one topic's seven-tuples and reports the others, in order |
| Topics.AddHardcodedQuestions | scripts/questions.py:397-410 | one table per topic; exactly the seven-tuples are inserted and every other tuple is reported, in order |
| TakeQuiz.ValidateDifficulty | scripts/take_quiz.py:4-10 | a level is returned exactly for "1", "2", "3", and it is that digit's value |
| TakeQuiz.AllAnswers | scripts/take_quiz.py:62 | at most six answers are offered |
| TakeQuiz.AllAnswersMembers | scripts/take_quiz.py:62 | the answers offered are exactly the truthy columns 1..6 |
| TakeQuiz.AllAnswersOffers | scripts/take_quiz.py:62 | the correct answer is offered exactly when non-empty, and the difficulty exactly when non-zero |
| TakeQuiz.Eligible | scripts/take_quiz.py:55-66 | the loop never plays more questions than it is given |
| TakeQuiz.EligibleMembers | scripts/take_quiz.py:55-66 | a question played is one of those given, well-formed and not asked before |
| TakeQuiz.EligibleDistinct | scripts/take_quiz.py:59-90 | no two questions played have the same text |
| TakeQuiz.EligibleComplete | scripts/take_quiz.py:59-66 | a well-formed, unasked question is skipped only when another of the same text is played |
| TakeQuiz.EligibleStep | scripts/take_quiz.py:56-66 | one iteration either skips the question or plays it and records its text |
| TakeQuiz.PlanAdvance | scripts/take_quiz.py:56-66 | after one iteration the questions still to be played are unchanged when it skipped, and lose their head, the question played, otherwise |
| TakeQuiz.Score | scripts/take_quiz.py:82 | the score of a log is at most its number of turns |
| TakeQuiz.PlayRoundScores | scripts/take_quiz.py:75-88 | a round scores exactly when the typed number is in range and picks the correct text; only a non-empty correct answer can score |
| TakeQuiz.CorrectIsOffered | scripts/take_quiz.py:70-82 | whatever the shuffle, a question with a non-empty correct answer has a number that scores |
| TakeQuiz.DifficultyIsOffered | scripts/take_quiz.py:62 | the `[1:7]` slice includes the difficulty, which is offered as an answer when non-zero |
| TakeQuiz.AskRound | scripts/take_quiz.py:62-88 | one round's choices and score are those of `PlayRound` |
| TakeQuiz.Played | scripts/take_quiz.py:62-91 | the log of the first n rounds has n turns |
| TakeQuiz.PlayedRounds | scripts/take_quiz.py:62-91 | turn i of the log plays the i-th planned question with the i-th shuffle and answer |
| TakeQuiz.ScoreAppend | scripts/take_quiz.py:82 | a round adds one point exactly when it scored |
| TakeQuiz.ScoreTurn | scripts/take_quiz.py:62-88 | asking one round adds its point to the score the log so far has |
| TakeQuiz.PlayRounds | scripts/take_quiz.py:47-91 | the loop plays `min(10, eligible)` rounds, on the eligible questions in order; its log is `Played` of them and the score counts the scoring rounds, at most the number of rounds |
| TakeQuiz.TakeQuizFlow | scripts/take_quiz.py:13-94 | no topics or a bad topic number end without a score; a bad difficulty or no questions end too; otherwise the shuffled questions are played and (user, topic, score) is saved |
| QuizApplication.Difficulty | scripts/quiz_application.py:133-142 | 1, 2 or 3 are kept; any other integer or non-numeric input gives 1 |
| QuizApplication.Correct | scripts/quiz_application.py:160-181 | the count of scoring questions is at most the number counted |
| QuizApplication.ScoreQuestions | scripts/quiz_application.py:160-181 | the loop's score is the number of questions whose typed number selects an option equal to the correct answer, ≤ the number of questions |
| QuizApplication.CorrectIsOffered | scripts/quiz_application.py:163-164 | the correct answer survives the shuffle, so some number always scores |
| QuizApplication.DuplicateOptionScores | scripts/quiz_application.py:163-175 | when a non-empty wrong answer repeats the correct text, two different numbers score, whatever the shuffle |
| QuizApplication.InvalidInputScoresNothing | scripts/quiz_application.py:160-181 | over the whole quiz, the score plus the number of non-numeric answers is at most the number of questions: a non-numeric answer never scores, and the loop goes on |
| QuizApplication.AllCorrect | scripts/quiz_application.py:160-181 | answering every question correctly scores one per question |
| QuizApplication.NoneNumeric | scripts/quiz_application.py:178-179 | answering no question with a number scores nothing |
| QuizApplication.TakeQuizFlow | scripts/quiz_application.py:104-189 | no topics or an out-of-range or non-integer choice start no quiz; no rows returns before recording; otherwise every row is asked, and the score (≤ rows) is recorded under the name typed |
| ConsoleQuiz.TakeQuizFlow | quiz.py:62-132 | the same selection rules; with rows, the final score is the scoring count, ≤ the number of rows |
| QuiApp.QuizApp.constructor | scripts/qui_app.py:10-22 | no user, no questions, zero counters, no current question |
| QuiApp.QuizApp.Login | scripts/qui_app.py:39-46 | the user is set only when `login_user` accepted, and nothing else changes |
| QuiApp.QuizApp.Logout | scripts/qui_app.py:143-145 | the user becomes None, and nothing else changes |
| QuiApp.QuizApp.AskQuestion | scripts/qui_app.py:106-121 | the quiz ends exactly when rounds ≥ questions; otherwise the next row becomes current and its shuffled truthy columns 1..6 are shown |
| QuiApp.QuizApp.StartQuiz | scripts/qui_app.py:94-104 | the rows replace the questions even when empty; an empty result keeps the counters; otherwise score = rounds = 0, the cycle invariant holds, and the first question is asked |
| QuiApp.QuizApp.CheckAnswer | scripts/qui_app.py:123-134 | one point exactly when the selection equals column 1 of the current row, one more round always, then the next question; the invariant score ≤ rounds ≤ questions is kept |
| QuiApp.CorrectIsShown | scripts/qui_app.py:115-116 | the correct answer is among the buttons exactly when it is non-empty |
| QuiApp.ChoicesFromRow | scripts/qui_app.py:115-116 | the buttons show exactly the truthy columns 1..6 |
| Grouping.KeysOf | scripts/animated_gui_new.py:1882-1887 | the dictionary's keys are exactly the keys that occur |
| Grouping.GroupMembers | scripts/animated_gui_new.py:1883-1887 | a value is in a key's group exactly when the pair occurs |
| Grouping.GroupEmpty | scripts/animated_gui_new.py:1885-1886 | a group is empty exactly when its key does not occur |
| Grouping.GroupBy | scripts/animated_gui_new.py:1882-1887 | the loop gives each occurring key the list of its values in original order, and has no other keys |
| Grouping.Insert | scripts/animated_gui_new.py:1890 | inserting a key lengthens the key list by at most one |
| Grouping.InsertMembers | scripts/animated_gui_new.py:1890 | inserting adds exactly the key |
| Grouping.InsertIncreasing | scripts/animated_gui_new.py:1890 | inserting into an ascending key list keeps it ascending |
| Grouping.Sorted | scripts/animated_gui_new.py:1890 | `sorted(keys)` has no more entries than the keys |
| Grouping.SortedShape | scripts/animated_gui_new.py:1890 | `sorted(keys)` is strictly ascending with the same members |
| Grouping.SortedKeysShape | scripts/animated_gui_new.py:1890 | the listed keys ascend strictly and are exactly the occurring keys |
| Grouping.ListGroups | scripts/quiz_functions.py:230-239 | the dictionary filled by the loop is listed as `Listing`: ascending keys, each group numbered from 1 |
| Grouping.ListingEmpty | scripts/quiz_functions.py:230-239 | nothing is listed exactly when there are no rows |
| Grouping.ListingAscending | scripts/quiz_functions.py:236 | groups appear in strictly ascending key order |
| Grouping.ListingGroups | scripts/quiz_functions.py:236-238 | every listed key occurs, and its entries are its group in row order, numbered from 1 |
| Grouping.ListingCovers | scripts/quiz_functions.py:236 | every occurring key is listed |
| Grouping.OccurrencesDistinct | scripts/quiz_functions.py:236 | a key occurs once among distinct keys |
| Grouping.SizesSnoc | scripts/quiz_functions.py:232-233 | one more row adds one to the size of its key's group |
| Grouping.SizesCover | scripts/quiz_functions.py:232-233 | over any distinct key list holding every key, the group sizes add up to the number of rows |
| Grouping.SizesEmpty | scripts/quiz_functions.py:231 | without rows every group is empty |
| Grouping.ListingPartitions | scripts/quiz_functions.py:231-239 | every row is in exactly one listed group: the sizes add up to the number of rows |
| AnimatedGui.Choices | scripts/animated_gui_new.py:906 | the choices are exactly the non-empty columns 1..5 of the row: at most five, all answer texts, and the correct answer is offered exactly when non-empty |
| AnimatedGui.ShownChoices | scripts/animated_gui_new.py:906-907 | after the shuffle, the buttons are still exactly the non-empty columns 1..5 of the row |
| AnimatedGui.AnimatedQuizApp.constructor | scripts/animated_gui_new.py:48-53 | no user, no questions, zero counters |
| AnimatedGui.AnimatedQuizApp.Login | scripts/animated_gui_new.py:486-522 | the user is set only when `login_user` accepted |
| AnimatedGui.AnimatedQuizApp.Register | scripts/animated_gui_new.py:586-623 | a successful registration logs the user in |
| AnimatedGui.AnimatedQuizApp.DirectToMenu | scripts/animated_gui_new.py:296-301 | the guest entry sets the user to "Guest" |
| AnimatedGui.AnimatedQuizApp.Logout | scripts/animated_gui_new.py:1969-1977 | the user becomes None |
| AnimatedGui.AnimatedQuizApp.ShowQuestion | scripts/animated_gui_new.py:855-929 | a question is asked exactly when rounds < questions and rounds < 7; on completion the score is saved under column 6 of the first row (the difficulty); with no rows that index fails; a question asked shows the shuffled `Choices` of its row, the non-empty columns 1..5 |
| AnimatedGui.AnimatedQuizApp.StartQuiz | scripts/animated_gui_new.py:833-853 | no rows leaves questions, rounds and score unchanged; otherwise at most seven rows of the shuffled result, counters 0, and the first question shown |
| AnimatedGui.AnimatedQuizApp.CheckAnswer | scripts/animated_gui_new.py:1046-1098 | one point exactly when the selection equals the correct answer, one more round always; the invariant score ≤ rounds ≤ questions ≤ 7 is kept |
| AnimatedGui.StartQuizSelection | scripts/animated_gui_new.py:847-848 | the quiz keeps `min(7, n)` rows, each one drawn from the result without repetition |
| AnimatedGui.SubmitQuestion | scripts/animated_gui_new.py:1489-1501 | nothing is added unless the question, the correct answer and the first two wrong answers are non-empty |
| AnimatedGui.SubmitFormInserts | scripts/animated_gui_new.py:1492-1497 | with the form's four wrong answers, a row is inserted exactly when those four fields are filled |
| AnimatedGui.ProcessNewTopic | scripts/animated_gui_new.py:1305-1316 | a whitespace-only name is rejected; otherwise `add_topic` runs and the form gets the normalised raw name |
| AnimatedGui.NewTopicFormTable | scripts/animated_gui_new.py:1312-1316 | the raw name passed on is in the catalogue, and `add_questions` writes to its table |
| AnimatedGui.SplitColumns | scripts/animated_gui_new.py:1565-1592 | ceil(n/2) topics go left and the rest right; the numbering runs 1..n without a gap, and the columns concatenate to the list |
| AnimatedGui.ByDifficulty | scripts/animated_gui_new.py:1884 | each row is keyed by its column 6 |
| AnimatedGui.ShowTopicQuestions | scripts/animated_gui_new.py:1866-1900 | the rows are grouped by difficulty and listed in ascending difficulty; the listing is empty exactly when there are no rows |
| QuizFunctions.FindLower | scripts/quiz_functions.py:36-45 | a name found by the case-insensitive lookup is one of the display names, and it lower-cases to the typed name |
| QuizFunctions.FindLowerMisses | scripts/quiz_functions.py:39-45 | the case-insensitive lookup misses exactly when no display name lower-cases to the typed name |
| QuizFunctions.FindLowerFinds | scripts/quiz_functions.py:39-45 | a lookup that succeeds finds the last display name that lower-cases to the typed name |
| QuizFunctions.ReadWrongAnswers | scripts/quiz_functions.py:53-55 | four wrong answers, each stripped, in order |
| QuizFunctions.AddNewQuestion | scripts/quiz_functions.py:22-83 | anything but "choose"/"create" adds nothing; "choose" with an unknown name adds nothing, otherwise it adds under the display name found; "create" adds the topic first; a non-integer difficulty fails after that |
| QuizFunctions.DeleteTopic | scripts/quiz_functions.py:100-125 | non-numeric input and an index outside `-len..len-1` delete nothing; the selected topic is deleted only when the confirmation lower-cases to "y" |
| QuizFunctions.DeleteTopicPicks | scripts/quiz_functions.py:104-106 | 1..n picks the n-th topic, 0 down to 1-n count from the end, and anything else is IndexError |
| QuizFunctions.ConfirmationWords | scripts/quiz_functions.py:109 | the confirmation that deletes is exactly "y" or "Y" |
| QuizFunctions.TextByDifficulty | scripts/quiz_functions.py:232-233 | each row's question text is keyed by its last column |
| QuizFunctions.DisplayQuestions | scripts/quiz_functions.py:203-243 | no topics, a non-number or a number outside 1..len show nothing; otherwise the raw name `values[n-1]` is read, and its texts are grouped by difficulty in ascending order, each group numbered from 1 |
| QuizFunctions.ViewUserScores | scripts/quiz_functions.py:129-153 | a falsy user is turned away before any score is fetched |
| LoadQuestion.Padded | scripts/load_question.py:41-43 | the padded list has length max(5, n), its entries unchanged, and None after them |
| LoadQuestion.PadAnswers | scripts/load_question.py:41-43 | the loop pads the list in place to `Padded` |
| LoadQuestion.RowOf | scripts/load_question.py:50-52 | the row has exactly five wrong-answer columns |
| LoadQuestion.InsertQuestionsFromJson | scripts/load_question.py:24-61 | one row per listed question, in order; a topic missing from the file inserts nothing |
| LoadQuestion.RowAnswers | scripts/load_question.py:50-52 | a list of five or more contributes its first five; a shorter one its entries, then None |
| LoadQuestion.ExtraAnswersDropped | scripts/load_question.py:50-52 | entries after the fifth never change the row |
| LoadQuestion.ModuleColumn | scripts/load_question.py:50 | the module column of a lower-case topic upper-cases only its first character |

## Left out

- The Tkinter window is not modelled: widget construction, layout, scrolling, event binding, message boxes, sounds and animations. Button presses are method calls.
- `percentage_score` is not modelled, because it is floating-point. The animated window is modelled as saving the integer score and rounds with the key it uses.
- The SQL queries are not modelled, because their semantics belong to PostgreSQL. This covers `ORDER BY RANDOM()`, `LIMIT`, the aggregations behind `view_scores`, plotting, and connection handling. A query's result is a parameter.
- The error paths of database calls are not modelled: exceptions, rollback, and the `conn` None path of the `get_topics` in `quiz.py`.
- Authentication is not modelled. `login_user` and `register_user` are the booleans they return, and the registration hint prompt is left out.
- Text is modelled as ASCII only, with no Unicode case mapping or whitespace.
- A call to `int()` on a non-number raises ValueError. Where the source catches it, the input is `None`. Where nothing catches it, the model ends in an error outcome: `DifficultyError` in `add_new_question`, and `UnpackError` for the unpack in `validate_question_data`.
- The `main` menu of `scripts/quiz_application.py` is not modelled. As written it calls `take_quiz(cursor)` (line 290), while `take_quiz` takes `cursor` and `conn` (line 95), so that menu entry fails before the modelled quiz starts. `QuizApplication.TakeQuizFlow` models `take_quiz` as if called with both.
- ConsoleQuiz.TakeQuizFlow: modelled as if the queries of `quiz.py` returned rows. As written, `take_quiz` calls `get_topics(cursor)` on a function that takes no argument, and the query names the columns `wrong answer2, wrong answer_3`. Both fail before any quiz starts.
- AnimatedGui.AnimatedQuizApp.CheckAnswer: the next `show_question`, which the source schedules on a timer, is a separate call made by the caller.
- QuiApp.QuizApp.StartQuiz: the model keeps the source's order, assigning the fetched rows to `questions` before the emptiness check.
- LoadQuestion.InsertQuestionsFromJson: each question's `wrong_answers` list is padded on a list object of its own. The padding the source leaves behind in the parsed JSON structure is not returned.
- LoadQuestion.InsertQuestionsFromJson: missing JSON keys, file reading and the JSON parser are not modelled.
- The hard-coded question data of `add_hardcoded_questions` is not modelled. The method takes any data of that shape.
- `save_score`, `view_scores` and the score tables are not modelled. A saved score is returned as the tuple that would be inserted.

## Findings

| source | as written | input that shows it | evidently intended | confidence | as-written member | corrected member |
|---|---|---|---|---|---|---|
| scripts/questions.py:73-82 | `delete_topic_from_db` looks the argument up stripped and lower-cased, without turning spaces into underscores. `delete_topic` (scripts/quiz_functions.py:106-110) passes it the display name, in which underscores are spaces. | The stored topic `general_knowledge` is listed as `General Knowledge`. Deleting it gives the key `general knowledge`, which matches no stored name, so nothing is deleted. | Normalise the key as `add_topic` stores names, with spaces turned into underscores. The topic the user selected is then deleted. | not executed | Topics.DisplayNameMissesUnderscores, Topics.GeneralKnowledgeNotDeleted | Topics.DeleteTopicNormalised, Topics.DeleteByDisplayRemoves |
