/**
 * The topic catalogue and question helpers of scripts/questions.py: the
 * name normalisations, the display mapping of `get_topics`, insertion and
 * deletion of topic names, the table `get_questions` reads, the row that
 * `add_questions` inserts, `validate_question_data` and the length filter
 * of `add_hardcoded_questions`.
 *
 * The `topics` table (topic_name is its primary key) is a set of names; the
 * rows `SELECT topic_name FROM topics` returns are a sequence in the order
 * the database gives them.
 */
module Topics {
  import opened PyValues
  import opened PyStrings
  import opened QuizData

  // ---------------------------------------------------------------------
  // Name normalisations

  /** What Normalise produces: lower case, no space, no whitespace at either end. */
  predicate Normalised(n: string) {
    && (forall i :: 0 <= i < |n| ==> !IsUpper(n[i]) && n[i] != ' ')
    && (n != "" ==> !IsSpace(n[0]) && !IsSpace(n[|n| - 1]))
  }

  /** The raw name `get_topics` derives from a stored name: stripped,
      lower-cased. It has no capital and no whitespace at either end, and
      is no longer than the stored name. */
  function RawName(stored: string): (r: string)
    ensures |r| <= |stored|
    ensures forall i :: 0 <= i < |r| ==> !IsUpper(r[i])
    ensures r != "" ==> !IsSpace(r[0]) && !IsSpace(r[|r| - 1])
  {
    var s := Strip(stored);
    StripEnds(stored);
    StripLeftShape(stored);
    StripRightShape(StripLeft(stored));
    var r := Lower(s);
    assert r != "" ==> r[0] == LowerChar(s[0]) && r[|r| - 1] == LowerChar(s[|s| - 1]);
    r
  }

  /** The display name of a raw name: underscores to spaces, then
      title-cased. It has no underscore, and apart from letter case it is
      the raw name with every underscore read as a space. */
  function DisplayName(raw: string): (r: string)
    ensures |r| == |raw|
    ensures forall i :: 0 <= i < |r| ==>
              r[i] != '_' && LowerChar(r[i]) == LowerChar(if raw[i] == '_' then ' ' else raw[i])
  {
    Title(Replace(raw, '_', ' '))
  }

  /** The name `add_topic` and `add_questions` store and write to:
      stripped, lower-cased, spaces to underscores. The result is
      Normalised and no longer than the input. */
  function Normalise(name: string): (r: string)
    ensures |r| <= |name|
    ensures Normalised(r)
  {
    var s := Strip(name);
    StripEnds(name);
    StripLeftShape(name);
    StripRightShape(StripLeft(name));
    var l := Lower(s);
    var n := Replace(l, ' ', '_');
    assert forall i :: 0 <= i < |n| ==> l[i] == LowerChar(s[i]);
    assert n != "" ==> n[0] == LowerChar(s[0]) && n[|n| - 1] == LowerChar(s[|s| - 1]);
    n
  }

  /** The table `get_questions` reads: lower-cased, spaces to underscores,
      no strip. It keeps the length, has no space and no capital, and every
      other character is the topic's, lower-cased. */
  function TableName(topic: string): (r: string)
    ensures |r| == |topic|
    ensures forall i :: 0 <= i < |r| ==>
              r[i] != ' ' && !IsUpper(r[i]) && (r[i] == '_' || r[i] == LowerChar(topic[i]))
  {
    Replace(Lower(topic), ' ', '_')
  }

  /** A normalised name is a fixed point of every normalisation the scripts apply. */
  lemma NormalisedFixed(n: string)
    requires Normalised(n)
    ensures Normalise(n) == n && RawName(n) == n && TableName(n) == n
  {
    assert Strip(n) == n by { StripTrimmed(n); }
    assert Lower(n) == n by { LowerFixed(n); }
    assert Replace(n, ' ', '_') == n by { ReplaceFixed(n, ' ', '_'); }
  }

  /** add_topic normalisation is idempotent. */
  lemma NormaliseIdempotent(name: string)
    ensures Normalise(Normalise(name)) == Normalise(name)
  {
    NormalisedFixed(Normalise(name));
  }

  /** A name stored by add_topic comes back from get_topics as the same raw
      name, and get_questions reads the very table add_topic created. */
  lemma StoredNameRoundTrip(name: string)
    ensures RawName(Normalise(name)) == Normalise(name)
    ensures TableName(RawName(Normalise(name))) == Normalise(name)
  {
    NormalisedFixed(Normalise(name));
  }

  /** get_questions does not strip: a leading space becomes an underscore
      in the table name, where add_topic would have dropped it. */
  lemma TableNameKeepsEdgeSpaces()
    ensures TableName(" art") == "_art"
    ensures Normalise(" art") == "art"
  {
    assert IsSpace(" art"[0]);
    assert " art"[1..] == "art";
    assert StripLeft(" art") == "art";
    assert StripRight("art") == "art";
  }

  // ---------------------------------------------------------------------
  // The ordered dictionary of get_topics

  /** A Python dict from display name to raw name, in insertion order. */
  type Mapping = seq<(string, string)>

  function Lookup(m: Mapping, k: string): Option<string> {
    if m == [] then None
    else if m[0].0 == k then Some(m[0].1)
    else Lookup(m[1..], k)
  }

  predicate DistinctKeys(m: Mapping) {
    forall i, j :: 0 <= i < j < |m| ==> m[i].0 != m[j].0
  }

  /** `m[k] = v`: an existing key keeps its position and gets the new value,
      a new key goes at the end. */
  function Put(m: Mapping, k: string, v: string): (r: Mapping)
    ensures |r| == if Lookup(m, k).Some? then |m| else |m| + 1
    ensures forall x :: Lookup(r, x) == if x == k then Some(v) else Lookup(m, x)
  {
    if m == [] then [(k, v)]
    else if m[0].0 == k then [(k, v)] + m[1..]
    else [m[0]] + Put(m[1..], k, v)
  }

  lemma LookupFindsKey(m: Mapping, i: nat)
    requires i < |m|
    ensures Lookup(m, m[i].0).Some?
  {
    if i > 0 && m[0].0 != m[i].0 {
      LookupFindsKey(m[1..], i - 1);
    }
  }

  lemma {:induction false} PutDistinct(m: Mapping, k: string, v: string)
    requires DistinctKeys(m)
    ensures DistinctKeys(Put(m, k, v))
  {
    if m != [] && m[0].0 != k {
      PutDistinct(m[1..], k, v);
      var r := Put(m, k, v);
      forall j | 0 < j < |r| ensures r[0].0 != r[j].0 {
        LookupFindsKey(r[1..], j - 1);
        if m[0].0 == r[j].0 {
          assert Lookup(m[1..], m[0].0).Some?;
          LookupIsSome(m[1..], m[0].0);
        }
      }
    }
  }

  /** A key Lookup finds is the key of some entry. */
  lemma LookupIsSome(m: Mapping, k: string)
    requires Lookup(m, k).Some?
    ensures exists i :: 0 <= i < |m| && m[i].0 == k
  {
    if m[0].0 != k {
      LookupIsSome(m[1..], k);
      var i :| 0 <= i < |m| - 1 && m[1..][i].0 == k;
      assert m[i + 1].0 == k;
    }
  }

  /** The display name a stored topic row gets. */
  function KeyOf(stored: string): string { DisplayName(RawName(stored)) }

  /** The assignments the loop of get_topics makes, in order. */
  function Entries(rows: seq<string>): (r: Mapping)
    ensures |r| == |rows|
    ensures forall i :: 0 <= i < |rows| ==> r[i] == (KeyOf(rows[i]), RawName(rows[i]))
  {
    seq(|rows|, i requires 0 <= i < |rows| => (KeyOf(rows[i]), RawName(rows[i])))
  }

  /** A dict built by assigning the pairs of `es` in order. */
  function Fold(es: Mapping): Mapping {
    if es == [] then [] else Put(Fold(es[..|es| - 1]), es[|es| - 1].0, es[|es| - 1].1)
  }

  /** What get_topics returns for the stored names `rows`. */
  function MappingOf(rows: seq<string>): Mapping { Fold(Entries(rows)) }

  /** `list(topic_mapping.values())`. */
  function Values(m: Mapping): (r: seq<string>)
    ensures |r| == |m| && forall i :: 0 <= i < |m| ==> r[i] == m[i].1
  {
    seq(|m|, i requires 0 <= i < |m| => m[i].1)
  }

  /** A display name is among `keys()` exactly when the dict has an entry for it. */
  lemma KeysListed(m: Mapping, k: string)
    ensures k in Keys(m) <==> Lookup(m, k).Some?
  {
    if Lookup(m, k).Some? {
      LookupIsSome(m, k);
      var i :| 0 <= i < |m| && m[i].0 == k;
      assert Keys(m)[i] == k;
    }
    if k in Keys(m) {
      var i :| 0 <= i < |m| && Keys(m)[i] == k;
      LookupFindsKey(m, i);
    }
  }

  /** With distinct keys, `values()` and `keys()` line up: the i-th value is
      what the dict holds for the i-th key. */
  lemma {:induction false} ValuesLookup(m: Mapping, i: nat)
    requires DistinctKeys(m) && i < |m|
    ensures Lookup(m, Keys(m)[i]) == Some(Values(m)[i])
  {
    if i > 0 {
      assert m[0].0 != m[i].0;
      assert DistinctKeys(m[1..]) by {
        forall a, b | 0 <= a < b < |m| - 1 ensures m[1..][a].0 != m[1..][b].0 {
          assert m[a + 1].0 != m[b + 1].0;
        }
      }
      ValuesLookup(m[1..], i - 1);
      assert Keys(m[1..])[i - 1] == m[i].0 && Values(m[1..])[i - 1] == m[i].1;
    }
  }

  /** The position of the LAST assignment to key `k`, or None when there is none. */
  function LastIndex(es: Mapping, k: string): (r: Option<nat>)
    ensures r.None? <==> forall i :: 0 <= i < |es| ==> es[i].0 != k
    ensures r.Some? ==> r.value < |es| && es[r.value].0 == k
                        && forall j :: r.value < j < |es| ==> es[j].0 != k
  {
    if es == [] then None
    else if es[|es| - 1].0 == k then Some(|es| - 1)
    else LastIndex(es[..|es| - 1], k)
  }

  /** Looking a key up after the assignments gives the value of the last
      assignment to it: each later assignment overwrites the earlier value. */
  lemma {:induction false} FoldLookup(es: Mapping, k: string)
    ensures Lookup(Fold(es), k) == if LastIndex(es, k).Some? then Some(es[LastIndex(es, k).value].1) else None
  {
    if es != [] {
      var front := es[..|es| - 1];
      FoldLookup(front, k);
      var i := LastIndex(front, k);
      if es[|es| - 1].0 != k && i.Some? {
        assert front[i.value] == es[i.value];
      }
    }
  }

  /** The dict has distinct keys, at most one entry per assignment, and
      only pairs that were assigned. */
  lemma {:induction false} FoldShape(es: Mapping)
    ensures DistinctKeys(Fold(es))
    ensures |Fold(es)| <= |es|
    ensures forall e :: e in Fold(es) ==> e in es
  {
    if es != [] {
      var front := es[..|es| - 1];
      FoldShape(front);
      PutDistinct(Fold(front), es[|es| - 1].0, es[|es| - 1].1);
      PutEntries(Fold(front), es[|es| - 1].0, es[|es| - 1].1);
    }
  }

  lemma {:induction false} PutEntries(m: Mapping, k: string, v: string)
    ensures forall e :: e in Put(m, k, v) ==> e in m || e == (k, v)
  {
    if m != [] && m[0].0 != k {
      PutEntries(m[1..], k, v);
    }
  }

  /** The loop of get_topics (scripts/questions.py:61-65). */
  method GetTopics(rows: seq<string>) returns (m: Mapping)
    ensures m == MappingOf(rows)
  {
    m := [];
    ghost var es := Entries(rows);
    for i := 0 to |rows|
      invariant m == Fold(es[..i])
    {
      var rawName := RawName(rows[i]);
      var displayName := DisplayName(rawName);
      m := Put(m, displayName, rawName);
      assert es[..i + 1][..i] == es[..i];
    }
    assert es[..|rows|] == es;
  }

  /** Looking a display name up in get_topics gives the raw name of the last
      row with that display name, and nothing for a display name no row has. */
  lemma GetTopicsLookup(rows: seq<string>, k: string)
    ensures Lookup(MappingOf(rows), k).None? <==> forall i :: 0 <= i < |rows| ==> KeyOf(rows[i]) != k
    ensures Lookup(MappingOf(rows), k).Some? ==>
              exists i :: 0 <= i < |rows| && KeyOf(rows[i]) == k && Lookup(MappingOf(rows), k).value == RawName(rows[i])
                          && forall j :: i < j < |rows| ==> KeyOf(rows[j]) != k
  {
    var es := Entries(rows);
    FoldLookup(es, k);
    var li := LastIndex(es, k);
    if li.Some? {
      var i := li.value;
      assert KeyOf(rows[i]) == k && Lookup(MappingOf(rows), k).value == RawName(rows[i]);
      assert forall j :: i < j < |rows| ==> es[j].0 != k;
    }
  }

  /** get_topics is empty exactly when the catalogue is. */
  lemma GetTopicsEmpty(rows: seq<string>)
    ensures MappingOf(rows) == [] <==> rows == []
  {
    var es := Entries(rows);
    if rows != [] {
      var front := Fold(es[..|es| - 1]);
      var last := es[|es| - 1];
      assert MappingOf(rows) == Put(front, last.0, last.1);
      assert Lookup(front, last.0).Some? ==> front != [];
    }
  }

  /** get_topics has distinct keys, at most one entry per row, and every
      entry is a display name paired with the raw name it was derived from
      some stored row. */
  lemma GetTopicsShape(rows: seq<string>)
    ensures DistinctKeys(MappingOf(rows))
    ensures |MappingOf(rows)| <= |rows|
    ensures forall e :: e in MappingOf(rows) ==> e.0 == DisplayName(e.1) && exists i :: 0 <= i < |rows| && e.1 == RawName(rows[i])
  {
    var es := Entries(rows);
    FoldShape(es);
    forall e | e in MappingOf(rows)
      ensures e.0 == DisplayName(e.1) && exists i :: 0 <= i < |rows| && e.1 == RawName(rows[i])
    {
      var i :| 0 <= i < |es| && es[i] == e;
    }
  }

  // ---------------------------------------------------------------------
  // add_topic and delete_topic_from_db

  datatype AddOutcome = AddOutcome(topics: set<string>, inserted: bool)

  /** add_topic (scripts/questions.py:118-133): the normalised name is inserted
      (and its table created) only when it is not already in the catalogue. */
  function AddTopic(topics: set<string>, name: string): (r: AddOutcome)
    ensures r.inserted <==> Normalise(name) !in topics
    ensures r.inserted ==> r.topics == topics + {Normalise(name)}
    ensures !r.inserted ==> r.topics == topics
  {
    var n := Normalise(name);
    if n in topics then AddOutcome(topics, false) else AddOutcome(topics + {n}, true)
  }

  /** Adding the same topic name again changes nothing. */
  lemma AddTopicTwice(topics: set<string>, name: string)
    ensures AddTopic(AddTopic(topics, name).topics, name) == AddOutcome(AddTopic(topics, name).topics, false)
  {
  }

  /** After add_topic, get_topics over any listing of the catalogue has an
      entry for the new topic, whose table is the one add_topic created. */
  lemma AddedTopicIsListed(topics: set<string>, name: string, rows: seq<string>)
    requires forall t :: t in rows <==> t in AddTopic(topics, name).topics
    ensures Lookup(MappingOf(rows), DisplayName(Normalise(name))).Some?
    ensures TableName(Lookup(MappingOf(rows), DisplayName(Normalise(name))).value) == Normalise(name)
  {
    var n := Normalise(name);
    StoredNameRoundTrip(name);
    assert n in rows;
    var i :| 0 <= i < |rows| && rows[i] == n;
    assert KeyOf(rows[i]) == DisplayName(n);
    GetTopicsLookup(rows, DisplayName(n));
    var j :| 0 <= j < |rows| && KeyOf(rows[j]) == DisplayName(n)
             && Lookup(MappingOf(rows), DisplayName(n)).value == RawName(rows[j]);
    SameDisplaySameTable(RawName(rows[j]), n);
  }

  /** Two raw names without capitals whose display names agree differ at
      most in `_` against space; so when one of them is Normalised, the
      table of the other is that name. Whichever stored row get_topics
      keeps for a display name, the table read is the same. */
  lemma SameDisplaySameTable(x: string, n: string)
    requires forall i :: 0 <= i < |x| ==> !IsUpper(x[i])
    requires Normalised(n)
    requires DisplayName(x) == DisplayName(n)
    ensures TableName(x) == n
  {
    assert |x| == |n|;
    forall i | 0 <= i < |x|
      ensures TableName(x)[i] == n[i]
    {
      var dx, dn := DisplayName(x)[i], DisplayName(n)[i];
      assert LowerChar(dx) == LowerChar(dn);
    }
  }

  datatype DeleteOutcome = DeleteOutcome(topics: set<string>, dropped: Option<string>)

  /** The catalogue rows `WHERE LOWER(topic_name) = key` selects. */
  function Matching(topics: set<string>, key: string): set<string> {
    set t | t in topics && Lower(t) == key
  }

  /**
   * delete_topic_from_db (scripts/questions.py:70-93): the argument is
   * stripped and lower-cased (spaces are NOT turned into underscores), every
   * name whose lower case equals it is deleted, and only then is the table
   * name formed with underscores. When nothing matches, nothing changes.
   */
  function DeleteTopicFromDb(topics: set<string>, name: string): (r: DeleteOutcome)
    ensures r.dropped.Some? <==> exists t :: t in topics && Lower(t) == Lower(Strip(name))
    ensures r.dropped.Some? ==> r.dropped.value == Replace(Lower(Strip(name)), ' ', '_')
    ensures r.topics == topics - Matching(topics, Lower(Strip(name)))
    ensures r.dropped.None? ==> r.topics == topics
  {
    var key := Lower(Strip(name));
    var hits := Matching(topics, key);
    if hits != {} then DeleteOutcome(topics - hits, Some(Replace(key, ' ', '_')))
    else
      assert forall t :: t in topics && Lower(t) == key ==> t in hits;
      DeleteOutcome(topics, None)
  }

  lemma TitleKeepsChars(x: string, c: char)
    requires c !in x && !IsCased(c)
    ensures c !in Title(x) && c !in Lower(x)
  {
    forall i | 0 <= i < |x|
      ensures Title(x)[i] != c && Lower(x)[i] != c
    {
      assert x[i] != c;
    }
  }

  lemma StripKeepsAbsent(s: string, c: char)
    requires c !in s
    ensures c !in Strip(s)
  {
    var lo := StripShape(s);
    forall i | 0 <= i < |Strip(s)|
      ensures Strip(s)[i] != c
    {
      assert Strip(s)[i] == s[lo + i];
    }
  }

  /**
   * Deleting a topic through its display name, which is what both menus
   * pass, never deletes a topic whose stored name has an underscore: the
   * display name has spaces where the stored name has underscores, and the
   * lookup key keeps them as spaces.
   */
  lemma {:induction false} DisplayNameMissesUnderscores(topics: set<string>, raw: string)
    requires raw in topics && '_' in raw
    ensures raw in DeleteTopicFromDb(topics, DisplayName(raw)).topics
  {
    var spaced := Replace(raw, '_', ' ');
    assert '_' !in spaced;
    TitleKeepsChars(spaced, '_');
    StripKeepsAbsent(Title(spaced), '_');
    TitleKeepsChars(Strip(Title(spaced)), '_');
    var key := Lower(Strip(DisplayName(raw)));
    assert '_' !in key;
    var i :| 0 <= i < |raw| && raw[i] == '_';
    assert Lower(raw)[i] == '_';
    assert Lower(raw) != key;
    assert raw !in Matching(topics, key);
  }

  /** The concrete case: the topic "general_knowledge" is listed with a
      space where its stored name has the underscore, and deleting it
      through that display name deletes nothing. */
  lemma GeneralKnowledgeNotDeleted()
    ensures |DisplayName("general_knowledge")| == 17 && DisplayName("general_knowledge")[7] == ' '
    ensures DeleteTopicFromDb({"general_knowledge"}, DisplayName("general_knowledge")).dropped.None?
  {
    var raw := "general_knowledge";
    assert raw[7] == '_';
    assert Replace(raw, '_', ' ')[7] == ' ';
    assert "general_knowledge" in DeleteTopicFromDb({raw}, DisplayName(raw)).topics by {
      DisplayNameMissesUnderscores({raw}, raw);
    }
  }

  /** A raw name that the display mapping converts back without loss: it is
      normalised and neither starts nor ends with an underscore. */
  predicate Canonical(raw: string) {
    Normalised(raw) && (raw != "" ==> raw[0] != '_' && raw[|raw| - 1] != '_')
  }

  /** For a canonical raw name, normalising its display name gives it back. */
  lemma {:induction false} DisplayRoundTrip(raw: string)
    requires Canonical(raw)
    ensures Normalise(DisplayName(raw)) == raw && Lower(raw) == raw
  {
    LowerFixed(raw);
    var spaced := Replace(raw, '_', ' ');
    var t := Title(spaced);
    assert |t| == |raw|;
    StripTrimmed(t);
    LowerTitle(spaced);
    assert Lower(spaced) == spaced;
    assert Replace(spaced, ' ', '_') == raw;
  }

  /**
   * delete_topic_from_db as evidently intended: the lookup key is normalised
   * the same way add_topic stored the name (spaces to underscores), so the
   * display name finds the topic.
   */
  function DeleteTopicNormalised(topics: set<string>, name: string): (r: DeleteOutcome)
    ensures r.dropped.Some? <==> exists t :: t in topics && Lower(t) == Normalise(name)
    ensures r.dropped.Some? ==> r.dropped.value == Normalise(name)
    ensures r.topics == topics - Matching(topics, Normalise(name))
  {
    var key := Normalise(name);
    var hits := Matching(topics, key);
    if hits != {} then DeleteOutcome(topics - hits, Some(key))
    else
      assert forall t :: t in topics && Lower(t) == key ==> t in hits;
      DeleteOutcome(topics, None)
  }

  /** With the normalised key, deleting a canonical topic by its display name removes it. */
  lemma DeleteByDisplayRemoves(topics: set<string>, raw: string)
    requires raw in topics && Canonical(raw)
    ensures raw !in DeleteTopicNormalised(topics, DisplayName(raw)).topics
    ensures DeleteTopicNormalised(topics, DisplayName(raw)).dropped == Some(raw)
  {
    DisplayRoundTrip(raw);
    NormalisedKeyRemoves(topics, raw, DisplayName(raw));
  }

  lemma NormalisedKeyRemoves(topics: set<string>, raw: string, name: string)
    requires raw in topics && Normalise(name) == raw && Lower(raw) == raw
    ensures raw !in DeleteTopicNormalised(topics, name).topics
    ensures DeleteTopicNormalised(topics, name).dropped == Some(raw)
  {
    assert raw in Matching(topics, Normalise(name));
  }

  // ---------------------------------------------------------------------
  // get_questions and add_questions

  /** get_questions (scripts/questions.py:157-184): with a truthy difficulty
      only the rows of that difficulty, otherwise all rows; the rows come from
      the table TableName(topic), in the order the database returns them. */
  function GetQuestions(tableRows: seq<Question>, difficulty: Option<int>): (r: seq<Question>)
    ensures |r| <= |tableRows|
    ensures forall q :: q in r <==> q in tableRows && (difficulty.Some? && difficulty.value != 0 ==> q.difficulty == difficulty.value)
    ensures !(difficulty.Some? && difficulty.value != 0) ==> r == tableRows
  {
    if tableRows == [] then []
    else
      var rest := GetQuestions(tableRows[1..], difficulty);
      assert tableRows == [tableRows[0]] + tableRows[1..];
      if difficulty.Some? && difficulty.value != 0 && tableRows[0].difficulty != difficulty.value then rest
      else [tableRows[0]] + rest
  }

  /** get_questions keeps every row of the difficulty as often as the table
      holds it, duplicates included, and drops the others. */
  lemma {:induction false} GetQuestionsCounts(tableRows: seq<Question>, difficulty: Option<int>, q: Question)
    ensures multiset(GetQuestions(tableRows, difficulty))[q] ==
              if difficulty.Some? && difficulty.value != 0 && q.difficulty != difficulty.value then 0
              else multiset(tableRows)[q]
  {
    if tableRows != [] {
      GetQuestionsCounts(tableRows[1..], difficulty, q);
      assert tableRows == [tableRows[0]] + tableRows[1..];
      assert multiset(tableRows) == multiset([tableRows[0]]) + multiset(tableRows[1..]);
    }
  }

  datatype QuestionRow = QuestionRow(difficulty: int, question: string, correct: string, wrong: seq<string>)
  datatype AddQuestionsEffect = AddQuestionsEffect(table: string, inserted: Option<QuestionRow>)

  /**
   * add_questions (scripts/questions.py:205-235): the table named by the
   * normalised topic is created (and committed) first; the row then takes
   * wrong_answers[0..3], so a list with fewer than four entries raises
   * IndexError after the table exists and inserts nothing.
   */
  function AddQuestions(topicName: string, difficulty: int, question: string, correct: string,
                        wrongAnswers: seq<string>): (r: AddQuestionsEffect)
    ensures r.table == Normalise(topicName)
    ensures r.inserted.Some? <==> |wrongAnswers| >= 4
    ensures r.inserted.Some? ==> |r.inserted.value.wrong| == 4
                                 && r.inserted.value.wrong == wrongAnswers[..4]
                                 && r.inserted.value.question == question
                                 && r.inserted.value.correct == correct
                                 && r.inserted.value.difficulty == difficulty
  {
    var table := Normalise(topicName);
    if |wrongAnswers| >= 4 then
      AddQuestionsEffect(table, Some(QuestionRow(difficulty, question, correct,
        [wrongAnswers[0], wrongAnswers[1], wrongAnswers[2], wrongAnswers[3]])))
    else AddQuestionsEffect(table, None)
  }

  // ---------------------------------------------------------------------
  // validate_question_data

  datatype Verdict = Accepted | Rejected | UnpackError

  /**
   * validate_question_data (scripts/questions.py:188-202), which pads its
   * list argument in place. Fewer than five elements: rejected, list
   * untouched. Otherwise '' is appended until there are six; more than six
   * make the six-name unpacking raise ValueError. Six elements are accepted
   * exactly when none is empty and the question, the correct answer and the
   * first wrong answer have at most 255 characters.
   */
  method ValidateQuestionData(data: PyList<string>) returns (v: Verdict)
    modifies data
    ensures |old(data.items)| < 5 ==> data.items == old(data.items) && v == Rejected
    ensures |old(data.items)| == 5 ==> data.items == old(data.items) + [""] && v == Rejected
    ensures |old(data.items)| >= 6 ==> data.items == old(data.items)
    ensures v == UnpackError <==> |old(data.items)| > 6
    ensures v == Accepted <==> (|old(data.items)| == 6
                                && (forall i :: 0 <= i < 6 ==> old(data.items)[i] != "")
                                && |old(data.items)[0]| <= 255 && |old(data.items)[1]| <= 255
                                && |old(data.items)[2]| <= 255)
  {
    if |data.items| < 5 {
      return Rejected;
    }
    ghost var before := data.items;
    while |data.items| < 6
      invariant |data.items| <= 6 || data.items == before
      invariant |before| < 6 ==> data.items == before + seq(|data.items| - |before|, _ => "")
      invariant |before| >= 6 ==> data.items == before
      invariant |data.items| >= |before|
      decreases 6 - |data.items|
    {
      data.Append("");
    }
    if |data.items| != 6 {
      return UnpackError;
    }
    var fields := data.items;
    if fields[0] == "" || fields[1] == "" || fields[2] == "" || fields[3] == "" || fields[4] == "" || fields[5] == "" {
      return Rejected;
    }
    if |fields[0]| > 255 || |fields[1]| > 255 || |fields[2]| > 255 {
      return Rejected;
    }
    return Accepted;
  }

  // ---------------------------------------------------------------------
  // add_hardcoded_questions

  /** The tuples of the hard-coded data, each tagged with its topic, in order. */
  function Tagged(data: seq<(string, seq<seq<Cell>>)>): seq<(string, seq<Cell>)> {
    if data == [] then []
    else Tag(data[0].0, data[0].1) + Tagged(data[1..])
  }

  function Tag(topic: string, rows: seq<seq<Cell>>): (r: seq<(string, seq<Cell>)>)
    ensures |r| == |rows| && forall i :: 0 <= i < |rows| ==> r[i] == (topic, rows[i])
  {
    seq(|rows|, i requires 0 <= i < |rows| => (topic, rows[i]))
  }

  /** The tagged tuples whose length is (`keep`) or is not (`!keep`) seven, in order. */
  function Sevens(t: seq<(string, seq<Cell>)>, keep: bool): seq<(string, seq<Cell>)> {
    if t == [] then []
    else if (|t[0].1| == 7) == keep then [t[0]] + Sevens(t[1..], keep)
    else Sevens(t[1..], keep)
  }

  /** The filter keeps exactly the tuples of length seven (`keep`) or
      exactly the others (`!keep`). */
  lemma {:induction false} SevensMembers(t: seq<(string, seq<Cell>)>, keep: bool, x: (string, seq<Cell>))
    ensures x in Sevens(t, keep) <==> x in t && (|x.1| == 7 <==> keep)
  {
    if t != [] {
      SevensMembers(t[1..], keep, x);
      assert x in t <==> x == t[0] || x in t[1..];
    }
  }

  lemma {:induction false} SevensAppend(a: seq<(string, seq<Cell>)>, b: seq<(string, seq<Cell>)>, keep: bool)
    ensures Sevens(a + b, keep) == Sevens(a, keep) + Sevens(b, keep)
  {
    if a == [] {
      assert a + b == b;
    } else {
      assert (a + b)[1..] == a[1..] + b;
      SevensAppend(a[1..], b, keep);
    }
  }

  /** Inserted and reported tuples split the data: together they are all of it. */
  lemma {:induction false} SevensSplit(t: seq<(string, seq<Cell>)>)
    ensures multiset(Sevens(t, true)) + multiset(Sevens(t, false)) == multiset(t)
  {
    if t != [] {
      SevensSplit(t[1..]);
      assert t == [t[0]] + t[1..];
    }
  }

  lemma TaggedSnoc(data: seq<(string, seq<seq<Cell>>)>, i: nat)
    requires i < |data|
    ensures Tagged(data[..i + 1]) == Tagged(data[..i]) + Tag(data[i].0, data[i].1)
  {
    if i > 0 {
      assert data[..i + 1][1..] == data[1..][..i];
      assert data[..i][1..] == data[1..][..i - 1];
      TaggedSnoc(data[1..], i - 1);
    } else {
      assert data[..1][1..] == [];
    }
  }

  /** One more tuple of a topic extends the filter by at most that tuple. */
  lemma SevensStep(topic: string, questions: seq<seq<Cell>>, j: nat, keep: bool)
    requires j < |questions|
    ensures Sevens(Tag(topic, questions[..j + 1]), keep)
         == Sevens(Tag(topic, questions[..j]), keep)
            + (if (|questions[j]| == 7) == keep then [(topic, questions[j])] else [])
  {
    assert Tag(topic, questions[..j + 1]) == Tag(topic, questions[..j]) + [(topic, questions[j])];
    SevensAppend(Tag(topic, questions[..j]), [(topic, questions[j])], keep);
    assert [(topic, questions[j])][1..] == [];
  }

  /** The inner loop of add_hardcoded_questions over one topic's tuples. */
  method InsertTopicQuestions(topic: string, questions: seq<seq<Cell>>)
    returns (inserted: seq<(string, seq<Cell>)>, reported: seq<(string, seq<Cell>)>)
    ensures inserted == Sevens(Tag(topic, questions), true)
    ensures reported == Sevens(Tag(topic, questions), false)
  {
    inserted, reported := [], [];
    for j := 0 to |questions|
      invariant inserted == Sevens(Tag(topic, questions[..j]), true)
      invariant reported == Sevens(Tag(topic, questions[..j]), false)
    {
      SevensStep(topic, questions, j, true);
      SevensStep(topic, questions, j, false);
      if |questions[j]| == 7 {
        inserted := inserted + [(topic, questions[j])];
      } else {
        reported := reported + [(topic, questions[j])];
      }
    }
    assert questions[..|questions|] == questions;
  }

  /**
   * The loops of add_hardcoded_questions (scripts/questions.py:397-410): a
   * table is created per topic, then each tuple of length seven is inserted
   * into its topic's table, in order, and every other tuple is reported.
   */
  method AddHardcodedQuestions(data: seq<(string, seq<seq<Cell>>)>)
    returns (tables: seq<string>, inserted: seq<(string, seq<Cell>)>, reported: seq<(string, seq<Cell>)>)
    ensures |tables| == |data| && forall i :: 0 <= i < |data| ==> tables[i] == data[i].0
    ensures inserted == Sevens(Tagged(data), true)
    ensures reported == Sevens(Tagged(data), false)
  {
    tables, inserted, reported := [], [], [];
    for i := 0 to |data|
      invariant |tables| == i && forall k :: 0 <= k < i ==> tables[k] == data[k].0
      invariant inserted == Sevens(Tagged(data[..i]), true)
      invariant reported == Sevens(Tagged(data[..i]), false)
    {
      var topic := data[i].0;
      tables := tables + [topic];
      var topicInserted, topicReported := InsertTopicQuestions(topic, data[i].1);
      assert inserted + topicInserted == Sevens(Tagged(data[..i + 1]), true) by {
        TaggedSnoc(data, i);
        SevensAppend(Tagged(data[..i]), Tag(topic, data[i].1), true);
      }
      assert reported + topicReported == Sevens(Tagged(data[..i + 1]), false) by {
        TaggedSnoc(data, i);
        SevensAppend(Tagged(data[..i]), Tag(topic, data[i].1), false);
      }
      inserted := inserted + topicInserted;
      reported := reported + topicReported;
    }
    assert data[..|data|] == data;
  }
}
