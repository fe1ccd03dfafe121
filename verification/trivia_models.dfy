/** The trivia tables, `Question.format` and the quiz question selector. */
module TriviaModels {
  import opened Wrappers
  import opened Text
  import opened Json
  import opened Sequences

  /** A row of `questions`; `category` is a string column holding a category id. */
  datatype Question = Question(id: int, question: string, answer: string, category: string, difficulty: int)

  /** A row of `categories`; `kind` is the `type` column. */
  datatype Category = Category(id: int, kind: string)

  /** The primary key of a question row. */
  function QuestionId(q: Question): int {
    q.id
  }

  /** Question ids strictly increase along the list: the order `order_by(Question.id)` returns. */
  predicate AscendingIds(qs: seq<Question>) {
    AscendingBy(qs, QuestionId)
  }

  /**
   * The trivia database. Rows are kept in ascending id order; `nextId` is the id the
   * database hands the next inserted question, above every id in use.
   */
  datatype Store = Store(questions: seq<Question>, categories: seq<Category>, nextId: int)

  predicate Valid(st: Store) {
    && AscendingIds(st.questions)
    && forall i :: 0 <= i < |st.questions| ==> st.questions[i].id < st.nextId
  }

  /** `Question.format`: the dictionary of the five columns. */
  function Format(q: Question): Json {
    JObj([("id", JNum(q.id)), ("question", JStr(q.question)), ("answer", JStr(q.answer)),
          ("category", JStr(q.category)), ("difficulty", JNum(q.difficulty))])
  }

  /** Reads a question back out of its formatted dictionary. */
  function Unformat(j: Json): Option<Question> {
    if !j.JObj? then None
    else
      var id := Get(j.members, "id");
      var question := Get(j.members, "question");
      var answer := Get(j.members, "answer");
      var category := Get(j.members, "category");
      var difficulty := Get(j.members, "difficulty");
      if id.JNum? && question.JStr? && answer.JStr? && category.JStr? && difficulty.JNum? then
        Some(Question(id.n, question.s, answer.s, category.s, difficulty.n))
      else None
  }

  /** Appending a member: the new member wins for its own key and hides nothing else. */
  lemma GetAppend(members: seq<(string, Json)>, k: string, v: Json, key: string)
    ensures Get(members + [(k, v)], key) == if k == key then v else Get(members, key)
  {
    assert (members + [(k, v)])[..|members|] == members;
  }

  /** Every column reaches the formatted dictionary unchanged under its own key. */
  lemma FormatRoundTrip(q: Question)
    ensures Unformat(Format(q)) == Some(q)
  {
    var m1 := [("id", JNum(q.id))];
    var m2 := m1 + [("question", JStr(q.question))];
    var m3 := m2 + [("answer", JStr(q.answer))];
    var m4 := m3 + [("category", JStr(q.category))];
    var m5 := m4 + [("difficulty", JNum(q.difficulty))];
    assert Format(q).members == m5;
    GetAppend([], "id", JNum(q.id), "id");
    assert [] + [("id", JNum(q.id))] == m1;
    GetAppend(m4, "difficulty", JNum(q.difficulty), "id");
    GetAppend(m4, "difficulty", JNum(q.difficulty), "question");
    GetAppend(m4, "difficulty", JNum(q.difficulty), "answer");
    GetAppend(m4, "difficulty", JNum(q.difficulty), "category");
    GetAppend(m4, "difficulty", JNum(q.difficulty), "difficulty");
    GetAppend(m3, "category", JStr(q.category), "id");
    GetAppend(m3, "category", JStr(q.category), "question");
    GetAppend(m3, "category", JStr(q.category), "answer");
    GetAppend(m3, "category", JStr(q.category), "category");
    GetAppend(m2, "answer", JStr(q.answer), "id");
    GetAppend(m2, "answer", JStr(q.answer), "question");
    GetAppend(m2, "answer", JStr(q.answer), "answer");
    GetAppend(m1, "question", JStr(q.question), "id");
    GetAppend(m1, "question", JStr(q.question), "question");
  }

  /** Distinct questions format to distinct dictionaries. */
  lemma FormatInjective(q1: Question, q2: Question)
    requires Format(q1) == Format(q2)
    ensures q1 == q2
  {
    FormatRoundTrip(q1);
    FormatRoundTrip(q2);
  }

  /** `[question.format() for question in selection]`. */
  function FormatAll(qs: seq<Question>): (js: seq<Json>)
    ensures |js| == |qs|
    ensures forall i :: 0 <= i < |qs| ==> js[i] == Format(qs[i])
  {
    if |qs| == 0 then [] else FormatAll(qs[..|qs| - 1]) + [Format(qs[|qs| - 1])]
  }

  /** `str(category)` as the selector compares it with the string column. */
  function CategoryKey(category: int): string {
    IntToString(category)
  }

  /**
   * The rows of `qs` that `keep` accepts, in their original order: a `filter` over the
   * table. Over an id-ordered table the result is id-ordered.
   */
  function Where(qs: seq<Question>, keep: Question -> bool): (r: seq<Question>)
    ensures forall q :: q in r <==> q in qs && keep(q)
    ensures |r| <= |qs|
    ensures AscendingIds(qs) ==> AscendingIds(r)
  {
    if |qs| == 0 then []
    else
      var rest := Where(qs[1..], keep);
      if keep(qs[0]) then
        WhereStaysAbove(qs, rest);
        [qs[0]] + rest
      else rest
  }

  /** Every row after the first of an id-ordered table has a larger id than the first. */
  lemma WhereStaysAbove(qs: seq<Question>, rest: seq<Question>)
    requires |qs| > 0
    requires forall q :: q in rest ==> q in qs[1..]
    ensures AscendingIds(qs) ==> forall q :: q in rest ==> qs[0].id < q.id
  {
    if AscendingIds(qs) {
      forall q | q in rest
        ensures qs[0].id < q.id
      {
        var k :| 0 <= k < |qs[1..]| && qs[1..][k] == q;
        assert qs[k + 1] == q;
      }
    }
  }

  /**
   * The rows `getRandomQuestion` draws from: category equal to `key`, id not among
   * `previous`, in the order of `qs`.
   */
  function Candidates(qs: seq<Question>, key: string, previous: seq<int>): (c: seq<Question>)
    ensures forall q :: q in c <==> q in qs && q.category == key && q.id !in previous
    ensures AscendingIds(qs) ==> AscendingIds(c)
  {
    Where(qs, (q: Question) => q.category == key && q.id !in previous)
  }

  /**
   * The intended selection: no candidate gives `None`; otherwise the candidate at the drawn
   * index, where the draw ranges over every candidate position.
   */
  function Select(c: seq<Question>, draw: int): (r: Option<Json>)
    requires |c| > 0 ==> 0 <= draw < |c|
    ensures r.None? <==> |c| == 0
    ensures |c| == 1 ==> r == Some(Format(c[0]))
    ensures r.Some? ==> exists i :: 0 <= i < |c| && r.value == Format(c[i])
  {
    if |c| == 0 then None else Some(Format(c[draw]))
  }

  /** Every candidate is returned for some admissible draw. */
  lemma SelectReachesEvery(c: seq<Question>, i: int)
    requires 0 <= i < |c|
    ensures exists draw :: 0 <= draw < |c| && Select(c, draw) == Some(Format(c[i]))
  {
    assert Select(c, i) == Some(Format(c[i]));
  }

  /**
   * `getRandomQuestion` as written: with more than one candidate the index comes from
   * `random.randrange(len(questions) - 1)`, which `draw` stands for; with one candidate
   * that candidate; with none, `None`.
   */
  function SelectAsWritten(c: seq<Question>, draw: int): (r: Option<Json>)
    requires |c| > 1 ==> 0 <= draw < |c| - 1
    ensures r.None? <==> |c| == 0
    ensures |c| == 1 ==> r == Some(Format(c[0]))
    ensures |c| > 1 ==> exists i :: 0 <= i < |c| - 1 && r == Some(Format(c[i]))
  {
    if |c| > 1 then Some(Format(c[draw]))
    else if |c| == 1 then Some(Format(c[0]))
    else None
  }

  /** As written, the last of two or more id-ordered candidates is never returned. */
  lemma AsWrittenSkipsLast(c: seq<Question>, draw: int)
    requires |c| > 1 && 0 <= draw < |c| - 1
    requires AscendingIds(c)
    ensures SelectAsWritten(c, draw) != Some(Format(c[|c| - 1]))
  {
    assert Format(c[draw]).members[0] != Format(c[|c| - 1]).members[0];
  }

  /** Two candidates: every admissible draw returns the first, never the second. */
  lemma AsWrittenTwoCandidates(a: Question, b: Question, draw: int)
    requires a.id < b.id
    requires 0 <= draw < 1
    ensures SelectAsWritten([a, b], draw) == Some(Format(a))
    ensures SelectAsWritten([a, b], draw) != Some(Format(b))
  {
    AsWrittenSkipsLast([a, b], draw);
  }

  /**
   * `Question.getRandomQuestion(last_questions, category)` with the intended exclusion of
   * the previously served ids: `None` exactly when no question of the category is left;
   * otherwise a formatted question of that category that was not served before.
   */
  function RandomQuestion(qs: seq<Question>, previous: seq<int>, category: int, draw: int): (r: Option<Json>)
    requires var n := |Candidates(qs, CategoryKey(category), previous)|; n > 0 ==> 0 <= draw < n
    ensures r.None? <==> forall q :: q in qs ==> q.category != CategoryKey(category) || q.id in previous
    ensures r.Some? ==> exists q :: q in qs && r.value == Format(q)
                                    && q.category == CategoryKey(category) && q.id !in previous
  {
    var c := Candidates(qs, CategoryKey(category), previous);
    var r := Select(c, draw);
    if r.Some? then
      var i :| 0 <= i < |c| && r.value == Format(c[i]);
      assert c[i] in c;
      r
    else
      r
  }
}
