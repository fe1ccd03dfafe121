/**
 * The outcome rules of the trivia endpoints: which status a request ends in, what a
 * successful response carries, and how the database changes.
 */
module TriviaApi {
  import opened Wrappers
  import opened Text
  import opened Json
  import opened Http
  import opened Paginator
  import opened TriviaModels
  import opened Sequences

  /** The payload of a successful response. */
  datatype Payload =
    | CategoryList(table: map<int, string>)
    | QuestionPage(questions: seq<Json>, total: nat, categories: Option<map<int, string>>,
                   currentCategory: Option<string>)
    | Deleted(id: int)
    | Created(id: int)
    | QuizQuestion(question: Option<Json>)

  /** A reply together with the database after the request. */
  datatype Exchange = Exchange(reply: Reply<Payload>, store: Store)

  /**
   * `paginate_questions(request, selection)`: the formatted questions of the requested page.
   * For a page from 1 on they are the formatted rows at positions `[start, start + 10)` that
   * exist, in order; an absent or unparsable page argument reads as page 1.
   */
  function PaginateQuestions(selection: seq<Question>, arg: PageArg): (r: seq<Json>)
    ensures |r| <= QuestionsPerPage
    ensures forall j :: j in r ==> exists q :: q in selection && j == Format(q)
    ensures PageNumber(arg) >= 1 ==>
      forall i :: 0 <= i < |r| ==> PageStart(PageNumber(arg)) + i < |selection|
                                    && r[i] == Format(selection[PageStart(PageNumber(arg)) + i])
    ensures PageNumber(arg) >= 1 ==> (r == [] <==> |selection| <= PageStart(PageNumber(arg)))
    ensures PageNumber(arg) >= 1 ==>
      |r| == (if |selection| <= PageStart(PageNumber(arg)) then 0
              else if |selection| - PageStart(PageNumber(arg)) < QuestionsPerPage
              then |selection| - PageStart(PageNumber(arg))
              else QuestionsPerPage)
  {
    Page(FormatAll(selection), PageNumber(arg))
  }

  /**
   * `{category.id: category.type for category in selection}`: one entry per category id,
   * the later row winning for a repeated id.
   */
  function CategoryTable(cats: seq<Category>): (m: map<int, string>)
    ensures m.Keys == set c | c in cats :: c.id
    ensures forall id :: id in m ==> exists c :: c in cats && c.id == id && m[id] == c.kind
  {
    if |cats| == 0 then map[]
    else
      var last := cats[|cats| - 1];
      assert forall c :: c in cats <==> c in cats[..|cats| - 1] || c == last;
      CategoryTable(cats[..|cats| - 1])[last.id := last.kind]
  }

  /** `Category.query.get(id)`: the category row with that id, if any. */
  function FindCategory(cats: seq<Category>, id: int): (r: Option<Category>)
    ensures r.None? <==> forall c :: c in cats ==> c.id != id
    ensures r.Some? ==> r.value in cats && r.value.id == id
  {
    if |cats| == 0 then None
    else if cats[0].id == id then Some(cats[0])
    else FindCategory(cats[1..], id)
  }

  /**
   * GET /categories. The handler has no `try`, so a failing store escapes as a 500; no
   * category at all is a 404.
   */
  function GetAllCategories(st: Store, storeFails: bool): (r: Reply<Payload>)
    ensures storeFails ==> r == Abort(ServerError)
    ensures !storeFails ==> (r == Abort(NotFound) <==> |st.categories| == 0)
    ensures r.Success? <==> !storeFails && |st.categories| > 0
    ensures r.Success? ==> r.body == CategoryList(CategoryTable(st.categories))
    ensures r.Success? ==> r.body.table.Keys == set c | c in st.categories :: c.id
  {
    if storeFails then Abort(ServerError)
    else
      var table := CategoryTable(st.categories);
      assert |st.categories| > 0 ==> st.categories[0].id in table;
      if |table| == 0 then Abort(NotFound)
      else Success(CategoryList(table))
  }

  /**
   * GET /questions: the requested page of all questions in id order. A failing store is a
   * 422; an empty page is a 404; otherwise the page with the total count of questions.
   */
  function ListQuestions(st: Store, arg: PageArg, storeFails: bool): (r: Reply<Payload>)
    ensures storeFails ==> r == Abort(Unprocessable)
    ensures !storeFails ==> (r == Abort(NotFound) <==> PaginateQuestions(st.questions, arg) == [])
    ensures r.Success? <==> !storeFails && PaginateQuestions(st.questions, arg) != []
    ensures r.Success? ==>
      && r.body.QuestionPage?
      && r.body.questions == PaginateQuestions(st.questions, arg)
      && 0 < |r.body.questions|
      && r.body.total == |st.questions|
      && r.body.categories == Some(CategoryTable(st.categories))
      && r.body.currentCategory.None?
  {
    if storeFails then Abort(Unprocessable)
    else
      var page := PaginateQuestions(st.questions, arg);
      if |page| == 0 then Abort(NotFound)
      else Success(QuestionPage(page, |st.questions|, Some(CategoryTable(st.categories)), None))
  }

  /** A missing or unparsable page argument gives the same response as page 1. */
  lemma ListDefaultsToFirstPage(st: Store, text: string, storeFails: bool)
    ensures ListQuestions(st, NoPage, storeFails) == ListQuestions(st, PageInt(1), storeFails)
    ensures ListQuestions(st, NotAnInt(text), storeFails) == ListQuestions(st, PageInt(1), storeFails)
  {
  }

  /**
   * With 23 questions, page 1 holds 10 questions, page 3 holds the last 3, and page 4 is
   * a 404.
   */
  lemma ListTwentyThree(st: Store)
    requires |st.questions| == 23
    ensures ListQuestions(st, PageInt(1), false).Success?
    ensures |ListQuestions(st, PageInt(1), false).body.questions| == 10
    ensures ListQuestions(st, PageInt(3), false).Success?
    ensures ListQuestions(st, PageInt(3), false).body.questions == FormatAll(st.questions[20..])
    ensures ListQuestions(st, PageInt(4), false) == Abort(NotFound)
  {
    var p3 := PaginateQuestions(st.questions, PageInt(3));
    assert |p3| == 3;
    assert p3 == FormatAll(st.questions[20..]);
  }

  /**
   * DELETE /questions/<id>: an unknown id is a 404, a failing store a 422, and neither
   * changes the database; otherwise exactly the row with that id is gone.
   */
  function DeleteQuestion(st: Store, id: int, storeFails: bool): (x: Exchange)
    requires Valid(st)
    ensures Valid(x.store)
    ensures x.reply.Abort? ==> x.store == st
    ensures storeFails ==> x.reply == Abort(Unprocessable)
    ensures !storeFails ==> (x.reply == Abort(NotFound) <==> forall q :: q in st.questions ==> q.id != id)
    ensures x.reply.Success? <==> !storeFails && exists q :: q in st.questions && q.id == id
    ensures x.reply.Success? ==>
      && x.reply == Success(Deleted(id))
      && x.store.categories == st.categories && x.store.nextId == st.nextId
      && forall q :: q in x.store.questions <==> q in st.questions && q.id != id
  {
    if storeFails then Exchange(Abort(Unprocessable), st)
    else
      match IndexOfKey(st.questions, QuestionId, id)
      case None => Exchange(Abort(NotFound), st)
      case Some(i) =>
        var rest := RemoveAt(st.questions, i);
        RemoveKeyed(st.questions, QuestionId, i);
        Exchange(Success(Deleted(id)), Store(rest, st.categories, st.nextId))
  }

  /** The body fields `createNewQuestion` reads; `JNull` stands for `None`. */
  datatype QuestionFields = QuestionFields(question: Json, answer: Json, difficulty: Json,
                                           category: Json, searchTerm: Json)

  /**
   * `body.get(...)` for each field. A missing body leaves every field `None`; a body that is
   * JSON but not an object makes `.get` raise (`None`).
   */
  function ReadQuestionFields(body: Json): Option<QuestionFields> {
    match body
    case JNull => Some(QuestionFields(JNull, JNull, JNull, JNull, JNull))
    case JObj(m) => Some(QuestionFields(Get(m, "question"), Get(m, "answer"), Get(m, "difficulty"),
                                        Get(m, "category"), Get(m, "searchTerm")))
    case _ => None
  }

  /**
   * The row the insert stores under id `id`: text columns take strings, the category
   * column also takes a number as its decimal text, the difficulty takes a number. Any
   * other JSON type is a write the database rejects (`None`).
   */
  function NewRow(id: int, f: QuestionFields): (r: Option<Question>)
    ensures r.Some? <==>
      f.question.JStr? && f.answer.JStr? && f.difficulty.JNum? && (f.category.JStr? || f.category.JNum?)
    ensures r.Some? ==>
      && r.value.id == id
      && f.question == JStr(r.value.question) && f.answer == JStr(r.value.answer)
      && f.difficulty == JNum(r.value.difficulty)
      && (f.category == JStr(r.value.category)
          || (f.category.JNum? && r.value.category == IntToString(f.category.n)))
  {
    if f.question.JStr? && f.answer.JStr? && f.difficulty.JNum? && (f.category.JStr? || f.category.JNum?) then
      var category := if f.category.JStr? then f.category.s else IntToString(f.category.n);
      Some(Question(id, f.question.s, f.answer.s, category, f.difficulty.n))
    else None
  }

  /**
   * The creation branch of POST /questions: any of the four fields missing is a 422, and
   * so is a failing or rejected write; none of them changes the database. A successful
   * insert appends one row under the next id and answers with that id.
   */
  function CreateQuestion(st: Store, f: QuestionFields, storeFails: bool): (x: Exchange)
    requires Valid(st)
    ensures Valid(x.store)
    ensures x.reply.Abort? ==> x.reply == Abort(Unprocessable) && x.store == st
    ensures (f.question == JNull || f.answer == JNull || f.difficulty == JNull || f.category == JNull)
            ==> x.reply == Abort(Unprocessable)
    ensures storeFails ==> x == Exchange(Abort(Unprocessable), st)
    ensures x.reply.Success? <==> !storeFails && NewRow(st.nextId, f).Some?
    ensures x.reply.Success? ==>
      && x.reply == Success(Created(st.nextId))
      && x.store.categories == st.categories
      && x.store.nextId > st.nextId
      && exists q :: x.store.questions == st.questions + [q] && NewRow(st.nextId, f) == Some(q)
  {
    if f.question == JNull || f.answer == JNull || f.difficulty == JNull || f.category == JNull then
      Exchange(Abort(Unprocessable), st)
    else if storeFails then Exchange(Abort(Unprocessable), st)
    else
      match NewRow(st.nextId, f)
      case None => Exchange(Abort(Unprocessable), st)
      case Some(q) => Exchange(Success(Created(st.nextId)), Store(st.questions + [q], st.categories, st.nextId + 1))
  }

  /**
   * The search branch of POST /questions. `matches` stands for the database's
   * case-insensitive `ILIKE '%term%'` test of the question text. No match is a 404; with
   * matches the reply is the requested page of them (possibly empty) and their count.
   */
  function SearchQuestions(st: Store, arg: PageArg, matches: Question -> bool, storeFails: bool): (r: Reply<Payload>)
    ensures storeFails ==> r == Abort(Unprocessable)
    ensures !storeFails ==> (r == Abort(NotFound) <==> forall q :: q in st.questions ==> !matches(q))
    ensures r.Success? <==> !storeFails && exists q :: q in st.questions && matches(q)
    ensures r.Success? ==>
      && r.body.QuestionPage?
      && r.body.total == |Where(st.questions, matches)| > 0
      && r.body.questions == PaginateQuestions(Where(st.questions, matches), arg)
      && r.body.categories.None? && r.body.currentCategory.None?
  {
    if storeFails then Abort(Unprocessable)
    else
      var hits := Where(st.questions, matches);
      if |hits| == 0 then
        Abort(NotFound)
      else
        assert hits[0] in hits;
        Success(QuestionPage(PaginateQuestions(hits, arg), |hits|, None, None))
  }

  /**
   * POST /questions: a `searchTerm` selects the search, otherwise the creation. A body that
   * is JSON but not an object escapes as a 500.
   */
  function PostQuestions(st: Store, body: Json, arg: PageArg, matches: Question -> bool, storeFails: bool): (x: Exchange)
    requires Valid(st)
    ensures Valid(x.store)
    ensures ReadQuestionFields(body).None? ==> x == Exchange(Abort(ServerError), st)
    ensures ReadQuestionFields(body).Some? && ReadQuestionFields(body).value.searchTerm != JNull ==>
      x == Exchange(SearchQuestions(st, arg, matches, storeFails), st)
    ensures ReadQuestionFields(body).Some? && ReadQuestionFields(body).value.searchTerm == JNull ==>
      x == CreateQuestion(st, ReadQuestionFields(body).value, storeFails)
  {
    match ReadQuestionFields(body)
    case None => Exchange(Abort(ServerError), st)
    case Some(f) =>
      if f.searchTerm != JNull then Exchange(SearchQuestions(st, arg, matches, storeFails), st)
      else CreateQuestion(st, f, storeFails)
  }

  /**
   * A body with a `searchTerm` never inserts, even when all four creation fields are
   * present too: the database is unchanged and the reply is never a creation.
   */
  lemma SearchTermWins(st: Store, m: seq<(string, Json)>, arg: PageArg, matches: Question -> bool, storeFails: bool)
    requires Valid(st)
    requires Get(m, "searchTerm") != JNull
    ensures PostQuestions(st, JObj(m), arg, matches, storeFails).store == st
    ensures !PostQuestions(st, JObj(m), arg, matches, storeFails).reply.Success?
            || PostQuestions(st, JObj(m), arg, matches, storeFails).reply.body.QuestionPage?
  {
  }

  /** Without a `searchTerm`, a body lacking any of the four fields is a 422 and inserts nothing. */
  lemma MissingFieldIsUnprocessable(st: Store, m: seq<(string, Json)>, arg: PageArg, matches: Question -> bool, storeFails: bool)
    requires Valid(st)
    requires Get(m, "searchTerm") == JNull
    requires Get(m, "question") == JNull || Get(m, "answer") == JNull
          || Get(m, "difficulty") == JNull || Get(m, "category") == JNull
    ensures PostQuestions(st, JObj(m), arg, matches, storeFails) == Exchange(Abort(Unprocessable), st)
  {
  }

  /** With matches, a page past the end is a 200 with no questions and the full match count. */
  lemma SearchPastTheEnd(st: Store, page: int, matches: Question -> bool)
    requires page >= 1
    requires exists q :: q in st.questions && matches(q)
    requires |Where(st.questions, matches)| <= PageStart(page)
    ensures SearchQuestions(st, PageInt(page), matches, false)
            == Success(QuestionPage([], |Where(st.questions, matches)|, None, None))
  {
  }

  /** `Question.query.filter_by(category = str(id)).order_by(Question.id)`. */
  function InCategory(qs: seq<Question>, catId: int): (r: seq<Question>)
    ensures forall q :: q in r <==> q in qs && q.category == CategoryKey(catId)
    ensures AscendingIds(qs) ==> AscendingIds(r)
  {
    Where(qs, (q: Question) => q.category == CategoryKey(catId))
  }

  /**
   * GET /categories/<id>/questions: the requested page of the questions whose category is
   * `str(id)`. An empty page is a 404; a non-empty page of a category id with no category
   * row makes `current_category.type` raise, a 422.
   */
  function QuestionsByCategory(st: Store, catId: nat, arg: PageArg, storeFails: bool): (r: Reply<Payload>)
    ensures storeFails ==> r == Abort(Unprocessable)
    ensures !storeFails ==> (r == Abort(NotFound) <==> PaginateQuestions(InCategory(st.questions, catId), arg) == [])
    ensures (&& !storeFails
             && PaginateQuestions(InCategory(st.questions, catId), arg) != []
             && forall c :: c in st.categories ==> c.id != catId)
            ==> r == Abort(Unprocessable)
    ensures r.Success? <==>
      && !storeFails
      && PaginateQuestions(InCategory(st.questions, catId), arg) != []
      && exists c :: c in st.categories && c.id == catId
    ensures r.Success? ==>
      && r.body.QuestionPage?
      && r.body.questions == PaginateQuestions(InCategory(st.questions, catId), arg)
      && (forall j :: j in r.body.questions ==> exists q :: q in st.questions && j == Format(q) && q.category == CategoryKey(catId))
      && r.body.total == |InCategory(st.questions, catId)|
      && r.body.categories.None?
      && exists c :: c in st.categories && c.id == catId && r.body.currentCategory == Some(c.kind)
  {
    if storeFails then Abort(Unprocessable)
    else
      var selection := InCategory(st.questions, catId);
      var current := FindCategory(st.categories, catId);
      var page := PaginateQuestions(selection, arg);
      if |page| == 0 then Abort(NotFound)
      else if current.None? then Abort(Unprocessable)
      else
        Success(QuestionPage(page, |selection|, None, Some(current.value.kind)))
  }

  /** The numbers a `previous_questions` value lists, or `None` when one of them is not a number. */
  function NumbersOf(vs: seq<Json>): (r: Option<seq<int>>)
    ensures r.Some? <==> forall i :: 0 <= i < |vs| ==> vs[i].JNum?
    ensures r.Some? ==> |r.value| == |vs| && forall i :: 0 <= i < |vs| ==> vs[i] == JNum(r.value[i])
  {
    if |vs| == 0 then Some([])
    else
      match (vs[0], NumbersOf(vs[1..]))
      case (JNum(n), Some(rest)) => Some([n] + rest)
      case _ => None
  }

  /**
   * The ids the selector excludes: the values `for question in last_questions` visits.
   * Iterating `None` or a number raises, and comparing the integer id column with a
   * non-number is a query the database rejects; both give `None`.
   */
  function PreviousIds(last: Json): Option<seq<int>> {
    match Elements(last)
    case None => None
    case Some(vs) => NumbersOf(vs)
  }

  /** What `getNextQuestion` learns before the draw. */
  datatype QuizQuery = QuizQuery(category: int, known: bool, previous: seq<int>)

  /**
   * The category id as the database reads it: a number as it is, and a text holding the
   * decimal digits of an integer as that integer, so that `str(id)` is the same key for
   * both.
   */
  function CategoryNumber(id: Json): (r: Option<int>)
    ensures id.JNum? ==> r == Some(id.n)
    ensures r.Some? ==> id == JNum(r.value) || id == JStr(CategoryKey(r.value))
  {
    match id
    case JNum(n) => Some(n)
    case JStr(s) => ParseInt(s)
    case _ => None
  }

  /**
   * The reads of `getNextQuestion`: `body.get`, `quiz_category['id']`, the category
   * lookup and the exclusion list. `None` when any of them raises: a body or category that
   * is not an object, a category without `id`, an id that is neither a number nor its
   * decimal text, an exclusion list that cannot be iterated or holds a non-number.
   */
  function ReadQuiz(st: Store, body: Json): Option<QuizQuery> {
    if !body.JObj? then None
    else
      var last := Get(body.members, "previous_questions");
      var quizCategory := Get(body.members, "quiz_category");
      if !quizCategory.JObj? || "id" !in Keys(quizCategory.members) then None
      else
        match CategoryNumber(Get(quizCategory.members, "id"))
        case None => None
        case Some(n) =>
          match PreviousIds(last)
          case None => None
          case Some(previous) => Some(QuizQuery(n, FindCategory(st.categories, n).Some?, previous))
  }

  /** The candidates the draw of a quiz request ranges over (none when the request raises first). */
  function QuizCandidates(st: Store, body: Json): seq<Question> {
    match ReadQuiz(st, body)
    case None => []
    case Some(query) => Candidates(st.questions, CategoryKey(query.category), query.previous)
  }

  /**
   * POST /quizzes. An unknown category sets 404, but an exception anywhere in the handler,
   * the selector included, turns the reply into a 422. Otherwise the reply carries a question
   * of the category that was not served before, or `None` once the category is exhausted.
   * `draw` stands for the random draw over the candidates.
   */
  function NextQuestion(st: Store, body: Json, draw: int, storeFails: bool): (r: Reply<Payload>)
    requires |QuizCandidates(st, body)| > 0 ==> 0 <= draw < |QuizCandidates(st, body)|
    ensures r.Abort? ==> r.status == NotFound || r.status == Unprocessable
    ensures r == Abort(Unprocessable) <==> storeFails || ReadQuiz(st, body).None?
    ensures r == Abort(NotFound) <==> !storeFails && ReadQuiz(st, body).Some? && !ReadQuiz(st, body).value.known
    ensures r.Success? ==>
      var query := ReadQuiz(st, body).value;
      && r.body.QuizQuestion?
      && (r.body.question.None? <==>
            forall q :: q in st.questions ==> q.category != CategoryKey(query.category) || q.id in query.previous)
      && (r.body.question.Some? ==>
            exists q :: q in st.questions && r.body.question.value == Format(q)
                        && q.category == CategoryKey(query.category) && q.id !in query.previous)
  {
    if storeFails then Abort(Unprocessable)
    else
      match ReadQuiz(st, body)
      case None => Abort(Unprocessable)
      case Some(query) =>
        var question := RandomQuestion(st.questions, query.previous, query.category, draw);
        if !query.known then Abort(NotFound) else Success(QuizQuestion(question))
  }

  /**
   * A quiz request without `previous_questions` is a 422 even for an unknown category:
   * iterating `None` in the selector raises after the 404 was set.
   */
  lemma QuizWithoutPreviousIsUnprocessable(st: Store, m: seq<(string, Json)>, draw: int)
    requires Get(m, "previous_questions") == JNull
    ensures NextQuestion(st, JObj(m), draw, false) == Abort(Unprocessable)
  {
  }

  /**
   * A category id sent as the text of its number is answered as the number itself: the
   * database reads `'3'` as category 3, and `str('3')` is the key `str(3)` gives.
   */
  lemma QuizCategoryAsText(st: Store, prev: Json, kind: Json, n: int, draw: int, storeFails: bool)
    requires var body := QuizBody(prev, JNum(n), kind);
             |QuizCandidates(st, body)| > 0 ==> 0 <= draw < |QuizCandidates(st, body)|
    ensures QuizCandidates(st, QuizBody(prev, JStr(CategoryKey(n)), kind)) == QuizCandidates(st, QuizBody(prev, JNum(n), kind))
    ensures NextQuestion(st, QuizBody(prev, JStr(CategoryKey(n)), kind), draw, storeFails)
            == NextQuestion(st, QuizBody(prev, JNum(n), kind), draw, storeFails)
  {
    ParseIntRoundTrip(n);
    assert CategoryNumber(JStr(CategoryKey(n))) == CategoryNumber(JNum(n));
    SameCategorySameReads(st, prev, JStr(CategoryKey(n)), JNum(n), kind);
  }

  /** Two quiz bodies whose category ids read as the same number are read alike. */
  lemma SameCategorySameReads(st: Store, prev: Json, id: Json, id': Json, kind: Json)
    requires CategoryNumber(id) == CategoryNumber(id')
    ensures ReadQuiz(st, QuizBody(prev, id, kind)) == ReadQuiz(st, QuizBody(prev, id', kind))
  {
    QuizBodyReads(prev, id, kind);
    QuizBodyReads(prev, id', kind);
  }

  /** The body of a quiz request: the served ids and a category object with `id` and `type`. */
  function QuizBody(prev: Json, id: Json, kind: Json): Json {
    JObj([("previous_questions", prev), ("quiz_category", JObj([("id", id), ("type", kind)]))])
  }

  /** `body.get` on a quiz body finds the fields it was built from. */
  lemma QuizBodyReads(prev: Json, id: Json, kind: Json)
    ensures Get(QuizBody(prev, id, kind).members, "previous_questions") == prev
    ensures Get(QuizBody(prev, id, kind).members, "quiz_category") == JObj([("id", id), ("type", kind)])
    ensures "id" in Keys([("id", id), ("type", kind)])
    ensures Get([("id", id), ("type", kind)], "id") == id
  {
  }

  /**
   * A quiz body whose reads succeed, for a category that exists and a working store, is
   * answered with a 200.
   */
  lemma QuizReadableIsServed(st: Store, prev: Json, id: Json, kind: Json, n: int, draw: int)
    requires CategoryNumber(id) == Some(n) && PreviousIds(prev).Some?
    requires exists c :: c in st.categories && c.id == n
    requires var body := QuizBody(prev, id, kind);
             |QuizCandidates(st, body)| > 0 ==> 0 <= draw < |QuizCandidates(st, body)|
    ensures NextQuestion(st, QuizBody(prev, id, kind), draw, false).Success?
  {
    QuizBodyReads(prev, id, kind);
    assert ReadQuiz(st, QuizBody(prev, id, kind)).Some?;
  }

  /**
   * The quiz request of the test suite: ids 1, 2 and 3 served before and category `'3'` as
   * text. With category 3 present and a working store the reply is a 200, whatever the draw.
   */
  lemma QuizWithTextCategoryIsServed(st: Store)
    requires exists c :: c in st.categories && c.id == 3
    ensures var body := QuizBody(JArr([JNum(1), JNum(2), JNum(3)]), JStr("3"), JStr("Test"));
            forall draw :: (|QuizCandidates(st, body)| > 0 ==> 0 <= draw < |QuizCandidates(st, body)|) ==>
              NextQuestion(st, body, draw, false).Success?
  {
    var prev := JArr([JNum(1), JNum(2), JNum(3)]);
    var body := QuizBody(prev, JStr("3"), JStr("Test"));
    ParseIntRoundTrip(3);
    assert CategoryKey(3) == "3";
    assert CategoryNumber(JStr("3")) == Some(3);
    assert Elements(prev) == Some([JNum(1), JNum(2), JNum(3)]);
    assert PreviousIds(prev).Some?;
    forall draw | |QuizCandidates(st, body)| > 0 ==> 0 <= draw < |QuizCandidates(st, body)|
      ensures NextQuestion(st, body, draw, false).Success?
    {
      QuizReadableIsServed(st, prev, JStr("3"), JStr("Test"), 3, draw);
    }
  }

}
