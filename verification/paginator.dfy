/** The fixed-size page window of the trivia API, on top of Python's slice semantics. */
module Paginator {

  /** `QUESTIONS_PER_PAGE`. */
  const QuestionsPerPage: nat := 10

  /**
   * The `page` query argument as `request.args.get('page', 1, type=int)` reads it: an absent
   * argument and one that does not parse as an integer both give the default 1.
   */
  datatype PageArg = NoPage | NotAnInt(text: string) | PageInt(n: int)

  function PageNumber(arg: PageArg): (p: int)
    ensures arg.PageInt? ==> p == arg.n
    ensures !arg.PageInt? ==> p == 1
  {
    match arg
    case PageInt(n) => n
    case _ => 1
  }

  /** Python's normalisation of one slice bound against a sequence of length `n`. */
  function SliceBound(b: int, n: nat): (k: nat)
    ensures k <= n
  {
    if b < 0 then (if b + n < 0 then 0 else b + n)
    else if b > n then n
    else b
  }

  /** Python's `s[start:end]` (step 1), negative bounds counting from the end. */
  function PySlice<T>(s: seq<T>, start: int, end: int): (r: seq<T>)
    ensures forall x :: x in r ==> x in s
  {
    var lo := SliceBound(start, |s|);
    var hi := SliceBound(end, |s|);
    if lo < hi then s[lo..hi] else []
  }

  /** The first position of page `page`. */
  function PageStart(page: int): int {
    (page - 1) * QuestionsPerPage
  }

  /**
   * `questions[start:end]` with `start = (page - 1) * QUESTIONS_PER_PAGE` and
   * `end = start + QUESTIONS_PER_PAGE`. For a page from 1 on, the result is the items at
   * positions `[start, min(start + 10, |items|))` in their original order; a page that starts
   * at or past the end is empty.
   */
  function Page<T>(items: seq<T>, page: int): (r: seq<T>)
    ensures |r| <= QuestionsPerPage
    ensures forall x :: x in r ==> x in items
    ensures page >= 1 ==>
      && |r| == (if |items| <= PageStart(page) then 0
                 else if |items| - PageStart(page) < QuestionsPerPage then |items| - PageStart(page)
                 else QuestionsPerPage)
      && forall i :: 0 <= i < |r| ==> r[i] == items[PageStart(page) + i]
    ensures page >= 1 ==> (r == [] <==> |items| <= PageStart(page))
  {
    var start := PageStart(page);
    PySlice(items, start, start + QuestionsPerPage)
  }

  /** The number of pages a list of `n` items fills: `ceil(n / 10)`. */
  function PageCount(n: nat): nat {
    (n + QuestionsPerPage - 1) / QuestionsPerPage
  }

  /** Pages 1 to `k`, one after the other. */
  function Pages<T>(items: seq<T>, k: nat): seq<T> {
    if k == 0 then [] else Pages(items, k - 1) + Page(items, k)
  }

  /** Pages 1 to `k` together are exactly the first `min(10 * k, |items|)` items. */
  lemma {:induction false} PagesArePrefix<T>(items: seq<T>, k: nat)
    ensures Pages(items, k) == items[..if k * QuestionsPerPage <= |items| then k * QuestionsPerPage else |items|]
  {
    if k > 0 {
      PagesArePrefix(items, k - 1);
      var before := if (k - 1) * QuestionsPerPage <= |items| then (k - 1) * QuestionsPerPage else |items|;
      var after := if k * QuestionsPerPage <= |items| then k * QuestionsPerPage else |items|;
      var p := Page(items, k);
      assert |p| == after - before;
      assert items[..after] == items[..before] + p;
    }
  }

  /**
   * Reading pages 1 to `ceil(n / 10)` in turn yields every item exactly once, in order.
   */
  lemma PagesCoverAll<T>(items: seq<T>)
    ensures Pages(items, PageCount(|items|)) == items
  {
    PagesArePrefix(items, PageCount(|items|));
    assert PageCount(|items|) * QuestionsPerPage >= |items|;
  }

  /** Every page after page `ceil(n / 10)` is empty. */
  lemma PagesPastTheEnd<T>(items: seq<T>, p: int)
    requires p > PageCount(|items|)
    ensures Page(items, p) == []
  {
  }
}
