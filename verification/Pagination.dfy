/** Fixed-size pages over an ordered result set, with Python's slicing rules. */
module Pagination {

  /** Page size of every paginated listing. */
  const QuestionsPerPage: int := 10

  /** Python's normalisation of one slice bound against a sequence of length `len`:
      a negative bound counts from the end, and the result is clamped to `[0, len]`. */
  function SliceBound(i: int, len: nat): (r: nat)
    ensures r <= len
  {
    if i < 0 then (if i + len < 0 then 0 else i + len)
    else if i < len then i else len
  }

  /** `s[start:end]` as Python evaluates it. */
  function PySlice<T>(s: seq<T>, start: int, end: int): (r: seq<T>)
    ensures 0 <= start <= end ==> r == s[SliceBound(start, |s|)..SliceBound(end, |s|)]
  {
    var lo, hi := SliceBound(start, |s|), SliceBound(end, |s|);
    if lo < hi then s[lo..hi] else []
  }

  /** The first index of page `page` (1-based). */
  function PageStart(page: int): int {
    (page - 1) * QuestionsPerPage
  }

  /** Page `page` of `items`: `items[start:start + 10]` with `start = (page - 1) * 10`.
      Page 0 is always empty, and a negative page counts from the end of the list,
      as Python's slicing does. */
  function Paginate<T>(items: seq<T>, page: int): (r: seq<T>)
    ensures |r| <= QuestionsPerPage
    ensures forall x :: x in r ==> x in items
    ensures page >= 1 ==> |r| == if |items| <= PageStart(page) then 0
                                 else if |items| - PageStart(page) < QuestionsPerPage then |items| - PageStart(page)
                                 else QuestionsPerPage
    ensures page >= 1 ==> forall k :: 0 <= k < |r| ==> r[k] == items[PageStart(page) + k]
    ensures page >= 1 ==> (r == [] <==> |items| <= PageStart(page))
    ensures page == 0 ==> r == []
    ensures page <= -1 ==>
              var lo := if |items| + PageStart(page) < 0 then 0 else |items| + PageStart(page);
              var hi := if |items| + PageStart(page + 1) < 0 then 0 else |items| + PageStart(page + 1);
              r == items[lo..hi]
  {
    var start := PageStart(page);
    var end := start + QuestionsPerPage;
    PySlice(items, start, end)
  }

  /** The number of pages a list of `len` items fills, `ceil(len / 10)`. */
  function PageCount(len: nat): nat {
    (len + QuestionsPerPage - 1) / QuestionsPerPage
  }

  /** Pages 1 to `n` of `items`, concatenated in order. */
  function Pages<T>(items: seq<T>, n: nat): seq<T> {
    if n == 0 then [] else Pages(items, n - 1) + Paginate(items, n)
  }

  /** Pages 1 to `n` together are exactly the first `10 * n` items (or all of them). */
  lemma {:induction false} PagesArePrefix<T>(items: seq<T>, n: nat)
    ensures Pages(items, n) == items[..if n * QuestionsPerPage <= |items| then n * QuestionsPerPage else |items|]
  {
    if n > 0 {
      PagesArePrefix(items, n - 1);
      var lo := if PageStart(n) <= |items| then PageStart(n) else |items|;
      var hi := if n * QuestionsPerPage <= |items| then n * QuestionsPerPage else |items|;
      assert Paginate(items, n) == items[lo..hi];
      assert items[..lo] + items[lo..hi] == items[..hi];
    }
  }

  /** Pages 1 to `ceil(L / 10)` partition the list: concatenated they give it back in
      order, none of them is empty, and every later page is empty. */
  lemma PagesPartition<T>(items: seq<T>)
    ensures Pages(items, PageCount(|items|)) == items
    ensures forall page :: 1 <= page <= PageCount(|items|) ==> Paginate(items, page) != []
    ensures forall page :: page > PageCount(|items|) ==> Paginate(items, page) == []
  {
    var n := PageCount(|items|);
    PagesArePrefix(items, n);
    assert n * QuestionsPerPage >= |items|;
    assert items[..|items|] == items;
  }
}
