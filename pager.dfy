/** `raw_data` (bikeshare.py:189-213): after a first "yes", show the rows
    five at a time, moving on while the user keeps answering "yes" and rows
    remain. The user's answers are a parameter (`true` for "yes"); rows are
    named by their position. */
module Pager {

  const PAGE_SIZE: nat := 5

  function Min(a: int, b: int): int { if a <= b then a else b }

  /** The positions `lo`, `lo + 1`, ..., `hi - 1`. */
  function Range(lo: nat, hi: nat): (r: seq<nat>)
    ensures |r| == if lo <= hi then hi - lo else 0
    ensures forall i :: 0 <= i < |r| ==> r[i] == lo + i
    decreases hi - lo
  {
    if lo >= hi then [] else [lo] + Range(lo + 1, hi)
  }

  lemma {:induction false} RangeAppend(lo: nat, mid: nat, hi: nat)
    requires lo <= mid <= hi
    ensures Range(lo, mid) + Range(mid, hi) == Range(lo, hi)
  {
    var l, r := Range(lo, mid) + Range(mid, hi), Range(lo, hi);
    assert |l| == |r|;
    forall i | 0 <= i < |l|
      ensures l[i] == r[i]
    {
      if i >= mid - lo {
        assert l[i] == Range(mid, hi)[i - (mid - lo)];
      }
    }
  }

  /** The number of pages `n` rows fill: ceil(n / 5). */
  function PageCount(n: nat): nat {
    (n + PAGE_SIZE - 1) / PAGE_SIZE
  }

  /** What one page does as written: `df_ordered_index.loc[item]` for
      every `item` in `range(offset, offset + 5)`. Past the last row, `.loc`
      raises `KeyError` after printing the rows that exist. */
  datatype PageOutcome = Printed(rows: seq<nat>) | MissingLabel(printed: seq<nat>, missing: nat)

  function PageAsWritten(n: nat, offset: nat): (r: PageOutcome)
    requires offset < n
    ensures r.Printed? <==> offset + PAGE_SIZE <= n
  {
    if offset + PAGE_SIZE <= n then Printed(Range(offset, offset + PAGE_SIZE))
    else MissingLabel(Range(offset, n), n)
  }

  /** As written, every table whose size is not a multiple of five makes
      the last page raise: with 7 rows the second page prints rows 5 and 6
      and then fails on label 7. */
  lemma ShortLastPageRaises(n: nat)
    requires n % PAGE_SIZE != 0
    ensures PageAsWritten(n, n - n % PAGE_SIZE).MissingLabel?
    ensures PageAsWritten(n, n - n % PAGE_SIZE).missing == n
    ensures PageAsWritten(7, 5) == MissingLabel([5, 6], 7)
  {
    assert Range(5, 7) == [5, 6];
  }

  /** One page clamped to the table: the rows from `offset`, at most five. */
  function Page(n: nat, offset: nat): (r: seq<nat>)
    requires offset < n
    ensures 0 < |r| <= PAGE_SIZE
    ensures forall i :: 0 <= i < |r| ==> r[i] == offset + i
    ensures PageAsWritten(n, offset).Printed? ==> r == PageAsWritten(n, offset).rows
    ensures PageAsWritten(n, offset).MissingLabel? ==> r == PageAsWritten(n, offset).printed
  {
    Range(offset, Min(n, offset + PAGE_SIZE))
  }

  /** The last page holds the remainder of the rows, or a full five. */
  lemma LastPageSize(n: nat)
    requires n > 0
    ensures PAGE_SIZE * (PageCount(n) - 1) < n
    ensures |Page(n, PAGE_SIZE * (PageCount(n) - 1))| == if n % PAGE_SIZE == 0 then PAGE_SIZE else n % PAGE_SIZE
  {
  }

  /** How many of the answers, from the first, are "yes". */
  function LeadingYes(answers: seq<bool>): nat {
    if answers == [] || !answers[0] then 0 else 1 + LeadingYes(answers[1..])
  }

  lemma {:induction false} LeadingYesExactly(answers: seq<bool>, m: nat)
    requires m <= |answers| && forall j :: 0 <= j < m ==> answers[j]
    ensures LeadingYes(answers) >= m
    ensures (m == |answers| || !answers[m]) ==> LeadingYes(answers) == m
  {
    if m > 0 {
      LeadingYesExactly(answers[1..], m - 1);
    }
  }

  /** How many pages the user sees: none unless the first answer is "yes",
      then one more for each further "yes", up to the last page. */
  function PagesShown(n: nat, answers: seq<bool>): nat {
    if answers == [] || !answers[0] then 0
    else Min(PageCount(n), 1 + LeadingYes(answers[1..]))
  }

  /** The paging loop of `raw_data`, with each page clamped to the table;
      `offset` is the final `df_index`: past the end, or the page at which
      the user said "no".
      `answers[0]` answers "see the raw data?", `answers[k]` answers "see
      the next 5?" after page `k`; a missing answer counts as "no". */
  method RawData(n: nat, answers: seq<bool>) returns (shown: seq<nat>, pages: nat, offset: nat)
    ensures pages == PagesShown(n, answers)
    ensures shown == Range(0, Min(n, PAGE_SIZE * pages))
    ensures offset % PAGE_SIZE == 0 && offset <= PAGE_SIZE * pages
    ensures offset >= n ==> offset == PAGE_SIZE * pages
    ensures offset < n ==> offset == if pages == 0 then 0 else PAGE_SIZE * (pages - 1)
    ensures pages > 0 ==>
      offset == if pages < |answers| && answers[pages] then PAGE_SIZE * pages else PAGE_SIZE * (pages - 1)
    ensures offset < n ==> pages >= |answers| || !answers[pages]
  {
    shown, pages, offset := [], 0, 0;
    if answers == [] || !answers[0] {
      return;
    }
    var k := 1;
    while offset < n
      invariant offset == PAGE_SIZE * pages && k == pages + 1
      invariant pages <= PageCount(n)
      invariant k <= |answers| && forall j :: 1 <= j < k ==> answers[j]
      invariant shown == Range(0, Min(n, offset))
      decreases n - offset
    {
      RangeAppend(0, offset, Min(n, offset + PAGE_SIZE));
      shown := shown + Page(n, offset);
      pages := pages + 1;
      if k >= |answers| || !answers[k] {
        LeadingYesExactly(answers[1..], k - 1);
        assert offset == PAGE_SIZE * (pages - 1);
        return;
      }
      k := k + 1;
      offset := offset + PAGE_SIZE;
    }
    LeadingYesExactly(answers[1..], k - 1);
    assert pages > 0 ==> pages < |answers| && answers[pages];
  }

  /** Answering "yes" throughout shows every row once, in order, in
      ceil(n / 5) pages. */
  lemma AllYesShowsEveryRow(n: nat, answers: seq<bool>)
    requires |answers| > PageCount(n) && forall j :: 0 <= j < |answers| ==> answers[j]
    ensures PagesShown(n, answers) == PageCount(n)
    ensures Min(n, PAGE_SIZE * PagesShown(n, answers)) == n
  {
    LeadingYesExactly(answers[1..], |answers| - 1);
  }
}
