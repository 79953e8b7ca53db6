/** The two filter stages of `load_data` (bikeshare.py:82-96): an
    optional month filter, then an optional weekday filter applied to its
    result. Each stage is a boolean-mask selection, which keeps the
    matching rows in their original order. */
module Filters {
  import opened Wrappers
  import opened Text
  import opened Trips
  import opened Config

  /** The list `load_data` looks month names up in. */
  const MONTHS: seq<string> := ["january", "february", "march", "april", "may", "june"]

  /** A row mask: `df['month'] == k` or `df['day_of_week'] == name`. */
  datatype Criterion = MonthIs(k: int) | WeekdayIs(name: string)

  predicate Matches(t: Trip, c: Criterion) {
    match c
    case MonthIs(k) => t.month == k
    case WeekdayIs(name) => t.weekday == name
  }

  /** `r` can be obtained from `s` by deleting elements. */
  ghost predicate IsSubsequence<T>(r: seq<T>, s: seq<T>) {
    r == [] || (s != [] && ((r[0] == s[0] && IsSubsequence(r[1..], s[1..])) || IsSubsequence(r, s[1..])))
  }

  /** `r` consists of exactly the rows of `s` that match `c`, in their
      order in `s`: a subsequence of `s` that keeps every copy of a matching
      row and no copy of any other. */
  ghost predicate Selects(r: seq<Trip>, s: seq<Trip>, c: Criterion) {
    IsSubsequence(r, s) &&
    forall t :: multiset(r)[t] == if Matches(t, c) then multiset(s)[t] else 0
  }

  /** `Python list.index`: the first position of `x` in `s`, or `None`
      where Python raises `ValueError`. */
  function IndexOf<T(==)>(s: seq<T>, x: T): (r: Option<nat>)
    ensures r.Some? <==> x in s
    ensures r.Some? ==> r.value < |s| && s[r.value] == x && x !in s[..r.value]
  {
    if s == [] then None
    else if s[0] == x then Some(0)
    else
      match IndexOf(s[1..], x)
      case None => None
      case Some(i) => assert s[..i + 1] == [s[0]] + s[1..][..i]; Some(i + 1)
  }

  /** `months.index(month) + 1`: the month number a month name selects. */
  function MonthIndex(month: string): (r: Option<int>)
    ensures r.Some? <==> month in MONTHS
    ensures r.Some? ==> 1 <= r.value <= 6 && MONTHS[r.value - 1] == month
    ensures r.Some? ==> VALID_MONTHS[r.value - 1] == month
  {
    match IndexOf(MONTHS, month)
    case None => None
    case Some(i) => Some(i + 1)
  }

  /** Every month name maps to its own position: the numbering round-trips. */
  lemma MonthIndexRoundTrip(k: int)
    requires 1 <= k <= 6
    ensures MonthIndex(MONTHS[k - 1]) == Some(k)
  {
    var i := MonthIndex(MONTHS[k - 1]).value;
    assert MONTHS[i - 1] == MONTHS[k - 1];
  }

  /** `df[mask]` for the mask `c`. */
  function Select(s: seq<Trip>, c: Criterion): (r: seq<Trip>)
    ensures Selects(r, s, c)
    ensures forall t :: t in r ==> Matches(t, c)
  {
    if s == [] then []
    else
      var rest := Select(s[1..], c);
      assert s == [s[0]] + s[1..];
      if Matches(s[0], c) then [s[0]] + rest
      else
        assert rest == [] || rest[0] != s[0];
        rest
  }

  /** The selection is determined by what `Selects` says of it. */
  lemma {:induction false} SelectsUnique(r: seq<Trip>, s: seq<Trip>, c: Criterion)
    requires Selects(r, s, c)
    ensures r == Select(s, c)
  {
    if s == [] {
      assert |r| == |multiset(r)| == 0;
    } else {
      assert s == [s[0]] + s[1..];
      if r != [] {
        assert r == [r[0]] + r[1..];
      }
      if Matches(s[0], c) {
        // every copy of s[0] must be kept, so r cannot skip the first one
        assert multiset(r)[s[0]] == multiset(s)[s[0]] > multiset(s[1..])[s[0]];
        if IsSubsequence(r, s[1..]) {
          SubsequenceCounts(r, s[1..]);
          assert false;
        }
        assert r != [] && r[0] == s[0] && IsSubsequence(r[1..], s[1..]);
        forall t
          ensures multiset(r[1..])[t] == if Matches(t, c) then multiset(s[1..])[t] else 0
        {
          assert multiset(r)[t] == multiset{r[0]}[t] + multiset(r[1..])[t];
        }
        SelectsUnique(r[1..], s[1..], c);
      } else {
        if r != [] {
          assert r[0] in multiset(r);
          assert r[0] != s[0];
        }
        assert IsSubsequence(r, s[1..]);
        SelectsUnique(r, s[1..], c);
      }
    }
  }

  /** A subsequence holds no value more often than the sequence it was
      taken from. */
  lemma {:induction false} SubsequenceCounts<T>(r: seq<T>, s: seq<T>)
    requires IsSubsequence(r, s)
    ensures forall x :: multiset(r)[x] <= multiset(s)[x]
  {
    if r != [] {
      assert s == [s[0]] + s[1..];
      if r[0] == s[0] && IsSubsequence(r[1..], s[1..]) {
        SubsequenceCounts(r[1..], s[1..]);
        assert r == [r[0]] + r[1..];
      } else {
        SubsequenceCounts(r, s[1..]);
      }
    }
  }

  /** Selecting rows that all match already changes nothing. */
  lemma {:induction false} SelectAllMatching(s: seq<Trip>, c: Criterion)
    requires forall t :: t in s ==> Matches(t, c)
    ensures Select(s, c) == s
  {
    if s != [] {
      SelectAllMatching(s[1..], c);
    }
  }

  /** The month stage: with "all" the rows pass unchanged; otherwise the
      name is looked up in `MONTHS` (`None` where `months.index` raises) and
      the rows of that month are kept. */
  function MonthStage(rows: seq<Trip>, month: string): (r: Option<seq<Trip>>)
    ensures month == ALL ==> r == Some(rows)
    ensures r.Some? <==> month == ALL || month in MONTHS
    ensures month != ALL && r.Some? ==> Selects(r.value, rows, MonthIs(MonthIndex(month).value))
  {
    if month == ALL then Some(rows)
    else
      match MonthIndex(month)
      case None => None
      case Some(k) => Some(Select(rows, MonthIs(k)))
  }

  /** The day stage: with "all" the rows pass unchanged; otherwise the rows
      whose weekday is `day.title()` are kept. */
  function DayStage(rows: seq<Trip>, day: string): (r: seq<Trip>)
    ensures day == ALL ==> r == rows
    ensures day != ALL ==> Selects(r, rows, WeekdayIs(Title(day)))
  {
    if day == ALL then rows else Select(rows, WeekdayIs(Title(day)))
  }

  /** `load_data` after reading the file: the month stage, then the day
      stage on its result; the columns of the table are unchanged. */
  function LoadData(t: Table, month: string, day: string): (r: Option<Table>)
    ensures r.Some? <==> month == ALL || month in MONTHS
    ensures r.Some? ==> r.value.hasGender == t.hasGender && r.value.hasBirthYear == t.hasBirthYear
    ensures r.Some? ==> r.value.rows == DayStage(MonthStage(t.rows, month).value, day)
  {
    match MonthStage(t.rows, month)
    case None => None
    case Some(rows) => Some(Table(DayStage(rows, day), t.hasGender, t.hasBirthYear))
  }

  /** What survives both stages: exactly the rows matching both criteria,
      in their original order. */
  lemma {:induction false} LoadDataKeepsExactly(t: Table, month: string, day: string)
    requires month == ALL || month in MONTHS
    ensures var r := LoadData(t, month, day).value.rows;
      IsSubsequence(r, t.rows) &&
      forall x :: multiset(r)[x] ==
        if (month == ALL || x.month == MonthIndex(month).value) && (day == ALL || x.weekday == Title(day))
        then multiset(t.rows)[x] else 0
  {
    var m := MonthStage(t.rows, month).value;
    var r := DayStage(m, day);
    SubsequenceReflexive(t.rows);
    SubsequenceReflexive(m);
    SubsequenceTransitive(r, m, t.rows);
  }

  lemma {:induction false} SubsequenceReflexive<T>(s: seq<T>)
    ensures IsSubsequence(s, s)
  {
    if s != [] {
      SubsequenceReflexive(s[1..]);
    }
  }

  lemma {:induction false} SubsequenceTransitive<T>(a: seq<T>, b: seq<T>, c: seq<T>)
    requires IsSubsequence(a, b) && IsSubsequence(b, c)
    ensures IsSubsequence(a, c)
    decreases |c|
  {
    if a != [] {
      if b[0] == c[0] && IsSubsequence(b[1..], c[1..]) {
        if a[0] == b[0] && IsSubsequence(a[1..], b[1..]) {
          SubsequenceTransitive(a[1..], b[1..], c[1..]);
        } else {
          SubsequenceTransitive(a, b[1..], c[1..]);
        }
      } else {
        SubsequenceTransitive(a, b, c[1..]);
      }
    }
  }

  /** With both criteria "all" the loaded table is returned unchanged. */
  lemma LoadAllIsIdentity(t: Table)
    ensures LoadData(t, ALL, ALL) == Some(t)
  {
  }

  /** Every month and day the input prompts accept loads without error. */
  lemma ValidInputsLoad(t: Table, month: string, day: string)
    requires IsValidMonth(month) && IsValidDay(day)
    ensures LoadData(t, month, day).Some?
  {
  }

  /** Filtering already filtered data again with the same criteria changes
      nothing. */
  lemma {:induction false} LoadDataIdempotent(t: Table, month: string, day: string)
    requires month == ALL || month in MONTHS
    ensures LoadData(LoadData(t, month, day).value, month, day) == LoadData(t, month, day)
  {
    var once := LoadData(t, month, day).value;
    var m := MonthStage(t.rows, month).value;
    if month != ALL {
      var k := MonthIndex(month).value;
      assert forall x :: x in once.rows ==> x in m;
      SelectAllMatching(once.rows, MonthIs(k));
    }
    assert MonthStage(once.rows, month) == Some(once.rows);
    if day != ALL {
      SelectAllMatching(once.rows, WeekdayIs(Title(day)));
    }
  }
}
