/** The four reports (bikeshare.py:99-186), without their printing: each
    is a pure computation over the filtered rows. A report is `None` where
    pandas would raise instead of producing it (`mode()[0]` of an empty
    column). */
module Stats {
  import opened Wrappers
  import opened Text
  import opened Orders
  import opened Trips
  import opened Config
  import opened Filters
  import opened Modes
  import opened Tally

  // ---- Columns ----

  function Months(rows: seq<Trip>): (c: seq<int>)
    ensures |c| == |rows| && forall i :: 0 <= i < |rows| ==> c[i] == rows[i].month
  {
    seq(|rows|, i requires 0 <= i < |rows| => rows[i].month as int)
  }

  function Weekdays(rows: seq<Trip>): (c: seq<string>)
    ensures |c| == |rows| && forall i :: 0 <= i < |rows| ==> c[i] == rows[i].weekday
  {
    seq(|rows|, i requires 0 <= i < |rows| => rows[i].weekday)
  }

  function Hours(rows: seq<Trip>): (c: seq<int>)
    ensures |c| == |rows| && forall i :: 0 <= i < |rows| ==> c[i] == rows[i].hour
  {
    seq(|rows|, i requires 0 <= i < |rows| => rows[i].hour as int)
  }

  function StartStations(rows: seq<Trip>): (c: seq<string>)
    ensures |c| == |rows| && forall i :: 0 <= i < |rows| ==> c[i] == rows[i].startStation
  {
    seq(|rows|, i requires 0 <= i < |rows| => rows[i].startStation)
  }

  function EndStations(rows: seq<Trip>): (c: seq<string>)
    ensures |c| == |rows| && forall i :: 0 <= i < |rows| ==> c[i] == rows[i].endStation
  {
    seq(|rows|, i requires 0 <= i < |rows| => rows[i].endStation)
  }

  function UserTypes(rows: seq<Trip>): (c: seq<string>)
    ensures |c| == |rows| && forall i :: 0 <= i < |rows| ==> c[i] == rows[i].userType
  {
    seq(|rows|, i requires 0 <= i < |rows| => rows[i].userType)
  }

  /** The "Start and End Station" value of a row. */
  function PairKey(t: Trip): string {
    t.startStation + " AND " + t.endStation
  }

  /** The "Start and End Station" column. */
  function PairColumn(rows: seq<Trip>): (c: seq<string>)
    ensures |c| == |rows| && forall i :: 0 <= i < |rows| ==> c[i] == PairKey(rows[i])
  {
    seq(|rows|, i requires 0 <= i < |rows| => PairKey(rows[i]))
  }

  /** The non-missing cells of an optional column, in row order; pandas
      skips missing cells in `value_counts`, `min`, `max` and `mode`. */
  function Present<T(!new)>(cells: seq<Option<T>>): (r: seq<T>)
    ensures |r| <= |cells|
    ensures forall x :: x in r <==> Some(x) in cells
    ensures forall x :: multiset(r)[x] == multiset(cells)[Some(x)]
  {
    if cells == [] then []
    else
      assert cells == [cells[0]] + cells[1..];
      if cells[0].Some? then [cells[0].value] + Present(cells[1..])
      else Present(cells[1..])
  }

  function Genders(rows: seq<Trip>): seq<string> {
    Present(seq(|rows|, i requires 0 <= i < |rows| => rows[i].gender))
  }

  function BirthYears(rows: seq<Trip>): seq<int> {
    Present(seq(|rows|, i requires 0 <= i < |rows| => rows[i].birthYear))
  }

  // ---- Time stats (bikeshare.py:99-118) ----

  /** The full calendar, whose first six names are `MONTHS`. */
  const CALENDAR_MONTHS: seq<string> :=
    ["january", "february", "march", "april", "may", "june",
     "july", "august", "september", "october", "november", "december"]

  /** `VALID_MONTHS[k - 1].title()` as written, with Python's indexing:
      a negative index counts from the end, an index past the end raises
      (`None`). */
  function MonthNameAsWritten(k: int): (r: Option<string>)
    ensures r.Some? <==> -6 <= k <= 7
  {
    var i := k - 1;
    if 0 <= i < |VALID_MONTHS| then Some(Title(VALID_MONTHS[i]))
    else if -|VALID_MONTHS| <= i < 0 then Some(Title(VALID_MONTHS[|VALID_MONTHS| + i]))
    else None
  }

  /** The name of month `k`, title-cased. */
  function MonthName(k: MonthNumber): (r: string)
    ensures 1 <= k <= 6 ==> Some(r) == MonthNameAsWritten(k)
    ensures |r| == |CALENDAR_MONTHS[k - 1]|
  {
    Title(CALENDAR_MONTHS[k - 1])
  }

  /** Month 7 is reported as "All" by the code as written, and month 8 or
      later makes it raise; the calendar name is what is meant. */
  lemma MonthNameAsWrittenBeyondJune()
    ensures MonthNameAsWritten(7) == Some(Title("all")) && MonthNameAsWritten(7) != Some(MonthName(7))
    ensures forall k :: 8 <= k <= 12 ==> MonthNameAsWritten(k) == None
  {
    assert |Title("all")| == 3 != 4 == |MonthName(7)|;
  }

  datatype TimeReport = TimeReport(month: MonthNumber, monthName: string, weekday: string, hour: Hour)

  /** Most common month (with its name), weekday and start hour, ties going
      to the least value. */
  function TimeStats(rows: seq<Trip>): (r: Option<TimeReport>)
    ensures r.Some? <==> rows != []
    ensures r.Some? ==> IsLeastMode(Months(rows), r.value.month as int, IntLess)
    ensures r.Some? ==> r.value.monthName == MonthName(r.value.month)
    ensures r.Some? ==> IsLeastMode(Weekdays(rows), r.value.weekday, StrLess)
    ensures r.Some? ==> IsLeastMode(Hours(rows), r.value.hour as int, IntLess)
  {
    if rows == [] then None
    else
      IntLessIsStrictTotalOrder();
      StrLessIsStrictTotalOrder();
      var m := Mode(Months(rows), IntLess).value;
      var h := Mode(Hours(rows), IntLess).value;
      assert exists i :: 0 <= i < |rows| && rows[i].month == m;
      assert exists i :: 0 <= i < |rows| && rows[i].hour == h;
      Some(TimeReport(m, MonthName(m), Mode(Weekdays(rows), StrLess).value, h))
  }

  // ---- Station stats (bikeshare.py:121-138) ----

  datatype StationReport = StationReport(start: string, end: string, pair: string)

  /** Most common start station, end station, and start-and-end pair, the
      pair counted as one joint key; ties go to the least string. */
  function StationStats(rows: seq<Trip>): (r: Option<StationReport>)
    ensures r.Some? <==> rows != []
    ensures r.Some? ==> IsLeastMode(StartStations(rows), r.value.start, StrLess)
    ensures r.Some? ==> IsLeastMode(EndStations(rows), r.value.end, StrLess)
    ensures r.Some? ==> IsLeastMode(PairColumn(rows), r.value.pair, StrLess)
  {
    if rows == [] then None
    else
      StrLessIsStrictTotalOrder();
      Some(StationReport(
        Mode(StartStations(rows), StrLess).value,
        Mode(EndStations(rows), StrLess).value,
        Mode(PairColumn(rows), StrLess).value))
  }

  /** The reported pair is the most common joint key, which need not join
      the most common start and end stations: in five trips from A, A, A,
      B, C to X, X, Y, Y, Y, "A" starts most of them and "Y" ends most,
      but the most common pair is "A AND X". */
  lemma PairIsNotJoinedMarginalModes(rows: seq<Trip>)
    requires StartStations(rows) == ["A", "A", "A", "B", "C"]
    requires EndStations(rows) == ["X", "X", "Y", "Y", "Y"]
    ensures var r := StationStats(rows).value;
      r.start == "A" && r.end == "Y" && r.pair == "A AND X" && r.pair != r.start + " AND " + r.end
  {
    ExampleStarts(rows);
    ExampleEnds(rows);
    ExamplePairs(rows);
    JoinedModesKey();
  }

  /** The key joining the two marginal modes differs from the joint mode. */
  lemma JoinedModesKey()
    ensures "A" + " AND " + "Y" != "A AND X"
  {
    assert ("A" + " AND " + "Y")[6] == 'Y';
  }

  lemma ExampleStarts(rows: seq<Trip>)
    requires StartStations(rows) == ["A", "A", "A", "B", "C"]
    requires EndStations(rows) == ["X", "X", "Y", "Y", "Y"]
    ensures StationStats(rows).value.start == "A"
  {
    var starts := StartStations(rows);
    assert multiset(starts) == multiset{"A", "A", "A", "B", "C"};
    forall x | x in starts && x != "A"
      ensures multiset(starts)[x] < multiset(starts)["A"]
    {
      assert x == "B" || x == "C";
    }
    forall x | IsMostCommon(starts, x)
      ensures x == "A"
    {
      MostCommonDominant(starts, x, "A");
    }
    assert IsMostCommon(starts, StationStats(rows).value.start);
  }

  lemma ExampleEnds(rows: seq<Trip>)
    requires StartStations(rows) == ["A", "A", "A", "B", "C"]
    requires EndStations(rows) == ["X", "X", "Y", "Y", "Y"]
    ensures StationStats(rows).value.end == "Y"
  {
    var ends := EndStations(rows);
    assert multiset(ends) == multiset{"X", "X", "Y", "Y", "Y"};
    forall x | x in ends && x != "Y"
      ensures multiset(ends)[x] < multiset(ends)["Y"]
    {
      assert x == "X";
    }
    forall x | IsMostCommon(ends, x)
      ensures x == "Y"
    {
      MostCommonDominant(ends, x, "Y");
    }
    assert IsMostCommon(ends, StationStats(rows).value.end);
  }

  lemma ExamplePairs(rows: seq<Trip>)
    requires StartStations(rows) == ["A", "A", "A", "B", "C"]
    requires EndStations(rows) == ["X", "X", "Y", "Y", "Y"]
    ensures StationStats(rows).value.pair == "A AND X"
  {
    var pairs := PairColumn(rows);
    var keyAX, keyAY, keyBY, keyCY := pairs[0], pairs[2], pairs[3], pairs[4];
    ExamplePairKeys(rows);
    assert pairs == [keyAX, keyAX, keyAY, keyBY, keyCY];
    assert multiset(pairs)[keyAX] == 2;
    forall x | x in pairs && x != keyAX
      ensures multiset(pairs)[x] < multiset(pairs)[keyAX]
    {
      assert x == keyAY || x == keyBY || x == keyCY;
    }
    forall x | IsMostCommon(pairs, x)
      ensures x == "A AND X"
    {
      MostCommonDominant(pairs, x, keyAX);
    }
    assert IsMostCommon(pairs, StationStats(rows).value.pair);
  }

  lemma ExamplePairKeys(rows: seq<Trip>)
    requires StartStations(rows) == ["A", "A", "A", "B", "C"]
    requires EndStations(rows) == ["X", "X", "Y", "Y", "Y"]
    ensures var p := PairColumn(rows);
      p[0] == p[1] == "A AND X" &&
      p[0][0] == 'A' && p[0][6] == 'X' &&
      p[2][0] == 'A' && p[2][6] == 'Y' &&
      p[3][0] == 'B' && p[4][0] == 'C'
  {
    assert rows[0].startStation == "A" && rows[0].endStation == "X";
    assert rows[2].startStation == "A" && rows[2].endStation == "Y";
    assert rows[3].startStation == "B" && rows[4].startStation == "C";
  }

  // ---- Trip duration stats (bikeshare.py:141-156) ----

  /** `df["Trip Duration"].sum()`, in seconds. */
  function TotalDuration(rows: seq<Trip>): int {
    if rows == [] then 0 else rows[0].duration + TotalDuration(rows[1..])
  }

  /** Splitting the rows by any mask splits the total: the trips kept and
      the trips dropped account for all of it. */
  lemma {:induction false} TotalDurationSplits(rows: seq<Trip>, c: Criterion)
    ensures TotalDuration(rows) == TotalDuration(Select(rows, c)) + TotalDuration(Rejected(rows, c))
  {
    if rows != [] {
      TotalDurationSplits(rows[1..], c);
    }
  }

  /** The rows a mask drops. */
  function Rejected(rows: seq<Trip>, c: Criterion): seq<Trip> {
    if rows == [] then []
    else if Matches(rows[0], c) then Rejected(rows[1..], c)
    else [rows[0]] + Rejected(rows[1..], c)
  }

  /** The mean lies between the shortest and the longest trip:
      `count * lo <= total <= count * hi`. */
  lemma {:induction false} TotalDurationBounds(rows: seq<Trip>, lo: int, hi: int)
    requires forall t :: t in rows ==> lo <= t.duration <= hi
    ensures |rows| * lo <= TotalDuration(rows) <= |rows| * hi
  {
    if rows != [] {
      var n := |rows[1..]|;
      assert rows[0] in rows;
      TotalDurationBounds(rows[1..], lo, hi);
      assert TotalDuration(rows) == rows[0].duration + TotalDuration(rows[1..]);
      assert (n + 1) * lo == n * lo + lo && (n + 1) * hi == n * hi + hi;
    }
  }

  function Durations(rows: seq<Trip>): (c: seq<int>)
    ensures |c| == |rows| && forall i :: 0 <= i < |rows| ==> c[i] == rows[i].duration
  {
    seq(|rows|, i requires 0 <= i < |rows| => rows[i].duration)
  }

  /** What the duration report is computed from: the total in seconds and
      the number of trips (the source divides them into days and minutes). */
  datatype DurationReport = DurationReport(totalSeconds: int, trips: nat)

  /** The total and the count, with the mean `total / count` between the
      shortest and the longest trip. */
  function DurationStats(rows: seq<Trip>): (r: DurationReport)
    ensures r.trips == |rows|
    ensures r.totalSeconds == TotalDuration(rows)
    ensures rows == [] ==> r.totalSeconds == 0
    ensures rows != [] ==>
      r.trips * Min(Durations(rows)) <= r.totalSeconds <= r.trips * Max(Durations(rows))
  {
    if rows == [] then DurationReport(0, 0)
    else
      MeanWithinExtremes(rows);
      DurationReport(TotalDuration(rows), |rows|)
  }

  lemma MeanWithinExtremes(rows: seq<Trip>)
    requires rows != []
    ensures |rows| * Min(Durations(rows)) <= TotalDuration(rows) <= |rows| * Max(Durations(rows))
  {
    var d := Durations(rows);
    var lo, hi := Min(d), Max(d);
    forall t | t in rows
      ensures lo <= t.duration <= hi
    {
      var i :| 0 <= i < |rows| && rows[i] == t;
      assert d[i] == t.duration && d[i] in d;
    }
    TotalDurationBounds(rows, lo, hi);
  }

  /** A trip of `seconds` between two fixed stations. */
  function Ride(seconds: int): Trip {
    Trip("A", "B", seconds, "Subscriber", None, None, 1, "Monday", 0)
  }

  /** Seven trips of 1 to 7 minutes: 1680 seconds in all, 4 minutes on
      average. */
  lemma DurationExample()
    ensures var r := DurationStats([Ride(60), Ride(120), Ride(180), Ride(240), Ride(300), Ride(360), Ride(420)]);
      r == DurationReport(1680, 7) && r.totalSeconds == r.trips * 240
  {
    var rows := [Ride(60), Ride(120), Ride(180), Ride(240), Ride(300), Ride(360), Ride(420)];
    assert TotalDuration(rows[6..]) == 420;
    assert TotalDuration(rows[5..]) == 780;
    assert TotalDuration(rows[4..]) == 1080;
    assert TotalDuration(rows[3..]) == 1320;
    assert TotalDuration(rows[2..]) == 1500;
    assert TotalDuration(rows[1..]) == 1620;
  }

  // ---- User stats (bikeshare.py:159-186) ----

  /** `min()` of a non-empty column. */
  function Min(s: seq<int>): (r: int)
    requires s != []
    ensures r in s && forall x :: x in s ==> r <= x
  {
    if |s| == 1 then s[0]
    else
      assert s == [s[0]] + s[1..];
      var m := Min(s[1..]); if s[0] <= m then s[0] else m
  }

  /** `max()` of a non-empty column. */
  function Max(s: seq<int>): (r: int)
    requires s != []
    ensures r in s && forall x :: x in s ==> x <= r
  {
    if |s| == 1 then s[0]
    else
      assert s == [s[0]] + s[1..];
      var m := Max(s[1..]); if s[0] >= m then s[0] else m
  }

  datatype BirthYearReport = BirthYearReport(earliest: int, latest: int, common: int)

  /** Earliest, most recent and most common birth year of the present
      cells; `None` where they are all missing and `mode()[0]` raises. */
  function BirthYearStats(years: seq<int>): (r: Option<BirthYearReport>)
    ensures r.Some? <==> years != []
    ensures r.Some? ==> r.value.earliest <= r.value.common <= r.value.latest
    ensures r.Some? ==> r.value.earliest in years && r.value.latest in years
    ensures r.Some? ==> forall y :: y in years ==> r.value.earliest <= y <= r.value.latest
    ensures r.Some? ==> IsLeastMode(years, r.value.common, IntLess)
  {
    if years == [] then None
    else
      IntLessIsStrictTotalOrder();
      Some(BirthYearReport(Min(years), Max(years), Mode(years, IntLess).value))
  }

  /** The user report: counts per user type, counts per gender when the
      table has a "Gender" column, birth-year figures when it has a
      "Birth Year" column. */
  datatype UserReport = UserReport(
    userTypes: seq<Bucket<string>>,
    genders: Option<seq<Bucket<string>>>,
    birthYears: Option<BirthYearReport>)

  function UserStats(t: Table): (r: Option<UserReport>)
    ensures r.None? <==> t.hasBirthYear && BirthYears(t.rows) == []
    ensures r.Some? ==> var u := r.value;
      && DistinctValues(u.userTypes)
      && PositiveCounts(u.userTypes)
      && (forall x :: CountOf(u.userTypes, x) == multiset(UserTypes(t.rows))[x])
      && Values(u.userTypes) == (set x | x in UserTypes(t.rows))
      && Total(u.userTypes) == |t.rows|
      && (u.genders.Some? <==> t.hasGender)
      && (u.genders.Some? ==>
            DistinctValues(u.genders.value)
            && PositiveCounts(u.genders.value)
            && Values(u.genders.value) == (set x | x in Genders(t.rows))
            && (forall x :: CountOf(u.genders.value, x) == multiset(Genders(t.rows))[x])
            && Total(u.genders.value) == |Genders(t.rows)|)
      && (u.birthYears.Some? <==> t.hasBirthYear)
      && (u.birthYears.Some? ==> u.birthYears == BirthYearStats(BirthYears(t.rows)))
  {
    var years := if t.hasBirthYear then BirthYearStats(BirthYears(t.rows)) else None;
    if t.hasBirthYear && years.None? then None
    else
      Some(UserReport(
        ValueCounts(UserTypes(t.rows)),
        if t.hasGender then Some(ValueCounts(Genders(t.rows))) else None,
        years))
  }
}
