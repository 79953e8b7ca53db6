/** The trip records the analysis works on. */
module Trips {
  import opened Wrappers

  /** A calendar month number, as `Series.dt.month` yields it. */
  type MonthNumber = k: int | 1 <= k <= 12 witness 1

  /** An hour of the day, as `Series.dt.hour` yields it. */
  type Hour = h: int | 0 <= h <= 23 witness 0

  /** One row of a city's trip table, with the fields derived from its
      start time (`month`, `weekday`, `hour`) taken as given. `gender` and
      `birthYear` are `None` where the cell is missing or the city has no
      such column. */
  datatype Trip = Trip(
    startStation: string,
    endStation: string,
    duration: int,        // seconds
    userType: string,
    gender: Option<string>,
    birthYear: Option<int>,
    month: MonthNumber,
    weekday: string,      // "Monday" .. "Sunday"
    hour: Hour)

  /** A loaded table: its rows in file order, and whether the city's file
      has a "Gender" and a "Birth Year" column. */
  datatype Table = Table(rows: seq<Trip>, hasGender: bool, hasBirthYear: bool)
}
