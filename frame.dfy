/** The loaded table as the object the reports receive. `station_stats`
    changes it in place: it adds the "Start and End Station" column
    (bikeshare.py:134), which later steps then see. */
module Frame {
  import opened Wrappers
  import opened Trips
  import opened Stats

  class TripFrame {
    /** The filtered rows and the optional columns the city's file has. */
    const table: Table
    /** The "Start and End Station" column, absent until `StationStats`
        adds it. */
    var pairColumn: Option<seq<string>>

    /** A pair column, once added, holds one key per row, in row order. */
    ghost predicate Valid()
      reads this
    {
      pairColumn.Some? ==> pairColumn.value == PairColumn(table.rows)
    }

    constructor (t: Table)
      ensures Valid() && table == t && pairColumn == None
    {
      table := t;
      pairColumn := None;
    }

    /** `station_stats`: the start and end station modes are taken first,
        so on an empty table pandas raises before the column is added and
        the frame is left as it was. */
    method StationStats() returns (report: Option<StationReport>)
      requires Valid()
      modifies this
      ensures Valid()
      ensures report == Stats.StationStats(table.rows)
      ensures pairColumn == if table.rows == [] then old(pairColumn) else Some(PairColumn(table.rows))
    {
      if table.rows == [] {
        return None;
      }
      pairColumn := Some(PairColumn(table.rows));
      report := Stats.StationStats(table.rows);
    }
  }
}
