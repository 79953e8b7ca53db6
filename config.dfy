/** The fixed tables the program checks its inputs against
    (bikeshare.py:9-14), and their membership predicates. */
module Config {
  import opened Text

  const ALL: string := "all"

  const VALID_CITIES: set<string> := {"chicago", "new york city", "washington"}

  /** The six months the data covers, then "all"; the order matters. */
  const VALID_MONTHS: seq<string> := ["january", "february", "march", "april", "may", "june", "all"]

  const VALID_DAYS: set<string> :=
    {"monday", "tuesday", "wednesday", "thursday", "friday", "saturday", "sunday", "all"}

  /** The weekday names pandas reports for a timestamp. */
  const WEEKDAY_NAMES: set<string> :=
    {"Monday", "Tuesday", "Wednesday", "Thursday", "Friday", "Saturday", "Sunday"}

  /** No accepted name has an upper-case letter, so each one can come out
      of the `.lower()` the prompts apply to what the user types. */
  ghost predicate LowerCase(s: string) {
    forall i :: 0 <= i < |s| ==> !IsUpper(s[i])
  }

  predicate IsValidCity(city: string): (r: bool)
    ensures r ==> LowerCase(city)
  {
    city in VALID_CITIES
  }

  /** A month is accepted exactly when it is "all" or one of six names. */
  predicate IsValidMonth(month: string): (r: bool)
    ensures r ==> LowerCase(month)
    ensures r <==> month == ALL || month in VALID_MONTHS[..6]
  {
    month in VALID_MONTHS
  }

  predicate IsValidDay(day: string): (r: bool)
    ensures r ==> LowerCase(day)
  {
    day in VALID_DAYS
  }

  /** Every accepted day other than "all", title-cased, is the name pandas
      gives that weekday, so the day filter can match. */
  lemma ValidDayTitleIsWeekday(day: string)
    requires IsValidDay(day) && day != ALL
    ensures Title(day) in WEEKDAY_NAMES
  {
    if day == "monday" { TitleMonday(); }
    else if day == "tuesday" { TitleTuesday(); }
    else if day == "wednesday" { TitleWednesday(); }
    else if day == "thursday" { TitleThursday(); }
    else if day == "friday" { TitleFriday(); }
    else if day == "saturday" { TitleSaturday(); }
    else { TitleSunday(); }
  }

  lemma TitleMonday() ensures Title("monday") == "Monday" { TitleOfLowerWord("monday"); }
  lemma TitleTuesday() ensures Title("tuesday") == "Tuesday" { TitleOfLowerWord("tuesday"); }
  lemma TitleWednesday() ensures Title("wednesday") == "Wednesday" { TitleOfLowerWord("wednesday"); }
  lemma TitleThursday() ensures Title("thursday") == "Thursday" { TitleOfLowerWord("thursday"); }
  lemma TitleFriday() ensures Title("friday") == "Friday" { TitleOfLowerWord("friday"); }
  lemma TitleSaturday() ensures Title("saturday") == "Saturday" { TitleOfLowerWord("saturday"); }
  lemma TitleSunday() ensures Title("sunday") == "Sunday" { TitleOfLowerWord("sunday"); }
}
