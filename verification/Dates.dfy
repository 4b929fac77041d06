/** Calendar days. Times are whole numbers of seconds, dates are numbers of days. */
module Dates {
  const SECONDS_A_DAY := 86400

  /** The calendar day of an instant, before 1970 too. */
  function Day(at: int): int {
    at / SECONDS_A_DAY
  }

  lemma SomeDate(dates: set<int>)
    requires dates != {}
    ensures exists date :: date in dates
  {
    assert (forall date :: date !in dates) ==> dates == {};
  }
}
