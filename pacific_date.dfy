/** The date context of one run. Reading the clock and converting it to
    the America/Los_Angeles time zone are done by the runtime's date
    formatter; the model takes the three formatted strings as inputs and
    derives the weekend flag from the short weekday code. */
module PacificDate {

  datatype DateInfo = DateInfo(fullDate: string, dayOfWeek: string, dateString: string, isWeekend: bool)

  /** The short weekday codes the `en-US` formatter produces, Sunday first. */
  const ShortWeekdays: seq<string> := ["Sun", "Mon", "Tue", "Wed", "Thu", "Fri", "Sat"]

  function PacificDateInfo(fullDate: string, dayOfWeek: string, dateString: string): (d: DateInfo)
    ensures d.fullDate == fullDate && d.dayOfWeek == dayOfWeek && d.dateString == dateString
    ensures d.isWeekend <==> dayOfWeek == "Sat" || dayOfWeek == "Sun"
  {
    DateInfo(fullDate, dayOfWeek, dateString, dayOfWeek == "Sat" || dayOfWeek == "Sun")
  }

  /** Of the seven weekday codes, exactly the first and the last mark a
      weekend. */
  lemma WeekendIsSaturdayAndSunday(i: nat)
    requires i < |ShortWeekdays|
    ensures PacificDateInfo("", ShortWeekdays[i], "").isWeekend <==> i == 0 || i == 6
  {
  }
}
