/** The fixed shape of the timetable grid. */
module ScheduleConstants {

  /** The five work-week day labels, Monday first. */
  const DAYS: seq<string> := ["Lundi", "Mardi", "Mercredi", "Jeudi", "Vendredi"]

  /** The hour labels down the left edge of the grid. */
  const HOURS: seq<string> := [
    "08:00", "09:00", "10:00", "11:00", "12:00", "13:00",
    "14:00", "15:00", "16:00", "17:00", "18:00", "19:00", "20:00"
  ]

  /** Pixel height of one hour row. */
  const HOUR_HEIGHT_PX: int := 45

  /** The time of day at the top of the grid, in minutes since midnight. */
  const DAY_START_MINUTES: int := 8 * 60
}
