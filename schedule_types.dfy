/**
 * The timetable's records. One `Course` stands for every spelling the
 * source uses: the service builds `{start, end, subject, room, teacher}`,
 * the grid reads `debut`/`fin`, the filter reads `matiere`, and the day view
 * and modal read `salle`/`prof`; each member states its property against the
 * field the cited code reads, under the names below. On the service's own
 * objects the other spellings are `undefined`; `CalendarPage.SelectedCoursesAsWritten`
 * models what that does to the calendar filter.
 */
module ScheduleTypes {

  /** A palette entry: the `{ background, text }` pair `assignColors` stores. */
  datatype Color = Color(background: string, text: string)

  /** The colour a freshly parsed course carries before colours are assigned. */
  const NoColor: Color := Color("", "")

  datatype Course = Course(
    subject: string,  // `subject` / `matiere`
    start: string,    // `start` / `debut`, "HH:mm"
    end: string,      // `end` / `fin`, "HH:mm"
    room: string,     // `room` / `salle`; a missing room is ""
    teacher: string,  // `teacher` / `prof`; a missing teacher is ""
    color: Color)

  /** One day of the week as the service returns it. */
  datatype Day = Day(day: string, date: string, courses: seq<Course>)
}
