/**
 * The course detail dialog: nothing is rendered unless it is open and has
 * a course; otherwise it shows the subject, the times, the location line and
 * the teacher line, over the modal's own colours.
 */
module CourseModal {
  import opened Wrappers
  import opened JsText
  import opened ScheduleTypes
  import opened SubjectColors

  /** The location shown for a remote course. */
  const REMOTE_LABEL: string := "DISTANCIEL \U{1F3E0}"

  /** The location line: the remote label for rooms starting with "SALLE" (case-sensitive), else the room. */
  function LocationLine(room: string): (r: string)
    ensures StartsWith(room, "SALLE") ==> r == REMOTE_LABEL
    ensures !StartsWith(room, "SALLE") ==> r == room
  {
    if StartsWith(room, "SALLE") then REMOTE_LABEL else room
  }

  /** What an open dialog shows. */
  datatype ModalContent = ModalContent(
    title: string, times: string, location: string, teacher: Option<string>, colors: CourseColors)

  /** The dialog: `None` when `!isOpen || !course`. */
  function Render(course: Option<Course>, isOpen: bool): (r: Option<ModalContent>)
    ensures r.Some? <==> isOpen && course.Some?
    ensures r.Some? ==> r.value.title == course.value.subject
                        && r.value.location == LocationLine(course.value.room)
                        && r.value.colors == ModalColors(course.value.subject)
    ensures r.Some? ==> r.value.times == course.value.start + " - " + course.value.end
    ensures r.Some? ==> r.value.teacher == if course.value.teacher != "" then Some(course.value.teacher) else None
  {
    if !isOpen || course.None? then None
    else
      var c := course.value;
      Some(ModalContent(c.subject, c.start + " - " + c.end, LocationLine(c.room),
                        if c.teacher != "" then Some(c.teacher) else None, ModalColors(c.subject)))
  }

  /** A remote course's location is the fixed label whatever the room; any other room is shown as is. */
  lemma RemoteLocationHidesRoom(a: string, b: string)
    requires StartsWith(a, "SALLE") && StartsWith(b, "SALLE")
    ensures LocationLine(a) == LocationLine(b)
    ensures !StartsWith(a, "SALLE") ==> LocationLine(a) == a
  {
  }

  /** The dialog's colours differ from the block's for the same course, with the same hue. */
  lemma ModalColorsDifferFromBlock(c: Course)
    ensures Render(Some(c), true).value.colors != BlockColors(c.subject)
    ensures Render(Some(c), true).value.colors.bg.hue == BlockColors(c.subject).bg.hue
  {
    ModalDiffersFromBlock(c.subject);
  }
}
