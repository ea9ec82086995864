/**
 * One course block of the week grid and month view: the subject always;
 * outside the month view also the times, the room segment and the teacher
 * row; drawn with the block colours.
 */
module CourseBlock {
  import opened Wrappers
  import opened JsText
  import opened ScheduleTypes
  import opened SubjectColors
  import CourseModal

  /** The house shown in place of a remote room. */
  const REMOTE_ICON: string := "\U{1F3E0}"

  /** `viewMode`: only "month" changes the block; every other mode draws the full block. */
  datatype ViewMode = Week | Month

  datatype BlockDetails = BlockDetails(times: string, room: Option<string>, teacher: Option<string>)

  datatype BlockContent = BlockContent(subject: string, details: Option<BlockDetails>, colors: CourseColors)

  /** `course.room && (startsWith("SALLE") ? house : room)`: no segment for an empty room. */
  function RoomSegment(room: string): (r: Option<string>)
    ensures r.Some? <==> room != ""
    ensures r.Some? ==> (r.value == REMOTE_ICON <==> StartsWith(room, "SALLE") || room == REMOTE_ICON)
  {
    if room == "" then None
    else if StartsWith(room, "SALLE") then Some(REMOTE_ICON)
    else Some(room)
  }

  function Render(c: Course, mode: ViewMode): (b: BlockContent)
    ensures b.subject == c.subject && b.colors == BlockColors(c.subject)
    ensures b.details.None? <==> mode == Month
    ensures b.details.Some? ==> b.details.value.times == c.start + " \U{2013} " + c.end
    ensures b.details.Some? ==> b.details.value.room == RoomSegment(c.room)
    ensures b.details.Some? ==> b.details.value.teacher == if c.teacher != "" then Some(c.teacher) else None
  {
    var details :=
      if mode == Month then None
      else Some(BlockDetails(c.start + " \U{2013} " + c.end, RoomSegment(c.room),
                             if c.teacher != "" then Some(c.teacher) else None));
    BlockContent(c.subject, details, BlockColors(c.subject))
  }

  /**
   * The block and the modal mark the same rooms as remote: the block shows
   * the house instead of the room exactly when the modal shows its remote
   * label instead of the room.
   */
  lemma RemoteMarkersAgree(room: string)
    requires room != ""
    ensures (RoomSegment(room) == Some(REMOTE_ICON) && room != REMOTE_ICON)
            <==> (CourseModal.LocationLine(room) == CourseModal.REMOTE_LABEL && room != CourseModal.REMOTE_LABEL)
  {
    if StartsWith(room, "SALLE") {
      assert room[0] == 'S';
      assert CourseModal.REMOTE_LABEL[0] == 'D';
      assert REMOTE_ICON[0] != 'S';
    }
  }

  /** Two courses of the same subject always get the same block colours, in every view. */
  lemma SameSubjectSameColors(a: Course, b: Course, m1: ViewMode, m2: ViewMode)
    requires a.subject == b.subject
    ensures Render(a, m1).colors == Render(b, m2).colors
    ensures Render(a, m1).colors.bg.saturation == 70
  {
  }
}
