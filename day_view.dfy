/**
 * The single-day view: courses drawn in start order on a sorted copy, block
 * geometry, the past / in-progress highlighting for today, the "now" line
 * and its label, and the room and teacher lines of each block. The view
 * shares the grid's time helpers (`parseHHmmToMinutes`, `minutesToTop`,
 * `durationToHeight`, which it defines identically) and the block colours.
 */
module DayView {
  import opened Wrappers
  import opened JsText
  import opened Sorting
  import opened ScheduleTypes
  import opened TimeGrid
  import opened SubjectColors
  import CourseModal

  // ---------------------------------------------------------------------
  // Ordering
  // ---------------------------------------------------------------------

  /** The parsed start minute of a course (0 stands in for NaN, which the ordering lemma excludes). */
  function StartMinute(c: Course): int {
    ParseHHmmToMinutes(c.start).GetOr(0)
  }

  /** The comparator `parse(a.debut) - parse(b.debut)`: start minute only. */
  function StartKey(c: Course): Key {
    Key(StartMinute(c), 0)
  }

  predicate HasStartTime(c: Course) {
    ParseHHmmToMinutes(c.start).Some?
  }

  /** `[...day.courses].sort(...)`: a sorted copy; `day.courses` is a value and stays as it was. */
  function CoursesSorted(courses: seq<Course>): seq<Course> {
    SortBy(courses, StartKey)
  }

  /** The copy holds the same courses, in non-decreasing start minute. */
  lemma CoursesSortedByStart(courses: seq<Course>)
    requires forall c :: c in courses ==> HasStartTime(c)
    ensures multiset(CoursesSorted(courses)) == multiset(courses)
    ensures forall c :: c in CoursesSorted(courses) ==> HasStartTime(c)
    ensures forall i, j :: 0 <= i < j < |courses| ==>
              StartMinute(CoursesSorted(courses)[i]) <= StartMinute(CoursesSorted(courses)[j])
  {
    var sorted := CoursesSorted(courses);
    forall c | c in sorted ensures HasStartTime(c) {
      assert c in multiset(sorted);
    }
    forall i, j | 0 <= i < j < |courses|
      ensures StartMinute(sorted[i]) <= StartMinute(sorted[j])
    {
      assert KeyLe(StartKey(sorted[i]), StartKey(sorted[j]));
    }
  }

  // ---------------------------------------------------------------------
  // Geometry
  // ---------------------------------------------------------------------

  /** `Math.round(minutesToTop(startMin))`. */
  function BlockTop(startMin: int): (r: int)
    ensures r >= 0
  {
    Round(MinutesToTop(startMin))
  }

  /** `Math.max(Math.round(durationToHeight(startMin, endMin)), 36)`: round, then floor at 36. */
  function BlockHeight(startMin: int, endMin: int): (r: int)
    ensures r >= 36
  {
    var rounded := Round(DurationToHeight(startMin, endMin));
    if rounded >= 36 then rounded else 36
  }

  /**
   * Rounding then flooring at 36 (this view) gives the same height as
   * flooring at 36 then rounding (the week grid).
   */
  lemma HeightRulesAgree(startMin: int, endMin: int)
    ensures BlockHeight(startMin, endMin) == Round(MaxReal(DurationToHeight(startMin, endMin), 36.0))
  {
    var x := DurationToHeight(startMin, endMin);
    if x < 36.0 {
      assert Round(36.0) == 36;
    }
  }

  // ---------------------------------------------------------------------
  // Now line and course state
  // ---------------------------------------------------------------------

  /** `isToday && nowTop >= 0`: whether the red "now" line is drawn. */
  predicate NowLineShown(isToday: bool, nowMinutes: int) {
    isToday && MinutesToTop(nowMinutes) >= 0.0
  }

  /** The top is clamped at 0, so the line is drawn on every today, before 08:00 included. */
  lemma NowLineShownExactlyToday(isToday: bool, nowMinutes: int)
    ensures NowLineShown(isToday, nowMinutes) <==> isToday
  {
  }

  /** The now label: hours and minutes, each `padStart(2, "0")`. */
  function NowLabel(nowMinutes: nat): string {
    Pad2(nowMinutes / 60) + ":" + Pad2(nowMinutes % 60)
  }

  /** A time of day prints as five characters "HH:mm" that parse back to it. */
  lemma NowLabelReadsBack(nowMinutes: nat)
    requires nowMinutes < 24 * 60
    ensures |NowLabel(nowMinutes)| == 5 && NowLabel(nowMinutes)[2] == ':'
    ensures ParseHHmmToMinutes(NowLabel(nowMinutes)) == Some(nowMinutes)
  {
    var h, m := nowMinutes / 60, nowMinutes % 60;
    assert h < 24 && m < 60 && h * 60 + m == nowMinutes;
    ParseTwoDigitClock(h, m);
    Pad2Value(h);
    Pad2Value(m);
  }

  /** The highlight a block gets: none, faded (past) or ringed (in progress). */
  datatype CourseState = Plain | Past | InProgress

  /** The `stateClass` decision. */
  function StateOf(isToday: bool, startMin: int, endMin: int, nowMinutes: int): (r: CourseState)
    ensures r == Past <==> isToday && endMin <= nowMinutes
    ensures r == InProgress <==> isToday && startMin <= nowMinutes < endMin
    ensures !isToday ==> r == Plain
  {
    if isToday then
      if endMin <= nowMinutes then Past
      else if startMin <= nowMinutes && nowMinutes < endMin then InProgress
      else Plain
    else Plain
  }

  /**
   * As the clock moves forward a course only moves forward: once past it
   * stays past, and a course not yet started was not started earlier.
   */
  lemma StateOnlyMovesForward(isToday: bool, startMin: int, endMin: int, now1: int, now2: int)
    requires now1 <= now2
    ensures StateOf(isToday, startMin, endMin, now1) == Past ==> StateOf(isToday, startMin, endMin, now2) == Past
    ensures StateOf(isToday, startMin, endMin, now2) == Plain && now2 < endMin
            ==> StateOf(isToday, startMin, endMin, now1) == Plain
  {
  }

  // ---------------------------------------------------------------------
  // Room and teacher lines
  // ---------------------------------------------------------------------

  /**
   * The remote label as the file spells it: "DISTANCIEL " followed by the
   * Mac OS Roman reading of the UTF-8 bytes of U+1F3E0 (house).
   */
  const REMOTE_LABEL_AS_WRITTEN: string := "DISTANCIEL \U{F8FF}\U{00FC}\U{00E8}\U{2020}"

  /** The room line as written: the garbled label for rooms starting with "SALLE". */
  function RoomLabelAsWritten(room: string): string {
    if StartsWith(room, "SALLE") then REMOTE_LABEL_AS_WRITTEN else room
  }

  /** The room line with the label the course modal uses. */
  function RoomLabel(room: string): (r: string)
    ensures StartsWith(room, "SALLE") ==> r == CourseModal.REMOTE_LABEL
    ensures !StartsWith(room, "SALLE") ==> r == room
  {
    if StartsWith(room, "SALLE") then CourseModal.REMOTE_LABEL else room
  }

  /** The corrected room line is the modal's location line for every room. */
  lemma RoomLabelMatchesModal(room: string)
    ensures RoomLabel(room) == CourseModal.LocationLine(room)
  {
  }

  /** Mac OS Roman, for the bytes involved: ASCII and the four upper bytes of the house emoji. */
  function MacRomanChar(b: int): Option<char> {
    if 0 <= b < 0x80 then Some(b as char)
    else if b == 0xF0 then Some('\U{F8FF}')
    else if b == 0x9F then Some('\U{00FC}')
    else if b == 0x8F then Some('\U{00E8}')
    else if b == 0xA0 then Some('\U{2020}')
    else None
  }

  function MacRomanDecode(bytes: seq<int>): Option<string> {
    if bytes == [] then Some([])
    else
      var head, tail := MacRomanChar(bytes[0]), MacRomanDecode(bytes[1..]);
      if head.Some? && tail.Some? then Some([head.value] + tail.value) else None
  }

  /**
   * The written label is the modal's label with its house emoji encoded as
   * UTF-8 and decoded as Mac OS Roman; so for every remote room the day view
   * shows a different text from the modal.
   */
  lemma RemoteLabelIsMojibake(room: string)
    requires StartsWith(room, "SALLE")
    ensures CourseModal.REMOTE_LABEL == "DISTANCIEL " + ['\U{1F3E0}']
    ensures Utf8Bytes('\U{1F3E0}') == [0xF0, 0x9F, 0x8F, 0xA0]
    ensures MacRomanDecode(Utf8Bytes('\U{1F3E0}')) == Some(REMOTE_LABEL_AS_WRITTEN[11..])
    ensures REMOTE_LABEL_AS_WRITTEN[..11] == CourseModal.REMOTE_LABEL[..11]
    ensures RoomLabelAsWritten(room) != CourseModal.LocationLine(room)
  {
    assert REMOTE_LABEL_AS_WRITTEN[11..] == ['\U{F8FF}', '\U{00FC}', '\U{00E8}', '\U{2020}'];
    var bytes := Utf8Bytes('\U{1F3E0}');
    assert bytes == [0xF0, 0x9F, 0x8F, 0xA0];
    assert bytes[3..][1..] == [] && bytes[2..][1..] == bytes[3..] && bytes[1..][1..] == bytes[2..];
    assert ['\U{2020}'] + [] == ['\U{2020}'];
    assert ['\U{00E8}'] + ['\U{2020}'] == ['\U{00E8}', '\U{2020}'];
    assert ['\U{00FC}'] + ['\U{00E8}', '\U{2020}'] == ['\U{00FC}', '\U{00E8}', '\U{2020}'];
    assert ['\U{F8FF}'] + ['\U{00FC}', '\U{00E8}', '\U{2020}'] == REMOTE_LABEL_AS_WRITTEN[11..];
    assert MacRomanDecode(bytes[3..]) == Some(['\U{2020}']);
    assert MacRomanDecode(bytes[2..]) == Some(['\U{00E8}', '\U{2020}']);
    assert MacRomanDecode(bytes[1..]) == Some(['\U{00FC}', '\U{00E8}', '\U{2020}']);
    assert |REMOTE_LABEL_AS_WRITTEN| != |CourseModal.REMOTE_LABEL|;
  }

  /** `course.prof && course.prof.trim() !== ""`: the teacher line's guard. */
  predicate TeacherLineShown(prof: string) {
    prof != "" && Trim(prof) != ""
  }

  /** The teacher line appears exactly when the name has a character other than whitespace. */
  lemma TeacherLineNeedsVisibleName(prof: string)
    ensures TeacherLineShown(prof) <==> exists k :: 0 <= k < |prof| && !IsJsWhitespace(prof[k])
  {
  }

  // ---------------------------------------------------------------------
  // One drawn block
  // ---------------------------------------------------------------------

  /** What one block of the day view shows and where. */
  datatype DayBlock = DayBlock(
    course: Course, top: int, height: int, colors: CourseColors,
    state: CourseState, roomLine: string, teacherLine: Option<string>)

  /**
   * The block drawn for one course of the sorted copy. The room line is the
   * one the file writes, garbled remote label included.
   */
  function BlockFor(c: Course, isToday: bool, nowMinutes: int): (b: DayBlock)
    requires HasClockTimes(c)
    ensures b.course == c
    ensures b.top == Round(MakeItem(c).top) && b.height == Round(MakeItem(c).height)
    ensures b.colors == BlockColors(c.subject)
    ensures b.state == StateOf(isToday, SpanOf(c).start, SpanOf(c).end, nowMinutes)
    ensures StartsWith(c.room, "SALLE") ==> b.roomLine == REMOTE_LABEL_AS_WRITTEN
    ensures !StartsWith(c.room, "SALLE") ==> b.roomLine == c.room
    ensures b.teacherLine.Some? <==> TeacherLineShown(c.teacher)
    ensures b.teacherLine.Some? ==> b.teacherLine.value == c.teacher
  {
    var s := SpanOf(c);
    HeightRulesAgree(s.start, s.end);
    DayBlock(c, BlockTop(s.start), BlockHeight(s.start, s.end), BlockColors(c.subject),
             StateOf(isToday, s.start, s.end, nowMinutes), RoomLabelAsWritten(c.room),
             if TeacherLineShown(c.teacher) then Some(c.teacher) else None)
  }

  /** The blocks of the day, drawn from the sorted copy. */
  function DayBlocks(courses: seq<Course>, isToday: bool, nowMinutes: int): (r: seq<DayBlock>)
    requires forall c :: c in courses ==> HasClockTimes(c)
    ensures |r| == |courses|
  {
    var sorted := CoursesSorted(courses);
    SortedCopyKeepsCourses(courses);
    seq(|sorted|, i requires 0 <= i < |sorted| => BlockFor(sorted[i], isToday, nowMinutes))
  }

  lemma SortedCopyKeepsCourses(courses: seq<Course>)
    ensures |CoursesSorted(courses)| == |courses|
    ensures forall c :: c in CoursesSorted(courses) ==> c in courses
  {
    var sorted := CoursesSorted(courses);
    forall c | c in sorted ensures c in courses {
      assert c in multiset(sorted);
    }
  }

  /** One block per course, the same courses, drawn top to bottom in start order. */
  lemma DayBlocksDrawnInOrder(courses: seq<Course>, isToday: bool, nowMinutes: int)
    requires forall c :: c in courses ==> HasClockTimes(c)
    ensures multiset(seq(|courses|, i requires 0 <= i < |courses| => DayBlocks(courses, isToday, nowMinutes)[i].course))
            == multiset(courses)
    ensures forall i, j :: 0 <= i < j < |courses| ==>
              DayBlocks(courses, isToday, nowMinutes)[i].top <= DayBlocks(courses, isToday, nowMinutes)[j].top
  {
    var r := DayBlocks(courses, isToday, nowMinutes);
    var sorted := CoursesSorted(courses);
    SortedCopyKeepsCourses(courses);
    assert seq(|courses|, i requires 0 <= i < |courses| => r[i].course) == sorted;
    CoursesSortedByStart(courses);
    forall i, j | 0 <= i < j < |courses| ensures r[i].top <= r[j].top {
      assert StartMinute(sorted[i]) <= StartMinute(sorted[j]);
      TopIsMonotone(SpanOf(sorted[i]).start, SpanOf(sorted[j]).start);
    }
  }

  /** A later start is never drawn higher. */
  lemma TopIsMonotone(a: int, b: int)
    requires a <= b
    ensures BlockTop(a) <= BlockTop(b)
  {
  }
}
