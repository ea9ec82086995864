/**
 * The schedule service: the username check, the work week a date input
 * designates, the acceptance rule for the course rows of one day's page,
 * the palette colouring, the list of distinct subjects, and the fetch of a
 * whole week.
 *
 * Dates are whole day numbers counted from 1 January 1970 (a Thursday);
 * the text form of a date, the HTTP exchange and the HTML parser are
 * parameters.
 */
module ScheduleService {
  import opened Wrappers
  import opened JsText
  import opened Sequences
  import opened ScheduleTypes
  import opened ScheduleConstants

  // ---------------------------------------------------------------------
  // isStringDotString: /^[a-zA-Z]+\.[a-zA-Z]+\d*$/
  // ---------------------------------------------------------------------

  predicate AllLetters(s: seq<char>) {
    forall k :: 0 <= k < |s| ==> IsAsciiLetter(s[k])
  }

  /** The end of the run of ASCII letters that starts at `i`. */
  function LetterRun(s: seq<char>, i: nat): (j: nat)
    requires i <= |s|
    ensures i <= j <= |s|
    ensures AllLetters(s[i..j])
    ensures j < |s| ==> !IsAsciiLetter(s[j])
    decreases |s| - i
  {
    if i < |s| && IsAsciiLetter(s[i]) then
      var j := LetterRun(s, i + 1);
      assert s[i..j] == [s[i]] + s[i + 1..j];
      j
    else i
  }

  /**
   * The regular expression read left to right: the letters never overlap
   * the dot or the digits, so taking the longest letter runs is the only
   * way to match.
   */
  predicate IsStringDotString(s: seq<char>) {
    var i := LetterRun(s, 0);
    0 < i < |s| && s[i] == '.' &&
    var j := LetterRun(s, i + 1);
    i + 1 < j && AllDigits(s[j..])
  }

  /** `s` is letters `s[..i]`, a dot at `i`, letters `s[i+1..j]` and digits `s[j..]`. */
  predicate UserIdSplit(s: seq<char>, i: nat, j: nat) {
    0 < i && i + 1 < j <= |s| && AllLetters(s[..i]) && s[i] == '.'
    && AllLetters(s[i + 1..j]) && AllDigits(s[j..])
  }

  /** A letter run ends exactly where a non-letter (or the end) follows letters. */
  lemma LetterRunStops(s: seq<char>, i: nat, j: nat)
    requires i <= j <= |s| && AllLetters(s[i..j])
    requires j < |s| ==> !IsAsciiLetter(s[j])
    ensures LetterRun(s, i) == j
    decreases j - i
  {
    if i < j {
      assert s[i] == s[i..j][0];
      assert s[i + 1..j] == s[i..j][1..];
      LetterRunStops(s, i + 1, j);
    }
  }

  /** The username check accepts exactly letters⁺ "." letters⁺ digits*. */
  lemma IsStringDotStringIff(s: seq<char>)
    ensures IsStringDotString(s) <==> exists i: nat, j: nat :: UserIdSplit(s, i, j)
  {
    if IsStringDotString(s) {
      var i := LetterRun(s, 0);
      var j := LetterRun(s, i + 1);
      assert s[..i] == s[0..i];
      assert UserIdSplit(s, i, j);
    }
    if exists i: nat, j: nat :: UserIdSplit(s, i, j) {
      var i: nat, j: nat :| UserIdSplit(s, i, j);
      assert s[0..i] == s[..i];
      LetterRunStops(s, 0, i);
      if j < |s| {
        assert s[j] == s[j..][0];
        assert IsAsciiDigit(s[j]);
      }
      LetterRunStops(s, i + 1, j);
    }
  }

  /** "marius.bernard1" passes. */
  lemma AcceptedUsername()
    ensures IsStringDotString("marius.bernard1")
  {
    MariusLetterRuns();
  }

  lemma MariusLetterRuns()
    ensures LetterRun("marius.bernard1", 0) == 6
    ensures LetterRun("marius.bernard1", 7) == 14
  {
    var s := "marius.bernard1";
    assert AllLetters(s[0..6]);
    LetterRunStops(s, 0, 6);
    assert AllLetters(s[7..14]);
    LetterRunStops(s, 7, 14);
  }

  /** A second dot is not allowed. */
  lemma RejectsTwoDots()
    ensures !IsStringDotString("a.b.c")
  {
    var s := "a.b.c";
    LetterRunStops(s, 0, 1);
    LetterRunStops(s, 2, 3);
    assert !IsAsciiDigit(s[3..][0]);
  }

  /** Letters must follow the dot. */
  lemma RejectsTrailingDot()
    ensures !IsStringDotString("jean.")
  {
    var s := "jean.";
    assert AllLetters(s[0..4]);
    LetterRunStops(s, 0, 4);
  }

  /** Digits are only allowed at the very end. */
  lemma RejectsDigitBeforeDot()
    ensures !IsStringDotString("j1.dupont")
  {
    LetterRunStops("j1.dupont", 0, 1);
  }

  /** Accented letters are not ASCII letters. */
  lemma RejectsAccentedLetter()
    ensures !IsStringDotString("mathéo.x")
  {
    var s := "mathéo.x";
    assert AllLetters(s[0..4]);
    LetterRunStops(s, 0, 4);
  }

  /** A valid username is made of unreserved characters, so it travels in a URL as is. */
  lemma UsernameEncodesToItself(s: seq<char>)
    requires IsStringDotString(s)
    ensures EncodeUriComponent(s) == s
  {
    var i := LetterRun(s, 0);
    var j := LetterRun(s, i + 1);
    forall k | 0 <= k < |s| ensures IsUriUnreserved(s[k]) {
      if k < i {
        assert s[k] == s[0..i][k];
      } else if i < k < j {
        assert s[k] == s[i + 1..j][k - i - 1];
      } else if j <= k {
        assert s[k] == s[j..][k - j];
      }
    }
    EncodeUriIdentity(s);
  }

  // ---------------------------------------------------------------------
  // getWorkingDays
  // ---------------------------------------------------------------------

  /** The date input: absent (`null`/`undefined`), a string, or a number of weeks. */
  datatype DateInput = NoInput | Text(text: string) | Number(weeks: int)

  /** The week offset: the number, or the integer an all-digits string spells, else 0. */
  function WeekOffset(input: DateInput): (n: int)
    ensures input.Text? && !IsSignedInteger(input.text) ==> n == 0
  {
    match input
    case NoInput => 0
    case Text(s) => if IsSignedInteger(s) then SignedValue(s) else 0
    case Number(n) => n
  }

  /** `getDay()`: 0 for Sunday through 6 for Saturday; day 0 was a Thursday. */
  function Weekday(d: int): (w: nat)
    ensures w < 7
  {
    (d + 4) % 7
  }

  /** `diffToMonday`: back to the Monday of the week, Sunday counting as its last day. */
  function DiffToMonday(w: nat): int {
    if w == 0 then -6 else 1 - w
  }

  function MondayOf(d: int): int {
    d + DiffToMonday(Weekday(d))
  }

  /** The Monday of the week of today moved by the offset. */
  function WeekMonday(input: DateInput, today: int): int {
    MondayOf(today + 7 * WeekOffset(input))
  }

  /** `getWorkingDays`: Monday to Friday of the week of today moved by the offset. */
  method GetWorkingDays(input: DateInput, today: int) returns (days: seq<int>)
    ensures |days| == 5
    ensures forall i :: 0 <= i < 5 ==> days[i] == WeekMonday(input, today) + i
  {
    var weeksToAdd := 0;
    if input.Text? && IsSignedInteger(input.text) {
      weeksToAdd := SignedValue(input.text);
    } else if input.Number? {
      weeksToAdd := input.weeks;
    }
    var current := today;
    if weeksToAdd != 0 {
      current := current + weeksToAdd * 7;
    }
    var dayOfWeek: int := Weekday(current);
    var diffToMonday := if dayOfWeek == 0 then -6 else 1 - dayOfWeek;
    var monday := current + diffToMonday;
    days := [];
    for i := 0 to 5
      invariant |days| == i
      invariant forall k :: 0 <= k < i ==> days[k] == monday + k
    {
      days := days + [monday + i];
    }
  }

  /** The Monday found is a Monday, at most six days back: the reference day lies in its week. */
  lemma MondayOfIsMonday(d: int)
    ensures Weekday(MondayOf(d)) == 1
    ensures MondayOf(d) <= d <= MondayOf(d) + 6
  {
  }

  /** It is the only Monday with that property. */
  lemma MondayOfUnique(d: int, m: int)
    requires Weekday(m) == 1 && m <= d <= m + 6
    ensures m == MondayOf(d)
  {
  }

  /** A Sunday belongs to the week that started six days earlier. */
  lemma SundayBelongsToPreviousMonday(d: int)
    requires Weekday(d) == 0
    ensures MondayOf(d) == d - 6
  {
  }

  /** Moving the reference by whole weeks moves the week by as many weeks. */
  lemma MondayOfShift(d: int, n: int)
    ensures MondayOf(d + 7 * n) == MondayOf(d) + 7 * n
  {
    assert Weekday(d + 7 * n) == Weekday(d) by {
      assert d + 7 * n + 4 == (d + 4) + 7 * n;
    }
  }

  /** The five working days run Monday to Friday in order. */
  lemma WorkingDaysAreMondayToFriday(days: seq<int>, reference: int)
    requires |days| == 5 && forall i :: 0 <= i < 5 ==> days[i] == MondayOf(reference) + i
    ensures forall i :: 0 <= i < 5 ==> Weekday(days[i]) == i + 1
    ensures forall i :: 0 <= i < 4 ==> days[i + 1] == days[i] + 1
  {
  }

  /** The offset of the text of an integer is that integer; an ISO date string means offset 0. */
  lemma WeekOffsetReadsIntegers(n: int)
    ensures WeekOffset(Text(IntToString(n))) == n
    ensures WeekOffset(Text("2024-01-15")) == 0
    ensures WeekOffset(NoInput) == 0 && WeekOffset(Number(n)) == n
  {
    IntToStringValue(n);
    var iso := "2024-01-15";
    assert !IsAsciiDigit(iso[4]);
    assert !AllDigits(iso);
  }

  // ---------------------------------------------------------------------
  // parseHtmlDay
  // ---------------------------------------------------------------------

  /**
   * One `.Ligne` row with the text of its `.Debut`, `.Fin`, `.Matiere`,
   * `.Salle` and `.Prof` elements; `None` for an element that is absent.
   */
  datatype RawRow = RawRow(
    start: Option<string>, end: Option<string>, subject: Option<string>,
    room: Option<string>, teacher: Option<string>)

  /** `(el?.textContent || "").trim()`. */
  function FieldText(f: Option<string>): (r: string)
    ensures f.None? ==> r == ""
    ensures f.Some? ==> r == Trim(f.value)
  {
    Trim(f.GetOr(""))
  }

  /** A row becomes a course when start, end and subject are all non-blank. */
  predicate Accepted(row: RawRow) {
    FieldText(row.start) != "" && FieldText(row.end) != "" && FieldText(row.subject) != ""
  }

  function CourseOf(row: RawRow): Course {
    Course(FieldText(row.subject), FieldText(row.start), FieldText(row.end),
           FieldText(row.room), FieldText(row.teacher), NoColor)
  }

  /** The courses of a page: the accepted rows, in document order. */
  function KeptCourses(rows: seq<RawRow>): seq<Course> {
    if rows == [] then []
    else
      var last := rows[|rows| - 1];
      KeptCourses(rows[..|rows| - 1]) + (if Accepted(last) then [CourseOf(last)] else [])
  }

  method ParseHtmlDay(rows: seq<RawRow>) returns (courses: seq<Course>)
    ensures courses == KeptCourses(rows)
  {
    courses := [];
    for i := 0 to |rows|
      invariant courses == KeptCourses(rows[..i])
    {
      assert rows[..i + 1][..i] == rows[..i];
      var start := FieldText(rows[i].start);
      var end := FieldText(rows[i].end);
      var subject := FieldText(rows[i].subject);
      var room := FieldText(rows[i].room);
      var teacher := FieldText(rows[i].teacher);
      if start != "" && end != "" && subject != "" {
        courses := courses + [Course(subject, start, end, room, teacher, NoColor)];
      }
    }
    assert rows[..|rows|] == rows;
  }

  /** Keeping distributes over concatenation: document order is preserved. */
  lemma {:induction false} KeptCoursesConcat(a: seq<RawRow>, b: seq<RawRow>)
    ensures KeptCourses(a + b) == KeptCourses(a) + KeptCourses(b)
    decreases |b|
  {
    if b == [] {
      assert a + b == a;
    } else {
      var front := b[..|b| - 1];
      assert (a + b)[..|a + b| - 1] == a + front;
      KeptCoursesConcat(a, front);
    }
  }

  /** A single row is kept exactly when it is accepted. */
  lemma KeptSingleRow(row: RawRow)
    ensures KeptCourses([row]) == if Accepted(row) then [CourseOf(row)] else []
  {
    assert [row][..0] == [];
  }

  /** Every kept course comes from an accepted row, and every accepted row is kept. */
  lemma KeptCoursesMembers(rows: seq<RawRow>, c: Course)
    ensures c in KeptCourses(rows) <==> exists row :: row in rows && Accepted(row) && CourseOf(row) == c
  {
    if c in KeptCourses(rows) {
      KeptCourseHasRow(rows, c);
    }
    if exists row :: row in rows && Accepted(row) && CourseOf(row) == c {
      var row :| row in rows && Accepted(row) && CourseOf(row) == c;
      AcceptedRowIsKept(rows, row);
    }
  }

  lemma {:induction false} KeptCourseHasRow(rows: seq<RawRow>, c: Course)
    requires c in KeptCourses(rows)
    ensures exists row :: row in rows && Accepted(row) && CourseOf(row) == c
  {
    var front, last := rows[..|rows| - 1], rows[|rows| - 1];
    if c in KeptCourses(front) {
      KeptCourseHasRow(front, c);
      var row :| row in front && Accepted(row) && CourseOf(row) == c;
      assert row in rows;
    } else {
      assert last in rows;
    }
  }

  lemma {:induction false} AcceptedRowIsKept(rows: seq<RawRow>, row: RawRow)
    requires row in rows && Accepted(row)
    ensures CourseOf(row) in KeptCourses(rows)
  {
    var front, last := rows[..|rows| - 1], rows[|rows| - 1];
    if row != last {
      assert rows == front + [last];
      assert row in front;
      AcceptedRowIsKept(front, row);
    }
  }

  /** Kept courses carry trimmed, non-empty times and subject, trimmed room and teacher, and no colour. */
  lemma {:induction false} KeptCoursesAreClean(rows: seq<RawRow>, c: Course)
    requires c in KeptCourses(rows)
    ensures c.start != "" && c.end != "" && c.subject != ""
    ensures Trim(c.start) == c.start && Trim(c.end) == c.end && Trim(c.subject) == c.subject
    ensures Trim(c.room) == c.room && Trim(c.teacher) == c.teacher
    ensures c.color == NoColor
  {
    KeptCoursesMembers(rows, c);
    var row :| row in rows && Accepted(row) && CourseOf(row) == c;
    TrimIdempotent(row.start.GetOr(""));
    TrimIdempotent(row.end.GetOr(""));
    TrimIdempotent(row.subject.GetOr(""));
    TrimIdempotent(row.room.GetOr(""));
    TrimIdempotent(row.teacher.GetOr(""));
  }

  /** A row without room or teacher elements still yields a course, with both empty. */
  lemma MissingRoomAndTeacherBecomeEmpty(start: string, end: string, subject: string)
    requires Trim(start) != "" && Trim(end) != "" && Trim(subject) != ""
    ensures KeptCourses([RawRow(Some(start), Some(end), Some(subject), None, None)])
            == [Course(Trim(subject), Trim(start), Trim(end), "", "", NoColor)]
  {
    KeptSingleRow(RawRow(Some(start), Some(end), Some(subject), None, None));
  }

  // ---------------------------------------------------------------------
  // The subjects of a schedule, days then courses
  // ---------------------------------------------------------------------

  function SubjectsOf(courses: seq<Course>): (r: seq<string>)
    ensures |r| == |courses| && forall k :: 0 <= k < |courses| ==> r[k] == courses[k].subject
  {
    seq(|courses|, k requires 0 <= k < |courses| => courses[k].subject)
  }

  lemma SubjectsOfSnoc(seen: seq<string>, courses: seq<Course>, k: nat)
    requires k < |courses|
    ensures seen + SubjectsOf(courses[..k + 1]) == seen + SubjectsOf(courses[..k]) + [courses[k].subject]
  {
    var a, b := SubjectsOf(courses[..k + 1]), SubjectsOf(courses[..k]) + [courses[k].subject];
    assert |a| == |b|;
    forall i | 0 <= i < |a| ensures a[i] == b[i] {
      if i < k {
        assert a[i] == courses[i].subject;
      }
    }
  }

  /** Every course's subject, day after day, in the order `forEach` visits them. */
  function AllSubjects(schedule: seq<Day>): seq<string> {
    if schedule == [] then []
    else AllSubjects(schedule[..|schedule| - 1]) + SubjectsOf(schedule[|schedule| - 1].courses)
  }

  /** The subject of course `k` of day `d` sits right after the subjects of the earlier days. */
  lemma {:induction false} AllSubjectsLayout(schedule: seq<Day>, d: nat)
    requires d < |schedule|
    ensures AllSubjects(schedule[..d + 1]) == AllSubjects(schedule[..d]) + SubjectsOf(schedule[d].courses)
    ensures IsPrefix(AllSubjects(schedule[..d + 1]), AllSubjects(schedule))
    decreases |schedule| - d
  {
    assert schedule[..d + 1][..d] == schedule[..d];
    if d + 1 < |schedule| {
      AllSubjectsLayout(schedule, d + 1);
      var a, b := AllSubjects(schedule[..d + 1]), AllSubjects(schedule[..d + 2]);
      assert b[..|a|] == a;
    } else {
      assert schedule[..d + 1] == schedule;
    }
  }

  /** Every course's subject is among the subjects listed. */
  lemma {:induction false} CourseSubjectsListed(schedule: seq<Day>, d: nat)
    requires d < |schedule|
    ensures forall k :: 0 <= k < |schedule[d].courses| ==> schedule[d].courses[k].subject in AllSubjects(schedule)
    ensures forall k :: 0 <= k < |schedule[d].courses| ==> schedule[d].courses[k].subject in Dedup(AllSubjects(schedule))
  {
    DedupProperties(AllSubjects(schedule));
    AllSubjectsLayout(schedule, d);
    var a, all := AllSubjects(schedule[..d + 1]), AllSubjects(schedule);
    var base := |AllSubjects(schedule[..d])|;
    forall k | 0 <= k < |schedule[d].courses|
      ensures schedule[d].courses[k].subject in all
    {
      assert a[base + k] == schedule[d].courses[k].subject;
      assert all[base + k] == a[base + k];
    }
  }

  // ---------------------------------------------------------------------
  // getUniqueSubjects
  // ---------------------------------------------------------------------

  /** `getUniqueSubjects`: an insertion-ordered set filled day by day, course by course. */
  method GetUniqueSubjects(schedule: seq<Day>) returns (subjects: seq<string>)
    ensures subjects == Dedup(AllSubjects(schedule))
  {
    subjects := [];
    for d := 0 to |schedule|
      invariant subjects == Dedup(AllSubjects(schedule[..d]))
    {
      AllSubjectsLayout(schedule, d);
      subjects := AddSubjects(subjects, AllSubjects(schedule[..d]), schedule[d].courses);
    }
    assert schedule[..|schedule|] == schedule;
  }

  /** The inner `forEach` of `getUniqueSubjects`: add each course's subject to the set. */
  method AddSubjects(subjects: seq<string>, ghost seen: seq<string>, courses: seq<Course>) returns (r: seq<string>)
    requires subjects == Dedup(seen)
    ensures r == Dedup(seen + SubjectsOf(courses))
  {
    r := subjects;
    ghost var cur := seen;
    for k := 0 to |courses|
      invariant cur == seen + SubjectsOf(courses[..k])
      invariant r == Dedup(cur)
    {
      var s := courses[k].subject;
      DedupSnoc(cur, s);
      DedupHas(cur, s);
      if s !in r {
        r := r + [s];
      }
      SubjectsOfSnoc(seen, courses, k);
      cur := cur + [s];
    }
    assert courses[..|courses|] == courses;
  }


  /**
   * The subject list is duplicate-free, lists every course's subject and
   * nothing else, and keeps first-appearance order.
   */
  lemma UniqueSubjectsProperties(schedule: seq<Day>, d: nat, k: nat, i: nat, j: nat)
    requires d < |schedule| && k < |schedule[d].courses|
    requires i < j < |Dedup(AllSubjects(schedule))|
    ensures NoDup(Dedup(AllSubjects(schedule)))
    ensures schedule[d].courses[k].subject in Dedup(AllSubjects(schedule))
    ensures forall s :: s in Dedup(AllSubjects(schedule)) ==> s in AllSubjects(schedule)
    ensures IndexOf(AllSubjects(schedule), Dedup(AllSubjects(schedule))[i])
            < IndexOf(AllSubjects(schedule), Dedup(AllSubjects(schedule))[j])
  {
    var all := AllSubjects(schedule);
    DedupProperties(all);
    CourseSubjectsListed(schedule, d);
    var s := schedule[d].courses[k].subject;
    var p := IndexOf(all, s);
    assert all[p] in Dedup(all);
    forall t | t in Dedup(all) ensures t in all {
      var q := IndexOf(Dedup(all), t);
    }
    DedupFirstAppearanceOrder(all, i, j);
  }

  // ---------------------------------------------------------------------
  // assignColors
  // ---------------------------------------------------------------------

  /** The palette colour of a subject: the slot of its rank among the distinct subjects. */
  function PaletteColor(distinct: seq<string>, palette: seq<Color>, subject: string): Color
    requires |palette| > 0
  {
    palette[IndexOf(distinct, subject) % |palette|]
  }

  /** A day with every course recoloured, everything else as it was. */
  function RecolorDay(day: Day, distinct: seq<string>, palette: seq<Color>): (r: Day)
    requires |palette| > 0
    ensures r.day == day.day && r.date == day.date && |r.courses| == |day.courses|
  {
    day.(courses := seq(|day.courses|, k requires 0 <= k < |day.courses| =>
                          day.courses[k].(color := PaletteColor(distinct, palette, day.courses[k].subject))))
  }

  /** The schedule `assignColors` leaves behind. */
  function ColoredSchedule(schedule: seq<Day>, palette: seq<Color>): (r: seq<Day>)
    requires |palette| > 0
    ensures |r| == |schedule|
  {
    var distinct := Dedup(AllSubjects(schedule));
    seq(|schedule|, d requires 0 <= d < |schedule| => RecolorDay(schedule[d], distinct, palette))
  }

  /** Ranks do not move when the distinct subjects grow at the end. */
  lemma IndexOfInPrefix(a: seq<string>, b: seq<string>, x: string)
    requires IsPrefix(a, b) && x in a
    ensures x in b && IndexOf(a, x) == IndexOf(b, x)
  {
    var i := IndexOf(a, x);
    assert b[i] == a[i];
    assert forall k :: 0 <= k < i ==> b[k] == a[k];
  }

  /**
   * `assignColors`: a map from subject to colour, filled on first sight with
   * the next palette slot; every course takes its subject's colour.
   */
  method AssignColors(schedule: seq<Day>, palette: seq<Color>) returns (result: seq<Day>)
    requires |palette| > 0
    ensures result == ColoredSchedule(schedule, palette)
  {
    ghost var all := AllSubjects(schedule);
    var subjectColors: map<string, Color> := map[];
    var colorIndex := 0;
    ghost var seen: seq<string> := [];
    result := [];
    for d := 0 to |schedule|
      invariant seen == AllSubjects(schedule[..d]) && IsPrefix(seen, all)
      invariant ColorsSoFar(subjectColors, colorIndex, seen, Dedup(all), palette)
      invariant |result| == d
      invariant forall e :: 0 <= e < d ==> DayRecolored(schedule[e], result[e], Dedup(all), palette)
    {
      AllSubjectsLayout(schedule, d);
      var day;
      day, subjectColors, colorIndex :=
        ColorDay(schedule[d], subjectColors, colorIndex, palette, all, seen, AllSubjects(schedule[..d + 1]));
      DayRecoloredExtend(schedule, result, day, Dedup(all), palette);
      result := result + [day];
      seen := AllSubjects(schedule[..d + 1]);
    }
    assert schedule[..|schedule|] == schedule;
    ScheduleRecolored(schedule, result, palette);
  }


  /**
   * The map holds exactly the subjects seen, each with the colour of its
   * rank among all distinct subjects, and the counter is the number of
   * distinct subjects seen.
   */
  ghost predicate ColorsSoFar(subjectColors: map<string, Color>, colorIndex: int, seen: seq<string>,
                              distinct: seq<string>, palette: seq<Color>)
    requires |palette| > 0
  {
    colorIndex == |Dedup(seen)|
    && (forall s :: s in subjectColors <==> s in seen)
    && (forall s :: s in subjectColors ==> s in distinct && subjectColors[s] == PaletteColor(distinct, palette, s))
  }

  ghost predicate IsRecolored(c: Course, c': Course, distinct: seq<string>, palette: seq<Color>)
    requires |palette| > 0
  {
    c.subject in distinct && c' == c.(color := PaletteColor(distinct, palette, c.subject))
  }

  /** The inner `forEach` of `assignColors`: one day's courses. */
  method ColorDay(day: Day, subjectColors: map<string, Color>, colorIndex: int, palette: seq<Color>,
                  ghost all: seq<string>, ghost seen: seq<string>, ghost upto: seq<string>)
    returns (colored: Day, colors': map<string, Color>, index': int)
    requires |palette| > 0
    requires upto == seen + SubjectsOf(day.courses) && IsPrefix(upto, all)
    requires ColorsSoFar(subjectColors, colorIndex, seen, Dedup(all), palette)
    ensures ColorsSoFar(colors', index', upto, Dedup(all), palette)
    ensures DayRecolored(day, colored, Dedup(all), palette)
  {
    var courses: seq<Course> := [];
    colors', index' := subjectColors, colorIndex;
    ghost var cur := seen;
    for k := 0 to |day.courses|
      invariant cur == seen + SubjectsOf(day.courses[..k]) && IsPrefix(cur, upto)
      invariant ColorsSoFar(colors', index', cur, Dedup(all), palette)
      invariant |courses| == k
      invariant forall q :: 0 <= q < k ==> IsRecolored(day.courses[q], courses[q], Dedup(all), palette)
    {
      WalkNext(seen, day.courses, k, cur, upto);
      var recolored;
      recolored, colors', index' := ColorCourse(day.courses[k], colors', index', palette, all, cur, upto);
      cur := cur + [day.courses[k].subject];
      RecoloredExtend(day.courses, courses, recolored, Dedup(all), palette);
      courses := courses + [recolored];
    }
    assert day.courses[..|day.courses|] == day.courses;
    colored := day.(courses := courses);
  }

  /** `colored` is `day` with every course recoloured. */
  ghost predicate DayRecolored(day: Day, colored: Day, distinct: seq<string>, palette: seq<Color>)
    requires |palette| > 0
  {
    colored.day == day.day && colored.date == day.date && |colored.courses| == |day.courses|
    && forall k :: 0 <= k < |day.courses| ==> IsRecolored(day.courses[k], colored.courses[k], distinct, palette)
  }

  lemma DayRecoloredExtend(schedule: seq<Day>, done: seq<Day>, day: Day, distinct: seq<string>, palette: seq<Color>)
    requires |palette| > 0 && |done| < |schedule|
    requires forall e :: 0 <= e < |done| ==> DayRecolored(schedule[e], done[e], distinct, palette)
    requires DayRecolored(schedule[|done|], day, distinct, palette)
    ensures forall e :: 0 <= e < |done| + 1 ==> DayRecolored(schedule[e], (done + [day])[e], distinct, palette)
  {
    forall e | 0 <= e < |done| + 1
      ensures DayRecolored(schedule[e], (done + [day])[e], distinct, palette)
    {
      if e < |done| {
        assert (done + [day])[e] == done[e];
      }
    }
  }

  /** Recolouring every day course by course gives the coloured schedule. */
  lemma ScheduleRecolored(schedule: seq<Day>, result: seq<Day>, palette: seq<Color>)
    requires |palette| > 0 && |result| == |schedule|
    requires forall e :: 0 <= e < |schedule| ==>
               DayRecolored(schedule[e], result[e], Dedup(AllSubjects(schedule)), palette)
    ensures result == ColoredSchedule(schedule, palette)
  {
    var distinct := Dedup(AllSubjects(schedule));
    var colored := ColoredSchedule(schedule, palette);
    forall e | 0 <= e < |schedule| ensures result[e] == colored[e] {
      CourseSubjectsListed(schedule, e);
      var a, b := result[e].courses, RecolorDay(schedule[e], distinct, palette).courses;
      assert |a| == |b|;
      forall k | 0 <= k < |a| ensures a[k] == b[k] {
        assert IsRecolored(schedule[e].courses[k], a[k], distinct, palette);
      }
      assert a == b;
    }
  }


  /** The body of the inner `forEach`: give a new subject the next slot, then colour the course. */
  method ColorCourse(course: Course, subjectColors: map<string, Color>, colorIndex: int, palette: seq<Color>,
                     ghost all: seq<string>, ghost cur: seq<string>, ghost upto: seq<string>)
    returns (recolored: Course, colors': map<string, Color>, index': int)
    requires |palette| > 0
    requires IsPrefix(upto, all) && IsPrefix(cur, upto) && |cur| < |upto| && upto[|cur|] == course.subject
    requires ColorsSoFar(subjectColors, colorIndex, cur, Dedup(all), palette)
    ensures ColorsSoFar(colors', index', cur + [course.subject], Dedup(all), palette)
    ensures IsPrefix(cur + [course.subject], upto)
    ensures IsRecolored(course, recolored, Dedup(all), palette)
  {
    var s := course.subject;
    ColorStep(subjectColors, colorIndex, palette, all, cur, s, upto);
    colors', index' := subjectColors, colorIndex;
    if s !in colors' {
      colors' := colors'[s := palette[index' % |palette|]];
      index' := index' + 1;
    }
    recolored := course.(color := colors'[s]);
  }

  /** The walk over one day's courses: the next subject is the next entry of the day's list. */
  lemma WalkNext(seen: seq<string>, courses: seq<Course>, k: nat, cur: seq<string>, upto: seq<string>)
    requires k < |courses| && cur == seen + SubjectsOf(courses[..k]) && upto == seen + SubjectsOf(courses)
    ensures |cur| < |upto| && upto[|cur|] == courses[k].subject
    ensures cur + [courses[k].subject] == seen + SubjectsOf(courses[..k + 1])
  {
    SubjectsOfSnoc(seen, courses, k);
    assert upto[|seen| + k] == SubjectsOf(courses)[k];
  }

  lemma RecoloredExtend(src: seq<Course>, done: seq<Course>, r: Course, distinct: seq<string>, palette: seq<Color>)
    requires |palette| > 0 && |done| < |src|
    requires forall q :: 0 <= q < |done| ==> IsRecolored(src[q], done[q], distinct, palette)
    requires IsRecolored(src[|done|], r, distinct, palette)
    ensures forall q :: 0 <= q < |done| + 1 ==> IsRecolored(src[q], (done + [r])[q], distinct, palette)
  {
    forall q | 0 <= q < |done| + 1
      ensures IsRecolored(src[q], (done + [r])[q], distinct, palette)
    {
      if q < |done| {
        assert (done + [r])[q] == done[q];
      }
    }
  }

  /** One course of the walk keeps `ColorsSoFar`, whether its subject is new or not. */
  lemma ColorStep(m: map<string, Color>, index: int, palette: seq<Color>,
                  all: seq<string>, cur: seq<string>, s: string, upto: seq<string>)
    requires |palette| > 0
    requires IsPrefix(upto, all) && IsPrefix(cur, upto) && |cur| < |upto| && upto[|cur|] == s
    requires ColorsSoFar(m, index, cur, Dedup(all), palette)
    ensures IsPrefix(cur + [s], upto)
    ensures s !in m ==> ColorsSoFar(m[s := palette[index % |palette|]], index + 1, cur + [s], Dedup(all), palette)
    ensures s in m ==> ColorsSoFar(m, index, cur + [s], Dedup(all), palette)
    ensures s !in m ==> PaletteColor(Dedup(all), palette, s) == palette[index % |palette|]
    ensures s in Dedup(all)
  {
    SeenPrefixGrows(cur, s, upto);
    DedupSnoc(cur, s);
    if s !in m {
      NewSubjectTakesNextSlot(all, cur, s, upto);
    }
  }

  /** The next subject of the walk extends the prefix seen so far. */
  lemma SeenPrefixGrows(seen: seq<string>, s: string, upto: seq<string>)
    requires IsPrefix(seen, upto) && |seen| < |upto| && upto[|seen|] == s
    ensures IsPrefix(seen + [s], upto)
  {
    assert upto[..|seen| + 1] == upto[..|seen|] + [s];
  }

  /** A subject met for the first time has rank equal to the number of subjects met before. */
  lemma NewSubjectTakesNextSlot(all: seq<string>, seen: seq<string>, s: string, upto: seq<string>)
    requires IsPrefix(upto, all) && IsPrefix(seen, upto) && |seen| < |upto| && upto[|seen|] == s
    requires s !in seen
    ensures s in Dedup(all) && IndexOf(Dedup(all), s) == |Dedup(seen)|
    ensures Dedup(seen + [s]) == Dedup(seen) + [s]
    ensures IsPrefix(seen + [s], upto)
  {
    SeenPrefixGrows(seen, s, upto);
    DedupSnoc(seen, s);
    var grown := seen + [s];
    assert all == grown + all[|grown|..] by {
      assert all[..|grown|] == upto[..|grown|] == grown;
    }
    DedupPrefix(grown, all[|grown|..]);
    var d := Dedup(all);
    assert d[|Dedup(seen)|] == s;
    DedupProperties(all);
    IndexOfNoDup(d, |Dedup(seen)|);
  }

  /** Courses of the same subject, anywhere in the week, get the same colour. */
  lemma SameSubjectSameColor(schedule: seq<Day>, palette: seq<Color>, d1: nat, k1: nat, d2: nat, k2: nat)
    requires |palette| > 0
    requires d1 < |schedule| && k1 < |schedule[d1].courses|
    requires d2 < |schedule| && k2 < |schedule[d2].courses|
    requires schedule[d1].courses[k1].subject == schedule[d2].courses[k2].subject
    ensures ColoredSchedule(schedule, palette)[d1].courses[k1].color
            == ColoredSchedule(schedule, palette)[d2].courses[k2].color
  {
  }

  /**
   * The k-th distinct subject, counting days then courses, takes palette
   * slot `k mod |palette|`; nothing but the colour changes.
   */
  lemma ColorIsRankModuloPalette(schedule: seq<Day>, palette: seq<Color>, d: nat, k: nat, rank: nat)
    requires |palette| > 0
    requires d < |schedule| && k < |schedule[d].courses|
    requires rank < |Dedup(AllSubjects(schedule))|
    requires schedule[d].courses[k].subject == Dedup(AllSubjects(schedule))[rank]
    ensures ColoredSchedule(schedule, palette)[d].courses[k]
            == schedule[d].courses[k].(color := palette[rank % |palette|])
  {
    DedupProperties(AllSubjects(schedule));
    IndexOfNoDup(Dedup(AllSubjects(schedule)), rank);
  }

  // ---------------------------------------------------------------------
  // fetchSchedule
  // ---------------------------------------------------------------------

  /** The time of day every request asks for. */
  const REQUEST_TIME: string := "8:00"

  /** The proxy request for one day. */
  function RequestUrl(username: string, date: string): string {
    "/api/wigor-proxy?tel=" + EncodeUriComponent(username)
    + "&date=" + EncodeUriComponent(date)
    + "&time=" + EncodeUriComponent(REQUEST_TIME)
  }

  /** One day before colouring: its label, its date, and the accepted rows of its page, or nothing. */
  function FetchedDay(i: nat, date: string, response: Option<seq<RawRow>>): Day
    requires i < 5
  {
    Day(DAYS[i], date, if response.Some? then KeptCourses(response.value) else [])
  }

  /** The dates of the requested week, as text. */
  function WeekDates(dateInput: DateInput, today: int, formatDate: int -> string): (dates: seq<string>)
    ensures |dates| == 5
  {
    seq(5, i => formatDate(WeekMonday(dateInput, today) + i))
  }

  /** The week before colouring: day `i` from the answer to request `i`. */
  function FetchedWeek(dates: seq<string>, requests: seq<string>, fetch: string -> Option<seq<RawRow>>): (r: seq<Day>)
    requires |dates| == 5 && |requests| == 5
    ensures |r| == 5
  {
    seq(5, i requires 0 <= i < 5 => FetchedDay(i, dates[i], fetch(requests[i])))
  }

  /**
   * `fetchSchedule`. `formatDate` renders a day number as the date text
   * sent and returned; `fetch` answers a request URL with the rows of the
   * page, or `None` when the request fails. `requests` lists the URLs asked
   * for, one per working day. `dateInput` is what the caller passes: the
   * page passes a week offset as a number, although the declared parameter
   * type is a string or null; a missing argument or null is `NoInput`.
   */
  method FetchSchedule(
    username: string, dateInput: DateInput, today: int,
    formatDate: int -> string, fetch: string -> Option<seq<RawRow>>, palette: seq<Color>)
    returns (days: seq<Day>, requests: seq<string>)
    requires |palette| > 0
    ensures !IsStringDotString(username) ==> days == [] && requests == []
    ensures IsStringDotString(username) ==>
              var dates := WeekDates(dateInput, today, formatDate);
              |requests| == 5
              && (forall i :: 0 <= i < 5 ==> requests[i] == RequestUrl(username, dates[i]))
              && days == ColoredSchedule(FetchedWeek(dates, requests, fetch), palette)
  {
    if !IsStringDotString(username) {
      return [], [];
    }
    var workingDays := GetWorkingDays(dateInput, today);
    var schedule;
    schedule, requests := FetchWeek(username, workingDays, formatDate, fetch);
    WeekFetched(username, dateInput, today, workingDays, formatDate, fetch, schedule, requests);
    days := AssignColors(schedule, palette);
  }

  /** Request `i` of the week and the day it yields. */
  ghost predicate WeekEntry(username: string, i: nat, date: string, fetch: string -> Option<seq<RawRow>>,
                            url: string, day: Day)
    requires i < 5
  {
    url == RequestUrl(username, date) && day == FetchedDay(i, date, fetch(url))
  }

  /** The `Promise.all` over the five working days, before colouring. */
  method FetchWeek(username: string, workingDays: seq<int>, formatDate: int -> string,
                   fetch: string -> Option<seq<RawRow>>)
    returns (schedule: seq<Day>, requests: seq<string>)
    requires |workingDays| == 5
    ensures |requests| == 5 && |schedule| == 5
    ensures forall i :: 0 <= i < 5 ==>
              WeekEntry(username, i, formatDate(workingDays[i]), fetch, requests[i], schedule[i])
  {
    schedule := [];
    requests := [];
    for i := 0 to 5
      invariant |requests| == i && |schedule| == i
      invariant forall q :: 0 <= q < i ==>
                  WeekEntry(username, q, formatDate(workingDays[q]), fetch, requests[q], schedule[q])
    {
      var url, day := FetchDay(username, i, formatDate(workingDays[i]), fetch);
      WeekEntryExtend(username, workingDays, formatDate, fetch, requests, schedule, url, day);
      requests := requests + [url];
      schedule := schedule + [day];
    }
  }

  lemma WeekEntryExtend(username: string, workingDays: seq<int>, formatDate: int -> string,
                        fetch: string -> Option<seq<RawRow>>, requests: seq<string>, schedule: seq<Day>,
                        url: string, day: Day)
    requires |workingDays| == 5 && |requests| == |schedule| < 5
    requires forall q :: 0 <= q < |requests| ==>
               WeekEntry(username, q, formatDate(workingDays[q]), fetch, requests[q], schedule[q])
    requires WeekEntry(username, |requests|, formatDate(workingDays[|requests|]), fetch, url, day)
    ensures forall q :: 0 <= q < |requests| + 1 ==>
              WeekEntry(username, q, formatDate(workingDays[q]), fetch, (requests + [url])[q], (schedule + [day])[q])
  {
    forall q | 0 <= q < |requests| + 1
      ensures WeekEntry(username, q, formatDate(workingDays[q]), fetch, (requests + [url])[q], (schedule + [day])[q])
    {
      if q < |requests| {
        assert (requests + [url])[q] == requests[q] && (schedule + [day])[q] == schedule[q];
      }
    }
  }

  /** The entries of the week are the requests and days the postcondition of `FetchSchedule` names. */
  lemma WeekFetched(username: string, dateInput: DateInput, today: int, workingDays: seq<int>,
                    formatDate: int -> string, fetch: string -> Option<seq<RawRow>>,
                    schedule: seq<Day>, requests: seq<string>)
    requires |workingDays| == 5 && |requests| == 5 && |schedule| == 5
    requires forall i :: 0 <= i < 5 ==>
               workingDays[i] == WeekMonday(dateInput, today) + i
    requires forall i :: 0 <= i < 5 ==>
               WeekEntry(username, i, formatDate(workingDays[i]), fetch, requests[i], schedule[i])
    ensures forall i :: 0 <= i < 5 ==> requests[i] == RequestUrl(username, WeekDates(dateInput, today, formatDate)[i])
    ensures schedule == FetchedWeek(WeekDates(dateInput, today, formatDate), requests, fetch)
  {
    var dates := WeekDates(dateInput, today, formatDate);
    WeekDatesAreWorkingDays(dateInput, today, formatDate, workingDays);
    var week := FetchedWeek(dates, requests, fetch);
    forall i | 0 <= i < 5 ensures schedule[i] == week[i] {
      assert WeekEntry(username, i, formatDate(workingDays[i]), fetch, requests[i], schedule[i]);
    }
  }

  lemma WeekDatesAreWorkingDays(dateInput: DateInput, today: int, formatDate: int -> string, workingDays: seq<int>)
    requires |workingDays| == 5
    requires forall i :: 0 <= i < 5 ==>
               workingDays[i] == WeekMonday(dateInput, today) + i
    ensures forall i :: 0 <= i < 5 ==> WeekDates(dateInput, today, formatDate)[i] == formatDate(workingDays[i])
  {
  }

  /** One request of the week: ask for the page and keep its accepted rows; a failure gives no courses. */
  method FetchDay(username: string, i: nat, date: string, fetch: string -> Option<seq<RawRow>>)
    returns (url: string, day: Day)
    requires i < 5
    ensures url == RequestUrl(username, date)
    ensures day == FetchedDay(i, date, fetch(url))
  {
    url := RequestUrl(username, date);
    var response := fetch(url);
    var courses: seq<Course> := [];
    if response.Some? {
      courses := ParseHtmlDay(response.value);
    }
    day := Day(DAYS[i], date, courses);
  }

  /**
   * The week comes back as five days labelled Lundi to Vendredi in order,
   * each with its date, and a day whose request failed has no courses.
   */
  lemma FetchedWeekShape(fetched: seq<Day>, palette: seq<Color>, i: nat, date: string, response: Option<seq<RawRow>>)
    requires |palette| > 0 && |fetched| == 5 && i < 5
    requires fetched[i] == FetchedDay(i, date, response)
    ensures ColoredSchedule(fetched, palette)[i].day == DAYS[i]
    ensures ColoredSchedule(fetched, palette)[i].date == date
    ensures response.None? ==> ColoredSchedule(fetched, palette)[i].courses == []
    ensures response.Some? ==> |ColoredSchedule(fetched, palette)[i].courses| == |KeptCourses(response.value)|
  {
  }

  /** The fixed time of day travels as "8%3A00". */
  lemma TimeParameterEncoding()
    ensures EncodeUriComponent(REQUEST_TIME) == "8%3A00"
  {
    assert EncodeUriChar(':') == "%3A";
    assert EncodeUriComponent("0") == "0";
    assert EncodeUriComponent("00") == "00";
    assert EncodeUriComponent(":00") == "%3A00";
  }

  /** The username reaches the proxy unchanged, next to the encoded date and time. */
  lemma RequestCarriesUsername(username: string, date: string)
    requires IsStringDotString(username)
    ensures RequestUrl(username, date)
            == "/api/wigor-proxy?tel=" + username + "&date=" + EncodeUriComponent(date)
               + "&time=" + EncodeUriComponent(REQUEST_TIME)
  {
    UsernameEncodesToItself(username);
  }
}
