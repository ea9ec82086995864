/**
 * Calendar export: the Google Calendar "render" link for one course, the
 * links for a whole week, and the iCalendar-shaped line list (with its CRLF
 * text) for a whole schedule. Dates are read as "dd/mm/yyyy" and times as
 * "HH:mm". The lines follow the layout of an iCalendar object (RFC 5545,
 * section 3.4) with one VEVENT per course (section 3.6.1) but leave out the
 * UID and DTSTAMP properties that section requires; what is modelled is what
 * the code emits, not conformance.
 */
module GoogleCalendar {
  import opened JsText
  import opened ScheduleTypes
  import opened Sequences

  /** What a template literal prints for a missing array element. */
  const UNDEFINED: string := "undefined"

  /** Element `k` of a destructured `split` result, or "undefined" past its end. */
  function PartOrUndefined(parts: seq<string>, k: nat): string {
    if k < |parts| then parts[k] else UNDEFINED
  }

  /** `const [day, month, year] = date.split('/')` printed as `${year}${month}${day}`. */
  function CompactDate(date: string): string {
    var parts := Split(date, '/');
    PartOrUndefined(parts, 2) + PartOrUndefined(parts, 1) + PartOrUndefined(parts, 0)
  }

  /** A "dd/mm/yyyy" date becomes "yyyymmdd". */
  lemma CompactDateReordersFields(d: string, m: string, y: string)
    requires '/' !in d && '/' !in m && '/' !in y
    ensures CompactDate(d + "/" + m + "/" + y) == y + m + d
  {
    SplitField(m, y, '/');
    SplitField(d, m + ['/'] + y, '/');
    assert d + "/" + m + "/" + y == d + ['/'] + (m + ['/'] + y);
    NoSeparatorSplit(y, '/');
  }

  /**
   * A date in another format, such as the service's "2024-01-15", has no
   * '/' and comes out behind two "undefined"s.
   */
  lemma CompactDateWithoutSlashes(date: string)
    requires '/' !in date
    ensures CompactDate(date) == UNDEFINED + UNDEFINED + date
  {
    NoSeparatorSplit(date, '/');
  }

  /**
   * `<date>T<time>00`, the time with its first ':' removed: the DTSTART /
   * DTEND value and each half of `dates=`.
   */
  function DateTimeStamp(date: string, time: string): string {
    CompactDate(date) + "T" + RemoveFirst(time, ':') + "00"
  }

  /** An "HH:mm" time loses its colon: "08:30" gives "0830". */
  lemma ClockLosesColon(hh: string, mm: string)
    requires ':' !in hh
    ensures RemoveFirst(hh + ":" + mm, ':') == hh + mm
  {
    RemoveFirstAt(hh, ':', mm);
  }

  lemma HalfPastEightStamp()
    ensures RemoveFirst("08:30", ':') + "00" == "083000"
  {
    ClockLosesColon("08", "30");
    assert "08" + ":" + "30" == "08:30";
  }

  /** The date-time stamp of a "dd/mm/yyyy" date and an "HH:mm" time. */
  lemma DateTimeStampLayout(d: string, m: string, y: string, hh: string, mm: string)
    requires '/' !in d && '/' !in m && '/' !in y && ':' !in hh
    ensures DateTimeStamp(d + "/" + m + "/" + y, hh + ":" + mm) == y + m + d + "T" + hh + mm + "00"
  {
    CompactDateReordersFields(d, m, y);
    ClockLosesColon(hh, mm);
  }

  /** The exported location: "DISTANCIEL" for a room starting with "SALLE", else the room. */
  function ExportLocation(room: string): (r: string)
    ensures !StartsWith(room, "SALLE") ==> r == room
    ensures r == "DISTANCIEL" <==> StartsWith(room, "SALLE") || room == "DISTANCIEL"
  {
    if StartsWith(room, "SALLE") then "DISTANCIEL" else room
  }

  /** The `details=` text before encoding. */
  function Details(c: Course): string {
    "Professeur: " + c.teacher + "\nSalle: " + c.room
  }

  const RENDER_PAGE: string := "https://www.google.com/calendar/render?"

  /** One `name=value` query parameter. */
  function Parameter(name: string, value: string): string {
    name + "=" + value
  }

  /** The `dates=` value: start and end stamps separated by '/'. */
  function DatesValue(c: Course, date: string): string {
    DateTimeStamp(date, c.start) + "/" + DateTimeStamp(date, c.end)
  }

  /** The five query parameters of the link, in order. */
  function UrlParameters(c: Course, date: string): seq<string> {
    [ Parameter("action", "TEMPLATE"),
      Parameter("text", EncodeUriComponent(c.subject)),
      Parameter("dates", DatesValue(c, date)),
      Parameter("details", EncodeUriComponent(Details(c))),
      Parameter("location", EncodeUriComponent(ExportLocation(c.room))) ]
  }

  /**
   * `createGoogleCalendarEvent`: the render page followed by
   * `action=TEMPLATE&text=…&dates=…/…&details=…&location=…`.
   */
  function GoogleCalendarUrl(c: Course, date: string): string {
    RENDER_PAGE + Join(UrlParameters(c, date), '&')
  }

  lemma EncodedHasNoAmpersand(s: string)
    ensures '&' !in EncodeUriComponent(s)
  {
    var r := EncodeUriComponent(s);
    assert forall k :: 0 <= k < |r| ==> r[k] != '&';
  }

  lemma StampHasNoAmpersand(date: string, time: string)
    requires '&' !in date && '&' !in time
    ensures '&' !in DateTimeStamp(date, time)
  {
    var parts := Split(date, '/');
    SplitKeepsOut(date, '/', '&');
    assert '&' !in PartOrUndefined(parts, 0) && '&' !in PartOrUndefined(parts, 1) && '&' !in PartOrUndefined(parts, 2);
    RemoveFirstKeepsOut(time, ':', '&');
  }

  /** No parameter holds a '&' of its own when the date and times hold none. */
  lemma ParametersHaveNoAmpersand(c: Course, date: string)
    requires '&' !in date && '&' !in c.start && '&' !in c.end
    ensures forall k :: 0 <= k < |UrlParameters(c, date)| ==> '&' !in UrlParameters(c, date)[k]
  {
    EncodedParametersHaveNoAmpersand(c, date);
    StampHasNoAmpersand(date, c.start);
    StampHasNoAmpersand(date, c.end);
    ParameterHasNoAmpersand("action", "TEMPLATE");
    ParameterHasNoAmpersand("dates", DatesValue(c, date));
  }

  lemma EncodedParametersHaveNoAmpersand(c: Course, date: string)
    ensures '&' !in UrlParameters(c, date)[1]
    ensures '&' !in UrlParameters(c, date)[3]
    ensures '&' !in UrlParameters(c, date)[4]
  {
    EncodedHasNoAmpersand(c.subject);
    EncodedHasNoAmpersand(Details(c));
    EncodedHasNoAmpersand(ExportLocation(c.room));
    ParameterHasNoAmpersand("text", EncodeUriComponent(c.subject));
    ParameterHasNoAmpersand("details", EncodeUriComponent(Details(c)));
    ParameterHasNoAmpersand("location", EncodeUriComponent(ExportLocation(c.room)));
  }

  lemma ParameterHasNoAmpersand(name: string, value: string)
    requires '&' !in name && '&' !in value
    ensures '&' !in Parameter(name, value)
  {
  }

  /**
   * Reading the link back: the query after the page splits on '&' into
   * exactly the five parameters, with the subject, details and location
   * percent-encoded, as long as the date and times hold no '&'.
   */
  lemma UrlQueryReadsBack(c: Course, date: string)
    requires '&' !in date && '&' !in c.start && '&' !in c.end
    ensures StartsWith(GoogleCalendarUrl(c, date), RENDER_PAGE)
    ensures Split(GoogleCalendarUrl(c, date)[|RENDER_PAGE|..], '&') == UrlParameters(c, date)
  {
    var p := UrlParameters(c, date);
    ParametersHaveNoAmpersand(c, date);
    SplitJoin(p, '&');
    var url := GoogleCalendarUrl(c, date);
    assert url[..|RENDER_PAGE|] == RENDER_PAGE;
    assert url[|RENDER_PAGE|..] == Join(p, '&');
  }

  /** One course of the schedule together with the date of its day. */
  datatype Entry = Entry(course: Course, date: string)

  function DayEntries(day: Day): (r: seq<Entry>)
    ensures |r| == |day.courses|
  {
    seq(|day.courses|, i requires 0 <= i < |day.courses| => Entry(day.courses[i], day.date))
  }

  lemma DayEntriesStep(day: Day, i: nat)
    requires i < |day.courses|
    ensures DayEntries(day)[..i + 1] == DayEntries(day)[..i] + [Entry(day.courses[i], day.date)]
  {
    var s := DayEntries(day);
    assert s[..i + 1] == s[..i] + [s[i]];
  }

  /** Every course of the schedule, days then courses, each with its day's date. */
  function Entries(schedule: seq<Day>): seq<Entry> {
    if schedule == [] then []
    else Entries(schedule[..|schedule| - 1]) + DayEntries(schedule[|schedule| - 1])
  }

  lemma EntriesStep(schedule: seq<Day>, d: nat)
    requires d < |schedule|
    ensures Entries(schedule[..d + 1]) == Entries(schedule[..d]) + DayEntries(schedule[d])
  {
    assert schedule[..d + 1][..d] == schedule[..d];
  }

  function CourseCount(schedule: seq<Day>): nat {
    if schedule == [] then 0
    else CourseCount(schedule[..|schedule| - 1]) + |schedule[|schedule| - 1].courses|
  }

  lemma {:induction false} EntriesCount(schedule: seq<Day>)
    ensures |Entries(schedule)| == CourseCount(schedule)
  {
    if schedule != [] {
      EntriesCount(schedule[..|schedule| - 1]);
    }
  }

  /**
   * Days then courses: course `i` of day `d` comes after every course of the
   * days before it, with that day's date.
   */
  lemma {:induction false} EntriesOrder(schedule: seq<Day>, d: nat, i: nat)
    requires d < |schedule| && i < |schedule[d].courses|
    ensures CourseCount(schedule[..d]) + i < |Entries(schedule)|
    ensures Entries(schedule)[CourseCount(schedule[..d]) + i] == Entry(schedule[d].courses[i], schedule[d].date)
  {
    var front := schedule[..|schedule| - 1];
    EntriesCount(front);
    if d < |front| {
      EntriesOrder(front, d, i);
      assert front[..d] == schedule[..d];
    } else {
      assert schedule[..d] == front;
    }
  }

  /** `exportWeekToGoogleCalendar`: one link per course, days then courses. */
  function WeekUrls(entries: seq<Entry>): (r: seq<string>)
    ensures |r| == |entries|
  {
    seq(|entries|, k requires 0 <= k < |entries| => GoogleCalendarUrl(entries[k].course, entries[k].date))
  }

  lemma UrlsConcat(a: seq<Entry>, b: seq<Entry>)
    ensures WeekUrls(a + b) == WeekUrls(a) + WeekUrls(b)
  {
  }

  /**
   * The links `exportWeekToGoogleCalendar` opens, in the order it opens
   * them; opening a tab is a browser effect and is not modelled.
   */
  method ExportWeekToGoogleCalendar(schedule: seq<Day>) returns (urls: seq<string>)
    ensures urls == WeekUrls(Entries(schedule))
  {
    urls := [];
    for d := 0 to |schedule|
      invariant urls == WeekUrls(Entries(schedule[..d]))
    {
      var dayUrls := DayUrls(schedule[d]);
      EntriesStep(schedule, d);
      UrlsConcat(Entries(schedule[..d]), DayEntries(schedule[d]));
      urls := urls + dayUrls;
    }
    assert schedule[..|schedule|] == schedule;
  }

  /** The inner `forEach` of `exportWeekToGoogleCalendar`: one day's links. */
  method DayUrls(day: Day) returns (urls: seq<string>)
    ensures urls == WeekUrls(DayEntries(day))
  {
    urls := [];
    for i := 0 to |day.courses|
      invariant urls == WeekUrls(DayEntries(day)[..i])
    {
      var url := GoogleCalendarUrl(day.courses[i], day.date);
      DayEntriesStep(day, i);
      urls := urls + [url];
    }
    assert DayEntries(day)[..|day.courses|] == DayEntries(day);
  }

  // ---------------------------------------------------------------- iCalendar

  const ICS_HEADER: seq<string> := [
    "BEGIN:VCALENDAR",
    "VERSION:2.0",
    "PRODID:-//Mon Emploi du Temps//FR",
    "CALNAME:Emploi du Temps",
    "TIMEZONE:Europe/Paris"
  ]

  const ICS_FOOTER: string := "END:VCALENDAR"
  const EVENT_BEGIN: string := "BEGIN:VEVENT"
  const EVENT_END: string := "END:VEVENT"

  /** The seven lines pushed for one course. */
  function EventLines(e: Entry): (r: seq<string>)
    ensures |r| == 7 && r[0] == EVENT_BEGIN && r[6] == EVENT_END
  {
    [ EVENT_BEGIN,
      "DTSTART:" + DateTimeStamp(e.date, e.course.start),
      "DTEND:" + DateTimeStamp(e.date, e.course.end),
      "SUMMARY:" + e.course.subject,
      "LOCATION:" + ExportLocation(e.course.room),
      "DESCRIPTION:Professeur: " + e.course.teacher,
      EVENT_END ]
  }

  /** The line list `exportToICS` builds. */
  function IcsLines(schedule: seq<Day>): seq<string> {
    ICS_HEADER + ConcatMap(Entries(schedule), EventLines) + [ICS_FOOTER]
  }

  /** The seven lines `exportToICS` pushes for one course, the date split per course. */
  method PushEvent(lines: seq<string>, course: Course, date: string) returns (r: seq<string>)
    ensures r == lines + EventLines(Entry(course, date))
  {
    var parts := Split(date, '/');
    var dateStr := PartOrUndefined(parts, 2) + PartOrUndefined(parts, 1) + PartOrUndefined(parts, 0);
    var startHour := RemoveFirst(course.start, ':');
    var endHour := RemoveFirst(course.end, ':');
    var location := if StartsWith(course.room, "SALLE") then "DISTANCIEL" else course.room;
    var dtStart, dtEnd := dateStr + "T" + startHour + "00", dateStr + "T" + endHour + "00";
    r := lines + [ EVENT_BEGIN,
                   "DTSTART:" + dtStart,
                   "DTEND:" + dtEnd,
                   "SUMMARY:" + course.subject,
                   "LOCATION:" + location,
                   "DESCRIPTION:Professeur: " + course.teacher,
                   EVENT_END ];
  }

  /** The line-building part of `exportToICS`; the download itself is not modelled. */
  method ExportIcsLines(schedule: seq<Day>) returns (lines: seq<string>)
    ensures lines == IcsLines(schedule)
  {
    lines := ICS_HEADER;
    for d := 0 to |schedule|
      invariant lines == ICS_HEADER + ConcatMap(Entries(schedule[..d]), EventLines)
    {
      ghost var before := ConcatMap(Entries(schedule[..d]), EventLines);
      ghost var added := ConcatMap(DayEntries(schedule[d]), EventLines);
      lines := PushDayEvents(lines, schedule[d]);
      EntriesStep(schedule, d);
      ConcatMapConcat(Entries(schedule[..d]), DayEntries(schedule[d]), EventLines);
      AppendAssoc(ICS_HEADER, before, added);
    }
    assert schedule[..|schedule|] == schedule;
    lines := lines + [ICS_FOOTER];
  }

  /** The inner `forEach` of `exportToICS`: one day's events. */
  method PushDayEvents(lines: seq<string>, day: Day) returns (r: seq<string>)
    ensures r == lines + ConcatMap(DayEntries(day), EventLines)
  {
    r := lines;
    for i := 0 to |day.courses|
      invariant r == lines + ConcatMap(DayEntries(day)[..i], EventLines)
    {
      ghost var before := ConcatMap(DayEntries(day)[..i], EventLines);
      var e := Entry(day.courses[i], day.date);
      r := PushEvent(r, day.courses[i], day.date);
      DayEntriesStep(day, i);
      ConcatMapSnoc(DayEntries(day)[..i], e, EventLines);
      AppendAssoc(lines, before, EventLines(e));
    }
    assert DayEntries(day)[..|day.courses|] == DayEntries(day);
  }

  /** Five header lines, seven per course, one closing line. */
  lemma IcsLineCount(schedule: seq<Day>)
    ensures |IcsLines(schedule)| == 6 + 7 * CourseCount(schedule)
    ensures IcsLines(schedule)[0] == "BEGIN:VCALENDAR"
    ensures IcsLines(schedule)[|IcsLines(schedule)| - 1] == ICS_FOOTER
  {
    ConcatMapLength(Entries(schedule), EventLines, 7);
    EntriesCount(schedule);
  }

  /** Entry `k` of the schedule owns the seven lines after the header and the `k` blocks before it. */
  lemma IcsBlock(schedule: seq<Day>, k: nat)
    requires k < |Entries(schedule)|
    ensures 5 + 7 * k + 7 < |IcsLines(schedule)|
    ensures IcsLines(schedule)[5 + 7 * k..5 + 7 * k + 7] == EventLines(Entries(schedule)[k])
  {
    var entries := Entries(schedule);
    var events := ConcatMap(entries, EventLines);
    ConcatMapBlock(entries, EventLines, 7, k);
    assert |ICS_HEADER| == 5;
    SliceOfMiddle(ICS_HEADER, events, [ICS_FOOTER], 7 * k, 7 * k + 7);
  }

  /**
   * In the whole line list, course `i` of day `d` owns the seven lines after
   * the header and the blocks of every earlier course.
   */
  lemma IcsEventOfCourse(schedule: seq<Day>, d: nat, i: nat)
    requires d < |schedule| && i < |schedule[d].courses|
    ensures var at := 5 + 7 * (CourseCount(schedule[..d]) + i);
            at + 7 < |IcsLines(schedule)|
            && IcsLines(schedule)[at..at + 7] == EventLines(Entry(schedule[d].courses[i], schedule[d].date))
  {
    var k := CourseCount(schedule[..d]) + i;
    EntriesOrder(schedule, d, i);
    assert Entries(schedule)[k] == Entry(schedule[d].courses[i], schedule[d].date);
    IcsBlock(schedule, k);
  }

  // ---------------------------------------------------------------- CRLF text

  const CRLF: string := "\r\n"

  /** `lines.join(sep)` for a string separator. */
  function JoinWith(lines: seq<string>, sep: string): string {
    if lines == [] then []
    else if |lines| == 1 then lines[0]
    else lines[0] + sep + JoinWith(lines[1..], sep)
  }

  /** The file contents: the lines joined with CRLF, as content lines are in RFC 5545 section 3.1. */
  function IcsText(schedule: seq<Day>): string {
    JoinWith(IcsLines(schedule), CRLF)
  }

  predicate HasNoLineBreak(line: string) {
    '\r' !in line && '\n' !in line
  }

  /** Drops one trailing carriage return. */
  function DropCr(s: string): string {
    if |s| > 0 && s[|s| - 1] == '\r' then s[..|s| - 1] else s
  }

  /** Reading CRLF-separated text: split on LF, then drop each part's CR. */
  function ReadLines(text: string): (r: seq<string>)
    ensures |r| == |Split(text, '\n')|
  {
    var parts := Split(text, '\n');
    seq(|parts|, k requires 0 <= k < |parts| => DropCr(parts[k]))
  }

  /** Every line but the last carries the CR of its terminator. */
  function WithCr(lines: seq<string>): (r: seq<string>)
    ensures |r| == |lines|
  {
    if |lines| <= 1 then lines else [lines[0] + "\r"] + WithCr(lines[1..])
  }

  lemma {:induction false} JoinCrlf(lines: seq<string>)
    ensures JoinWith(lines, CRLF) == Join(WithCr(lines), '\n')
  {
    if |lines| > 1 {
      JoinCrlf(lines[1..]);
      assert WithCr(lines)[1..] == WithCr(lines[1..]);
      assert lines[0] + CRLF == lines[0] + "\r" + "\n";
    }
  }

  lemma {:induction false} WithCrParts(lines: seq<string>)
    requires forall k :: 0 <= k < |lines| ==> HasNoLineBreak(lines[k])
    ensures forall k :: 0 <= k < |lines| ==> '\n' !in WithCr(lines)[k] && DropCr(WithCr(lines)[k]) == lines[k]
  {
    if |lines| > 1 {
      WithCrParts(lines[1..]);
      var first := lines[0] + "\r";
      assert first[..|first| - 1] == lines[0];
      forall k | 1 <= k < |lines|
        ensures WithCr(lines)[k] == WithCr(lines[1..])[k - 1]
      {
      }
    } else if |lines| == 1 {
      assert lines[0] == [] || lines[0][|lines[0]| - 1] != '\r';
    }
  }

  /**
   * The CRLF text reads back into the same lines, provided no line holds a
   * line break of its own.
   */
  lemma ReadLinesJoin(lines: seq<string>)
    requires |lines| >= 1
    requires forall k :: 0 <= k < |lines| ==> HasNoLineBreak(lines[k])
    ensures ReadLines(JoinWith(lines, CRLF)) == lines
  {
    JoinCrlf(lines);
    WithCrParts(lines);
    SplitJoin(WithCr(lines), '\n');
  }
}
