/**
 * The week-grid layout engine: "HH:mm" parsing, vertical placement in
 * pixels, and the greedy first-fit column assignment that puts
 * overlapping courses side by side.
 */
module TimeGrid {
  import opened Wrappers
  import opened JsText
  import opened Sorting
  import opened ScheduleTypes
  import opened ScheduleConstants

  // ---------------------------------------------------------------------
  // Time helpers
  // ---------------------------------------------------------------------

  /**
   * `Number(s)` for the strings a clock field holds: surrounding whitespace
   * is ignored, the empty string is 0, an optionally signed run of decimal
   * digits is its value; anything else is NaN, written `None`.
   */
  function JsNumber(s: string): (r: Option<int>)
    ensures Trim(s) == "" ==> r == Some(0)
    ensures (forall k :: 0 <= k < |s| ==> IsAsciiDigit(s[k])) && s != [] ==> r == Some(DigitsValue(s))
    ensures Trim(s) != "" && AllDigits(Trim(s)) ==> r == Some(DigitsValue(Trim(s)))
    ensures IsSignedDigits(Trim(s)) && Trim(s)[0] == '-' ==> r == Some(-(DigitsValue(Trim(s)[1..]) as int))
    ensures IsSignedDigits(Trim(s)) && Trim(s)[0] == '+' ==> r == Some(DigitsValue(Trim(s)[1..]))
    ensures r.None? <==> Trim(s) != "" && !AllDigits(Trim(s)) && !IsSignedDigits(Trim(s))
  {
    var t := Trim(s);
    if t == [] then Some(0)
    else if AllDigits(t) then
      assert s != [] && (forall k :: 0 <= k < |s| ==> IsAsciiDigit(s[k])) ==> t == s by {
        if s != [] && (forall k :: 0 <= k < |s| ==> IsAsciiDigit(s[k])) {
          assert TrimStartIndex(s) == 0;
          assert TrimEndIndex(s, 0) == |s|;
        }
      }
      Some(DigitsValue(t))
    else if IsSignedDigits(t) then
      var v: int := DigitsValue(t[1..]);
      Some(if t[0] == '-' then -v else v)
    else None
  }

  /** A sign, '+' or '-', followed by at least one decimal digit. */
  predicate IsSignedDigits(t: string) {
    |t| > 1 && (t[0] == '-' || t[0] == '+') && AllDigits(t[1..])
  }

  /**
   * `parseHHmmToMinutes`: split on ':', read the hours and the minutes with
   * `Number`, and return `h * 60 + (m || 0)`; NaN hours give NaN (`None`).
   */
  function ParseHHmmToMinutes(hhmm: string): Option<int> {
    var parts := Split(hhmm, ':');
    var h := JsNumber(parts[0]);
    // `m || 0`: a missing part (undefined), NaN and 0 all read as 0.
    var m := if |parts| >= 2 then JsNumber(parts[1]).GetOr(0) else 0;
    if h.None? then None else Some(h.value * 60 + m)
  }

  /** Two-digit "HH:mm" parses to `h * 60 + m`. */
  lemma ParseTwoDigitClock(h: nat, m: nat)
    requires h < 100 && m < 100
    ensures ParseHHmmToMinutes(Pad2(h) + ":" + Pad2(m)) == Some(h * 60 + m)
  {
    var hs, ms := Pad2(h), Pad2(m);
    assert ':' !in hs && ':' !in ms;
    SplitAroundSeparator(hs, ms, ':');
    assert Pad2(h) + ":" + Pad2(m) == hs + [':'] + ms;
    Pad2Value(h);
    Pad2Value(m);
  }

  /** A clock with no minutes part ("HH") counts its minutes as 0. */
  lemma ParseHoursOnly(h: nat)
    requires h < 100
    ensures ParseHHmmToMinutes(Pad2(h)) == Some(h * 60)
  {
    var hs := Pad2(h);
    assert ':' !in hs;
    NoSeparatorSplit(hs, ':');
    Pad2Value(h);
  }

  /** `minutesToTop`: pixels below the top of the grid, clamped at 0. */
  function MinutesToTop(minutesSinceMidnight: int): (r: real)
    ensures r >= 0.0
    ensures minutesSinceMidnight <= DAY_START_MINUTES ==> r == 0.0
    ensures minutesSinceMidnight >= DAY_START_MINUTES ==>
              r * 4.0 == 3.0 * (minutesSinceMidnight - DAY_START_MINUTES) as real
  {
    var deltaMin := minutesSinceMidnight - DAY_START_MINUTES;
    MaxReal(0.0, (deltaMin as real / 60.0) * HOUR_HEIGHT_PX as real)
  }

  /** `durationToHeight`: the pixel height of a span; zero or inverted spans give 0. */
  function DurationToHeight(startMin: int, endMin: int): (r: real)
    ensures r >= 0.0
    ensures r == 0.0 <==> endMin <= startMin
    ensures r * 4.0 == 3.0 * (if endMin > startMin then endMin - startMin else 0) as real
  {
    var durMin := if endMin - startMin > 0 then endMin - startMin else 0;
    (durMin as real / 60.0) * HOUR_HEIGHT_PX as real
  }

  function MaxReal(a: real, b: real): (r: real)
    ensures r >= a && r >= b && (r == a || r == b)
  {
    if a >= b then a else b
  }

  /** `Math.round`: the nearest integer, halves rounded up. */
  function Round(x: real): (r: int)
    ensures r as real - 0.5 <= x < r as real + 0.5
  {
    (x + 0.5).Floor
  }

  /** `isOverlap`: half-open intervals that share some time. */
  predicate IsOverlap(aStart: int, aEnd: int, bStart: int, bEnd: int) {
    aStart < bEnd && bStart < aEnd
  }

  /**
   * Two non-empty spans overlap exactly when some minute lies in both, so
   * spans that merely touch do not; and the test is symmetric.
   */
  lemma OverlapMeansSharedMinute(aStart: int, aEnd: int, bStart: int, bEnd: int)
    requires aStart < aEnd && bStart < bEnd
    ensures IsOverlap(aStart, aEnd, bStart, bEnd)
            <==> exists t :: DuringSpan(t, aStart, aEnd) && DuringSpan(t, bStart, bEnd)
    ensures IsOverlap(aStart, aEnd, bStart, bEnd) == IsOverlap(bStart, bEnd, aStart, aEnd)
  {
    if IsOverlap(aStart, aEnd, bStart, bEnd) {
      var t := if aStart < bStart then bStart else aStart;
      assert DuringSpan(t, aStart, aEnd) && DuringSpan(t, bStart, bEnd);
    }
  }

  /** Minute `t` lies in the half-open span `[start, end)`. */
  predicate DuringSpan(t: int, start: int, end: int) {
    start <= t < end
  }

  /** The hour labels are 13 whole hours, one apart, from 08:00 (the grid's top) to 20:00. */
  lemma HoursAreHourly()
    ensures |HOURS| == 13
    ensures forall i :: 0 <= i < |HOURS| ==> ParseHHmmToMinutes(HOURS[i]) == Some(DAY_START_MINUTES + 60 * i)
  {
    forall i | 0 <= i < |HOURS|
      ensures ParseHHmmToMinutes(HOURS[i]) == Some(DAY_START_MINUTES + 60 * i)
    {
      HourParses(i);
    }
  }

  /** Row `i` of the hour labels parses to `8 + i` whole hours. */
  lemma HourParses(i: nat)
    requires i < 13
    ensures ParseHHmmToMinutes(HOURS[i]) == Some(DAY_START_MINUTES + 60 * i)
  {
    var h := 8 + i;
    assert h * 60 == DAY_START_MINUTES + 60 * i;
    HourLabel(i);
    WholeHourParses(h);
  }

  /** The clock reading of `h` whole hours, "HH:00". */
  function ClockText(h: nat): string
    requires h < 100
  {
    Pad2(h) + ":" + Pad2(0)
  }

  /** A whole-hour clock reading parses to `h` hours. */
  lemma WholeHourParses(h: nat)
    requires h < 100
    ensures ParseHHmmToMinutes(ClockText(h)) == Some(h * 60)
  {
    assert ClockText(h) == Pad2(h) + ":" + Pad2(0);
    ParseTwoDigitClock(h, 0);
  }

  /** `HOURS[i]` is the clock reading `8 + i` hours and no minutes. */
  lemma HourLabel(i: nat)
    requires i < 13
    ensures HOURS[i] == ClockText(8 + i)
  {
    var h := 8 + i;
    assert Pad2(0) == "00";
    if h < 10 {
      assert Pad2(h) == ['0', DigitChar(h)];
    } else {
      assert NatToString(h) == NatToString(h / 10) + [DigitChar(h % 10)];
      assert Pad2(h) == [DigitChar(h / 10), DigitChar(h % 10)];
    }
  }

  // ---------------------------------------------------------------------
  // Column assignment
  // ---------------------------------------------------------------------

  /** A course's time span in minutes since midnight. */
  datatype Span = Span(start: int, end: int)

  predicate Overlap(a: Span, b: Span) {
    IsOverlap(a.start, a.end, b.start, b.end)
  }

  /** A course whose `start` and `end` both parse to a number. */
  predicate HasClockTimes(c: Course) {
    ParseHHmmToMinutes(c.start).Some? && ParseHHmmToMinutes(c.end).Some?
  }

  function SpanOf(c: Course): Span
    requires HasClockTimes(c)
  {
    Span(ParseHHmmToMinutes(c.start).value, ParseHHmmToMinutes(c.end).value)
  }

  function SpansOf(cs: seq<Course>): (r: seq<Span>)
    requires forall c :: c in cs ==> HasClockTimes(c)
    ensures |r| == |cs| && forall i :: 0 <= i < |cs| ==> r[i] == SpanOf(cs[i])
  {
    seq(|cs|, i requires 0 <= i < |cs| => SpanOf(cs[i]))
  }

  /**
   * The comparator of `items.sort`: by start minute, then by end minute.
   * Sorting the courses by this key and sorting the per-course records by
   * it give the same order, since the records carry the same minutes.
   */
  function CourseKey(c: Course): Key {
    if HasClockTimes(c) then Key(SpanOf(c).start, SpanOf(c).end) else Key(0, 0)
  }

  /** The record `assignColumns` builds per course: minutes, unrounded top and height. */
  datatype Item = Item(course: Course, span: Span, top: real, height: real)

  function MakeItem(c: Course): (it: Item)
    requires HasClockTimes(c)
    ensures it.course == c && it.span == SpanOf(c)
    ensures it.height >= 36.0 && it.top >= 0.0
  {
    var s := SpanOf(c);
    Item(c, s, MinutesToTop(s.start), MaxReal(DurationToHeight(s.start, s.end), 36.0))
  }

  /** One placed course: rounded pixel top and height, its column and the column count. */
  datatype PositionedCourse = PositionedCourse(course: Course, top: int, height: int, colIndex: nat, colCount: nat)

  /** The entry pushed for an item placed in column `col`, before its count is known. */
  function Placement(item: Item, col: nat): PositionedCourse {
    PositionedCourse(item.course, Round(item.top), Round(item.height), col, 0)
  }

  function CoursesOf(ps: seq<PositionedCourse>): (r: seq<Course>)
    ensures |r| == |ps| && forall i :: 0 <= i < |ps| ==> r[i] == ps[i].course
  {
    seq(|ps|, i requires 0 <= i < |ps| => ps[i].course)
  }

  function ColumnsOf(ps: seq<PositionedCourse>): (r: seq<nat>)
    ensures |r| == |ps| && forall i :: 0 <= i < |ps| ==> r[i] == ps[i].colIndex
  {
    seq(|ps|, i requires 0 <= i < |ps| => ps[i].colIndex)
  }

  function CountsOf(ps: seq<PositionedCourse>): (r: seq<nat>)
    ensures |r| == |ps| && forall i :: 0 <= i < |ps| ==> r[i] == ps[i].colCount
  {
    seq(|ps|, i requires 0 <= i < |ps| => ps[i].colCount)
  }

  ghost predicate StartsSorted(spans: seq<Span>) {
    forall i, j :: 0 <= i < j < |spans| ==> spans[i].start <= spans[j].start
  }

  /**
   * First fit: a course shares a column only with earlier courses that ended
   * by its start, and every lower column holds an earlier course still
   * running at its start.
   */
  ghost predicate FirstFitColumns(spans: seq<Span>, cols: seq<nat>) {
    && |cols| == |spans|
    && (forall i, k :: 0 <= k < i < |spans| && cols[k] == cols[i] ==> spans[k].end <= spans[i].start)
    && (forall i, c :: 0 <= i < |spans| && 0 <= c < cols[i] ==> LowerColumnBusy(spans, cols, i, c))
  }

  /** Some course before `i` sits in column `c` and is still running when `i` starts. */
  ghost predicate LowerColumnBusy(spans: seq<Span>, cols: seq<nat>, i: nat, c: nat)
    requires |cols| == |spans| && i < |spans|
  {
    exists k :: 0 <= k < i && cols[k] == c && spans[i].start < spans[k].end
  }

  /**
   * `colCount` of course `i` is one more than the largest column among the
   * course itself and every other course overlapping it.
   */
  ghost predicate CountIsOverlapMax(spans: seq<Span>, cols: seq<nat>, counts: seq<nat>, i: nat)
    requires |cols| == |spans| && |counts| == |spans| && i < |spans|
  {
    && cols[i] < counts[i]
    && (forall j :: 0 <= j < |spans| && j != i && Overlap(spans[i], spans[j]) ==> cols[j] < counts[i])
    && (counts[i] == cols[i] + 1
        || exists j :: 0 <= j < |spans| && j != i && Overlap(spans[i], spans[j]) && counts[i] == cols[j] + 1)
  }

  ghost predicate OverlapColumnCounts(spans: seq<Span>, cols: seq<nat>, counts: seq<nat>) {
    && |cols| == |spans| && |counts| == |spans|
    && forall i :: 0 <= i < |spans| ==> CountIsOverlapMax(spans, cols, counts, i)
  }

  /** The spans of a sequence of records. */
  function ItemSpans(items: seq<Item>): (r: seq<Span>)
    ensures |r| == |items| && forall i :: 0 <= i < |items| ==> r[i] == items[i].span
  {
    seq(|items|, i requires 0 <= i < |items| => items[i].span)
  }

  /** Some course among the first `|ps|` placed ones sits in column `c` and runs past minute `t`. */
  ghost predicate ColumnBusyAt(spans: seq<Span>, ps: seq<PositionedCourse>, t: int, c: nat)
    requires |ps| <= |spans|
  {
    exists k :: 0 <= k < |ps| && ps[k].colIndex == c && t < spans[k].end
  }

  /**
   * `assignColumns`: sort by (start, end), give each course the first column
   * whose last course ended by its start (or open a new one), then set each
   * `colCount` from the columns of the courses it overlaps.
   */
  method AssignColumns(courses: seq<Course>) returns (result: seq<PositionedCourse>)
    requires forall c :: c in courses ==> HasClockTimes(c)
    ensures |result| == |courses|
    ensures multiset(CoursesOf(result)) == multiset(courses)
    ensures SortedBy(CoursesOf(result), CourseKey)
    ensures CoursesOf(result) == SortBy(courses, CourseKey)
    ensures forall c :: c in CoursesOf(result) ==> HasClockTimes(c)
    ensures forall i :: 0 <= i < |result| ==>
              result[i].top == Round(MakeItem(result[i].course).top)
              && result[i].height == Round(MakeItem(result[i].course).height)
    ensures StartsSorted(SpansOf(CoursesOf(result)))
    ensures FirstFitColumns(SpansOf(CoursesOf(result)), ColumnsOf(result))
    ensures OverlapColumnCounts(SpansOf(CoursesOf(result)), ColumnsOf(result), CountsOf(result))
  {
    var sorted := SortBy(courses, CourseKey);
    SortedCoursesStartInOrder(courses);
    var items := seq(|sorted|, i requires 0 <= i < |sorted| => MakeItem(sorted[i]));
    assert ItemSpans(items) == SpansOf(sorted);
    var placed := PlaceFirstFit(items);
    assert CoursesOf(placed) == sorted;
    result := SetColumnCounts(placed);
  }

  /** Sorting by the comparator keeps every course and orders the parsed start times. */
  lemma SortedCoursesStartInOrder(courses: seq<Course>)
    requires forall c :: c in courses ==> HasClockTimes(c)
    ensures forall c :: c in SortBy(courses, CourseKey) ==> HasClockTimes(c)
    ensures StartsSorted(SpansOf(SortBy(courses, CourseKey)))
  {
    var sorted := SortBy(courses, CourseKey);
    forall c | c in sorted ensures HasClockTimes(c) {
      assert c in multiset(sorted);
    }
    var spans := SpansOf(sorted);
    forall i, j | 0 <= i < j < |spans| ensures spans[i].start <= spans[j].start {
      assert KeyLe(CourseKey(sorted[i]), CourseKey(sorted[j]));
    }
  }

  /** The greedy pass of `assignColumns` over the sorted records. */
  method PlaceFirstFit(items: seq<Item>) returns (placed: seq<PositionedCourse>)
    requires StartsSorted(ItemSpans(items))
    ensures |placed| == |items|
    ensures forall k :: 0 <= k < |items| ==> placed[k] == Placement(items[k], placed[k].colIndex)
    ensures FirstFitColumns(ItemSpans(items), ColumnsOf(placed))
  {
    ghost var spans := ItemSpans(items);
    var activeCols: seq<int> := [];
    ghost var owner: seq<nat> := [];
    placed := [];
    while |placed| < |items|
      invariant |placed| <= |items|
      invariant forall k :: 0 <= k < |placed| ==> placed[k] == Placement(items[k], placed[k].colIndex)
      invariant ColumnsTracked(spans, placed, activeCols, owner)
      invariant FirstFitColumns(spans[..|placed|], ColumnsOf(placed))
    {
      var n := |placed|;
      var item := items[n];
      var isPlaced, col := FirstFreeColumn(activeCols, item.span.start);
      ChosenColumnIsFirstFit(spans, placed, activeCols, owner, col);
      ghost var before, activeBefore, ownerBefore := placed, activeCols, owner;
      if isPlaced {
        activeCols := activeCols[col := item.span.end];
        owner := owner[col := n];
      } else {
        activeCols := activeCols + [item.span.end];
        owner := owner + [n];
      }
      placed := placed + [Placement(item, col)];
      PlacementKeepsTracking(spans, before, activeBefore, ownerBefore, placed, activeCols, owner, col);
      PlacementKeepsFirstFit(spans, before, placed, col);
    }
    assert spans[..|placed|] == spans;
  }

  /**
   * What the greedy pass knows about its open columns: `activeCols[c]` is the
   * end of `owner[c]`, the last course placed in column `c`, and every other
   * course in that column is earlier and ended by the owner's start.
   */
  ghost predicate ColumnsTracked(spans: seq<Span>, placed: seq<PositionedCourse>, activeCols: seq<int>, owner: seq<nat>)
  {
    && |placed| <= |spans| && |owner| == |activeCols|
    && (forall c :: 0 <= c < |activeCols| ==>
          owner[c] < |placed| && placed[owner[c]].colIndex == c && spans[owner[c]].end == activeCols[c])
    && (forall k :: 0 <= k < |placed| ==> placed[k].colIndex < |activeCols|)
    && (forall k :: 0 <= k < |placed| ==> InOwnedColumn(spans, placed, owner, k))
  }

  ghost predicate InOwnedColumn(spans: seq<Span>, placed: seq<PositionedCourse>, owner: seq<nat>, k: nat)
    requires k < |placed| <= |spans| && placed[k].colIndex < |owner|
  {
    var o := owner[placed[k].colIndex];
    k == o || (k < o < |spans| && spans[k].end <= spans[o].start)
  }

  /** The column the search returns satisfies both halves of first fit for the next course. */
  lemma ChosenColumnIsFirstFit(spans: seq<Span>, placed: seq<PositionedCourse>, activeCols: seq<int>,
                               owner: seq<nat>, col: nat)
    requires StartsSorted(spans) && |placed| < |spans| && ColumnsTracked(spans, placed, activeCols, owner)
    requires col <= |activeCols|
    requires col < |activeCols| ==> spans[|placed|].start >= activeCols[col]
    requires forall c :: 0 <= c < col ==> spans[|placed|].start < activeCols[c]
    ensures forall k :: 0 <= k < |placed| && placed[k].colIndex == col ==> spans[k].end <= spans[|placed|].start
    ensures forall c :: 0 <= c < col ==> ColumnBusyAt(spans, placed, spans[|placed|].start, c)
  {
    var n := |placed|;
    forall c | 0 <= c < col ensures ColumnBusyAt(spans, placed, spans[n].start, c) {
      var k := owner[c];
      assert placed[k].colIndex == c && spans[n].start < spans[k].end;
    }
    forall k | 0 <= k < n && placed[k].colIndex == col
      ensures spans[k].end <= spans[n].start
    {
      assert InOwnedColumn(spans, placed, owner, k);
      var o := owner[col];
      assert spans[o].start <= spans[n].start;
    }
  }

  /** Placing the next course in `col` (reusing it, or opening it at the end) keeps the columns tracked. */
  lemma PlacementKeepsTracking(spans: seq<Span>, placed: seq<PositionedCourse>, activeCols: seq<int>, owner: seq<nat>,
                               placed': seq<PositionedCourse>, activeCols': seq<int>, owner': seq<nat>, col: nat)
    requires StartsSorted(spans) && |placed| < |spans| && ColumnsTracked(spans, placed, activeCols, owner)
    requires col <= |activeCols|
    requires forall k :: 0 <= k < |placed| && placed[k].colIndex == col ==> spans[k].end <= spans[|placed|].start
    requires |placed'| == |placed| + 1 && placed'[..|placed|] == placed && placed'[|placed|].colIndex == col
    requires col < |activeCols| ==> activeCols' == activeCols[col := spans[|placed|].end] && owner' == owner[col := |placed|]
    requires col == |activeCols| ==> activeCols' == activeCols + [spans[|placed|].end] && owner' == owner + [|placed|]
    ensures ColumnsTracked(spans, placed', activeCols', owner')
  {
    var n := |placed|;
    assert forall k :: 0 <= k < n ==> placed'[k] == placed[k];
    forall k | 0 <= k < n + 1 ensures InOwnedColumn(spans, placed', owner', k) {
      if k < n {
        assert InOwnedColumn(spans, placed, owner, k);
      }
    }
  }

  /**
   * The inner search of the greedy pass: the first column whose last course
   * ended by `start`, or a new column past the end when there is none.
   */
  method FirstFreeColumn(activeCols: seq<int>, start: int) returns (found: bool, col: nat)
    ensures found ==> col < |activeCols| && start >= activeCols[col]
    ensures !found ==> col == |activeCols|
    ensures forall c :: 0 <= c < col ==> start < activeCols[c]
  {
    col := 0;
    while col < |activeCols|
      invariant 0 <= col <= |activeCols|
      invariant forall c :: 0 <= c < col ==> start < activeCols[c]
    {
      if start >= activeCols[col] {
        return true, col;
      }
      col := col + 1;
    }
    found := false;
  }

  /**
   * The second pass of `assignColumns`: each course's column count. The
   * source re-parses `debut`/`fin` for every pair; parsing is a pure
   * function of the course, so the times are parsed once here.
   */
  method SetColumnCounts(placed: seq<PositionedCourse>) returns (result: seq<PositionedCourse>)
    requires forall k :: 0 <= k < |placed| ==> HasClockTimes(placed[k].course)
    ensures |result| == |placed|
    ensures CoursesOf(result) == CoursesOf(placed) && ColumnsOf(result) == ColumnsOf(placed)
    ensures forall k :: 0 <= k < |result| ==> result[k].top == placed[k].top && result[k].height == placed[k].height
    ensures OverlapColumnCounts(SpansOf(CoursesOf(placed)), ColumnsOf(placed), CountsOf(result))
  {
    var spans := SpansOf(CoursesOf(placed));
    var cols := ColumnsOf(placed);
    result := placed;
    var i := 0;
    while i < |result|
      invariant 0 <= i <= |result| && |result| == |placed|
      invariant ColumnsOf(result) == cols && CoursesOf(result) == CoursesOf(placed)
      invariant forall k :: 0 <= k < |result| ==> result[k].top == placed[k].top && result[k].height == placed[k].height
      invariant forall k :: 0 <= k < i ==> CountIsOverlapMax(spans, cols, CountsOf(result), k)
    {
      var maxCol := MaxOverlappingColumn(spans, cols, i);
      ghost var countsBefore := CountsOf(result);
      result := result[i := result[i].(colCount := maxCol + 1)];
      assert ColumnsOf(result) == cols && CoursesOf(result) == CoursesOf(placed);
      forall k | 0 <= k < i + 1 ensures CountIsOverlapMax(spans, cols, CountsOf(result), k) {
        if k < i {
          assert CountIsOverlapMax(spans, cols, countsBefore, k);
        }
      }
      i := i + 1;
    }
  }

  /** The inner loop of the second pass: the largest column among course `i` and those it overlaps. */
  method MaxOverlappingColumn(spans: seq<Span>, cols: seq<nat>, i: nat) returns (maxCol: nat)
    requires i < |spans| && |cols| == |spans|
    ensures maxCol >= cols[i]
    ensures forall m :: 0 <= m < |spans| && m != i && Overlap(spans[i], spans[m]) ==> cols[m] <= maxCol
    ensures maxCol == cols[i]
            || exists m :: 0 <= m < |spans| && m != i && Overlap(spans[i], spans[m]) && maxCol == cols[m]
  {
    var a := spans[i];
    maxCol := cols[i];
    var j := 0;
    while j < |spans|
      invariant 0 <= j <= |spans|
      invariant maxCol >= cols[i]
      invariant forall m :: 0 <= m < j && m != i && Overlap(a, spans[m]) ==> cols[m] <= maxCol
      invariant maxCol == cols[i]
                || exists m :: 0 <= m < j && m != i && Overlap(a, spans[m]) && maxCol == cols[m]
    {
      if i != j {
        var b := spans[j];
        if IsOverlap(a.start, a.end, b.start, b.end) {
          maxCol := if maxCol >= cols[j] then maxCol else cols[j];
        }
      }
      j := j + 1;
    }
  }

  lemma PlacementKeepsFirstFit(spans: seq<Span>, before: seq<PositionedCourse>,
                               after: seq<PositionedCourse>, col: nat)
    requires |before| < |spans| && |after| == |before| + 1 && after[..|before|] == before
    requires after[|before|].colIndex == col
    requires FirstFitColumns(spans[..|before|], ColumnsOf(before))
    requires forall k :: 0 <= k < |before| && before[k].colIndex == col ==> spans[k].end <= spans[|before|].start
    requires forall c :: 0 <= c < col ==> ColumnBusyAt(spans, before, spans[|before|].start, c)
    ensures FirstFitColumns(spans[..|before| + 1], ColumnsOf(after))
  {
    var n := |before|;
    var s, cs := spans[..n + 1], ColumnsOf(after);
    assert forall k :: 0 <= k < n ==> cs[k] == ColumnsOf(before)[k] && s[k] == spans[..n][k];
    forall i, c | 0 <= i < |s| && 0 <= c < cs[i] ensures LowerColumnBusy(s, cs, i, c) {
      if i < n {
        assert LowerColumnBusy(spans[..n], ColumnsOf(before), i, c);
        var k :| 0 <= k < i && ColumnsOf(before)[k] == c && spans[..n][i].start < spans[..n][k].end;
        assert cs[k] == c && s[i].start < s[k].end;
      } else {
        assert ColumnBusyAt(spans, before, spans[n].start, c);
        var k :| 0 <= k < n && before[k].colIndex == c && spans[n].start < spans[k].end;
        assert cs[k] == c && s[i].start < s[k].end;
      }
    }
  }

  /** Two overlapping courses never share a column, even with identical times. */
  lemma OverlappingCoursesGetDistinctColumns(spans: seq<Span>, cols: seq<nat>)
    requires FirstFitColumns(spans, cols)
    ensures forall i, j :: 0 <= i < |spans| && 0 <= j < |spans| && i != j && Overlap(spans[i], spans[j])
              ==> cols[i] != cols[j]
  {
    forall i, j | 0 <= i < |spans| && 0 <= j < |spans| && i != j && Overlap(spans[i], spans[j])
      ensures cols[i] != cols[j]
    {
    }
  }

  /** A well-formed course that overlaps nothing sits alone: column 0 of 1. */
  lemma LoneCourseTakesColumnZero(spans: seq<Span>, cols: seq<nat>, counts: seq<nat>, i: nat)
    requires StartsSorted(spans) && FirstFitColumns(spans, cols) && OverlapColumnCounts(spans, cols, counts)
    requires i < |spans| && spans[i].start < spans[i].end
    requires forall j :: 0 <= j < |spans| && j != i ==> !Overlap(spans[i], spans[j])
    ensures cols[i] == 0 && counts[i] == 1
  {
    if cols[i] > 0 {
      assert LowerColumnBusy(spans, cols, i, 0);
      var k :| 0 <= k < i && cols[k] == 0 && spans[i].start < spans[k].end;
      assert Overlap(spans[i], spans[k]);
    }
    assert CountIsOverlapMax(spans, cols, counts, i);
  }

  /**
   * 09:00-10:00, 09:30-10:30 and 10:00-11:00 in that order: first fit puts
   * them in columns 0, 1, 0, and each sees two columns.
   */
  lemma ThreeCourseLayout(cols: seq<nat>, counts: seq<nat>)
    requires FirstFitColumns([Span(540, 600), Span(570, 630), Span(600, 660)], cols)
    requires OverlapColumnCounts([Span(540, 600), Span(570, 630), Span(600, 660)], cols, counts)
    ensures cols == [0, 1, 0] && counts == [2, 2, 2]
  {
    var spans := [Span(540, 600), Span(570, 630), Span(600, 660)];
    assert cols[0] > 0 ==> LowerColumnBusy(spans, cols, 0, 0);
    assert spans[0].end > spans[1].start;
    assert cols[1] > 1 ==> LowerColumnBusy(spans, cols, 1, 1);
    assert cols[2] > 0 ==> LowerColumnBusy(spans, cols, 2, 0);
    assert CountIsOverlapMax(spans, cols, counts, 0);
    assert CountIsOverlapMax(spans, cols, counts, 1);
    assert CountIsOverlapMax(spans, cols, counts, 2);
    assert Overlap(spans[0], spans[1]) && !Overlap(spans[0], spans[2]) && Overlap(spans[1], spans[2]);
  }

  /** A 10:00-11:30 course is placed 90 px down and 68 px tall (67.5 rounded half up). */
  lemma TenToHalfPastElevenPlacement(c: Course)
    requires c.start == "10:00" && c.end == "11:30"
    ensures HasClockTimes(c) && SpanOf(c) == Span(600, 690)
    ensures Round(MakeItem(c).top) == 90 && Round(MakeItem(c).height) == 68
  {
    TenAndHalfPastElevenParse();
    assert MinutesToTop(600) == 90.0;
    assert DurationToHeight(600, 690) == 67.5;
  }

  lemma TenAndHalfPastElevenParse()
    ensures ParseHHmmToMinutes("10:00") == Some(600) && ParseHHmmToMinutes("11:30") == Some(690)
  {
    TenOClockParse();
    HalfPastElevenParse();
  }

  lemma TenOClockParse()
    ensures ParseHHmmToMinutes("10:00") == Some(600)
  {
    ParseTwoDigitClock(10, 0);
    TwoDigitText(1, 0);
    assert Pad2(0) == "00";
    assert Pad2(10) + ":" + Pad2(0) == "10:00";
  }

  /** The two-digit text of `10 * a + b`. */
  lemma TwoDigitText(a: nat, b: nat)
    requires 1 <= a < 10 && b < 10
    ensures Pad2(10 * a + b) == [DigitChar(a), DigitChar(b)]
  {
    var n := 10 * a + b;
    assert n / 10 == a && n % 10 == b;
    assert NatToString(n) == NatToString(a) + [DigitChar(b)];
  }

  lemma HalfPastElevenParse()
    ensures ParseHHmmToMinutes("11:30") == Some(690)
  {
    ParseTwoDigitClock(11, 30);
    TwoDigitText(1, 1);
    TwoDigitText(3, 0);
    assert Pad2(11) + ":" + Pad2(30) == "11:30";
  }

  /**
   * The percentages a placed course is drawn with: `width = 100 / max(colCount, 1)`
   * and `left = width * colIndex`. A column below the count stays inside the day.
   */
  function ColumnGeometry(colIndex: nat, colCount: nat): (r: (real, real))
    ensures r.0 >= 0.0 && r.1 > 0.0
    ensures colIndex < colCount ==> r.0 + r.1 <= 100.0
  {
    var count := if colCount > 1 then colCount else 1;
    var widthPercent := 100.0 / count as real;
    var leftPercent := widthPercent * colIndex as real;
    assert colIndex < colCount ==> leftPercent + widthPercent <= 100.0 by {
      if colIndex < colCount {
        assert leftPercent + widthPercent == widthPercent * (colIndex + 1) as real;
        assert widthPercent * count as real == 100.0;
      }
    }
    (leftPercent, widthPercent)
  }

  /** Every course laid out by first fit is drawn inside its day's width. */
  lemma PlacedColumnsFitTheDay(spans: seq<Span>, cols: seq<nat>, counts: seq<nat>)
    requires OverlapColumnCounts(spans, cols, counts)
    ensures forall i :: 0 <= i < |spans| ==>
              counts[i] >= 1 && ColumnGeometry(cols[i], counts[i]).0 + ColumnGeometry(cols[i], counts[i]).1 <= 100.0
  {
    forall i | 0 <= i < |spans|
      ensures counts[i] >= 1 && ColumnGeometry(cols[i], counts[i]).0 + ColumnGeometry(cols[i], counts[i]).1 <= 100.0
    {
      assert CountIsOverlapMax(spans, cols, counts, i);
    }
  }
}
