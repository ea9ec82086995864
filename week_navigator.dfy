/**
 * The week navigator: the label of the displayed week, relative to the
 * current one, and the rule that shows the "today" button.
 */
module WeekNavigator {
  import opened JsText

  const THIS_WEEK: string := "Cette semaine"
  const NEXT_WEEK: string := "Semaine prochaine"
  const LAST_WEEK: string := "Semaine derni\U{00E8}re"
  const IN_PREFIX: string := "Dans "
  const AGO_PREFIX: string := "Il y a "
  const WEEKS_SUFFIX: string := " semaines"

  /** `getWeekLabel`: 0, 1 and -1 have names; other offsets are counted in weeks. */
  function WeekLabel(currentWeek: int): string {
    if currentWeek == 0 then THIS_WEEK
    else if currentWeek == 1 then NEXT_WEEK
    else if currentWeek == -1 then LAST_WEEK
    else if currentWeek > 0 then IN_PREFIX + NatToString(currentWeek) + WEEKS_SUFFIX
    else AGO_PREFIX + NatToString(-currentWeek) + WEEKS_SUFFIX
  }

  /** The Today button appears whenever another week than the current one is shown. */
  predicate ShowToday(currentWeek: int) {
    currentWeek != 0
  }

  /**
   * The first character tells the branches apart: "C" for this week, "S"
   * for next and last week, "D" for weeks ahead, "I" for weeks back.
   */
  lemma LabelHead(n: int)
    ensures |WeekLabel(n)| > 8
    ensures WeekLabel(n)[0] == (if n == 0 then 'C' else if n == 1 || n == -1 then 'S'
                                else if n > 0 then 'D' else 'I')
    ensures (n == 1 ==> WeekLabel(n)[8] == 'p') && (n == -1 ==> WeekLabel(n)[8] == 'd')
  {
  }

  /** Cut the same prefix and suffix off two equal strings and the middles agree. */
  lemma MiddleEqual(p: string, x: string, y: string, s: string)
    requires p + x + s == p + y + s
    ensures x == y
  {
    assert |x| == |y|;
    assert x == (p + x + s)[|p|..|p| + |x|];
    assert y == (p + y + s)[|p|..|p| + |y|];
  }

  lemma NatToStringInjective(a: nat, b: nat)
    requires NatToString(a) == NatToString(b)
    ensures a == b
  {
    NatToStringValue(a);
    NatToStringValue(b);
  }

  /** Every offset gets its own label: the label determines the week. */
  lemma WeekLabelInjective(a: int, b: int)
    requires WeekLabel(a) == WeekLabel(b)
    ensures a == b
  {
    LabelHead(a);
    LabelHead(b);
    if a >= 2 && b >= 2 {
      MiddleEqual(IN_PREFIX, NatToString(a), NatToString(b), WEEKS_SUFFIX);
      NatToStringInjective(a, b);
    } else if a <= -2 && b <= -2 {
      MiddleEqual(AGO_PREFIX, NatToString(-a), NatToString(-b), WEEKS_SUFFIX);
      NatToStringInjective(-a, -b);
    }
  }

  /** The button shows exactly when the label is not "Cette semaine". */
  lemma TodayButtonIffNotThisWeek(n: int)
    ensures ShowToday(n) <==> WeekLabel(n) != THIS_WEEK
  {
    LabelHead(n);
    assert THIS_WEEK[0] == 'C';
  }

  lemma TwoWeeksAhead()
    ensures WeekLabel(2) == "Dans 2 semaines"
  {
    assert NatToString(2) == "2";
  }

  lemma ThreeWeeksBack()
    ensures WeekLabel(-3) == "Il y a 3 semaines"
  {
    assert NatToString(3) == "3";
  }
}
