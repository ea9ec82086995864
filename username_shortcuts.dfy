/**
 * The built-in shortcut table of the schedule service: a few short or
 * misspelt names and the user ids they stand for, looked up by the
 * lower-cased input.
 */
module UsernameShortcuts {
  import opened JsText
  import ScheduleService
  import UserShortcuts

  const MATHEO: string := "matheo.delaunay"
  const MARIUS: string := "marius.bernard1"
  const NOA: string := "noa.lauvray"
  const THEO: string := "theo.boutroux"

  const TABLE: map<string, string> := map[
    "md" := MATHEO,
    "math\U{00E9}o.delaunay" := MATHEO,
    "marius.bernard" := MARIUS,
    "nl" := NOA,
    "tb" := THEO
  ]

  /** The values of the table. */
  predicate IsTableValue(v: string) {
    v == MATHEO || v == MARIUS || v == NOA || v == THEO
  }

  lemma TableValues()
    ensures forall k :: k in TABLE ==> IsTableValue(TABLE[k])
  {
  }

  /** `usernameShortcuts[key] || input`. */
  function ProcessedUsername(input: string): (r: string)
    ensures r == input || IsTableValue(r)
  {
    TableValues();
    var key := Lower(input);
    if key in TABLE && TABLE[key] != "" then TABLE[key] else input
  }

  /** It is the general lookup with no custom shortcuts and this table as the defaults. */
  lemma TableIsDefaultLookup(input: string)
    ensures ProcessedUsername(input) == UserShortcuts.ProcessedUsername(input, map[], TABLE)
  {
  }

  /** Every key is already lower-case, so every key can be reached. */
  lemma KeysAreLowerCase()
    ensures forall k :: k in TABLE ==> Lower(k) == k
  {
    assert TABLE.Keys == {"md", "math\U{00E9}o.delaunay", "marius.bernard", "nl", "tb"};
    assert Lower("md") == "md";
    assert Lower("math\U{00E9}o.delaunay") == "math\U{00E9}o.delaunay";
    assert Lower("marius.bernard") == "marius.bernard";
    assert Lower("nl") == "nl";
    assert Lower("tb") == "tb";
  }

  /** Letters, one dot at `i`, then letters to the end: a user id. */
  lemma LettersDotLetters(s: string, i: nat)
    requires 0 < i < |s| - 1 && s[i] == '.'
    requires forall k :: 0 <= k < |s| && k != i ==> IsAsciiLetter(s[k])
    ensures ScheduleService.IsStringDotString(s)
  {
    assert ScheduleService.AllLetters(s[0..i]);
    ScheduleService.LetterRunStops(s, 0, i);
    assert ScheduleService.AllLetters(s[i + 1..|s|]);
    ScheduleService.LetterRunStops(s, i + 1, |s|);
  }

  lemma ValueIsUserId(v: string)
    requires IsTableValue(v)
    ensures ScheduleService.IsStringDotString(v)
  {
    if v == MATHEO {
      LettersDotLetters(v, 6);
    } else if v == MARIUS {
      ScheduleService.AcceptedUsername();
    } else if v == NOA {
      LettersDotLetters(v, 3);
    } else {
      LettersDotLetters(v, 4);
    }
  }

  /** Every value is a user id the service accepts. */
  lemma ValuesAreUserIds()
    ensures forall k :: k in TABLE ==> ScheduleService.IsStringDotString(TABLE[k])
  {
    TableValues();
    forall k | k in TABLE ensures ScheduleService.IsStringDotString(TABLE[k]) {
      ValueIsUserId(TABLE[k]);
    }
  }

  lemma ValuesAreLowerCase(v: string)
    requires IsTableValue(v)
    ensures Lower(v) == v
  {
  }

  /** No value is itself a key once lower-cased, so resolving twice is resolving once. */
  lemma ProcessedUsernameIdempotent(input: string)
    ensures ProcessedUsername(ProcessedUsername(input)) == ProcessedUsername(input)
  {
    var r := ProcessedUsername(input);
    if r != input {
      TableValues();
      ValuesAreLowerCase(r);
    }
  }

  /** The lookup ignores case: "MD" and "md" both give "matheo.delaunay". */
  lemma ShortcutAnyCase()
    ensures ProcessedUsername("MD") == "matheo.delaunay"
    ensures ProcessedUsername("md") == "matheo.delaunay"
  {
    assert Lower("MD") == "md";
    assert Lower("md") == "md";
  }

  /** An input that is not a key comes back as typed, case included. */
  lemma UnknownInputUnchanged(input: string)
    requires Lower(input) !in TABLE
    ensures ProcessedUsername(input) == input
  {
  }
}
