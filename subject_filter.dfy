/**
 * The subject filter: the "select all" checkbox and its handler, which
 * issues one toggle per subject that has to change.
 */
module SubjectFilter {
  import opened Sequences

  /** `onToggle` as the calendar page applies it: flip membership of one subject. */
  function Toggle(selected: set<string>, subject: string): (r: set<string>)
    ensures subject in r <==> subject !in selected
    ensures forall other :: other != subject ==> (other in r <==> other in selected)
  {
    if subject in selected then selected - {subject} else selected + {subject}
  }

  /** Toggling the same subject twice restores the selection. */
  lemma ToggleTwice(selected: set<string>, subject: string)
    ensures Toggle(Toggle(selected, subject), subject) == selected
  {
  }

  /** `allSelected`: only the sizes are compared. */
  predicate AllSelected(subjects: seq<string>, selected: set<string>) {
    |selected| == |subjects|
  }

  /** The elements of a list, as a set. */
  function Elems(s: seq<string>): set<string> {
    set x | x in s
  }

  /** Whether the select-all handler toggles `subject`, with `allSelected` fixed before the loop. */
  predicate Toggles(allSelected: bool, selected: set<string>, subject: string) {
    (!allSelected && subject !in selected) || (allSelected && subject in selected)
  }

  /** The subjects passed to `onToggle`, in list order. */
  function Calls(subjects: seq<string>, allSelected: bool, selected: set<string>): seq<string> {
    if subjects == [] then []
    else
      var front, x := subjects[..|subjects| - 1], subjects[|subjects| - 1];
      Calls(front, allSelected, selected) + if Toggles(allSelected, selected, x) then [x] else []
  }

  /** `handleSelectAll`: one `onToggle` call per subject that has to change. */
  method HandleSelectAll(subjects: seq<string>, selected: set<string>) returns (calls: seq<string>)
    ensures calls == Calls(subjects, AllSelected(subjects, selected), selected)
  {
    var allSelected := |selected| == |subjects|;
    calls := [];
    for i := 0 to |subjects|
      invariant calls == Calls(subjects[..i], allSelected, selected)
    {
      var subject := subjects[i];
      assert subjects[..i + 1][..i] == subjects[..i];
      if !allSelected && subject !in selected {
        calls := calls + [subject];
      } else if allSelected && subject in selected {
        calls := calls + [subject];
      }
    }
    assert subjects[..|subjects|] == subjects;
  }

  /**
   * Which subjects are toggled: when not all are selected, exactly the
   * unselected ones; when all are, exactly the selected ones.
   */
  lemma {:induction false} CallsMembers(subjects: seq<string>, allSelected: bool, selected: set<string>, x: string)
    ensures x in Calls(subjects, allSelected, selected)
            <==> x in subjects && (if allSelected then x in selected else x !in selected)
  {
    if subjects != [] {
      var front := subjects[..|subjects| - 1];
      CallsMembers(front, allSelected, selected, x);
      assert subjects == front + [subjects[|subjects| - 1]];
    }
  }

  /** A duplicate-free subject list gets at most one call per subject. */
  lemma {:induction false} CallsOnce(subjects: seq<string>, allSelected: bool, selected: set<string>)
    requires NoDup(subjects)
    ensures NoDup(Calls(subjects, allSelected, selected))
  {
    if subjects != [] {
      var front, x := subjects[..|subjects| - 1], subjects[|subjects| - 1];
      CallsOnce(front, allSelected, selected);
      CallsMembers(front, allSelected, selected, x);
      assert x !in front;
    }
  }

  /** The toggles applied one after the other to one selection. */
  function ApplyToggles(selected: set<string>, calls: seq<string>): set<string> {
    if calls == [] then selected
    else Toggle(ApplyToggles(selected, calls[..|calls| - 1]), calls[|calls| - 1])
  }

  lemma ApplyTogglesSnoc(selected: set<string>, calls: seq<string>, x: string)
    ensures ApplyToggles(selected, calls + [x]) == Toggle(ApplyToggles(selected, calls), x)
  {
    assert (calls + [x])[..|calls|] == calls;
  }

  /**
   * Applied in turn to the selection they were computed from, the calls of
   * a duplicate-free prefix select every subject of it (when not all were
   * selected) or unselect every one (when all were).
   */
  lemma {:induction false} SelectAllPrefix(subjects: seq<string>, allSelected: bool, selected: set<string>)
    requires NoDup(subjects)
    ensures ApplyToggles(selected, Calls(subjects, allSelected, selected))
            == if allSelected then selected - Elems(subjects) else selected + Elems(subjects)
  {
    if subjects != [] {
      var front, x := subjects[..|subjects| - 1], subjects[|subjects| - 1];
      var c := Calls(front, allSelected, selected);
      SelectAllPrefix(front, allSelected, selected);
      assert x !in front;
      assert Elems(subjects) == Elems(front) + {x};
      if Toggles(allSelected, selected, x) {
        ApplyTogglesSnoc(selected, c, x);
      } else {
        assert c + [] == c;
      }
    }
  }

  /**
   * Select-all on a duplicate-free list ends with every subject selected,
   * or with none of them.
   */
  lemma SelectAllOutcome(subjects: seq<string>, selected: set<string>)
    requires NoDup(subjects)
    ensures var after := ApplyToggles(selected, Calls(subjects, AllSelected(subjects, selected), selected));
            if AllSelected(subjects, selected)
            then forall x :: x in subjects ==> x !in after
            else forall x :: x in subjects ==> x in after
  {
    SelectAllPrefix(subjects, AllSelected(subjects, selected), selected);
  }

  lemma {:induction false} ElemsCount(s: seq<string>)
    requires NoDup(s)
    ensures |Elems(s)| == |s|
  {
    if s != [] {
      var front := s[..|s| - 1];
      ElemsCount(front);
      assert Elems(s) == Elems(front) + {s[|s| - 1]};
      assert s[|s| - 1] !in front;
    }
  }

  lemma {:induction false} SubsetSameSize(a: set<string>, b: set<string>)
    requires a <= b && |a| == |b|
    ensures a == b
  {
    if a != b {
      var x :| x in b && x !in a;
      assert a <= b - {x};
      SubsetCount(a, b - {x});
    }
  }

  lemma {:induction false} SubsetCount(a: set<string>, b: set<string>)
    requires a <= b
    ensures |a| <= |b|
    decreases |b|
  {
    if a != {} {
      var x :| x in a;
      SubsetCount(a - {x}, b - {x});
    }
  }

  /**
   * When the selection only holds listed subjects, comparing sizes is the
   * same as asking that every listed subject be selected.
   */
  lemma AllSelectedMeansEverySubject(subjects: seq<string>, selected: set<string>)
    requires NoDup(subjects) && selected <= Elems(subjects)
    ensures AllSelected(subjects, selected) <==> selected == Elems(subjects)
  {
    ElemsCount(subjects);
    if AllSelected(subjects, selected) {
      SubsetSameSize(selected, Elems(subjects));
    }
  }
}
