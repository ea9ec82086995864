/**
 * The calendar page: the stored username, the loaded week, the subject list
 * and selection, the filtered week shown in the grid, and the week offset.
 * Each handler runs to completion, together with the effects its state
 * change triggers (the subject reset after a load, the filter after any
 * change of week or selection).
 */
module CalendarPage {
  import opened Wrappers
  import opened ScheduleTypes
  import opened Sequences
  import ScheduleService
  import SubjectFilter

  /** `day.courses.filter(course => selectedSubjects.has(course.matiere))`. */
  function SelectedCourses(courses: seq<Course>, selected: set<string>): seq<Course> {
    if courses == [] then []
    else
      var front, c := courses[..|courses| - 1], courses[|courses| - 1];
      SelectedCourses(front, selected) + if c.subject in selected then [c] else []
  }

  /** `filterSchedule`: every day kept, with only the courses of a selected subject. */
  function FilterSchedule(schedule: seq<Day>, selected: set<string>): (r: seq<Day>)
    ensures |r| == |schedule|
  {
    seq(|schedule|, d requires 0 <= d < |schedule| =>
      Day(schedule[d].day, schedule[d].date, SelectedCourses(schedule[d].courses, selected)))
  }

  /** A course survives exactly when it was there and its subject is selected. */
  lemma {:induction false} SelectedCoursesMembers(courses: seq<Course>, selected: set<string>, c: Course)
    ensures c in SelectedCourses(courses, selected) <==> c in courses && c.subject in selected
  {
    if courses != [] {
      var front := courses[..|courses| - 1];
      SelectedCoursesMembers(front, selected, c);
      assert courses == front + [courses[|courses| - 1]];
    }
  }

  /** Filtering distributes over concatenation, so the original order is kept. */
  lemma {:induction false} SelectedCoursesConcat(a: seq<Course>, b: seq<Course>, selected: set<string>)
    ensures SelectedCourses(a + b, selected) == SelectedCourses(a, selected) + SelectedCourses(b, selected)
    decreases |b|
  {
    if b == [] {
      assert a + b == a;
    } else {
      var front := b[..|b| - 1];
      SelectedCoursesConcat(a, front, selected);
      assert (a + b)[..|a + b| - 1] == a + front;
    }
  }

  /** Filtering by one selection and then another is filtering by both. */
  lemma {:induction false} SelectedCoursesTwice(courses: seq<Course>, a: set<string>, b: set<string>)
    ensures SelectedCourses(SelectedCourses(courses, a), b) == SelectedCourses(courses, a * b)
  {
    if courses != [] {
      var front, c := courses[..|courses| - 1], courses[|courses| - 1];
      SelectedCoursesTwice(front, a, b);
      var kept := if c.subject in a then [c] else [];
      SelectedCoursesConcat(SelectedCourses(front, a), kept, b);
      assert SelectedCourses(kept, b) == if c.subject in a * b then [c] else [] by {
        if c.subject in a {
          assert [c][..0] == [];
        }
      }
    }
  }

  /** Nothing is dropped when every course's subject is selected. */
  lemma {:induction false} SelectedCoursesAll(courses: seq<Course>, selected: set<string>)
    requires forall k :: 0 <= k < |courses| ==> courses[k].subject in selected
    ensures SelectedCourses(courses, selected) == courses
  {
    if courses != [] {
      var front := courses[..|courses| - 1];
      SelectedCoursesAll(front, selected);
      assert courses == front + [courses[|courses| - 1]];
    }
  }

  /**
   * Filtering keeps the number, order, label and date of the days, and
   * filtering twice is filtering by both selections, so it is idempotent.
   */
  lemma FilterScheduleShape(schedule: seq<Day>, a: set<string>, b: set<string>, d: nat)
    requires d < |schedule|
    ensures FilterSchedule(schedule, a)[d].day == schedule[d].day
    ensures FilterSchedule(schedule, a)[d].date == schedule[d].date
    ensures FilterSchedule(FilterSchedule(schedule, a), b)[d] == FilterSchedule(schedule, a * b)[d]
  {
    SelectedCoursesTwice(schedule[d].courses, a, b);
  }

  lemma FilterTwice(schedule: seq<Day>, a: set<string>, b: set<string>)
    ensures FilterSchedule(FilterSchedule(schedule, a), b) == FilterSchedule(schedule, a * b)
  {
    forall d | 0 <= d < |schedule|
      ensures FilterSchedule(FilterSchedule(schedule, a), b)[d] == FilterSchedule(schedule, a * b)[d]
    {
      FilterScheduleShape(schedule, a, b, d);
    }
  }

  /**
   * With every listed subject selected, as after a load, the filtered week
   * is the loaded week.
   */
  lemma FilterAllSubjects(schedule: seq<Day>)
    ensures FilterSchedule(schedule, SubjectFilter.Elems(Dedup(ScheduleService.AllSubjects(schedule)))) == schedule
  {
    var selected := SubjectFilter.Elems(Dedup(ScheduleService.AllSubjects(schedule)));
    forall d | 0 <= d < |schedule|
      ensures FilterSchedule(schedule, selected)[d] == schedule[d]
    {
      ScheduleService.CourseSubjectsListed(schedule, d);
      SelectedCoursesAll(schedule[d].courses, selected);
    }
  }

  // ---------------------------------------------------------------------
  // The filter as written, on the objects the service builds
  // ---------------------------------------------------------------------

  /**
   * A course as `parseHtmlDay` builds it, seen as a JavaScript object: its
   * text-valued properties by name (`color` holds an object and is left out).
   */
  function ServiceObject(c: Course): map<string, string> {
    map["start" := c.start, "end" := c.end, "subject" := c.subject, "room" := c.room, "teacher" := c.teacher]
  }

  /** A property read: `undefined`, written `None`, when the object lacks it. */
  function Property(o: map<string, string>, name: string): Option<string> {
    if name in o then Some(o[name]) else None
  }

  /** `Set.prototype.has` on a set of strings: `undefined` is never a member. */
  predicate Has(selected: set<string>, x: Option<string>) {
    x.Some? && x.value in selected
  }

  /** `day.courses.filter(course => selectedSubjects.has(course.matiere))`, as written. */
  function SelectedCoursesAsWritten(courses: seq<Course>, selected: set<string>): seq<Course> {
    if courses == [] then []
    else
      var front, c := courses[..|courses| - 1], courses[|courses| - 1];
      SelectedCoursesAsWritten(front, selected)
        + if Has(selected, Property(ServiceObject(c), "matiere")) then [c] else []
  }

  /** The service's objects have no `matiere`, so the filter as written drops every course. */
  lemma {:induction false} MatiereFilterDropsEveryCourse(courses: seq<Course>, selected: set<string>)
    ensures SelectedCoursesAsWritten(courses, selected) == []
  {
    if courses != [] {
      var front, c := courses[..|courses| - 1], courses[|courses| - 1];
      MatiereFilterDropsEveryCourse(front, selected);
      assert "matiere" !in ServiceObject(c);
    }
  }

  /**
   * A course whose subject is selected is shown by the filter on `subject`
   * and hidden by the filter as written.
   */
  lemma MatiereFilterHidesSelectedCourse(c: Course, selected: set<string>)
    requires c.subject in selected
    ensures SelectedCourses([c], selected) == [c]
    ensures SelectedCoursesAsWritten([c], selected) == []
  {
    assert [c][..0] == [];
    MatiereFilterDropsEveryCourse([c], selected);
  }

  /** One call to `fetchSchedule`: the user and the week offset asked for. */
  datatype Load = Load(user: string, weekOffset: int)

  const HOME: string := "/"

  class Calendar {
    var username: string
    var schedule: seq<Day>
    var filteredSchedule: seq<Day>
    var subjects: seq<string>
    var selectedSubjects: set<string>
    var currentWeek: int
    var isLoading: bool
    /** Where the page navigated to, if anywhere. */
    var navigatedTo: Option<string>
    /** The "username" key of the store. */
    var storedUsername: Option<string>
    /** Every schedule request issued, in order. */
    var loads: seq<Load>

    /** The filter effect has run: the grid shows the loaded week filtered by the selection. */
    ghost predicate Valid()
      reads this
    {
      filteredSchedule == FilterSchedule(schedule, selectedSubjects)
    }

    /**
     * The page after `loadSchedule` settled with `outcome`, given the week,
     * subject list and selection it had before: a resolved week is shown; a
     * non-empty one replaces the subjects and selects them all, so the grid
     * shows it whole; an empty one, or a rejected fetch, keeps the subjects
     * and selection, and a rejected fetch also keeps the week.
     */
    ghost predicate ShowsOutcome(outcome: Option<seq<Day>>, schedule0: seq<Day>,
                                 subjects0: seq<string>, selected0: set<string>)
      reads this
    {
      && (outcome.None? ==> schedule == schedule0 && subjects == subjects0 && selectedSubjects == selected0)
      && (outcome.Some? ==> schedule == outcome.value)
      && (outcome.Some? && outcome.value != [] ==>
            subjects == Dedup(ScheduleService.AllSubjects(outcome.value))
            && selectedSubjects == SubjectFilter.Elems(subjects)
            && filteredSchedule == schedule)
      && (outcome.Some? && outcome.value == [] ==> subjects == subjects0 && selectedSubjects == selected0)
    }

    /** `storedUsername` is what the store holds under "username". */
    constructor(storedUsername: Option<string>)
      ensures Valid() && this.storedUsername == storedUsername
      ensures username == "" && schedule == [] && subjects == [] && selectedSubjects == {}
      ensures currentWeek == 0 && isLoading && navigatedTo == None && loads == []
    {
      this.storedUsername := storedUsername;
      username := "";
      schedule := [];
      filteredSchedule := [];
      subjects := [];
      selectedSubjects := {};
      currentWeek := 0;
      isLoading := true;
      navigatedTo := None;
      loads := [];
    }

    /**
     * The mount effect: without a stored username the page goes home and
     * loads nothing. `outcome` is what `fetchSchedule` resolves to, or
     * `None` when it rejects.
     */
    method Mount(outcome: Option<seq<Day>>)
      requires Valid()
      modifies this
      ensures Valid()
      ensures old(storedUsername).None? || old(storedUsername).value == "" ==>
                navigatedTo == Some(HOME) && loads == old(loads) && username == old(username)
                && schedule == old(schedule) && subjects == old(subjects)
                && selectedSubjects == old(selectedSubjects) && isLoading == old(isLoading)
      ensures old(storedUsername).Some? && old(storedUsername).value != "" ==>
                username == old(storedUsername).value && navigatedTo == old(navigatedTo)
                && loads == old(loads) + [Load(old(storedUsername).value, 0)] && !isLoading
                && ShowsOutcome(outcome, old(schedule), old(subjects), old(selectedSubjects))
      ensures currentWeek == old(currentWeek) && storedUsername == old(storedUsername)
    {
      if storedUsername.None? || storedUsername.value == "" {
        navigatedTo := Some(HOME);
        return;
      }
      var user := storedUsername.value;
      username := user;
      LoadSchedule(user, 0, outcome);
    }

    /**
     * `loadSchedule`: the request is recorded, and a resolved week is set
     * together with the effects it triggers; a rejected one leaves the week
     * as it was.
     */
    method LoadSchedule(user: string, weekOffset: int, outcome: Option<seq<Day>>)
      requires Valid()
      modifies this
      ensures Valid()
      ensures loads == old(loads) + [Load(user, weekOffset)] && !isLoading
      ensures username == old(username) && currentWeek == old(currentWeek) && navigatedTo == old(navigatedTo)
      ensures storedUsername == old(storedUsername)
      ensures ShowsOutcome(outcome, old(schedule), old(subjects), old(selectedSubjects))
    {
      isLoading := true;
      loads := loads + [Load(user, weekOffset)];
      if outcome.Some? {
        SetSchedule(outcome.value);
      }
      isLoading := false;
    }

    /**
     * `setSchedule` and the effects it triggers: a non-empty week replaces
     * the subject list with its unique subjects and selects them all, so
     * the whole week is shown; an empty week leaves both as they were.
     */
    method SetSchedule(data: seq<Day>)
      modifies this
      ensures Valid() && schedule == data
      ensures data != [] ==>
                subjects == Dedup(ScheduleService.AllSubjects(data))
                && selectedSubjects == SubjectFilter.Elems(subjects)
                && filteredSchedule == data
      ensures data == [] ==> subjects == old(subjects) && selectedSubjects == old(selectedSubjects)
      ensures username == old(username) && currentWeek == old(currentWeek) && navigatedTo == old(navigatedTo)
      ensures loads == old(loads) && isLoading == old(isLoading) && storedUsername == old(storedUsername)
    {
      schedule := data;
      if |data| > 0 {
        var allSubjects := ScheduleService.GetUniqueSubjects(data);
        subjects := allSubjects;
        selectedSubjects := SubjectFilter.Elems(allSubjects);
        FilterAllSubjects(data);
      }
      filteredSchedule := FilterSchedule(schedule, selectedSubjects);
    }

    /** `handleWeekChange`: move by `offset` weeks and load that week. */
    method HandleWeekChange(offset: int, outcome: Option<seq<Day>>)
      requires Valid()
      modifies this
      ensures Valid()
      ensures currentWeek == old(currentWeek) + offset
      ensures loads == old(loads) + [Load(username, currentWeek)]
      ensures username == old(username) && !isLoading
      ensures navigatedTo == old(navigatedTo) && storedUsername == old(storedUsername)
      ensures ShowsOutcome(outcome, old(schedule), old(subjects), old(selectedSubjects))
    {
      var newWeek := currentWeek + offset;
      currentWeek := newWeek;
      LoadSchedule(username, newWeek, outcome);
    }

    /** The previous-week arrow. */
    method Previous(outcome: Option<seq<Day>>)
      requires Valid()
      modifies this
      ensures Valid()
      ensures currentWeek == old(currentWeek) - 1
      ensures loads == old(loads) + [Load(username, currentWeek)]
      ensures username == old(username) && !isLoading
      ensures navigatedTo == old(navigatedTo) && storedUsername == old(storedUsername)
      ensures ShowsOutcome(outcome, old(schedule), old(subjects), old(selectedSubjects))
    {
      HandleWeekChange(-1, outcome);
    }

    /** The next-week arrow. */
    method Next(outcome: Option<seq<Day>>)
      requires Valid()
      modifies this
      ensures Valid()
      ensures currentWeek == old(currentWeek) + 1
      ensures loads == old(loads) + [Load(username, currentWeek)]
      ensures username == old(username) && !isLoading
      ensures navigatedTo == old(navigatedTo) && storedUsername == old(storedUsername)
      ensures ShowsOutcome(outcome, old(schedule), old(subjects), old(selectedSubjects))
    {
      HandleWeekChange(1, outcome);
    }

    /** `handleToday`: back to the current week, which is loaded again. */
    method HandleToday(outcome: Option<seq<Day>>)
      requires Valid()
      modifies this
      ensures Valid()
      ensures currentWeek == 0
      ensures loads == old(loads) + [Load(username, 0)]
      ensures username == old(username) && !isLoading
      ensures navigatedTo == old(navigatedTo) && storedUsername == old(storedUsername)
      ensures ShowsOutcome(outcome, old(schedule), old(subjects), old(selectedSubjects))
    {
      currentWeek := 0;
      LoadSchedule(username, 0, outcome);
    }

    /** `handleLogout`: the "username" key is removed and the page goes home. */
    method HandleLogout()
      requires Valid()
      modifies this
      ensures Valid()
      ensures storedUsername == None && navigatedTo == Some(HOME)
      ensures username == old(username) && schedule == old(schedule)
      ensures subjects == old(subjects) && selectedSubjects == old(selectedSubjects)
      ensures currentWeek == old(currentWeek) && loads == old(loads) && isLoading == old(isLoading)
    {
      storedUsername := None;
      navigatedTo := Some(HOME);
    }

    /** `handleSubjectToggle`, followed by the filter effect. */
    method HandleSubjectToggle(subject: string)
      requires Valid()
      modifies this
      ensures Valid()
      ensures selectedSubjects == SubjectFilter.Toggle(old(selectedSubjects), subject)
      ensures schedule == old(schedule) && subjects == old(subjects)
      ensures currentWeek == old(currentWeek) && loads == old(loads) && isLoading == old(isLoading)
      ensures username == old(username) && navigatedTo == old(navigatedTo) && storedUsername == old(storedUsername)
    {
      selectedSubjects := SubjectFilter.Toggle(selectedSubjects, subject);
      filteredSchedule := FilterSchedule(schedule, selectedSubjects);
    }
  }

  /**
   * Toggling the same subject twice gives back the same selection and the
   * same filtered week.
   */
  method ToggleTwiceRestores(page: Calendar, subject: string)
    requires page.Valid()
    modifies page
    ensures page.Valid()
    ensures page.selectedSubjects == old(page.selectedSubjects)
    ensures page.filteredSchedule == old(page.filteredSchedule)
  {
    page.HandleSubjectToggle(subject);
    page.HandleSubjectToggle(subject);
    SubjectFilter.ToggleTwice(old(page.selectedSubjects), subject);
  }
}
