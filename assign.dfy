/**
 * The staff-assignment screen: a selection of staff ids toggled one at a
 * time, and a fixed fifteen-day schedule preview for one staff member that
 * flags the event day, their time-off days and the conflicts between them.
 */
module Assign {
  import opened Wrappers
  import opened Strings
  import opened Dates
  import Calendar

  /** A staff member; `timeOffDates` is optional and holds `YYYY-MM-DD` texts. */
  datatype User = User(id: string, name: string, avatar: string, assignedEvents: nat,
                       hasTimeOff: bool, timeOffDates: Option<seq<string>>)

  /** The screen's staff list. */
  const Users: seq<User> := [
    User("1", "Sarah Wilson", "https://images.unsplash.com/photo-1494790108377-be9c29b29330", 3,
         true, Some(["2025-03-15", "2025-03-16"])),
    User("2", "Michael Chen", "https://images.unsplash.com/photo-1507003211169-0a1dd7228f2d", 1,
         false, None),
    User("3", "Emma Thompson", "https://images.unsplash.com/photo-1438761681033-6461ffad8d80", 4,
         false, None),
    User("4", "David Rodriguez", "https://images.unsplash.com/photo-1500648767791-00dcc994a43e", 2,
         true, Some(["2025-03-18", "2025-03-19"]))
  ]

  /** The day of the event being staffed. */
  const EventDate: string := "2025-03-15"

  /** `selectedUsers` with the id's membership flipped. */
  function Toggled(s: set<string>, id: string): (r: set<string>)
    ensures id in r <==> id !in s
    ensures forall x :: x != id ==> (x in r <==> x in s)
  {
    if id in s then s - {id} else s + {id}
  }

  /** The staff ids ticked for assignment. */
  class Selection {
    var selectedUsers: set<string>

    constructor ()
      ensures selectedUsers == {}
    {
      selectedUsers := {};
    }

    /** `toggleUserSelection`: copies the set, deletes or adds the id, stores the copy. */
    method ToggleUserSelection(userId: string)
      modifies this
      ensures selectedUsers == Toggled(old(selectedUsers), userId)
      ensures SelectedCount() == if userId in old(selectedUsers) then old(SelectedCount()) - 1
                                 else old(SelectedCount()) + 1
    {
      var newSelected := selectedUsers;
      if userId in newSelected {
        newSelected := newSelected - {userId};
      } else {
        newSelected := newSelected + {userId};
      }
      selectedUsers := newSelected;
    }

    /** The count on the Assign button. */
    function SelectedCount(): nat
      reads this
    {
      |selectedUsers|
    }
  }

  /** A second toggle of the same id undoes the first. */
  lemma ToggleTwiceRestores(s: set<string>, id: string)
    ensures Toggled(Toggled(s, id), id) == s
  {
  }

  /** Every toggle moves the Assign count by exactly one. */
  lemma ToggledSize(s: set<string>, id: string)
    ensures |Toggled(s, id)| == if id in s then |s| - 1 else |s| + 1
  {
  }

  /** The preview's first day of March 2025 and its length. */
  const StartDay: nat := 10
  const WindowDays: nat := 15

  datatype Theme = Light | Dark

  datatype HighlightKind = EventHighlight | TimeOffHighlight | ConflictHighlight

  /** A highlight style; `dark` picks the dark-theme variant. */
  datatype Highlight = Highlight(kind: HighlightKind, dark: bool)

  /** One cell of the preview: the day, its flags, its stacked styles and its tags. */
  datatype PreviewDay = PreviewDay(day: nat, dateString: string,
                                   isEventDate: bool, isTimeOff: bool, isConflict: bool,
                                   dayStyles: seq<Highlight>, textHighlighted: bool,
                                   eventTag: bool, offTag: bool)

  /** `2025-03-${day < 10 ? '0' + day : day}`. */
  function DateString(day: nat): string {
    "2025-03-" + (if day < 10 then "0" + NatToString(day) else NatToString(day))
  }

  /** `timeOffDates?.includes(s)`: an absent list includes nothing. */
  predicate Includes(timeOffDates: Option<seq<string>>, s: string) {
    timeOffDates.Some? && s in timeOffDates.value
  }

  /** The preview cell of `day` for `user`, as the loop body builds it. */
  function PreviewDayFor(user: User, theme: Theme, day: nat): PreviewDay {
    var dateString := DateString(day);
    var isEventDate := dateString == EventDate;
    var isTimeOff := Includes(user.timeOffDates, dateString);
    var isConflict := isEventDate && isTimeOff;
    var dark := theme == Dark;
    var dayStyles := (if isEventDate then [Highlight(EventHighlight, dark)] else [])
                   + (if isTimeOff then [Highlight(TimeOffHighlight, dark)] else [])
                   + (if isConflict then [Highlight(ConflictHighlight, dark)] else []);
    PreviewDay(day, dateString, isEventDate, isTimeOff, isConflict, dayStyles,
               isEventDate || isTimeOff, isEventDate, isTimeOff)
  }

  /**
   * `renderCalendarView`: nothing without a selected user; otherwise fifteen
   * cells for 10 to 24 March 2025, one per loop iteration.
   */
  method RenderCalendarView(selectedUser: Option<User>, theme: Theme) returns (view: Option<seq<PreviewDay>>)
    ensures selectedUser.None? <==> view.None?
    ensures view.Some? ==> |view.value| == WindowDays
    ensures view.Some? ==> forall i :: 0 <= i < WindowDays ==>
              view.value[i] == PreviewDayFor(selectedUser.value, theme, StartDay + i)
  {
    if selectedUser.None? {
      return None;
    }
    var user := selectedUser.value;
    var calendarDays: seq<PreviewDay> := [];
    for i := 0 to WindowDays
      invariant |calendarDays| == i
      invariant forall k :: 0 <= k < i ==> calendarDays[k] == PreviewDayFor(user, theme, StartDay + k)
    {
      var day := StartDay + i;
      var dateString := DateString(day);
      var isEventDate := dateString == EventDate;
      var isTimeOff := Includes(user.timeOffDates, dateString);
      var isConflict := isEventDate && isTimeOff;

      var dayStyles: seq<Highlight> := [];
      if isEventDate {
        dayStyles := dayStyles + [Highlight(EventHighlight, theme == Dark)];
      }
      if isTimeOff {
        dayStyles := dayStyles + [Highlight(TimeOffHighlight, theme == Dark)];
      }
      if isConflict {
        dayStyles := dayStyles + [Highlight(ConflictHighlight, theme == Dark)];
      }

      calendarDays := calendarDays + [PreviewDay(day, dateString, isEventDate, isTimeOff, isConflict,
                                                 dayStyles, isEventDate || isTimeOff, isEventDate, isTimeOff)];
    }
    return Some(calendarDays);
  }

  /** The stacking order of highlights. */
  function KindRank(k: HighlightKind): nat {
    match k
    case EventHighlight => 0
    case TimeOffHighlight => 1
    case ConflictHighlight => 2
  }

  predicate HasKind(styles: seq<Highlight>, k: HighlightKind) {
    exists i :: 0 <= i < |styles| && styles[i].kind == k
  }

  /**
   * `dayStyles` holds one entry per true flag, in the order event, time-off,
   * conflict, all in the theme's variant; a conflict day has all three with
   * the conflict highlight last. The Event and Off tags follow their flags.
   */
  lemma DayStylesStack(user: User, theme: Theme, day: nat)
    ensures var c := PreviewDayFor(user, theme, day);
      && (c.isConflict <==> c.dateString == EventDate && Includes(user.timeOffDates, c.dateString))
      && (HasKind(c.dayStyles, EventHighlight) <==> c.isEventDate)
      && (HasKind(c.dayStyles, TimeOffHighlight) <==> c.isTimeOff)
      && (HasKind(c.dayStyles, ConflictHighlight) <==> c.isConflict)
      && (forall i :: 0 <= i < |c.dayStyles| - 1 ==> KindRank(c.dayStyles[i].kind) < KindRank(c.dayStyles[i + 1].kind))
      && (forall i :: 0 <= i < |c.dayStyles| ==> c.dayStyles[i].dark == (theme == Dark))
      && (c.isConflict ==> |c.dayStyles| == 3 && c.dayStyles[2].kind == ConflictHighlight)
      && (c.eventTag <==> c.isEventDate) && (c.offTag <==> c.isTimeOff)
      && (c.textHighlighted <==> c.dayStyles != [])
  {
    var c := PreviewDayFor(user, theme, day);
    var dark := theme == Dark;
    var e := if c.isEventDate then [Highlight(EventHighlight, dark)] else [];
    var t := if c.isTimeOff then [Highlight(TimeOffHighlight, dark)] else [];
    var x := if c.isConflict then [Highlight(ConflictHighlight, dark)] else [];
    assert c.dayStyles == e + t + x;
    if c.isEventDate {
      assert c.dayStyles[0].kind == EventHighlight;
    }
    if c.isTimeOff {
      assert c.dayStyles[|e|].kind == TimeOffHighlight;
    }
    if c.isConflict {
      assert c.dayStyles[|e| + |t|].kind == ConflictHighlight;
    }
  }

  /** A user without a time-off list has no time-off or conflict day. */
  lemma NoTimeOffListNoConflict(user: User, theme: Theme, day: nat)
    requires user.timeOffDates.None?
    ensures !PreviewDayFor(user, theme, day).isTimeOff && !PreviewDayFor(user, theme, day).isConflict
  {
  }

  /**
   * The style that shows: in a React Native style array a later entry
   * overrides an earlier one, so the last highlight decides the background.
   */
  function ShownStyle(styles: seq<Highlight>): Calendar.DayStyle {
    if styles == [] then Calendar.Plain
    else match styles[|styles| - 1].kind
      case EventHighlight => Calendar.EventDay
      case TimeOffHighlight => Calendar.TimeOffDay
      case ConflictHighlight => Calendar.ConflictDay
  }

  /** Stacking styles here and picking one in the month grid give the same category for the same flags. */
  lemma PreviewAgreesWithCalendar(user: User, theme: Theme, day: nat)
    ensures var c := PreviewDayFor(user, theme, day);
      ShownStyle(c.dayStyles) == Calendar.Category(c.isEventDate, c.isTimeOff)
  {
  }

  /** The texts of a list of days, as a user's `timeOffDates` would hold them. */
  function FullDates(days: seq<Date>): seq<string>
    requires forall i :: 0 <= i < |days| ==> IsValid(days[i]) && 0 <= days[i].year < 10000
  {
    seq(|days|, i requires 0 <= i < |days| => FullDate(days[i]))
  }

  /** A day's text is among the texts of a list of days exactly when the day is in the list. */
  lemma FullDatesMembership(days: seq<Date>, d: Date)
    requires forall i :: 0 <= i < |days| ==> IsValid(days[i]) && 0 <= days[i].year < 10000
    requires IsValid(d) && 0 <= d.year < 10000
    ensures FullDate(d) in FullDates(days) <==> d in days
  {
    var texts := FullDates(days);
    if d in days {
      var i :| 0 <= i < |days| && days[i] == d;
      assert texts[i] == FullDate(d);
    }
    if FullDate(d) in texts {
      var i :| 0 <= i < |texts| && texts[i] == FullDate(d);
      FullDateInjective(d, days[i]);
    }
  }

  /** The preview's day text is the RFC 3339 full-date of that day of March 2025. */
  lemma DateStringIsFullDate(day: nat)
    requires 1 <= day <= 31
    ensures DateString(day) == FullDate(Date(2025, 3, day))
  {
    PaddedDecimal(day);
    PaddedDecimal(3);
    assert Pad4(2025) == "2025";
  }

  /**
   * When a user's time-off texts are the full-dates of some days, the
   * preview shows every day of its window in the style the shared
   * classifier gives that day against the event day and those days.
   */
  lemma PreviewMatchesClassifier(user: User, theme: Theme, day: nat, offs: seq<Date>)
    requires 1 <= day <= 31
    requires forall i :: 0 <= i < |offs| ==> IsValid(offs[i]) && 0 <= offs[i].year < 10000
    requires user.timeOffDates == Some(FullDates(offs))
    ensures ShownStyle(PreviewDayFor(user, theme, day).dayStyles)
         == Calendar.Classify(Date(2025, 3, day), Date(2025, 3, 15), set d | d in offs)
  {
    var today, event := Date(2025, 3, day), Date(2025, 3, 15);
    DateStringIsFullDate(day);
    DateStringIsFullDate(15);
    assert EventDate == FullDate(event);
    FullDateInjective(today, event);
    FullDatesMembership(offs, today);
    var c := PreviewDayFor(user, theme, day);
    assert c.isEventDate == (today == event);
    assert c.isTimeOff == (today in offs);
    PreviewAgreesWithCalendar(user, theme, day);
  }

  /** Each day text of the window, `2025-03-10` to `2025-03-24`, is the ten-character full-date of its day. */
  lemma PreviewWindowDay(i: nat)
    requires i < WindowDays
    ensures |DateString(StartDay + i)| == 10
    ensures DateString(StartDay + i) == FullDate(Date(2025, 3, StartDay + i))
  {
    DateStringIsFullDate(StartDay + i);
  }

  /** Two day texts of the window are distinct and ascend with the day. */
  lemma PreviewWindowDates(i: nat, j: nat)
    requires i < j < WindowDays
    ensures DateString(StartDay + i) != DateString(StartDay + j)
    ensures LexLess(DateString(StartDay + i), DateString(StartDay + j))
  {
    var a, b := Date(2025, 3, StartDay + i), Date(2025, 3, StartDay + j);
    PreviewWindowDay(i);
    PreviewWindowDay(j);
    FullDateInjective(a, b);
    FullDateAscending(a, b);
  }

  /** Sarah Wilson: the 15th is a conflict, the 16th time-off only. */
  lemma SarahSchedule(theme: Theme)
    ensures PreviewDayFor(Users[0], theme, 15).isConflict
    ensures var d := PreviewDayFor(Users[0], theme, 16); d.isTimeOff && !d.isEventDate && !d.isConflict
  {
    DateStringIsFullDate(15);
    DateStringIsFullDate(16);
    assert DateString(15) == "2025-03-15";
    assert DateString(16) == "2025-03-16";
  }

  /** David Rodriguez: the 18th and 19th are time-off only, and no day of the window is a conflict. */
  lemma DavidSchedule(theme: Theme)
    ensures forall day :: day in {18, 19} ==>
              PreviewDayFor(Users[3], theme, day).isTimeOff && !PreviewDayFor(Users[3], theme, day).isEventDate
    ensures forall day :: StartDay <= day < StartDay + WindowDays ==> !PreviewDayFor(Users[3], theme, day).isConflict
  {
    DateStringIsFullDate(18);
    DateStringIsFullDate(19);
    assert DateString(18) == "2025-03-18";
    assert DateString(19) == "2025-03-19";
    DateStringIsFullDate(15);
    assert DateString(15) == "2025-03-15";
    forall day | StartDay <= day < StartDay + WindowDays
      ensures !PreviewDayFor(Users[3], theme, day).isConflict
    {
      if day != 15 {
        var i := day - StartDay;
        PreviewWindowDates(if i < 5 then i else 5, if i < 5 then 5 else i);
      }
    }
  }

  /** The "Time-off conflict" warning on a staff row. */
  function ShowsTimeOffWarning(user: User): bool {
    user.hasTimeOff
  }

  /**
   * The warning follows the `hasTimeOff` flag, not the dates: David
   * Rodriguez gets it though none of his days meets the event day.
   */
  lemma WarningIgnoresDates(theme: Theme)
    ensures ShowsTimeOffWarning(Users[0]) && ShowsTimeOffWarning(Users[3])
    ensures !ShowsTimeOffWarning(Users[1]) && !ShowsTimeOffWarning(Users[2])
    ensures exists u :: u in Users && ShowsTimeOffWarning(u)
              && forall day :: StartDay <= day < StartDay + WindowDays ==> !PreviewDayFor(u, theme, day).isConflict
  {
    DavidSchedule(theme);
    assert Users[3] in Users;
  }
}
