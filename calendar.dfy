/**
 * The month-grid calendar component: the days of the selected month, each
 * classified against the event day and a list of time-off days.
 */
module Calendar {
  import opened Wrappers
  import opened Dates

  /** The background a day gets: none, event, time-off or conflict. */
  datatype DayStyle = Plain | EventDay | TimeOffDay | ConflictDay

  /**
   * The classification as a truth table over a day's two flags: conflict
   * when both hold, otherwise the one that holds, otherwise plain. Both
   * screens are proved to agree with it.
   */
  function Category(isEvent: bool, isTimeOff: bool): DayStyle {
    match (isEvent, isTimeOff)
    case (true, true) => ConflictDay
    case (false, true) => TimeOffDay
    case (true, false) => EventDay
    case (false, false) => Plain
  }

  /** The classifier over calendar days and a set of time-off days. */
  function Classify(day: Date, eventDate: Date, timeOff: set<Date>): DayStyle {
    Category(day == eventDate, day in timeOff)
  }

  /** The component's props; an omitted `timeOffDates` is None. */
  datatype Props = Props(selectedDate: Instant, timeOffDates: Option<seq<Date>>, eventDate: Instant)

  /** The destructuring default `timeOffDates = []`. */
  function TimeOffDates(p: Props): seq<Date> {
    match p.timeOffDates
    case None => []
    case Some(ds) => ds
  }

  /** `timeOffDateObjects.some(timeOff => isSameDay(timeOff, date))`, each parsed to its midnight. */
  predicate IsTimeOff(timeOffDates: seq<Date>, date: Instant) {
    exists i :: 0 <= i < |timeOffDates| && IsSameDay(StartOfDay(timeOffDates[i]), date)
  }

  predicate IsEvent(eventDate: Instant, date: Instant) {
    IsSameDay(eventDate, date)
  }

  predicate IsConflict(eventDate: Instant, timeOffDates: seq<Date>, date: Instant) {
    IsTimeOff(timeOffDates, date) && IsEvent(eventDate, date)
  }

  /** `getDayStyle`: exactly one of the four styles, conflict first, then time-off, then event. */
  function GetDayStyle(eventDate: Instant, timeOffDates: seq<Date>, date: Instant): (style: DayStyle)
    ensures style == ConflictDay <==> IsEvent(eventDate, date) && IsTimeOff(timeOffDates, date)
    ensures style == TimeOffDay <==> IsTimeOff(timeOffDates, date) && !IsEvent(eventDate, date)
    ensures style == EventDay <==> IsEvent(eventDate, date) && !IsTimeOff(timeOffDates, date)
    ensures style == Plain <==> !IsEvent(eventDate, date) && !IsTimeOff(timeOffDates, date)
  {
    if IsConflict(eventDate, timeOffDates, date) then ConflictDay
    else if IsTimeOff(timeOffDates, date) then TimeOffDay
    else if IsEvent(eventDate, date) then EventDay
    else Plain
  }

  /** What one grid cell shows: its day, its style, white text, and the conflict dot. */
  datatype DayCell = DayCell(date: Instant, style: DayStyle, highlightedText: bool, conflictIndicator: bool)

  /**
   * One cell: the day's style is the classifier's category for the day, the
   * text is highlighted exactly on a time-off or event day, and the dot shows
   * exactly on a conflict day.
   */
  function RenderDay(p: Props, date: Instant): (cell: DayCell)
    ensures cell.date == date
    ensures cell.style == Classify(date.date, p.eventDate.date, set d | d in TimeOffDates(p))
    ensures cell.highlightedText <==> IsTimeOff(TimeOffDates(p), date) || IsEvent(p.eventDate, date)
    ensures cell.conflictIndicator <==> IsConflict(p.eventDate, TimeOffDates(p), date)
    ensures cell.highlightedText <==> cell.style != Plain
    ensures cell.conflictIndicator <==> cell.style == ConflictDay
  {
    var offs := TimeOffDates(p);
    GetDayStyleClassifies(p.eventDate, offs, date);
    DayCell(date, GetDayStyle(p.eventDate, offs, date),
            IsTimeOff(offs, date) || IsEvent(p.eventDate, date),
            IsConflict(p.eventDate, offs, date))
  }

  /**
   * `days.map(...)`: one cell per day of the selected month, in order; each
   * day styled as the classifier says, the text highlighted exactly on
   * styled days and the dot exactly on conflict days.
   */
  function RenderDays(p: Props): (cells: seq<DayCell>)
    requires IsValid(p.selectedDate.date)
    ensures |cells| == |MonthDays(p.selectedDate)|
    ensures forall i :: 0 <= i < |cells| ==> cells[i].date == MonthDays(p.selectedDate)[i]
    ensures forall i :: 0 <= i < |cells| ==>
              cells[i].style == Classify(cells[i].date.date, p.eventDate.date, set d | d in TimeOffDates(p))
    ensures forall i :: 0 <= i < |cells| ==>
              (cells[i].conflictIndicator <==> IsConflict(p.eventDate, TimeOffDates(p), cells[i].date))
    ensures forall i :: 0 <= i < |cells| ==> (cells[i].highlightedText <==> cells[i].style != Plain)
    ensures forall i :: 0 <= i < |cells| ==> (cells[i].conflictIndicator <==> cells[i].style == ConflictDay)
  {
    var days := MonthDays(p.selectedDate);
    seq(|days|, i requires 0 <= i < |days| => RenderDay(p, days[i]))
  }

  /** The time-off test is membership of the day in the list, nothing more. */
  lemma TimeOffIsMembership(timeOffDates: seq<Date>, date: Instant)
    ensures IsTimeOff(timeOffDates, date) <==> date.date in timeOffDates
  {
    if date.date in timeOffDates {
      var i :| 0 <= i < |timeOffDates| && timeOffDates[i] == date.date;
      assert IsSameDay(StartOfDay(timeOffDates[i]), date);
    }
  }

  /** The grid's style is the shared classifier applied to the set of time-off days. */
  lemma GetDayStyleClassifies(eventDate: Instant, timeOffDates: seq<Date>, date: Instant)
    ensures GetDayStyle(eventDate, timeOffDates, date)
         == Category(IsEvent(eventDate, date), IsTimeOff(timeOffDates, date))
         == Classify(date.date, eventDate.date, set d | d in timeOffDates)
  {
    TimeOffIsMembership(timeOffDates, date);
  }

  /** Reordering or duplicating time-off entries changes no day's style. */
  lemma TimeOffIgnoresOrderAndDuplicates(eventDate: Instant, a: seq<Date>, b: seq<Date>, date: Instant)
    requires forall d :: d in a <==> d in b
    ensures IsTimeOff(a, date) == IsTimeOff(b, date)
    ensures GetDayStyle(eventDate, a, date) == GetDayStyle(eventDate, b, date)
  {
    TimeOffIsMembership(a, date);
    TimeOffIsMembership(b, date);
  }

  /** With `timeOffDates` omitted no day is time-off or a conflict. */
  lemma OmittedTimeOffMeansNone(p: Props, date: Instant)
    requires p.timeOffDates.None?
    ensures !IsTimeOff(TimeOffDates(p), date) && !IsConflict(p.eventDate, TimeOffDates(p), date)
    ensures RenderDay(p, date).style == (if IsEvent(p.eventDate, date) then EventDay else Plain)
  {
  }

  /** Only the calendar day counts: two instants of one day are styled alike, whatever the event's time. */
  lemma TimeOfDayIgnored(p: Props, q: Props, a: Instant, b: Instant)
    requires IsSameDay(a, b) && IsSameDay(p.eventDate, q.eventDate)
    requires p.timeOffDates == q.timeOffDates
    ensures RenderDay(p, a).style == RenderDay(q, b).style
    ensures RenderDay(p, a).highlightedText == RenderDay(q, b).highlightedText
    ensures RenderDay(p, a).conflictIndicator == RenderDay(q, b).conflictIndicator
  {
    var offs := TimeOffDates(p);
    TimeOffIsMembership(offs, a);
    TimeOffIsMembership(offs, b);
  }

  /**
   * An event on 2025-03-15 with time off on the 15th and 16th: conflict,
   * time-off, then plain on the 17th. An event on the 18th with time off on
   * the 18th and 19th: conflict on the 18th, plain on the 20th.
   */
  lemma MarchScenario()
    ensures var ev := Date(2025, 3, 15);
      var offs := {Date(2025, 3, 15), Date(2025, 3, 16)};
      && Classify(Date(2025, 3, 15), ev, offs) == ConflictDay
      && Classify(Date(2025, 3, 16), ev, offs) == TimeOffDay
      && Classify(Date(2025, 3, 17), ev, offs) == Plain
    ensures var ev := Date(2025, 3, 18);
      var offs := {Date(2025, 3, 18), Date(2025, 3, 19)};
      && Classify(Date(2025, 3, 18), ev, offs) == ConflictDay
      && Classify(Date(2025, 3, 19), ev, offs) == TimeOffDay
      && Classify(Date(2025, 3, 20), ev, offs) == Plain
  {
  }
}
