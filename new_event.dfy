/**
 * The new-event form: validation that depends on the event type, the task
 * list edited from a fixed catalogue (add, rename, remove, toggle), the
 * ordering of the tasks shown for each event type, and the check-out label.
 */
module NewEvent {
  import opened Wrappers
  import opened Strings
  import opened Lists

  datatype EventType = Warehouse | Events | Appointment

  /**
   * A task of the event. The optional `isPredefined` and `isSelected` read as
   * false when absent, as JavaScript treats `undefined` in a test.
   */
  datatype Task = Task(id: string, name: string, isPredefined: bool, isSelected: bool)

  const CheckInWarehouse: string := "check-in-warehouse"
  const CheckInVehicle: string := "check-in-vehicle"
  const CheckInEvent: string := "check-in-event"
  const CheckOut: string := "check-out"

  /** `PREDEFINED_TASKS`: the catalogue tasks are added from. */
  const PredefinedTasks: seq<Task> := [
    Task(CheckInWarehouse, "Check in to warehouse", true, false),
    Task("task2", "Containerize Empty Bottles", true, false),
    Task("task3", "Stack crates into Truck", true, false),
    Task(CheckOut, "Check out of warehouse", true, false)
  ]

  // ---------------------------------------------------------------------------
  // Form validation

  /** The validated fields; start and end are time values in milliseconds. */
  datatype Form = Form(eventType: EventType, title: string, location: string, startDate: int, endDate: int)

  /**
   * What makes a form acceptable: a title with a visible character, a
   * location with one unless the type is Events, and an end that is not
   * before the start.
   */
  predicate FormIsValid(f: Form) {
    && !IsBlank(f.title)
    && (f.eventType == Events || !IsBlank(f.location))
    && f.startDate <= f.endDate
  }

  /**
   * `validateForm`: builds the error record field by field and reports
   * whether it stayed empty. An end equal to the start passes.
   */
  method ValidateForm(f: Form) returns (valid: bool, errors: map<string, string>)
    ensures errors.Keys <= {"title", "location", "date"}
    ensures "title" in errors <==> IsBlank(f.title)
    ensures "location" in errors <==> f.eventType != Events && IsBlank(f.location)
    ensures "date" in errors <==> f.endDate < f.startDate
    ensures "title" in errors ==> errors["title"] == "Event title is required"
    ensures "location" in errors ==> errors["location"] == "Location is required"
    ensures "date" in errors ==> errors["date"] == "End time must be after start time"
    ensures valid <==> errors == map[]
    ensures valid <==> FormIsValid(f)
  {
    TrimEmptyIffBlank(f.title);
    TrimEmptyIffBlank(f.location);
    var newErrors: map<string, string> := map[];
    if Trim(f.title) == "" {
      newErrors := newErrors["title" := "Event title is required"];
    }
    if f.eventType == Warehouse || f.eventType == Appointment {
      if Trim(f.location) == "" {
        newErrors := newErrors["location" := "Location is required"];
      }
    }
    if f.endDate < f.startDate {
      newErrors := newErrors["date" := "End time must be after start time"];
    }
    errors := newErrors;
    valid := |newErrors.Keys| == 0;
    if !valid {
      assert newErrors.Keys != {};
    }
  }

  /** `handleSave`'s guard: an invalid form stops the save before it starts. */
  method HandleSave(f: Form) returns (saves: bool)
    ensures saves <==> FormIsValid(f)
  {
    var valid, _ := ValidateForm(f);
    if !valid {
      return false;
    }
    return true;
  }

  // ---------------------------------------------------------------------------
  // The task list

  /** `tasks.some(task => task.id === id)`. */
  predicate HasId(tasks: seq<Task>, id: string) {
    exists i :: 0 <= i < |tasks| && tasks[i].id == id
  }

  /** `tasks.find(task => task.id === id)`: the first task with that id. */
  function FindTask(tasks: seq<Task>, id: string): (r: Option<Task>)
    ensures r.Some? <==> HasId(tasks, id)
    ensures r.Some? ==> r.value in tasks && r.value.id == id
    ensures r.Some? ==> exists k :: 0 <= k < |tasks| && tasks[k] == r.value
                                    && forall j :: 0 <= j < k ==> tasks[j].id != id
  {
    if tasks == [] then None
    else if tasks[0].id == id then Some(tasks[0])
    else
      var r := FindTask(tasks[1..], id);
      if r.Some? then
        var k :| 0 <= k < |tasks[1..]| && tasks[1..][k] == r.value
                 && forall j :: 0 <= j < k ==> tasks[1..][j].id != id;
        assert tasks[k + 1] == r.value;
        r
      else r
  }

  /** No two tasks of the list share an id. */
  predicate UniqueIds(tasks: seq<Task>) {
    forall i, j :: 0 <= i < j < |tasks| ==> tasks[i].id != tasks[j].id
  }

  lemma SameIdSameTask(tasks: seq<Task>, a: Task, b: Task)
    requires UniqueIds(tasks) && a in tasks && b in tasks && a.id == b.id
    ensures a == b
  {
    var i :| 0 <= i < |tasks| && tasks[i] == a;
    var j :| 0 <= j < |tasks| && tasks[j] == b;
  }

  function IdIs(id: string): Task -> bool {
    (t: Task) => t.id == id
  }

  function IdIsNot(id: string): Task -> bool {
    (t: Task) => t.id != id
  }

  /** Putting a task in front of a list keeps ids unique when no task of the list has its id. */
  lemma PrependKeepsUniqueIds(t: Task, tasks: seq<Task>)
    requires UniqueIds(tasks)
    requires forall x :: x in tasks ==> x.id != t.id
    ensures UniqueIds([t] + tasks)
  {
    var r := [t] + tasks;
    forall i, j | 0 <= i < j < |r| ensures r[i].id != r[j].id {
      assert r[j] == tasks[j - 1];
      if i > 0 {
        assert r[i] == tasks[i - 1];
      }
    }
  }

  /** No task after the first shares its id. */
  lemma HeadIdUnique(tasks: seq<Task>)
    requires UniqueIds(tasks) && tasks != []
    ensures UniqueIds(tasks[1..])
    ensures forall x :: x in tasks[1..] ==> x.id != tasks[0].id
  {
    forall x | x in tasks[1..] ensures x.id != tasks[0].id {
      var k :| 0 <= k < |tasks[1..]| && tasks[1..][k] == x;
      assert tasks[k + 1] == x;
    }
  }

  /** Filtering never creates a duplicate id. */
  lemma {:induction false} FilterKeepsUniqueIds(tasks: seq<Task>, p: Task -> bool)
    requires UniqueIds(tasks)
    ensures UniqueIds(Filter(tasks, p))
  {
    if tasks != [] {
      var rest := tasks[1..];
      HeadIdUnique(tasks);
      FilterKeepsUniqueIds(rest, p);
      if p(tasks[0]) {
        PrependKeepsUniqueIds(tasks[0], Filter(rest, p));
      }
    }
  }

  /** In a list with unique ids, filtering by one task's id leaves just that task. */
  lemma {:induction false} OnlyTaskWithItsId(tasks: seq<Task>, c: Task)
    requires UniqueIds(tasks) && c in tasks
    ensures Filter(tasks, IdIs(c.id)) == [c]
  {
    var rest := tasks[1..];
    HeadIdUnique(tasks);
    if tasks[0] == c {
      FilterDropsAll(rest, IdIs(c.id));
    } else {
      assert c in rest;
      OnlyTaskWithItsId(rest, c);
    }
  }

  /** `addTask` does something only for a non-empty, catalogued id not yet in the list. */
  predicate CanAdd(tasks: seq<Task>, selectedTaskId: string) {
    selectedTaskId != "" && FindTask(PredefinedTasks, selectedTaskId).Some? && !HasId(tasks, selectedTaskId)
  }

  /** `[...tasks, { ...taskToAdd, isSelected: false }]`. */
  function WithTaskAdded(tasks: seq<Task>, selectedTaskId: string): seq<Task>
    requires CanAdd(tasks, selectedTaskId)
  {
    tasks + [FindTask(PredefinedTasks, selectedTaskId).value.(isSelected := false)]
  }

  /**
   * A successful add appends exactly one task: the catalogue entry with that
   * id, unselected; the ids stay unique.
   */
  lemma AddTaskAppendsOne(tasks: seq<Task>, selectedTaskId: string)
    requires UniqueIds(tasks) && CanAdd(tasks, selectedTaskId)
    ensures var r := WithTaskAdded(tasks, selectedTaskId);
      && UniqueIds(r)
      && |r| == |tasks| + 1
      && r[..|tasks|] == tasks
      && Filter(r, IdIs(selectedTaskId)) == [r[|tasks|]]
      && r[|tasks|].id == selectedTaskId && r[|tasks|].isPredefined && !r[|tasks|].isSelected
      && r[|tasks|].(isSelected := false) in PredefinedTasks
  {
    var r := WithTaskAdded(tasks, selectedTaskId);
    var added := r[|tasks|];
    assert r == tasks + [added];
    forall i, j | 0 <= i < j < |r| ensures r[i].id != r[j].id {
      if j == |tasks| {
        assert r[i] == tasks[i];
      }
    }
    OnlyTaskWithItsId(r, added);
  }

  /** `tasks.map(task => task.id === id ? { ...task, name } : task)`. */
  function WithTaskRenamed(tasks: seq<Task>, id: string, name: string): (r: seq<Task>)
    ensures |r| == |tasks|
    ensures forall i :: 0 <= i < |r| ==>
              r[i] == if tasks[i].id == id then tasks[i].(name := name) else tasks[i]
  {
    if tasks == [] then []
    else [if tasks[0].id == id then tasks[0].(name := name) else tasks[0]]
         + WithTaskRenamed(tasks[1..], id, name)
  }

  /** `tasks.filter(task => task.id !== id)`. */
  function WithoutTask(tasks: seq<Task>, id: string): seq<Task> {
    Filter(tasks, IdIsNot(id))
  }

  /** `tasks.map(task => task.id === id ? { ...task, isSelected: !task.isSelected } : task)`. */
  function WithTaskToggled(tasks: seq<Task>, id: string): (r: seq<Task>)
    ensures |r| == |tasks|
    ensures forall i :: 0 <= i < |r| ==>
              r[i] == if tasks[i].id == id then tasks[i].(isSelected := !tasks[i].isSelected) else tasks[i]
  {
    if tasks == [] then []
    else [if tasks[0].id == id then tasks[0].(isSelected := !tasks[0].isSelected) else tasks[0]]
         + WithTaskToggled(tasks[1..], id)
  }

  /** Renaming, removing and toggling keep task ids unique. */
  lemma EditsKeepIdsUnique(tasks: seq<Task>, id: string, name: string)
    requires UniqueIds(tasks)
    ensures UniqueIds(WithTaskRenamed(tasks, id, name))
    ensures UniqueIds(WithoutTask(tasks, id))
    ensures UniqueIds(WithTaskToggled(tasks, id))
  {
    FilterKeepsUniqueIds(tasks, IdIsNot(id));
    var r, t := WithTaskRenamed(tasks, id, name), WithTaskToggled(tasks, id);
    forall i, j | 0 <= i < j < |tasks| ensures r[i].id != r[j].id && t[i].id != t[j].id {
    }
  }

  lemma RemoveFirstTask(tasks: seq<Task>, id: string)
    requires UniqueIds(tasks) && tasks != [] && tasks[0].id == id
    ensures WithoutTask(tasks, id) == tasks[1..]
  {
    HeadIdUnique(tasks);
    assert WithoutTask(tasks, id) == Filter(tasks[1..], IdIsNot(id));
    FilterKeepsAll(tasks[1..], IdIsNot(id));
  }

  /**
   * `removeTask(id)` drops every task with that id and keeps the rest in
   * order; with unique ids that is exactly the one task at its position.
   */
  lemma {:induction false} RemoveTaskAt(tasks: seq<Task>, id: string, k: nat)
    requires UniqueIds(tasks) && k < |tasks| && tasks[k].id == id
    ensures WithoutTask(tasks, id) == tasks[..k] + tasks[k + 1..]
  {
    if k == 0 {
      RemoveFirstTask(tasks, id);
    } else {
      var rest := tasks[1..];
      HeadIdUnique(tasks);
      assert tasks[k] == rest[k - 1];
      RemoveTaskAt(rest, id, k - 1);
      assert WithoutTask(tasks, id) == [tasks[0]] + WithoutTask(rest, id);
      assert tasks[..k] == [tasks[0]] + rest[..k - 1];
      assert tasks[k + 1..] == rest[k..];
    }
  }

  /** Removing an id no task has changes nothing, and the remaining tasks are exactly those without the id. */
  lemma RemoveAbsentTask(tasks: seq<Task>, id: string)
    ensures forall t :: t in WithoutTask(tasks, id) <==> t in tasks && t.id != id
    ensures !HasId(tasks, id) ==> WithoutTask(tasks, id) == tasks
  {
    if !HasId(tasks, id) {
      FilterKeepsAll(tasks, IdIsNot(id));
    }
  }

  /** Toggling the same task twice restores the list, in particular a task just added unselected. */
  lemma {:induction false} ToggleTwiceRestores(tasks: seq<Task>, id: string)
    ensures WithTaskToggled(WithTaskToggled(tasks, id), id) == tasks
  {
    if tasks != [] {
      ToggleTwiceRestores(tasks[1..], id);
    }
  }

  /** Renaming and toggling change one field of the matching tasks: ids, order and length stay. */
  lemma RenameAndToggleKeepShape(tasks: seq<Task>, id: string, name: string)
    ensures var r, t := WithTaskRenamed(tasks, id, name), WithTaskToggled(tasks, id);
      && |r| == |tasks| && |t| == |tasks|
      && (forall i :: 0 <= i < |tasks| ==>
            && r[i].id == tasks[i].id && r[i].isPredefined == tasks[i].isPredefined
            && r[i].isSelected == tasks[i].isSelected
            && r[i].name == (if tasks[i].id == id then name else tasks[i].name))
      && (forall i :: 0 <= i < |tasks| ==>
            && t[i].id == tasks[i].id && t[i].isPredefined == tasks[i].isPredefined
            && t[i].name == tasks[i].name
            && t[i].isSelected == (if tasks[i].id == id then !tasks[i].isSelected else tasks[i].isSelected))
  {
  }

  /** The catalogue's ids are unique and hold neither the vehicle nor the event check-in. */
  lemma CatalogueIds()
    ensures UniqueIds(PredefinedTasks)
    ensures !HasId(PredefinedTasks, CheckInVehicle) && !HasId(PredefinedTasks, CheckInEvent)
    ensures forall t :: t in PredefinedTasks ==> t.isPredefined && !t.isSelected
  {
  }

  // ---------------------------------------------------------------------------
  // Visible tasks

  /** `tasks.find(t => t.id === id)?.isSelected`: a missing task reads as unchecked. */
  predicate IsChecked(tasks: seq<Task>, id: string) {
    match FindTask(tasks, id)
    case None => false
    case Some(t) => t.isSelected
  }

  /** The filter callback of `getVisibleTasks`, given the screen's `tasks` and `eventType`. */
  predicate KeepVisible(tasks: seq<Task>, eventType: EventType, task: Task) {
    if !task.isPredefined then true
    else if eventType == Warehouse then task.id == CheckInWarehouse || task.id == CheckOut
    else if task.id == CheckInWarehouse || task.id == CheckInEvent then true
    else if task.id == CheckInVehicle then IsChecked(tasks, CheckInWarehouse) && !IsChecked(tasks, CheckInEvent)
    else task.id == CheckOut
  }

  function Keep(tasks: seq<Task>, eventType: EventType): Task -> bool {
    (t: Task) => KeepVisible(tasks, eventType, t)
  }

  /**
   * Custom tasks always show; for a warehouse event only the warehouse
   * check-in and the check-out show among predefined tasks; the vehicle
   * check-in shows only when the warehouse check-in is ticked and the
   * event check-in is not; no other predefined task ever shows.
   */
  lemma VisibilityRules(tasks: seq<Task>, eventType: EventType, t: Task)
    ensures !t.isPredefined ==> KeepVisible(tasks, eventType, t)
    ensures eventType == Warehouse && t.isPredefined ==>
              (KeepVisible(tasks, eventType, t) <==> t.id == CheckInWarehouse || t.id == CheckOut)
    ensures t.isPredefined && t.id == CheckInVehicle ==>
              (KeepVisible(tasks, eventType, t) <==>
                 eventType != Warehouse && IsChecked(tasks, CheckInWarehouse) && !IsChecked(tasks, CheckInEvent))
    ensures t.isPredefined && KeepVisible(tasks, eventType, t) ==> t.id in TaskOrder || t.id == CheckOut
    ensures eventType != Warehouse && t.isPredefined
              && (t.id == CheckInWarehouse || t.id == CheckInEvent || t.id == CheckOut) ==>
              KeepVisible(tasks, eventType, t)
  {
  }

  /** `taskOrder`. */
  const TaskOrder: seq<string> := [CheckInWarehouse, CheckInVehicle, CheckInEvent]

  /** `s.indexOf(x)`: the first position of `x`, or -1. */
  function IndexOf(s: seq<string>, x: string): (r: int)
    ensures -1 <= r < |s|
    ensures r == -1 <==> x !in s
    ensures r >= 0 ==> s[r] == x && x !in s[..r]
  {
    if s == [] then -1
    else if s[0] == x then 0
    else
      var k := IndexOf(s[1..], x);
      if k == -1 then -1
      else
        assert s[..k + 1] == [s[0]] + s[1..][..k];
        k + 1
  }

  /** The sort comparator of `getVisibleTasks`, as written. */
  function Compare(a: Task, b: Task): int {
    if !a.isPredefined && !b.isPredefined then 0
    else if !a.isPredefined then 1
    else if !b.isPredefined then -1
    else
      var aIndex, bIndex := IndexOf(TaskOrder, a.id), IndexOf(TaskOrder, b.id);
      if aIndex == -1 then 1
      else if bIndex == -1 then -1
      else aIndex - bIndex
  }

  /** A predefined task whose id is not in TaskOrder. */
  predicate Unordered(t: Task) {
    t.isPredefined && IndexOf(TaskOrder, t.id) == -1
  }

  /** Where the comparator puts a task: its TaskOrder position, then other predefined tasks, then custom ones. */
  function SortRank(t: Task): nat {
    if !t.isPredefined then 4
    else
      var k := IndexOf(TaskOrder, t.id);
      if k == -1 then 3 else k
  }

  /**
   * The comparator orders tasks by SortRank, except that it calls each of two
   * unordered predefined tasks greater than the other (it is then not a
   * consistent order; the visible list never holds two such tasks).
   */
  lemma ComparatorOrdersByRank(a: Task, b: Task)
    ensures !(Unordered(a) && Unordered(b)) ==>
              && (Compare(a, b) < 0 <==> SortRank(a) < SortRank(b))
              && (Compare(a, b) == 0 <==> SortRank(a) == SortRank(b))
              && (Compare(a, b) > 0 <==> SortRank(a) > SortRank(b))
    ensures Unordered(a) && Unordered(b) ==> Compare(a, b) > 0 && Compare(b, a) > 0
  {
  }

  /**
   * `visibleTasks.sort(comparator)`. JavaScript's sort is stable, so with a
   * comparator that orders by SortRank the result is the tasks grouped by
   * rank, each group in its original order.
   */
  function SortByRank(s: seq<Task>): seq<Task> {
    SortFrom(s, 0)
  }

  /** The tasks of `s` of rank `k` and above, grouped by rank, each group in its original order. */
  function SortFrom(s: seq<Task>, k: nat): seq<Task> {
    Buckets(s, SortRank, k, 5)
  }

  predicate RankSorted(s: seq<Task>) {
    forall i, j :: 0 <= i < j < |s| ==> SortRank(s[i]) <= SortRank(s[j])
  }

  /** The sort's output is ordered by rank and holds only tasks of its input. */
  lemma {:induction false} SortFromOrdered(s: seq<Task>, k: nat)
    ensures forall t :: t in SortFrom(s, k) ==> t in s && SortRank(t) >= k
    ensures RankSorted(SortFrom(s, k))
    decreases 5 - k
  {
    if k < 5 {
      SortFromOrdered(s, k + 1);
      var a, b := Filter(s, RankIs(SortRank, k)), SortFrom(s, k + 1);
      var r := a + b;
      forall i, j | 0 <= i < j < |r| ensures SortRank(r[i]) <= SortRank(r[j]) {
        if j < |a| {
          assert r[i] == a[i] && r[j] == a[j];
          assert RankIs(SortRank, k)(a[i]) && RankIs(SortRank, k)(a[j]);
        } else if i < |a| {
          assert r[i] == a[i] && r[j] == b[j - |a|];
          assert RankIs(SortRank, k)(a[i]);
        } else {
          assert r[i] == b[i - |a|] && r[j] == b[j - |a|];
        }
      }
    }
  }

  /** The sort is a permutation. */
  lemma SortByRankPermutes(s: seq<Task>)
    ensures multiset(SortByRank(s)) == multiset(s)
  {
    BucketsPermute(s, SortRank, 5);
  }

  lemma AppendKeepsUniqueIds(a: seq<Task>, b: seq<Task>)
    requires UniqueIds(a) && UniqueIds(b)
    requires forall x, y :: x in a && y in b ==> x.id != y.id
    ensures UniqueIds(a + b)
  {
    var r := a + b;
    forall i, j | 0 <= i < j < |r| ensures r[i].id != r[j].id {
      if j < |a| {
        assert r[i] == a[i] && r[j] == a[j];
      } else if i < |a| {
        assert r[i] == a[i] && r[j] == b[j - |a|];
      } else {
        assert r[i] == b[i - |a|] && r[j] == b[j - |a|];
      }
    }
  }

  lemma {:induction false} SortKeepsUniqueIds(s: seq<Task>, k: nat)
    requires UniqueIds(s)
    ensures UniqueIds(SortFrom(s, k))
    decreases 5 - k
  {
    if k < 5 {
      SortKeepsUniqueIds(s, k + 1);
      SortFromOrdered(s, k + 1);
      FilterKeepsUniqueIds(s, RankIs(SortRank, k));
      var a, b := Filter(s, RankIs(SortRank, k)), SortFrom(s, k + 1);
      forall x, y | x in a && y in b ensures x.id != y.id {
        assert RankIs(SortRank, k)(x);
        if x.id == y.id {
          SameIdSameTask(s, x, y);
        }
      }
      AppendKeepsUniqueIds(a, b);
    }
  }

  /** A custom task other than one with the check-out id. */
  const CustomTask: Task -> bool := (t: Task) => !t.isPredefined && t.id != CheckOut

  /** Sorting keeps custom tasks in their original order. */
  lemma {:induction false} SortKeepsCustomOrder(s: seq<Task>, k: nat)
    requires k <= 4
    ensures Filter(SortFrom(s, k), CustomTask) == Filter(s, CustomTask)
    decreases 5 - k
  {
    var a := Filter(s, RankIs(SortRank, k));
    FilterAppend(a, SortFrom(s, k + 1), CustomTask);
    if k < 4 {
      SortKeepsCustomOrder(s, k + 1);
      forall x | x in a ensures !CustomTask(x) {
        assert RankIs(SortRank, k)(x);
      }
      FilterDropsAll(a, CustomTask);
    } else {
      FilterTwice(s, RankIs(SortRank, 4), CustomTask, CustomTask);
    }
  }

  lemma {:induction false} FilterKeepsRankOrder(s: seq<Task>, p: Task -> bool)
    requires RankSorted(s)
    ensures RankSorted(Filter(s, p))
  {
    if s != [] {
      var rest := s[1..];
      FilterKeepsRankOrder(rest, p);
      if p(s[0]) {
        var r := Filter(s, p);
        var f := Filter(rest, p);
        assert r == [s[0]] + f;
        forall i, j | 0 <= i < j < |r| ensures SortRank(r[i]) <= SortRank(r[j]) {
          assert r[j] == f[j - 1];
          if i == 0 {
            assert r[j] in rest;
            var m :| 0 <= m < |rest| && rest[m] == r[j];
            assert s[m + 1] == r[j];
          } else {
            assert r[i] == f[i - 1];
          }
        }
      }
    }
  }

  /** The position of a task in the list `getVisibleTasks` returns: check-ins in TaskOrder, then custom tasks, then check-out. */
  function OutputRank(t: Task): nat {
    if t.id == CheckOut then 4 else if !t.isPredefined then 3 else SortRank(t)
  }

  predicate OutputSorted(s: seq<Task>) {
    forall i, j :: 0 <= i < j < |s| ==> OutputRank(s[i]) <= OutputRank(s[j])
  }

  /** Away from check-out, output order is rank order with the ranks of custom and unordered tasks merged. */
  lemma RankOrderIsOutputOrder(s: seq<Task>)
    requires RankSorted(s)
    requires forall t :: t in s ==> t.id != CheckOut
    ensures OutputSorted(s)
    ensures forall t :: t in s ==> OutputRank(t) <= 3
  {
    forall i, j | 0 <= i < j < |s| ensures OutputRank(s[i]) <= OutputRank(s[j]) {
      assert s[i] in s && s[j] in s;
    }
  }

  /** Sorting a list of unique tasks: a permutation, ordered by rank, ids unique, custom tasks in order. */
  lemma SortedFacts(s: seq<Task>)
    requires UniqueIds(s)
    ensures multiset(SortByRank(s)) == multiset(s)
    ensures RankSorted(SortByRank(s)) && UniqueIds(SortByRank(s))
    ensures Filter(SortByRank(s), CustomTask) == Filter(s, CustomTask)
  {
    SortByRankPermutes(s);
    SortFromOrdered(s, 0);
    SortKeepsUniqueIds(s, 0);
    SortKeepsCustomOrder(s, 0);
  }

  /** Moving the one check-out task to the end keeps every task and puts the list in output order. */
  lemma CheckOutMovedLast(s: seq<Task>, c: Task)
    requires UniqueIds(s) && RankSorted(s) && c in s && c.id == CheckOut
    ensures var v := Filter(s, IdIsNot(CheckOut)) + [c];
      && multiset(v) == multiset(s)
      && OutputSorted(v)
      && Filter(v, CustomTask) == Filter(s, CustomTask)
      && v[|v| - 1].id == CheckOut
  {
    var rest := Filter(s, IdIsNot(CheckOut));
    var v := rest + [c];
    OnlyTaskWithItsId(s, c);
    FilterSplit(s, IdIsNot(CheckOut), IdIs(CheckOut));
    FilterKeepsRankOrder(s, IdIsNot(CheckOut));
    RankOrderIsOutputOrder(rest);
    forall i, j | 0 <= i < j < |v| ensures OutputRank(v[i]) <= OutputRank(v[j]) {
      assert v[i] == rest[i];
      if j == |rest| {
        assert v[i] in rest;
      } else {
        assert v[j] == rest[j];
      }
    }
    FilterAppend(rest, [c], CustomTask);
    assert [c][1..] == [];
    FilterTwice(s, IdIsNot(CheckOut), CustomTask, CustomTask);
  }

  /**
   * `getVisibleTasks`: filters the tasks, sorts them with the comparator,
   * then moves check-out to the end. The result holds exactly the visible
   * tasks, each once; the check-ins come first in TaskOrder, then the custom
   * tasks in their original order, then check-out.
   */
  method GetVisibleTasks(tasks: seq<Task>, eventType: EventType) returns (visible: seq<Task>)
    requires UniqueIds(tasks)
    ensures multiset(visible) == multiset(Filter(tasks, Keep(tasks, eventType)))
    ensures forall t :: t in visible <==> t in tasks && KeepVisible(tasks, eventType, t)
    ensures OutputSorted(visible)
    ensures Filter(visible, CustomTask) == Filter(tasks, CustomTask)
    ensures HasId(visible, CheckOut) ==> visible[|visible| - 1].id == CheckOut
  {
    var visibleTasks := Filter(tasks, Keep(tasks, eventType));
    ghost var shown := visibleTasks;
    VisibleSorted(tasks, eventType);

    visibleTasks := SortByRank(visibleTasks);

    var checkOutTask := FindTask(visibleTasks, CheckOut);
    if checkOutTask.Some? {
      CheckOutMovedLast(visibleTasks, checkOutTask.value);
      var filteredTasks := Filter(visibleTasks, IdIsNot(CheckOut));
      filteredTasks := filteredTasks + [checkOutTask.value];
      visible := filteredTasks;
    } else {
      RankOrderIsOutputOrder(visibleTasks);
      visible := visibleTasks;
    }
    SameMultisetSameMembers(visible, shown);
  }

  /** What sorting the visible tasks gives, before check-out is moved. */
  lemma VisibleSorted(tasks: seq<Task>, eventType: EventType)
    requires UniqueIds(tasks)
    ensures var s := SortByRank(Filter(tasks, Keep(tasks, eventType)));
      && multiset(s) == multiset(Filter(tasks, Keep(tasks, eventType)))
      && UniqueIds(s) && RankSorted(s)
      && Filter(s, CustomTask) == Filter(tasks, CustomTask)
  {
    var shown := Filter(tasks, Keep(tasks, eventType));
    FilterKeepsUniqueIds(tasks, Keep(tasks, eventType));
    FilterTwice(tasks, Keep(tasks, eventType), CustomTask, CustomTask);
    SortedFacts(shown);
  }

  lemma SameMultisetSameMembers(a: seq<Task>, b: seq<Task>)
    requires multiset(a) == multiset(b)
    ensures forall t :: t in a <==> t in b
  {
    forall t ensures t in a <==> t in b {
      assert t in a <==> t in multiset(a);
      assert t in b <==> t in multiset(b);
    }
  }

  /**
   * `getTaskName`: only check-out is relabelled, and only for the Events
   * and appointment types, each with its own label.
   */
  function GetTaskName(eventType: EventType, task: Task): (name: string)
    ensures name != task.name ==> task.id == CheckOut && eventType != Warehouse
    ensures task.id == CheckOut && eventType != Warehouse ==>
              name == (if eventType == Events then "Check out of events" else "Check out of warehouse-events")
  {
    if task.id != CheckOut then task.name
    else match eventType
      case Events => "Check out of events"
      case Appointment => "Check out of warehouse-events"
      case Warehouse => task.name
  }

  /** The new-event screen's task state. */
  class NewEventScreen {
    var eventType: EventType
    var tasks: seq<Task>
    var selectedTaskId: string

    ghost predicate Valid()
      reads this
    {
      UniqueIds(tasks)
    }

    constructor ()
      ensures Valid()
      ensures eventType == Warehouse && tasks == [] && selectedTaskId == ""
    {
      eventType := Warehouse;
      tasks := [];
      selectedTaskId := "";
    }

    /** A press in the task picker: only a task not yet listed can be chosen. */
    method PickTask(id: string)
      requires Valid()
      modifies this
      ensures Valid() && tasks == old(tasks) && eventType == old(eventType)
      ensures selectedTaskId == if HasId(tasks, id) then old(selectedTaskId) else id
    {
      if !HasId(tasks, id) {
        selectedTaskId := id;
      }
    }

    /**
     * `addTask`: appends the chosen catalogue task, unselected, and clears
     * the choice; otherwise changes nothing.
     */
    method AddTask()
      requires Valid()
      modifies this
      ensures Valid() && eventType == old(eventType)
      ensures CanAdd(old(tasks), old(selectedTaskId)) ==>
                tasks == WithTaskAdded(old(tasks), old(selectedTaskId)) && selectedTaskId == ""
      ensures !CanAdd(old(tasks), old(selectedTaskId)) ==>
                tasks == old(tasks) && selectedTaskId == old(selectedTaskId)
    {
      if selectedTaskId != "" {
        var taskToAdd := FindTask(PredefinedTasks, selectedTaskId);
        if taskToAdd.Some? && !HasId(tasks, selectedTaskId) {
          AddTaskAppendsOne(tasks, selectedTaskId);
          tasks := tasks + [taskToAdd.value.(isSelected := false)];
          selectedTaskId := "";
        }
      }
    }

    method UpdateTaskName(id: string, name: string)
      requires Valid()
      modifies this
      ensures Valid() && eventType == old(eventType) && selectedTaskId == old(selectedTaskId)
      ensures tasks == WithTaskRenamed(old(tasks), id, name)
    {
      EditsKeepIdsUnique(tasks, id, name);
      tasks := WithTaskRenamed(tasks, id, name);
    }

    method RemoveTask(id: string)
      requires Valid()
      modifies this
      ensures Valid() && eventType == old(eventType) && selectedTaskId == old(selectedTaskId)
      ensures tasks == WithoutTask(old(tasks), id)
    {
      EditsKeepIdsUnique(tasks, id, "");
      tasks := WithoutTask(tasks, id);
    }

    method TogglePredefinedTask(id: string)
      requires Valid()
      modifies this
      ensures Valid() && eventType == old(eventType) && selectedTaskId == old(selectedTaskId)
      ensures tasks == WithTaskToggled(old(tasks), id)
    {
      EditsKeepIdsUnique(tasks, id, "");
      tasks := WithTaskToggled(tasks, id);
    }
  }
}
