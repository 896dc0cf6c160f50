/**
  One category of the time logger: its activities, each an ordered map
  from task name to elapsed minutes, and the tasks attached directly to
  the category.  The class of the same name in `timelogger.data.ts` is a
  mutable object; here each operation returns the new value.

  The duration formatter (`DateWorker.timeToReadable`) is not part of
  this model: the functions that render durations take it as the
  parameter `readable`.
 */
module TimeLoggerData {
  import opened OrderedMap
  import opened Decimal

  /** Task name to elapsed minutes, in insertion order. */
  type TaskMap = Assoc<int>

  /** Renders a number of minutes as text. */
  type Readable = int -> string

  datatype CategoryData = CategoryData(
    title: string,
    activities: Assoc<TaskMap>,
    tasks: TaskMap)

  /** Keys are unique in the activity map, in every task map of an activity and in the direct-task map. */
  predicate WellFormed(c: CategoryData)
  {
    && DistinctKeys(c.activities)
    && (forall i :: 0 <= i < |c.activities| ==> DistinctKeys(c.activities[i].1))
    && DistinctKeys(c.tasks)
  }

  /** `new CategoryData(title)`. */
  function NewCategory(title: string): (c: CategoryData)
    ensures c.title == title && c.activities == [] && c.tasks == []
    ensures WellFormed(c)
    ensures TotalElapsed(c) == 0
  {
    CategoryData(title, [], [])
  }

  // ---------------------------------------------------------------------
  // Totals
  // ---------------------------------------------------------------------

  /** Sum of the values of a task map: one activity's subtotal. */
  function Total(m: TaskMap): int
  {
    Sum(Values(m))
  }

  /** `Map.set` changes the total by the difference of the two values. */
  lemma TotalSet(m: TaskMap, k: string, v: int)
    ensures k in Keys(m) ==> Total(Set(m, k, v)) == Total(m) - Get(m, k) + v
    ensures k !in Keys(m) ==> Total(Set(m, k, v)) == Total(m) + v
  {
    var r := Set(m, k, v);
    if k in Keys(m) {
      var i := IndexOf(m, k);
      assert Values(r) == Values(m)[i := v];
      SumUpdate(Values(m), i, v);
    } else {
      assert Values(r) == Values(m) + [v];
      SumConcat(Values(m), [v]);
    }
  }

  /** The subtotal of each activity, in activity order. */
  function Subtotals(acts: Assoc<TaskMap>): seq<int>
  {
    seq(|acts|, i requires 0 <= i < |acts| => Total(acts[i].1))
  }

  /** `getTotalElapsed`: every activity's tasks, then the direct tasks. */
  function TotalElapsed(c: CategoryData): int
  {
    Sum(Subtotals(c.activities)) + Total(c.tasks)
  }

  /** `getTotalElapsedOfActivity`: 0 when the activity is unknown. */
  function TotalElapsedOfActivity(c: CategoryData, name: string): (r: int)
    ensures name !in Keys(c.activities) ==> r == 0
  {
    if name in Keys(c.activities) then Total(Get(c.activities, name)) else 0
  }

  /** Replacing or appending one activity changes the sum of subtotals by the difference. */
  lemma SubtotalsSet(acts: Assoc<TaskMap>, name: string, m: TaskMap)
    ensures name in Keys(acts) ==>
              Sum(Subtotals(Set(acts, name, m))) == Sum(Subtotals(acts)) - Total(Get(acts, name)) + Total(m)
    ensures name !in Keys(acts) ==>
              Sum(Subtotals(Set(acts, name, m))) == Sum(Subtotals(acts)) + Total(m)
  {
    var r := Set(acts, name, m);
    if name in Keys(acts) {
      var i := IndexOf(acts, name);
      assert Subtotals(r) == Subtotals(acts)[i := Total(m)];
      SumUpdate(Subtotals(acts), i, Total(m));
    } else {
      assert Subtotals(r) == Subtotals(acts) + [Total(m)];
      SumConcat(Subtotals(acts), [Total(m)]);
    }
  }

  /** The per-activity totals looked up by name, in activity order. */
  function ActivityTotalsByName(c: CategoryData): seq<int>
  {
    seq(|c.activities|, i requires 0 <= i < |c.activities| => TotalElapsedOfActivity(c, c.activities[i].0))
  }

  /** With unique activity names, the total is the sum of the per-activity totals plus the direct tasks. */
  lemma TotalIsSumOfActivityTotals(c: CategoryData)
    requires WellFormed(c)
    ensures TotalElapsed(c) == Sum(ActivityTotalsByName(c)) + Total(c.tasks)
  {
    var acts := c.activities;
    forall i | 0 <= i < |acts|
      ensures ActivityTotalsByName(c)[i] == Subtotals(acts)[i]
    {
      GetAt(acts, i);
    }
    assert ActivityTotalsByName(c) == Subtotals(acts);
  }

  // ---------------------------------------------------------------------
  // Insertions
  // ---------------------------------------------------------------------

  /**
    The policy shared by `addTaskToActivity` and `addTaskToCategory` on one
    task map: a new name is appended; an existing name is either summed
    into (`aggregate`) or inserted under the first free `content + i`.
   */
  function InsertTask(m: TaskMap, content: string, elapsed: int, aggregate: bool): (r: TaskMap)
    ensures content in Keys(m) && aggregate ==>
              && |r| == |m|
              && r[IndexOf(m, content)] == (content, Get(m, content) + elapsed)
              && forall j :: 0 <= j < |m| && j != IndexOf(m, content) ==> r[j] == m[j]
    ensures content in Keys(m) && !aggregate ==>
              r == m + [(content + NatToString(FreeSuffix(m, content)), elapsed)]
    ensures content !in Keys(m) ==> r == m + [(content, elapsed)]
    ensures Keys(m) <= Keys(r) && content in Keys(r)
    ensures Total(r) == Total(m) + elapsed
    ensures DistinctKeys(m) ==> DistinctKeys(r)
  {
    var key := if content in Keys(m) && !aggregate then Disambiguate(m, content) else content;
    var value := if content in Keys(m) && aggregate then Get(m, content) + elapsed else elapsed;
    TotalSet(m, key, value);
    Set(m, key, value)
  }

  /**
    `addActivity`.  The new key is `name`, or the first free `name + i`
    when `name` is taken and `aggregate` is false.  Whatever the key, it
    is bound to a fresh empty task map: with `aggregate` true an existing
    activity keeps its position but loses its tasks.  The second component
    is the key used (the source returns the new map itself).
   */
  function AddActivity(c: CategoryData, name: string, aggregate: bool): (r: (CategoryData, string))
    ensures r.0.title == c.title && r.0.tasks == c.tasks
    ensures name !in Keys(c.activities) ==>
              r.1 == name && r.0.activities == c.activities + [(name, [])]
    ensures name in Keys(c.activities) && !aggregate ==>
              && r.1 == name + NatToString(FreeSuffix(c.activities, name))
              && r.0.activities == c.activities + [(r.1, [])]
    ensures name in Keys(c.activities) && aggregate ==>
              && r.1 == name
              && |r.0.activities| == |c.activities|
              && r.0.activities[IndexOf(c.activities, name)] == (name, [])
              && forall j :: 0 <= j < |c.activities| && j != IndexOf(c.activities, name) ==>
                   r.0.activities[j] == c.activities[j]
    ensures r.1 in Keys(r.0.activities) && Get(r.0.activities, r.1) == []
    ensures name in Keys(c.activities) && aggregate ==>
              TotalElapsed(r.0) == TotalElapsed(c) - TotalElapsedOfActivity(c, name)
    ensures !(name in Keys(c.activities) && aggregate) ==> TotalElapsed(r.0) == TotalElapsed(c)
    ensures WellFormed(c) ==> WellFormed(r.0)
  {
    var key := if name in Keys(c.activities) && !aggregate then Disambiguate(c.activities, name) else name;
    SubtotalsSet(c.activities, key, []);
    (c.(activities := Set(c.activities, key, [])), key)
  }

  /** The task map of an activity, or the empty map `addActivity` would install. */
  function TasksOf(c: CategoryData, activityName: string): TaskMap
  {
    if activityName in Keys(c.activities) then Get(c.activities, activityName) else []
  }

  /**
    `addTaskToActivity`: creates the activity if it is missing, then
    applies the task insertion policy to its task map in place.
   */
  function AddTaskToActivity(c: CategoryData, activityName: string, content: string,
                             elapsed: int, aggregate: bool): (r: CategoryData)
    ensures r.title == c.title && r.tasks == c.tasks
    ensures Keys(r.activities) ==
              if activityName in Keys(c.activities) then Keys(c.activities)
              else Keys(c.activities) + [activityName]
    ensures activityName in Keys(r.activities)
    ensures Get(r.activities, activityName) == InsertTask(TasksOf(c, activityName), content, elapsed, aggregate)
    ensures forall a :: a != activityName && a in Keys(c.activities) ==>
              a in Keys(r.activities) && Get(r.activities, a) == Get(c.activities, a)
    ensures TotalElapsed(r) == TotalElapsed(c) + elapsed
    ensures WellFormed(c) ==> WellFormed(r)
  {
    var c1 := if activityName in Keys(c.activities) then c else AddActivity(c, activityName, true).0;
    var updated := InsertTask(Get(c1.activities, activityName), content, elapsed, aggregate);
    SubtotalsSet(c.activities, activityName, []);
    SubtotalsSet(c1.activities, activityName, updated);
    GetSetOthers(c.activities, activityName, []);
    GetSetOthers(c1.activities, activityName, updated);
    WellFormedSetActivity(c1, activityName, updated);
    c1.(activities := Set(c1.activities, activityName, updated))
  }

  /** `addTaskToCategory`: the task insertion policy on the direct-task map. */
  function AddTaskToCategory(c: CategoryData, content: string, elapsed: int, aggregate: bool): (r: CategoryData)
    ensures r.title == c.title && r.activities == c.activities
    ensures r.tasks == InsertTask(c.tasks, content, elapsed, aggregate)
    ensures Keys(c.tasks) <= Keys(r.tasks) && content in Keys(r.tasks)
    ensures TotalElapsed(r) == TotalElapsed(c) + elapsed
    ensures WellFormed(c) ==> WellFormed(r)
  {
    c.(tasks := InsertTask(c.tasks, content, elapsed, aggregate))
  }

  /** Storing a task map with unique keys under an existing activity keeps the category well formed. */
  lemma WellFormedSetActivity(c: CategoryData, name: string, m: TaskMap)
    requires name in Keys(c.activities)
    ensures WellFormed(c) && DistinctKeys(m) ==> WellFormed(c.(activities := Set(c.activities, name, m)))
  {
  }

  // ---------------------------------------------------------------------
  // Any sequence of insertions
  // ---------------------------------------------------------------------

  /** One call of an insertion operation. */
  datatype Insertion =
    | ActivityInsertion(name: string, aggregate: bool)
    | TaskOfActivityInsertion(activity: string, content: string, elapsed: int, aggregate: bool)
    | TaskOfCategoryInsertion(content: string, elapsed: int, aggregate: bool)

  function Apply(c: CategoryData, op: Insertion): CategoryData
  {
    match op
    case ActivityInsertion(name, aggregate) => AddActivity(c, name, aggregate).0
    case TaskOfActivityInsertion(a, content, elapsed, aggregate) =>
      AddTaskToActivity(c, a, content, elapsed, aggregate)
    case TaskOfCategoryInsertion(content, elapsed, aggregate) =>
      AddTaskToCategory(c, content, elapsed, aggregate)
  }

  function ApplyAll(c: CategoryData, ops: seq<Insertion>): CategoryData
    decreases |ops|
  {
    if |ops| == 0 then c else ApplyAll(Apply(c, ops[0]), ops[1..])
  }

  /**
    After any sequence of insertions keys are still unique at every level,
    and no activity key and no direct-task key has been removed or moved:
    the old sequences of those keys are prefixes of the new ones.  An
    activity's own task map is not covered: a merging `addActivity` on a
    taken name empties it.
   */
  lemma {:induction false} ApplyAllPreservesKeys(c: CategoryData, ops: seq<Insertion>)
    ensures WellFormed(c) ==> WellFormed(ApplyAll(c, ops))
    ensures Keys(c.activities) <= Keys(ApplyAll(c, ops).activities)
    ensures Keys(c.tasks) <= Keys(ApplyAll(c, ops).tasks)
    ensures ApplyAll(c, ops).title == c.title
    decreases |ops|
  {
    if |ops| > 0 {
      var c1 := Apply(c, ops[0]);
      assert Keys(c.activities) <= Keys(c1.activities) && Keys(c.tasks) <= Keys(c1.tasks);
      ApplyAllPreservesKeys(c1, ops[1..]);
    }
  }

  // ---------------------------------------------------------------------
  // Flattening accessors
  // ---------------------------------------------------------------------

  /** Number of tasks over all the given activities. */
  function TaskCount(acts: Assoc<TaskMap>): nat
  {
    if |acts| == 0 then 0 else |acts[0].1| + TaskCount(acts[1..])
  }

  /**
    The recursion behind `ActivitiesTimeArray`: every task value of every
    activity, activities in order, then tasks in order.
   */
  function LeafValues(acts: Assoc<TaskMap>): (r: seq<int>)
    ensures |r| == TaskCount(acts)
    ensures Sum(r) == Sum(Subtotals(acts))
  {
    if |acts| == 0 then []
    else
      var rest := LeafValues(acts[1..]);
      assert Subtotals(acts[1..]) == Subtotals(acts)[1..];
      SumConcat(Values(acts[0].1), rest);
      Values(acts[0].1) + rest
  }

  /** `getActivitiesTimeArray`: one entry per task of every activity. */
  function ActivitiesTimeArray(c: CategoryData): (r: seq<int>)
    ensures |r| == TaskCount(c.activities)
    ensures Sum(r) == Sum(Subtotals(c.activities))
  {
    LeafValues(c.activities)
  }

  /** `getActivitiesNameArray`: one entry per activity, not per task. */
  function ActivitiesNameArray(c: CategoryData): (r: seq<string>)
    ensures |r| == |c.activities|
    ensures forall i :: 0 <= i < |r| ==> r[i] == c.activities[i].0
  {
    Keys(c.activities)
  }

  /** `getTasksTimeArray`: the direct tasks' times, in insertion order. */
  function TasksTimeArray(c: CategoryData): (r: seq<int>)
    ensures |r| == |c.tasks|
    ensures forall i :: 0 <= i < |r| ==> r[i] == c.tasks[i].1
  {
    Values(c.tasks)
  }

  /** `getTasksNameArray`: the direct tasks' names, in insertion order. */
  function TasksNameArray(c: CategoryData): (r: seq<string>)
    ensures |r| == |c.tasks|
    ensures forall i :: 0 <= i < |r| ==> r[i] == c.tasks[i].0
  {
    Keys(c.tasks)
  }

  /**
    Task `j` of activity `i` sits in the activity time array after all
    tasks of the activities before `i`.
   */
  lemma {:induction false} ActivitiesTimeArrayOrder(c: CategoryData, i: nat, j: nat)
    requires i < |c.activities| && j < |c.activities[i].1|
    ensures && TaskCount(c.activities[..i]) + j < |ActivitiesTimeArray(c)|
            && ActivitiesTimeArray(c)[TaskCount(c.activities[..i]) + j] == c.activities[i].1[j].1
  {
    LeafValuesAt(c.activities, i, j);
  }

  lemma {:induction false} LeafValuesAt(acts: Assoc<TaskMap>, i: nat, j: nat)
    requires i < |acts| && j < |acts[i].1|
    ensures && TaskCount(acts[..i]) + j < |LeafValues(acts)|
            && LeafValues(acts)[TaskCount(acts[..i]) + j] == acts[i].1[j].1
  {
    if i == 0 {
      assert acts[..0] == [];
    } else {
      LeafValuesAt(acts[1..], i - 1, j);
      assert acts[1..][..i - 1] == acts[1..i];
      assert acts[..i][1..] == acts[1..i];
      assert LeafValues(acts) == Values(acts[0].1) + LeafValues(acts[1..]);
    }
  }

  /** The summed time array agrees with the total. */
  lemma TotalIsSumOfLeaves(c: CategoryData)
    ensures TotalElapsed(c) == Sum(ActivitiesTimeArray(c)) + Sum(TasksTimeArray(c))
  {
  }

  /** The two direct-task arrays are parallel and together give back the task map. */
  lemma TaskArraysZip(c: CategoryData)
    ensures |TasksNameArray(c)| == |TasksTimeArray(c)| == |c.tasks|
    ensures forall i :: 0 <= i < |c.tasks| ==> (TasksNameArray(c)[i], TasksTimeArray(c)[i]) == c.tasks[i]
  {
  }

  /**
    The activity name and time arrays are not parallel: one activity with
    two tasks gives one name and two times.
   */
  lemma ActivityArraysNotParallel()
    ensures var c := CategoryData("Work", [("Coding", [("Fix", 5), ("Review", 7)])], []);
            |ActivitiesNameArray(c)| == 1 && |ActivitiesTimeArray(c)| == 2
  {
    var c := CategoryData("Work", [("Coding", [("Fix", 5), ("Review", 7)])], []);
    assert TaskCount(c.activities) == 2;
  }

  // ---------------------------------------------------------------------
  // Summaries
  // ---------------------------------------------------------------------

  /** `getSummary`: the title and the formatted sum of every leaf. */
  function Summary(c: CategoryData, readable: Readable): (r: (string, string))
    ensures r.0 == c.title
    ensures r.1 == readable(Sum(ActivitiesTimeArray(c)) + Sum(TasksTimeArray(c)))
  {
    (c.title, readable(TotalElapsed(c)))
  }

  /** `getSummaryOfActivity`: no sentinel, an unknown activity shows a zero duration. */
  function SummaryOfActivity(c: CategoryData, name: string, readable: Readable): (r: (string, string))
    ensures name !in Keys(c.activities) ==> r == (name, readable(0))
  {
    (name, readable(TotalElapsedOfActivity(c, name)))
  }

  /** `getSummaryOfTaskActivity`: `("", "")` when the activity or the task is missing. */
  function SummaryOfTaskActivity(c: CategoryData, taskName: string, activityName: string,
                                 readable: Readable): (r: (string, string))
    ensures activityName !in Keys(c.activities) ==> r == ("", "")
    ensures activityName in Keys(c.activities) && taskName !in Keys(Get(c.activities, activityName)) ==>
              r == ("", "")
    ensures activityName in Keys(c.activities) && taskName in Keys(Get(c.activities, activityName)) ==>
              r == (taskName, readable(Get(Get(c.activities, activityName), taskName)))
  {
    if activityName in Keys(c.activities) && taskName in Keys(Get(c.activities, activityName)) then
      (taskName, readable(Get(Get(c.activities, activityName), taskName)))
    else
      ("", "")
  }

  /** `getSummaryOfTaskCategory`: `("", "")` when the task is missing. */
  function SummaryOfTaskCategory(c: CategoryData, taskName: string, readable: Readable): (r: (string, string))
    ensures taskName !in Keys(c.tasks) ==> r == ("", "")
    ensures taskName in Keys(c.tasks) ==> r == (taskName, readable(Get(c.tasks, taskName)))
  {
    if taskName in Keys(c.tasks) then (taskName, readable(Get(c.tasks, taskName))) else ("", "")
  }

  /** The value a merging insertion stores: the old value (0 when absent) plus the new time. */
  function MergedValue(m: TaskMap, content: string, elapsed: int): int
  {
    (if content in Keys(m) then Get(m, content) else 0) + elapsed
  }

  /** After a merging `addTaskToCategory`, the task's summary shows the summed time. */
  lemma SummaryAfterAddTaskToCategory(c: CategoryData, content: string, elapsed: int, readable: Readable)
    ensures SummaryOfTaskCategory(AddTaskToCategory(c, content, elapsed, true), content, readable)
            == (content, readable(MergedValue(c.tasks, content, elapsed)))
  {
    var r := AddTaskToCategory(c, content, elapsed, true);
    assert r.tasks == InsertTask(c.tasks, content, elapsed, true);
    MergedTaskValue(c.tasks, content, elapsed);
  }

  /** A merging insertion stores `MergedValue` under the task's own name. */
  lemma MergedTaskValue(m: TaskMap, content: string, elapsed: int)
    ensures var r := InsertTask(m, content, elapsed, true);
            content in Keys(r) && Get(r, content) == MergedValue(m, content, elapsed)
  {
    MergingInsertIsSet(m, content, elapsed);
  }

  /** A merging insertion is one `Map.set` of the merged value under the task's own name. */
  lemma MergingInsertIsSet(m: TaskMap, content: string, elapsed: int)
    ensures InsertTask(m, content, elapsed, true) == Set(m, content, MergedValue(m, content, elapsed))
  {
    if content in Keys(m) {
      assert MergedValue(m, content, elapsed) == Get(m, content) + elapsed;
    } else {
      assert MergedValue(m, content, elapsed) == elapsed;
    }
  }

  /** After a merging `addTaskToActivity`, the task's summary under that activity shows the summed time. */
  lemma SummaryAfterAddTaskToActivity(c: CategoryData, activityName: string, content: string,
                                      elapsed: int, readable: Readable)
    ensures SummaryOfTaskActivity(AddTaskToActivity(c, activityName, content, elapsed, true),
                                  content, activityName, readable)
            == (content, readable(MergedValue(TasksOf(c, activityName), content, elapsed)))
  {
    var r := AddTaskToActivity(c, activityName, content, elapsed, true);
    assert Get(r.activities, activityName) == InsertTask(TasksOf(c, activityName), content, elapsed, true);
    MergedTaskValue(TasksOf(c, activityName), content, elapsed);
  }

  /**
    After `addTaskToActivity`, the activity's summary shows its old subtotal
    (0 if it was unknown) plus the new time, under either policy.
   */
  lemma SummaryOfActivityAfterAddTask(c: CategoryData, activityName: string, content: string,
                                      elapsed: int, aggregate: bool, readable: Readable)
    ensures SummaryOfActivity(AddTaskToActivity(c, activityName, content, elapsed, aggregate),
                              activityName, readable)
            == (activityName, readable(TotalElapsedOfActivity(c, activityName) + elapsed))
  {
    var r := AddTaskToActivity(c, activityName, content, elapsed, aggregate);
    var m := TasksOf(c, activityName);
    var inserted := InsertTask(m, content, elapsed, aggregate);
    assert Get(r.activities, activityName) == inserted;
    TasksOfTotal(c, activityName);
    assert TotalElapsedOfActivity(r, activityName) == Total(inserted) == Total(m) + elapsed;
  }

  lemma TasksOfTotal(c: CategoryData, activityName: string)
    ensures Total(TasksOf(c, activityName)) == TotalElapsedOfActivity(c, activityName)
  {
  }

  // ---------------------------------------------------------------------
  // Text report
  // ---------------------------------------------------------------------

  /** "⥤", the arrow that opens activity and direct-task lines. */
  const Arrow := "\U{2964}"
  /** "⩶⥤", the arrow that opens a task line under an activity. */
  const TaskArrow := "\U{2A76}\U{2964}"

  function HeaderLine(c: CategoryData, readable: Readable): string
  {
    "Category: **" + c.title + "** - " + readable(TotalElapsed(c)) + "\n"
  }

  function ActivityTaskLines(m: TaskMap, readable: Readable): string
  {
    if |m| == 0 then ""
    else TaskArrow + "  Task: *" + m[0].0 + "* - " + readable(m[0].1) + "\n"
         + ActivityTaskLines(m[1..], readable)
  }

  function ActivityHeaderLine(name: string, subtotal: int, readable: Readable): string
  {
    "\n" + Arrow + " Activity: " + name + " - " + readable(subtotal) + "\n"
  }

  /** The activity blocks of `toString`, the subtotal looked up by name in `c`. */
  function ActivityBlocks(c: CategoryData, acts: Assoc<TaskMap>, readable: Readable): string
  {
    if |acts| == 0 then ""
    else ActivityHeaderLine(acts[0].0, TotalElapsedOfActivity(c, acts[0].0), readable)
         + ActivityTaskLines(acts[0].1, readable)
         + ActivityBlocks(c, acts[1..], readable)
  }

  function DirectTaskLines(m: TaskMap, readable: Readable): string
  {
    if |m| == 0 then ""
    else "\n" + Arrow + " Task: " + m[0].0 + " - " + readable(m[0].1) + "\n"
         + DirectTaskLines(m[1..], readable)
  }

  /** `toString`. */
  function ToString(c: CategoryData, readable: Readable): (r: string)
    ensures |HeaderLine(c, readable)| <= |r|
    ensures r[..|HeaderLine(c, readable)|] == "Category: **" + c.title + "** - " + readable(TotalElapsed(c)) + "\n"
  {
    var h := HeaderLine(c, readable);
    var rest := ActivityBlocks(c, c.activities, readable) + DirectTaskLines(c.tasks, readable);
    assert (h + rest)[..|h|] == h;
    h + rest
  }

  /** Activity blocks whose subtotal is computed from the block's own tasks. */
  function OwnSubtotalBlocks(acts: Assoc<TaskMap>, readable: Readable): string
  {
    if |acts| == 0 then ""
    else ActivityHeaderLine(acts[0].0, Total(acts[0].1), readable)
         + ActivityTaskLines(acts[0].1, readable)
         + OwnSubtotalBlocks(acts[1..], readable)
  }

  /**
    With unique activity names, the subtotal `toString` looks up by name is
    the subtotal of the block it heads.
   */
  lemma ToStringUsesOwnSubtotals(c: CategoryData, readable: Readable)
    requires WellFormed(c)
    ensures ToString(c, readable) ==
              HeaderLine(c, readable)
              + (OwnSubtotalBlocks(c.activities, readable) + DirectTaskLines(c.tasks, readable))
  {
    BlocksFrom(c, 0, readable);
    assert c.activities[0..] == c.activities;
  }

  lemma {:induction false} BlocksFrom(c: CategoryData, k: nat, readable: Readable)
    requires WellFormed(c) && k <= |c.activities|
    ensures ActivityBlocks(c, c.activities[k..], readable) == OwnSubtotalBlocks(c.activities[k..], readable)
    decreases |c.activities| - k
  {
    if k < |c.activities| {
      BlocksFrom(c, k + 1, readable);
      GetAt(c.activities, k);
      assert c.activities[k..][1..] == c.activities[k + 1..];
    }
  }

  /** The report of a category "Work" with one activity "Coding" holding one task "Fix bug" of 12 minutes. */
  lemma ToStringExample(readable: Readable)
    ensures var c := AddTaskToActivity(NewCategory("Work"), "Coding", "Fix bug", 12, true);
            ToString(c, readable) ==
              ("Category: **Work** - " + readable(12) + "\n")
              + ("\n\U{2964} Activity: Coding - " + readable(12) + "\n")
              + ("\U{2A76}\U{2964}  Task: *Fix bug* - " + readable(12) + "\n")
  {
    var empty: TaskMap := [];
    var task: TaskMap := [("Fix bug", 12)];
    var c0 := NewCategory("Work");
    assert AddActivity(c0, "Coding", true).0.activities == [("Coding", empty)];
    assert InsertTask(empty, "Fix bug", 12, true) == task;
    var c := AddTaskToActivity(c0, "Coding", "Fix bug", 12, true);
    assert c == CategoryData("Work", [("Coding", task)], []);
    ToStringExampleText(c, readable);
  }

  lemma ToStringExampleText(c: CategoryData, readable: Readable)
    requires c == CategoryData("Work", [("Coding", [("Fix bug", 12)])], [])
    ensures ToString(c, readable) ==
              ("Category: **Work** - " + readable(12) + "\n")
              + ("\n\U{2964} Activity: Coding - " + readable(12) + "\n")
              + ("\U{2A76}\U{2964}  Task: *Fix bug* - " + readable(12) + "\n")
  {
    assert TotalElapsed(c) == 12;
    ExampleActivityBlock(c, readable);
    ExampleLiterals();
    var b := ActivityBlocks(c, c.activities, readable);
    assert ToString(c, readable) == HeaderLine(c, readable) + (b + "");
    assert b + "" == b;
  }

  lemma ExampleActivityBlock(c: CategoryData, readable: Readable)
    requires c == CategoryData("Work", [("Coding", [("Fix bug", 12)])], [])
    ensures ActivityBlocks(c, c.activities, readable) ==
              ("\n\U{2964} Activity: Coding - " + readable(12) + "\n")
              + ("\U{2A76}\U{2964}  Task: *Fix bug* - " + readable(12) + "\n")
  {
    ExampleTaskLine(c.activities[0].1, readable);
    GetAt(c.activities, 0);
    assert TotalElapsedOfActivity(c, "Coding") == 12;
    assert ActivityBlocks(c, c.activities[1..], readable) == "";
    ExampleLiterals();
  }

  lemma ExampleTaskLine(m: TaskMap, readable: Readable)
    requires m == [("Fix bug", 12)]
    ensures ActivityTaskLines(m, readable) == "\U{2A76}\U{2964}  Task: *Fix bug* - " + readable(12) + "\n"
  {
    assert ActivityTaskLines(m[1..], readable) == "";
    ExampleLiterals();
  }

  /** The fixed parts of the example report's lines, spelled out. */
  lemma ExampleLiterals()
    ensures "Category: **" + "Work" + "** - " == "Category: **Work** - "
    ensures "\n" + Arrow + " Activity: " + "Coding" + " - " == "\n\U{2964} Activity: Coding - "
    ensures TaskArrow + "  Task: *" + "Fix bug" + "* - " == "\U{2A76}\U{2964}  Task: *Fix bug* - "
  {
  }

  // ---------------------------------------------------------------------
  // Worked examples
  // ---------------------------------------------------------------------

  /** Two merging insertions of the same task sum their times. */
  lemma MergeExample()
    ensures var c := AddTaskToActivity(AddTaskToActivity(NewCategory("Sport"), "Gym", "Run", 5, true),
                                       "Gym", "Run", 7, true);
            Get(Get(c.activities, "Gym"), "Run") == 12
  {
  }

  /** Three non-merging `addActivity("X")` calls create X, X1 and X2. */
  lemma SuffixExample()
    ensures var c1 := AddActivity(NewCategory("Work"), "X", false).0;
            var c2 := AddActivity(c1, "X", false).0;
            var c3 := AddActivity(c2, "X", false).0;
            Keys(c3.activities) == ["X", "X1", "X2"]
  {
    var c1 := AddActivity(NewCategory("Work"), "X", false).0;
    assert c1.activities == [("X", [])];
    var c2 := AddActivity(c1, "X", false).0;
    SuffixSecond(c1);
    SuffixThird(c2);
  }

  /** The digits the second and third calls append. */
  lemma SuffixDigits()
    ensures "X" + NatToString(1) == "X1" && "X" + NatToString(2) == "X2"
  {
    assert NatToString(1) == "1" && NatToString(2) == "2";
  }

  /** With `X` taken, the second call uses suffix 1. */
  lemma SuffixSecond(c: CategoryData)
    requires c.activities == [("X", [])]
    ensures AddActivity(c, "X", false).0.activities == [("X", []), ("X1", [])]
  {
    SuffixDigits();
    assert Keys(c.activities) == ["X"];
    FreeSuffixIs(c.activities, "X", 1);
  }

  /** With `X` and `X1` taken, the third call uses suffix 2. */
  lemma SuffixThird(c: CategoryData)
    requires c.activities == [("X", []), ("X1", [])]
    ensures Keys(AddActivity(c, "X", false).0.activities) == ["X", "X1", "X2"]
  {
    SuffixDigits();
    assert Keys(c.activities) == ["X", "X1"];
    FreeSuffixIs(c.activities, "X", 2);
    var r := AddActivity(c, "X", false).0.activities;
    assert r == [("X", []), ("X1", []), ("X2", [])];
    assert Keys(r) == ["X", "X1", "X2"];
  }
}
