/**
  Hydration of `CategoryData` values from the store (`TimeLoggerLoad` in
  `timelogger.load.ts`).  The three stores are not part of this model:
  their queries are the fields of a `Gateways` value, and the awaited
  calls of the source become a fold over the rows they return, in the
  order they return them.
 */
module TimeLoggerLoad {
  import opened Wrappers
  import opened OrderedMap
  import opened TimeLoggerData

  /** A row of the category table: `TCId` and `title`. */
  datatype CategoryRow = CategoryRow(id: string, title: string)

  /** A row of the activity table: `AId` and `name`. */
  datatype ActivityRow = ActivityRow(id: string, name: string)

  /** A task row, its `timeElapsed` already parsed to an integer. */
  datatype TaskRow = TaskRow(content: string, elapsed: int)

  /** The store queries the loader issues. */
  datatype Gateways = Gateways(
    /** `TCategoryServices.getTCategoryByUserId(userId)` */
    categoriesByUser: string -> seq<CategoryRow>,
    /** `TCategoryServices.getTCategoryByTitleUserId(title, userId)` */
    categoryByTitleAndUser: (string, string) -> Option<CategoryRow>,
    /** `ActivityServices.getActivitiesByCategoryId(TCId)` */
    activitiesByCategory: string -> seq<ActivityRow>,
    /** `TaskServices.GetTasksAlteredEndedByActivityId(AId)` */
    endedAlteredTasksOfActivity: string -> seq<TaskRow>,
    /** `TaskServices.GetTasksALteredByCategoryIdNotEnded(TCId)` */
    alteredNotEndedTasksOfCategory: string -> seq<TaskRow>)

  // ---------------------------------------------------------------------
  // Reference definitions
  // ---------------------------------------------------------------------

  /** The task map obtained by merging `tasks` one by one into `m`. */
  function MergeTasks(m: TaskMap, tasks: seq<TaskRow>): TaskMap
    decreases |tasks|
  {
    if |tasks| == 0 then m
    else MergeTasks(InsertTask(m, tasks[0].content, tasks[0].elapsed, true), tasks[1..])
  }

  function SumElapsed(tasks: seq<TaskRow>): int
    decreases |tasks|
  {
    if |tasks| == 0 then 0 else tasks[0].elapsed + SumElapsed(tasks[1..])
  }

  /** Merging never loses time: the total grows by the sum of the merged rows. */
  lemma {:induction false} MergeTasksTotal(m: TaskMap, tasks: seq<TaskRow>)
    ensures Total(MergeTasks(m, tasks)) == Total(m) + SumElapsed(tasks)
    decreases |tasks|
  {
    if |tasks| > 0 {
      MergeTasksTotal(InsertTask(m, tasks[0].content, tasks[0].elapsed, true), tasks[1..]);
    }
  }

  /** Merging keeps keys unique. */
  lemma {:induction false} MergeTasksDistinct(m: TaskMap, tasks: seq<TaskRow>)
    requires DistinctKeys(m)
    ensures DistinctKeys(MergeTasks(m, tasks))
    decreases |tasks|
  {
    if |tasks| > 0 {
      MergeTasksDistinct(InsertTask(m, tasks[0].content, tasks[0].elapsed, true), tasks[1..]);
    }
  }

  /** The task names of the rows, in store order. */
  function Contents(tasks: seq<TaskRow>): seq<string>
  {
    seq(|tasks|, i requires 0 <= i < |tasks| => tasks[i].content)
  }

  /** The summed elapsed time of the rows named `k`. */
  function ContentSum(tasks: seq<TaskRow>, k: string): int
    decreases |tasks|
  {
    if |tasks| == 0 then 0
    else (if tasks[0].content == k then tasks[0].elapsed else 0) + ContentSum(tasks[1..], k)
  }

  lemma ContentsTail(tasks: seq<TaskRow>)
    requires |tasks| > 0
    ensures Contents(tasks) == [tasks[0].content] + Contents(tasks[1..])
  {
  }

  /** One merging insertion, seen from an arbitrary task name `k`. */
  lemma MergeStep(m: TaskMap, t: TaskRow, k: string)
    ensures var r := InsertTask(m, t.content, t.elapsed, true);
            && (k in Keys(r) <==> k in Keys(m) || k == t.content)
            && (k in Keys(r) ==> Get(r, k) == MergedValue(m, k, if k == t.content then t.elapsed else 0))
  {
    var v := MergedValue(m, t.content, t.elapsed);
    MergingInsertIsSet(m, t.content, t.elapsed);
    if k != t.content && k in Keys(m) {
      GetSetOther(m, t.content, v, k);
    }
  }

  /**
    What a merged task map holds: a name is a key exactly when it was one
    before or some row carries it, and its value is the old value (0 if
    absent) plus the elapsed time of every row carrying it.
   */
  lemma {:induction false} MergeTasksValue(m: TaskMap, tasks: seq<TaskRow>, k: string)
    ensures k in Keys(MergeTasks(m, tasks)) <==> k in Keys(m) || k in Contents(tasks)
    ensures k in Keys(MergeTasks(m, tasks)) ==>
              Get(MergeTasks(m, tasks), k) == MergedValue(m, k, ContentSum(tasks, k))
    decreases |tasks|
  {
    if |tasks| > 0 {
      MergeStep(m, tasks[0], k);
      ContentsTail(tasks);
      MergeTasksValue(InsertTask(m, tasks[0].content, tasks[0].elapsed, true), tasks[1..], k);
    }
  }

  /** The keys after `Map.set(name, ...)` on a map with keys `keys`. */
  function AddName(keys: seq<string>, name: string): seq<string>
  {
    if name in keys then keys else keys + [name]
  }

  /** The keys after setting each of `names` in turn. */
  function LoadedKeys(keys: seq<string>, names: seq<string>): seq<string>
    decreases |names|
  {
    if |names| == 0 then keys else LoadedKeys(AddName(keys, names[0]), names[1..])
  }

  lemma {:induction false} LoadedKeysKeeps(keys: seq<string>, names: seq<string>, n: string)
    requires n in keys
    ensures n in LoadedKeys(keys, names)
    decreases |names|
  {
    if |names| > 0 {
      LoadedKeysKeeps(AddName(keys, names[0]), names[1..], n);
    }
  }

  lemma {:induction false} LoadedKeysHasNames(keys: seq<string>, names: seq<string>, k: nat)
    requires k < |names|
    ensures names[k] in LoadedKeys(keys, names)
    decreases |names|
  {
    if k == 0 {
      LoadedKeysKeeps(AddName(keys, names[0]), names[1..], names[0]);
    } else {
      assert names[1..][k - 1] == names[k];
      LoadedKeysHasNames(AddName(keys, names[0]), names[1..], k - 1);
    }
  }

  lemma {:induction false} LoadedKeysOnly(keys: seq<string>, names: seq<string>, n: string)
    requires n in LoadedKeys(keys, names)
    ensures n in keys || n in names
    decreases |names|
  {
    if |names| > 0 {
      LoadedKeysOnly(AddName(keys, names[0]), names[1..], n);
      assert names == [names[0]] + names[1..];
    }
  }

  /** The names of the activity rows, in store order. */
  function Names(acts: seq<ActivityRow>): seq<string>
  {
    seq(|acts|, k requires 0 <= k < |acts| => acts[k].name)
  }

  /** Time fed in through the ended-and-altered query of every activity row. */
  function ActivityFeed(g: Gateways, acts: seq<ActivityRow>): int
    decreases |acts|
  {
    if |acts| == 0 then 0
    else SumElapsed(g.endedAlteredTasksOfActivity(acts[0].id)) + ActivityFeed(g, acts[1..])
  }

  lemma NamesTail(acts: seq<ActivityRow>)
    requires |acts| > 0
    ensures Names(acts) == [acts[0].name] + Names(acts[1..])
  {
  }

  predicate DistinctNames(acts: seq<ActivityRow>)
  {
    forall k, l :: 0 <= k < l < |acts| ==> acts[k].name != acts[l].name
  }

  // ---------------------------------------------------------------------
  // The loops of the loader
  // ---------------------------------------------------------------------

  /**
    The innermost loop: every ended-and-altered task of one activity goes
    to `addTaskToActivity` with the default (merging) policy.
   */
  function AddActivityTasks(c: CategoryData, activityName: string, tasks: seq<TaskRow>): (r: CategoryData)
    requires activityName in Keys(c.activities)
    ensures r.title == c.title && r.tasks == c.tasks
    ensures Keys(r.activities) == Keys(c.activities)
    ensures Get(r.activities, activityName) == MergeTasks(Get(c.activities, activityName), tasks)
    ensures forall a :: a != activityName && a in Keys(c.activities) ==> Get(r.activities, a) == Get(c.activities, a)
    ensures TotalElapsed(r) == TotalElapsed(c) + SumElapsed(tasks)
    ensures WellFormed(c) ==> WellFormed(r)
    decreases |tasks|
  {
    if |tasks| == 0 then c
    else
      var c1 := AddTaskToActivity(c, activityName, tasks[0].content, tasks[0].elapsed, true);
      AddActivityTasks(c1, activityName, tasks[1..])
  }

  /**
    The loop over a category's activities: `addActivity(name)` with the
    default policy, then the activity's tasks.
   */
  function LoadActivities(g: Gateways, c: CategoryData, acts: seq<ActivityRow>): (r: CategoryData)
    ensures r.title == c.title && r.tasks == c.tasks
    ensures WellFormed(c) ==> WellFormed(r)
    decreases |acts|
  {
    if |acts| == 0 then c
    else
      LoadActivityRowTotal(g, c, acts[0]);
      LoadActivities(g, LoadActivityRow(g, c, acts[0]), acts[1..])
  }

  lemma LoadActivitiesStep(g: Gateways, c: CategoryData, acts: seq<ActivityRow>)
    requires |acts| > 0
    ensures LoadActivities(g, c, acts) == LoadActivities(g, LoadActivityRow(g, c, acts[0]), acts[1..])
  {
  }

  /** One step of the activity loop: `addActivity(row.name)`, then the row's tasks. */
  function LoadActivityRow(g: Gateways, c: CategoryData, a: ActivityRow): (r: CategoryData)
    ensures r.title == c.title && r.tasks == c.tasks
  {
    var withActivity := AddActivity(c, a.name, true).0;
    AddActivityTasks(withActivity, a.name, g.endedAlteredTasksOfActivity(a.id))
  }

  /** The row's name is a key afterwards, appended at the end unless it was one already. */
  lemma LoadActivityRowKeys(g: Gateways, c: CategoryData, a: ActivityRow)
    ensures Keys(LoadActivityRow(g, c, a).activities) == AddName(Keys(c.activities), a.name)
  {
  }

  /**
    The row's name maps to exactly the merge of the row's own tasks into an
    empty map, whatever it held before; every other activity is unchanged.
   */
  lemma LoadActivityRowTasks(g: Gateways, c: CategoryData, a: ActivityRow)
    ensures var r := LoadActivityRow(g, c, a);
            && a.name in Keys(r.activities)
            && Get(r.activities, a.name) == MergeTasks([], g.endedAlteredTasksOfActivity(a.id))
            && forall n :: n != a.name && n in Keys(c.activities) ==>
                 n in Keys(r.activities) && Get(r.activities, n) == Get(c.activities, n)
  {
    GetSetOthers(c.activities, a.name, []);
  }

  /**
    The total loses whatever the row's name held before and gains the
    row's tasks; keys stay unique.
   */
  lemma LoadActivityRowTotal(g: Gateways, c: CategoryData, a: ActivityRow)
    ensures var r := LoadActivityRow(g, c, a);
            && TotalElapsed(r) ==
                 TotalElapsed(c) - TotalElapsedOfActivity(c, a.name) + SumElapsed(g.endedAlteredTasksOfActivity(a.id))
            && (WellFormed(c) ==> WellFormed(r))
  {
  }

  /** The activity loop, seen on keys alone: each row adds its name unless present. */
  lemma {:induction false} LoadActivitiesKeys(g: Gateways, c: CategoryData, acts: seq<ActivityRow>)
    ensures Keys(LoadActivities(g, c, acts).activities) == LoadedKeys(Keys(c.activities), Names(acts))
    decreases |acts|
  {
    if |acts| > 0 {
      LoadActivitiesStep(g, c, acts);
      LoadActivityRowKeys(g, c, acts[0]);
      NamesTail(acts);
      LoadActivitiesKeys(g, LoadActivityRow(g, c, acts[0]), acts[1..]);
    }
  }

  /** No activity is ever removed by the loop. */
  lemma LoadActivitiesKeepsKeys(g: Gateways, c: CategoryData, acts: seq<ActivityRow>, n: string)
    requires n in Keys(c.activities)
    ensures n in Keys(LoadActivities(g, c, acts).activities)
  {
    LoadActivitiesKeys(g, c, acts);
    LoadedKeysKeeps(Keys(c.activities), Names(acts), n);
  }

  /** Every activity row's name is a key afterwards. */
  lemma RowNamesAreKeys(g: Gateways, c: CategoryData, acts: seq<ActivityRow>, k: nat)
    requires k < |acts|
    ensures acts[k].name in Keys(LoadActivities(g, c, acts).activities)
  {
    LoadActivitiesKeys(g, c, acts);
    LoadedKeysHasNames(Keys(c.activities), Names(acts), k);
  }

  /** No key appears that was neither there before nor named by a row. */
  lemma NoOtherKeys(g: Gateways, c: CategoryData, acts: seq<ActivityRow>, n: string)
    requires n in Keys(LoadActivities(g, c, acts).activities)
    ensures n in Keys(c.activities) || n in Names(acts)
  {
    LoadActivitiesKeys(g, c, acts);
    LoadedKeysOnly(Keys(c.activities), Names(acts), n);
  }

  /** An activity that no row names keeps its tasks. */
  lemma {:induction false} UnnamedActivityUntouched(g: Gateways, c: CategoryData, acts: seq<ActivityRow>, n: string)
    requires n in Keys(c.activities) && n !in Names(acts)
    ensures n in Keys(LoadActivities(g, c, acts).activities)
    ensures Get(LoadActivities(g, c, acts).activities, n) == Get(c.activities, n)
    decreases |acts|
  {
    if |acts| > 0 {
      NamesTail(acts);
      LoadActivityRowTasks(g, c, acts[0]);
      UnnamedActivityUntouched(g, LoadActivityRow(g, c, acts[0]), acts[1..], n);
    }
  }

  /**
    The loop over a category's direct tasks: every altered, not ended task
    goes to `addTaskToCategory` with the default (merging) policy.
   */
  function AddDirectTasks(c: CategoryData, tasks: seq<TaskRow>): (r: CategoryData)
    ensures r.title == c.title && r.activities == c.activities
    ensures r.tasks == MergeTasks(c.tasks, tasks)
    ensures TotalElapsed(r) == TotalElapsed(c) + SumElapsed(tasks)
    ensures WellFormed(c) ==> WellFormed(r)
    decreases |tasks|
  {
    if |tasks| == 0 then c
    else AddDirectTasks(AddTaskToCategory(c, tasks[0].content, tasks[0].elapsed, true), tasks[1..])
  }

  /**
    The body of the loop over categories: a new `CategoryData` titled
    after the row, its activities, and only then its direct tasks.
   */
  function LoadCategoryData(g: Gateways, row: CategoryRow): (r: CategoryData)
    ensures r.title == row.title && WellFormed(r)
    ensures r.tasks == MergeTasks([], g.alteredNotEndedTasksOfCategory(row.id))
    ensures r.activities == LoadActivities(g, NewCategory(row.title), g.activitiesByCategory(row.id)).activities
    ensures forall n :: n in Keys(r.activities) <==> n in Names(g.activitiesByCategory(row.id))
  {
    var withActivities := LoadActivities(g, NewCategory(row.title), g.activitiesByCategory(row.id));
    var acts := g.activitiesByCategory(row.id);
    forall n | n in Names(acts)
      ensures n in Keys(withActivities.activities)
    {
      var k :| 0 <= k < |acts| && Names(acts)[k] == n;
      RowNamesAreKeys(g, NewCategory(row.title), acts, k);
    }
    forall n | n in Keys(withActivities.activities)
      ensures n in Names(acts)
    {
      NoOtherKeys(g, NewCategory(row.title), acts, n);
    }
    AddDirectTasks(withActivities, g.alteredNotEndedTasksOfCategory(row.id))
  }

  /** `CategoryData` of every row, in row order: the loop over categories. */
  function LoadAll(g: Gateways, rows: seq<CategoryRow>): seq<CategoryData>
  {
    seq(|rows|, i requires 0 <= i < |rows| => LoadCategoryData(g, rows[i]))
  }

  /** `TimeLoggerLoad.loadCategories(userId)`; `None` stands for `null`. */
  function LoadCategories(g: Gateways, userId: string): (r: Option<seq<CategoryData>>)
    ensures r.None? <==> |g.categoriesByUser(userId)| == 0
    ensures r.Some? ==>
              && |r.value| == |g.categoriesByUser(userId)|
              && forall i :: 0 <= i < |r.value| ==>
                   && r.value[i] == LoadCategoryData(g, g.categoriesByUser(userId)[i])
                   && r.value[i].title == g.categoriesByUser(userId)[i].title
                   && WellFormed(r.value[i])
  {
    var categories := g.categoriesByUser(userId);
    if |categories| == 0 then None else Some(LoadAll(g, categories))
  }

  /** `TimeLoggerLoad.loadCategory(userId, categoryName)`; `None` stands for `null`. */
  function LoadCategory(g: Gateways, userId: string, categoryName: string): (r: Option<CategoryData>)
    ensures r.None? <==> g.categoryByTitleAndUser(categoryName, userId).None?
    ensures r.Some? ==> r.value.title == g.categoryByTitleAndUser(categoryName, userId).value.title
    ensures r.Some? ==> r.value == LoadCategoryData(g, g.categoryByTitleAndUser(categoryName, userId).value)
  {
    match g.categoryByTitleAndUser(categoryName, userId)
    case None => None
    case Some(category) => Some(LoadCategoryData(g, category))
  }

  // ---------------------------------------------------------------------
  // Properties of the loader
  // ---------------------------------------------------------------------

  /**
    When several activity rows share a name, the `addActivity` call of
    each one wipes the tasks merged before: only the tasks of the last
    such row survive.
   */
  lemma {:induction false} LastActivityRowWins(g: Gateways, c: CategoryData, acts: seq<ActivityRow>, k: nat)
    requires k < |acts|
    requires forall l :: k < l < |acts| ==> acts[l].name != acts[k].name
    ensures acts[k].name in Keys(LoadActivities(g, c, acts).activities)
    ensures Get(LoadActivities(g, c, acts).activities, acts[k].name)
            == MergeTasks([], g.endedAlteredTasksOfActivity(acts[k].id))
    decreases |acts|
  {
    if k == 0 {
      assert acts[0].name !in Names(acts[1..]) by {
        forall l | 0 <= l < |acts| - 1
          ensures Names(acts[1..])[l] != acts[0].name
        {
          assert Names(acts[1..])[l] == acts[l + 1].name;
        }
      }
      var c1 := LoadActivityRow(g, c, acts[0]);
      LoadActivitiesStep(g, c, acts);
      LoadActivityRowTasks(g, c, acts[0]);
      UnnamedActivityUntouched(g, c1, acts[1..], acts[0].name);
    } else {
      assert acts[1..][k - 1] == acts[k];
      var c1 := LoadActivityRow(g, c, acts[0]);
      LoadActivitiesStep(g, c, acts);
      LastActivityRowWins(g, c1, acts[1..], k - 1);
    }
  }

  /** With distinct names every activity holds exactly the merged tasks of its own row. */
  lemma ActivityHoldsItsTasks(g: Gateways, row: CategoryRow, k: nat)
    requires k < |g.activitiesByCategory(row.id)|
    requires DistinctNames(g.activitiesByCategory(row.id))
    ensures var acts := g.activitiesByCategory(row.id);
            var r := LoadCategoryData(g, row);
            && acts[k].name in Keys(r.activities)
            && Get(r.activities, acts[k].name) == MergeTasks([], g.endedAlteredTasksOfActivity(acts[k].id))
  {
    LastActivityRowWins(g, NewCategory(row.title), g.activitiesByCategory(row.id), k);
  }

  /** With distinct fresh names no `addActivity` call wipes anything: all fed time is kept. */
  lemma {:induction false} LoadActivitiesTotal(g: Gateways, c: CategoryData, acts: seq<ActivityRow>)
    requires DistinctNames(acts)
    requires forall k :: 0 <= k < |acts| ==> acts[k].name !in Keys(c.activities)
    ensures TotalElapsed(LoadActivities(g, c, acts)) == TotalElapsed(c) + ActivityFeed(g, acts)
    decreases |acts|
  {
    if |acts| > 0 {
      var rest := acts[1..];
      var keys := Keys(c.activities) + [acts[0].name];
      assert DistinctNames(rest);
      assert forall k :: 0 <= k < |rest| ==> rest[k].name !in keys by {
        forall k | 0 <= k < |rest|
          ensures rest[k].name !in keys
        {
          assert rest[k] == acts[k + 1];
        }
      }
      var c1 := LoadActivityRow(g, c, acts[0]);
      LoadActivityRowKeys(g, c, acts[0]);
      LoadActivityRowTotal(g, c, acts[0]);
      LoadActivitiesStep(g, c, acts);
      LoadActivitiesTotal(g, c1, rest);
    }
  }

  /**
    With distinct activity names, a loaded category's total is the sum of
    every elapsed value fed in by both task queries.
   */
  lemma LoadedTotal(g: Gateways, row: CategoryRow)
    requires DistinctNames(g.activitiesByCategory(row.id))
    ensures TotalElapsed(LoadCategoryData(g, row))
            == ActivityFeed(g, g.activitiesByCategory(row.id))
               + SumElapsed(g.alteredNotEndedTasksOfCategory(row.id))
  {
    var acts := g.activitiesByCategory(row.id);
    LoadActivitiesTotal(g, NewCategory(row.title), acts);
  }

  /**
    `loadCategory` builds exactly the value `loadCategories` builds for
    the same row.
   */
  lemma LoadCategoryAgrees(g: Gateways, userId: string, categoryName: string, i: nat)
    requires i < |g.categoriesByUser(userId)|
    requires g.categoryByTitleAndUser(categoryName, userId) == Some(g.categoriesByUser(userId)[i])
    ensures LoadCategories(g, userId).Some?
    ensures LoadCategory(g, userId, categoryName) == Some(LoadCategories(g, userId).value[i])
  {
  }
}
