/**
 * The task-completion state machine of `wait_for_tasks`.
 *
 * The remote property collector is replaced by plain data: the feed is the
 * finite sequence of updates that successive `WaitForUpdates` calls return.
 * Each update carries the version to pass to the next call and the property
 * changes of its filter sets, object sets and change sets, flattened in
 * delivery order. A feed that runs out while tasks are still tracked stands
 * for the call that blocks for ever.
 */
module TaskMonitor {
  import opened Wrappers

  type TaskId = string
  type Version = string

  /** The values of `vim.TaskInfo.State`. */
  datatype TaskState = Queued | Running | Success | Error

  /** One property change reported for one task object. For the property
      `info` the state is the one inside the `TaskInfo` snapshot; for
      `info.state` it is the value itself. */
  datatype Change = Change(task: TaskId, name: string, state: TaskState)

  /** One result of `WaitForUpdates`. */
  datatype Update = Update(version: Version, changes: seq<Change>)

  /** How a wait ends: every task succeeded, one task's error was raised, or
      the wait is still blocked when the feed runs out. */
  datatype Outcome = Done | Failed(task: TaskId) | StillWaiting

  /** The state of the wait after some changes: the tasks still tracked, or
      the task whose error was raised. */
  datatype BatchResult = Continue(remaining: seq<TaskId>) | Raise(task: TaskId)

  /** The state a change reports, or None when the change is skipped because
      its property is neither `info` nor `info.state`. */
  function ReportedState(c: Change): (s: Option<TaskState>)
  {
    if c.name == "info" then Some(c.state)
    else if c.name == "info.state" then Some(c.state)
    else None
  }

  predicate IsSuccessFor(c: Change, t: TaskId)
  {
    c.task == t && ReportedState(c) == Some(Success)
  }

  predicate IsErrorFor(c: Change, t: TaskId)
  {
    c.task == t && ReportedState(c) == Some(Error)
  }

  ghost predicate HasSuccess(cs: seq<Change>, t: TaskId)
  {
    exists j :: 0 <= j < |cs| && IsSuccessFor(cs[j], t)
  }

  ghost predicate HasError(cs: seq<Change>, t: TaskId)
  {
    exists j :: 0 <= j < |cs| && IsErrorFor(cs[j], t)
  }

  ghost predicate FeedHasSuccess(feed: seq<Update>, t: TaskId)
  {
    exists k :: 0 <= k < |feed| && HasSuccess(feed[k].changes, t)
  }

  ghost predicate FeedHasError(feed: seq<Update>, t: TaskId)
  {
    exists k :: 0 <= k < |feed| && HasError(feed[k].changes, t)
  }

  /** All changes of a feed in delivery order, across updates. */
  function Changes(feed: seq<Update>): (cs: seq<Change>)
    decreases |feed|
  {
    if feed == [] then [] else feed[0].changes + Changes(feed[1..])
  }

  /** Among the changes for `t` that report Success or Error, the first one
      reports Success. */
  ghost predicate FirstTerminalIsSuccess(cs: seq<Change>, t: TaskId)
  {
    exists p :: 0 <= p < |cs| && IsSuccessFor(cs[p], t) && forall q :: 0 <= q < p ==> !IsErrorFor(cs[q], t)
  }

  /** No task is listed twice. */
  ghost predicate Distinct(s: seq<TaskId>)
  {
    forall t :: multiset(s)[t] <= 1
  }

  /** Python's `list.remove` when the element is present: drops its first
      occurrence. */
  function RemoveFirst(s: seq<TaskId>, x: TaskId): (r: seq<TaskId>)
    ensures multiset(r) == multiset(s) - multiset{x}
  {
    if s == [] then []
    else if s[0] == x then
      assert s == [s[0]] + s[1..];
      s[1..]
    else
      assert s == [s[0]] + s[1..];
      [s[0]] + RemoveFirst(s[1..], x)
  }

  /** The body of the innermost loop, for one change. */
  function Step(remaining: seq<TaskId>, c: Change): (r: BatchResult)
  {
    match ReportedState(c)
    case None => Continue(remaining)
    case Some(s) =>
      if c.task !in remaining then Continue(remaining)
      else if s == Success then Continue(RemoveFirst(remaining, c.task))
      else if s == Error then Raise(c.task)
      else Continue(remaining)
  }

  /** All changes of one update, in order; a raised error skips the rest. */
  function ProcessBatch(remaining: seq<TaskId>, cs: seq<Change>): (r: BatchResult)
    decreases |cs|
  {
    if cs == [] then Continue(remaining)
    else
      match Step(remaining, cs[0])
      case Raise(t) => Raise(t)
      case Continue(r) => ProcessBatch(r, cs[1..])
  }

  /** The outcome of the receive loop on a feed. */
  function Wait(remaining: seq<TaskId>, feed: seq<Update>): (o: Outcome)
    decreases |feed|
  {
    if remaining == [] then Done
    else if feed == [] then StillWaiting
    else
      match ProcessBatch(remaining, feed[0].changes)
      case Raise(t) => Failed(t)
      case Continue(r) => Wait(r, feed[1..])
  }

  /** The number of `WaitForUpdates` calls the receive loop makes, counting the
      one that blocks when the feed runs out. */
  function Calls(remaining: seq<TaskId>, feed: seq<Update>): (n: nat)
    decreases |feed|
  {
    if remaining == [] then 0
    else if feed == [] then 1
    else
      match ProcessBatch(remaining, feed[0].changes)
      case Raise(_) => 1
      case Continue(r) => 1 + Calls(r, feed[1..])
  }

  /** The version argument of the call numbered k: None for the first call,
      then the version of the update the previous call returned. */
  function VersionSent(feed: seq<Update>, k: nat): (v: Option<Version>)
    requires k <= |feed|
  {
    if k == 0 then None else Some(feed[k - 1].version)
  }

  /**
   * `wait_for_tasks`: creates the filter, runs the receive loop over the feed
   * and destroys the filter on the way out, whether the wait succeeds or
   * raises. `requested` lists the version passed to each `WaitForUpdates`
   * call; the ghost counters count filter creations and destructions.
   */
  method WaitForTasks(tasks: seq<TaskId>, feed: seq<Update>)
    returns (outcome: Outcome, requested: seq<Option<Version>>,
             ghost created: nat, ghost destroyed: nat)
    ensures outcome == Wait(tasks, feed)
    ensures |requested| == Calls(tasks, feed)
    ensures forall k :: 0 <= k < |requested| ==> k <= |feed| && requested[k] == VersionSent(feed, k)
    ensures created == 1
    ensures destroyed == if outcome.StillWaiting? then 0 else 1
  {
    var taskList := tasks;
    created, destroyed := 1, 0;
    var version: Option<Version> := None;
    var state: Option<TaskState> := None;
    var next := 0;
    requested := [];
    while taskList != []
      invariant 0 <= next <= |feed|
      invariant version == VersionSent(feed, next)
      invariant |requested| == next
      invariant forall k :: 0 <= k < next ==> requested[k] == VersionSent(feed, k)
      invariant Wait(tasks, feed) == Wait(taskList, feed[next..])
      invariant Calls(tasks, feed) == next + Calls(taskList, feed[next..])
      invariant created == 1 && destroyed == 0
      decreases |feed| - next
    {
      requested := requested + [version];
      if next == |feed| {
        // WaitForUpdates never returns: neither the loop nor the finally
        // clause is ever left, so the filter stays in place.
        outcome := StillWaiting;
        return;
      }
      var update := feed[next];
      ghost var before := taskList;
      var i := 0;
      while i < |update.changes|
        invariant 0 <= i <= |update.changes|
        invariant ProcessBatch(before, update.changes) == ProcessBatch(taskList, update.changes[i..])
      {
        var change := update.changes[i];
        i := i + 1;
        if change.name == "info" {
          state := Some(change.state);
        } else if change.name == "info.state" {
          state := Some(change.state);
        } else {
          continue;
        }
        if change.task !in taskList {
          continue;
        }
        if state == Some(Success) {
          taskList := RemoveFirst(taskList, change.task);
        } else if state == Some(Error) {
          // raise task.info.error; the finally clause destroys the filter
          destroyed := destroyed + 1;
          outcome := Failed(change.task);
          return;
        }
      }
      assert feed[next..][1..] == feed[next + 1..];
      next := next + 1;
      version := Some(update.version);
    }
    destroyed := destroyed + 1;
    outcome := Done;
  }
}
