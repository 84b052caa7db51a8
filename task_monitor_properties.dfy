/** Properties of the task-completion state machine. */
module TaskMonitorProperties {
  import opened Wrappers
  import opened TaskMonitor

  /** Processing a concatenation is processing the first part, then, unless
      an error was raised, the second part from the state the first left. */
  lemma {:induction false} ProcessBatchAppend(r: seq<TaskId>, a: seq<Change>, b: seq<Change>)
    ensures ProcessBatch(r, a + b) ==
              match ProcessBatch(r, a)
              case Raise(t) => Raise(t)
              case Continue(r') => ProcessBatch(r', b)
    decreases |a|
  {
    if a == [] {
      assert a + b == b;
    } else {
      assert (a + b)[0] == a[0];
      assert (a + b)[1..] == a[1..] + b;
      match Step(r, a[0])
      case Raise(t) =>
      case Continue(r1) =>
        ProcessBatchAppend(r1, a[1..], b);
    }
  }

  /** One change: the list only shrinks, and only through a success change
      for the task; an error is raised only for a tracked task. */
  lemma StepShrinks(r: seq<TaskId>, c: Change)
    ensures match Step(r, c)
            case Continue(r1) =>
              && multiset(r1) <= multiset(r)
              && forall t :: multiset(r1)[t] < multiset(r)[t] ==> IsSuccessFor(c, t)
            case Raise(t) => t in r && IsErrorFor(c, t)
  {
  }

  lemma {:induction false} HasChangeUncons(cs: seq<Change>)
    requires cs != []
    ensures forall t :: HasSuccess(cs, t) <==> IsSuccessFor(cs[0], t) || HasSuccess(cs[1..], t)
    ensures forall t :: HasError(cs, t) <==> IsErrorFor(cs[0], t) || HasError(cs[1..], t)
  {
    forall t ensures HasSuccess(cs, t) <==> IsSuccessFor(cs[0], t) || HasSuccess(cs[1..], t) {
      if HasSuccess(cs, t) && !IsSuccessFor(cs[0], t) {
        var j :| 0 <= j < |cs| && IsSuccessFor(cs[j], t);
        assert j > 0 && cs[1..][j - 1] == cs[j];
      }
      if HasSuccess(cs[1..], t) {
        var j :| 0 <= j < |cs[1..]| && IsSuccessFor(cs[1..][j], t);
        assert cs[j + 1] == cs[1..][j];
      }
    }
    forall t ensures HasError(cs, t) <==> IsErrorFor(cs[0], t) || HasError(cs[1..], t) {
      if HasError(cs, t) && !IsErrorFor(cs[0], t) {
        var j :| 0 <= j < |cs| && IsErrorFor(cs[j], t);
        assert j > 0 && cs[1..][j - 1] == cs[j];
      }
      if HasError(cs[1..], t) {
        var j :| 0 <= j < |cs[1..]| && IsErrorFor(cs[1..][j], t);
        assert cs[j + 1] == cs[1..][j];
      }
    }
  }

  /** The tracked list only shrinks, and a task leaves it only on a success
      change for it; a raised error belongs to a tracked task and comes from
      an error change for it. */
  lemma {:induction false} ProcessBatchShrinks(r: seq<TaskId>, cs: seq<Change>)
    ensures match ProcessBatch(r, cs)
            case Continue(r') =>
              && multiset(r') <= multiset(r)
              && forall t :: multiset(r')[t] < multiset(r)[t] ==> HasSuccess(cs, t)
            case Raise(t) => t in r && HasError(cs, t)
    decreases |cs|
  {
    if cs != [] {
      HasChangeUncons(cs);
      StepShrinks(r, cs[0]);
      match Step(r, cs[0])
      case Raise(t) =>
      case Continue(r1) =>
        ProcessBatchShrinks(r1, cs[1..]);
        match ProcessBatch(r1, cs[1..])
        case Raise(t) =>
          assert multiset(r1)[t] > 0;
        case Continue(r') =>
    }
  }

  /** Changes reporting only Queued or Running (or skipped changes) leave the
      tracked list exactly as it was. */
  lemma {:induction false} NonTerminalChangesKeepList(r: seq<TaskId>, cs: seq<Change>)
    requires forall j :: 0 <= j < |cs| ==> ReportedState(cs[j]) != Some(Success) && ReportedState(cs[j]) != Some(Error)
    ensures ProcessBatch(r, cs) == Continue(r)
    decreases |cs|
  {
    if cs != [] {
      assert Step(r, cs[0]) == Continue(r);
      NonTerminalChangesKeepList(r, cs[1..]);
    }
  }

  /** An error change for a task still tracked ends the batch at once with
      that task's fault, whatever follows it. */
  lemma ErrorRaisesAtOnce(r: seq<TaskId>, a: seq<Change>, c: Change, b: seq<Change>)
    requires ProcessBatch(r, a).Continue?
    requires c.task in ProcessBatch(r, a).remaining && ReportedState(c) == Some(Error)
    ensures ProcessBatch(r, a + [c] + b) == Raise(c.task)
  {
    assert a + [c] + b == a + ([c] + b);
    ProcessBatchAppend(r, a, [c] + b);
    assert ([c] + b)[0] == c;
  }

  /** A skipped change, or a change for a task that is not (or no longer)
      tracked, such as a repeated success or a late error, changes nothing. */
  lemma IgnoredChangeIsNoOp(r: seq<TaskId>, a: seq<Change>, c: Change, b: seq<Change>)
    requires ProcessBatch(r, a).Continue?
    requires ReportedState(c).None? || c.task !in ProcessBatch(r, a).remaining
    ensures ProcessBatch(r, a + [c] + b) == ProcessBatch(r, a + b)
  {
    assert a + [c] + b == a + ([c] + b);
    ProcessBatchAppend(r, a, [c] + b);
    ProcessBatchAppend(r, a, b);
    assert ([c] + b)[0] == c;
    assert ([c] + b)[1..] == b;
  }

  /** A finished wait: `Done` only once every tracked task got a success
      change, `Failed(t)` only for a tracked task that got an error change. */
  lemma {:induction false} WaitOutcomeJustified(tasks: seq<TaskId>, feed: seq<Update>)
    ensures Wait(tasks, feed) == Done ==> forall t :: t in tasks ==> FeedHasSuccess(feed, t)
    ensures Wait(tasks, feed).Failed? ==> Wait(tasks, feed).task in tasks && FeedHasError(feed, Wait(tasks, feed).task)
    decreases |feed|
  {
    if tasks != [] && feed != [] {
      var cs := feed[0].changes;
      ProcessBatchShrinks(tasks, cs);
      match ProcessBatch(tasks, cs)
      case Raise(t) =>
        assert HasError(feed[0].changes, t);
      case Continue(r') =>
        WaitOutcomeJustified(r', feed[1..]);
        if Wait(tasks, feed) == Done {
          forall t | t in tasks ensures FeedHasSuccess(feed, t) {
            if t in r' {
              var k :| 0 <= k < |feed[1..]| && HasSuccess(feed[1..][k].changes, t);
              assert feed[1..][k] == feed[k + 1];
            } else {
              assert multiset(r')[t] < multiset(tasks)[t];
              assert HasSuccess(feed[0].changes, t);
            }
          }
        }
        if Wait(tasks, feed).Failed? {
          var t := Wait(tasks, feed).task;
          assert multiset(r')[t] > 0;
          var k :| 0 <= k < |feed[1..]| && HasError(feed[1..][k].changes, t);
          assert feed[1..][k] == feed[k + 1];
        }
    }
  }

  /** One change without an error for a tracked task removes exactly the
      task it reports a success for. */
  lemma StepWithoutError(r: seq<TaskId>, c: Change)
    requires Distinct(r)
    requires c.task in r ==> ReportedState(c) != Some(Error)
    ensures Step(r, c).Continue?
    ensures Distinct(Step(r, c).remaining)
    ensures forall t :: t in Step(r, c).remaining <==> t in r && !IsSuccessFor(c, t)
  {
    if ReportedState(c) == Some(Success) && c.task in r {
      RemoveFirstDistinct(r, c.task);
    }
  }

  /** Removing a task from a list without repetitions removes it entirely. */
  lemma RemoveFirstDistinct(s: seq<TaskId>, x: TaskId)
    requires Distinct(s)
    ensures Distinct(RemoveFirst(s, x))
    ensures forall t :: t in RemoveFirst(s, x) <==> t in s && t != x
  {
    var r := RemoveFirst(s, x);
    forall t ensures multiset(r)[t] <= 1 && (t in r <==> t in s && t != x) {
      assert multiset(r)[t] == if t == x then 0 else multiset(s)[t];
    }
  }

  /** One update without errors for tracked tasks removes exactly the tasks
      that got a success change in it. */
  lemma {:induction false} ProcessBatchWithoutErrors(r: seq<TaskId>, cs: seq<Change>)
    requires Distinct(r)
    requires forall j :: 0 <= j < |cs| && cs[j].task in r ==> ReportedState(cs[j]) != Some(Error)
    ensures ProcessBatch(r, cs).Continue?
    ensures Distinct(ProcessBatch(r, cs).remaining)
    ensures forall t :: t in ProcessBatch(r, cs).remaining <==> t in r && !HasSuccess(cs, t)
    decreases |cs|
  {
    if cs == [] {
    } else {
      var c := cs[0];
      StepWithoutError(r, c);
      var r1 := Step(r, c).remaining;
      forall j | 0 <= j < |cs[1..]| && cs[1..][j].task in r1 ensures ReportedState(cs[1..][j]) != Some(Error) {
        assert cs[1..][j] == cs[j + 1];
      }
      ProcessBatchWithoutErrors(r1, cs[1..]);
      HasChangeUncons(cs);
    }
  }

  lemma {:induction false} FirstTerminalIsSuccessUncons(cs: seq<Change>, t: TaskId)
    requires cs != []
    ensures FirstTerminalIsSuccess(cs, t) <==>
              IsSuccessFor(cs[0], t) || (!IsErrorFor(cs[0], t) && FirstTerminalIsSuccess(cs[1..], t))
  {
    if FirstTerminalIsSuccess(cs, t) && !IsSuccessFor(cs[0], t) {
      var p :| 0 <= p < |cs| && IsSuccessFor(cs[p], t) && forall q :: 0 <= q < p ==> !IsErrorFor(cs[q], t);
      assert p > 0 && !IsErrorFor(cs[0], t);
      assert IsSuccessFor(cs[1..][p - 1], t);
      assert forall q :: 0 <= q < p - 1 ==> cs[1..][q] == cs[q + 1];
    }
    if IsSuccessFor(cs[0], t) {
    } else if !IsErrorFor(cs[0], t) && FirstTerminalIsSuccess(cs[1..], t) {
      var p :| 0 <= p < |cs[1..]| && IsSuccessFor(cs[1..][p], t) && forall q :: 0 <= q < p ==> !IsErrorFor(cs[1..][q], t);
      assert IsSuccessFor(cs[p + 1], t);
      forall q | 0 <= q < p + 1 ensures !IsErrorFor(cs[q], t) {
        if q > 0 { assert cs[q] == cs[1..][q - 1]; }
      }
    }
  }

  lemma {:induction false} FirstTerminalIsSuccessAppend(a: seq<Change>, b: seq<Change>, t: TaskId)
    requires FirstTerminalIsSuccess(a, t) || (!HasError(a, t) && FirstTerminalIsSuccess(b, t))
    ensures FirstTerminalIsSuccess(a + b, t)
  {
    if FirstTerminalIsSuccess(a, t) {
      var p :| 0 <= p < |a| && IsSuccessFor(a[p], t) && forall q :: 0 <= q < p ==> !IsErrorFor(a[q], t);
      assert (a + b)[p] == a[p];
      assert forall q :: 0 <= q < p ==> (a + b)[q] == a[q];
    } else {
      var p :| 0 <= p < |b| && IsSuccessFor(b[p], t) && forall q :: 0 <= q < p ==> !IsErrorFor(b[q], t);
      assert (a + b)[|a| + p] == b[p];
      forall q | 0 <= q < |a| + p ensures !IsErrorFor((a + b)[q], t) {
        if q < |a| {
          assert (a + b)[q] == a[q];
        } else {
          assert (a + b)[q] == b[q - |a|];
        }
      }
    }
  }

  /** Through one update, a task that stays tracked got no error change, and
      a task that leaves the list got a success change before any error
      change for it. */
  lemma {:induction false} ProcessBatchFirstTerminal(r: seq<TaskId>, cs: seq<Change>)
    requires ProcessBatch(r, cs).Continue?
    ensures forall t :: t in ProcessBatch(r, cs).remaining ==> !HasError(cs, t)
    ensures forall t :: t in r && t !in ProcessBatch(r, cs).remaining ==> FirstTerminalIsSuccess(cs, t)
    decreases |cs|
  {
    if cs != [] {
      var c := cs[0];
      StepShrinks(r, c);
      HasChangeUncons(cs);
      var r1 := Step(r, c).remaining;
      ProcessBatchFirstTerminal(r1, cs[1..]);
      var r' := ProcessBatch(r, cs).remaining;
      ProcessBatchShrinks(r1, cs[1..]);
      forall t | t in r' ensures !HasError(cs, t) {
        assert multiset(r')[t] > 0 && multiset(r1)[t] > 0;
      }
      forall t | t in r && t !in r' ensures FirstTerminalIsSuccess(cs, t) {
        FirstTerminalIsSuccessUncons(cs, t);
        if t !in r1 {
          assert multiset(r1)[t] < multiset(r)[t];
        }
      }
    }
  }

  /** `Done` means that, for every tracked task, the first terminal change in
      the delivered order is a success. */
  lemma {:induction false} WaitDoneOnlyWhenFirstTerminalIsSuccess(tasks: seq<TaskId>, feed: seq<Update>)
    requires Wait(tasks, feed) == Done
    ensures forall t :: t in tasks ==> FirstTerminalIsSuccess(Changes(feed), t)
    decreases |feed|
  {
    if tasks != [] {
      var cs := feed[0].changes;
      ProcessBatchFirstTerminal(tasks, cs);
      var r' := ProcessBatch(tasks, cs).remaining;
      WaitDoneOnlyWhenFirstTerminalIsSuccess(r', feed[1..]);
      forall t | t in tasks ensures FirstTerminalIsSuccess(Changes(feed), t) {
        FirstTerminalIsSuccessAppend(cs, Changes(feed[1..]), t);
      }
    }
  }

  lemma NothingDeliveredNoSuccess(t: TaskId)
    ensures !FirstTerminalIsSuccess([], t)
  {
  }

  /** One update, when each tracked task (no task listed twice) gets a
      success change before any error change for it, leaves nothing tracked. */
  lemma {:induction false} ProcessBatchClearsList(r: seq<TaskId>, cs: seq<Change>)
    requires Distinct(r)
    requires forall t :: t in r ==> FirstTerminalIsSuccess(cs, t)
    ensures ProcessBatch(r, cs) == Continue([])
    decreases |cs|
  {
    if cs == [] {
      if r != [] {
        NothingDeliveredNoSuccess(r[0]);
        assert false;
      }
    } else {
      var c := cs[0];
      forall t | t in r ensures IsSuccessFor(c, t) || (!IsErrorFor(c, t) && FirstTerminalIsSuccess(cs[1..], t)) {
        FirstTerminalIsSuccessUncons(cs, t);
      }
      var r1 := Step(r, c).remaining;
      if ReportedState(c) == Some(Success) && c.task in r {
        RemoveFirstDistinct(r, c.task);
      } else {
        assert Step(r, c) == Continue(r);
      }
      forall t | t in r1 ensures FirstTerminalIsSuccess(cs[1..], t) {
        FirstTerminalIsSuccessUncons(cs, t);
      }
      ProcessBatchClearsList(r1, cs[1..]);
    }
  }

  /** Once the whole delivered sequence empties the list, the wait returns. */
  lemma {:induction false} WaitDoneWhenChangesClearList(r: seq<TaskId>, feed: seq<Update>)
    requires ProcessBatch(r, Changes(feed)) == Continue([])
    ensures Wait(r, feed) == Done
    decreases |feed|
  {
    if r != [] && feed != [] {
      ProcessBatchAppend(r, feed[0].changes, Changes(feed[1..]));
      match ProcessBatch(r, feed[0].changes)
      case Raise(_) =>
      case Continue(r1) =>
        WaitDoneWhenChangesClearList(r1, feed[1..]);
    }
  }

  /** The converse of WaitDoneOnlyWhenFirstTerminalIsSuccess: when no task is
      tracked twice and, for each task, the first terminal change delivered
      is a success, the wait returns normally, whatever errors come later. */
  lemma WaitDoneWhenFirstTerminalIsSuccess(tasks: seq<TaskId>, feed: seq<Update>)
    requires Distinct(tasks)
    requires forall t :: t in tasks ==> FirstTerminalIsSuccess(Changes(feed), t)
    ensures Wait(tasks, feed) == Done
  {
    ProcessBatchClearsList(tasks, Changes(feed));
    WaitDoneWhenChangesClearList(tasks, feed);
  }

  /** The feed where the success arrives before a late error for the same
      task, within one update: the error is skipped. */
  lemma LateErrorAfterSuccessIsSkipped()
    ensures Wait(["t"], [Update("1", [Change("t", "info.state", Success), Change("t", "info", Error)])]) == Done
  {
    var feed := [Update("1", [Change("t", "info.state", Success), Change("t", "info", Error)])];
    assert Changes(feed[1..]) == [];
    assert Changes(feed)[0] == Change("t", "info.state", Success);
    assert IsSuccessFor(Changes(feed)[0], "t");
    assert Distinct(["t"]) by {
      forall t ensures multiset(["t"])[t] <= 1 {
        assert multiset(["t"]) == multiset{"t"};
      }
    }
    WaitDoneWhenFirstTerminalIsSuccess(["t"], feed);
  }

  /** Once the wait is decided, later updates are never requested or read. */
  lemma {:induction false} WaitIgnoresLaterUpdates(r: seq<TaskId>, feed: seq<Update>, more: seq<Update>)
    requires !Wait(r, feed).StillWaiting?
    ensures Wait(r, feed + more) == Wait(r, feed)
    ensures Calls(r, feed + more) == Calls(r, feed)
    decreases |feed|
  {
    if r != [] {
      assert (feed + more)[0] == feed[0];
      assert (feed + more)[1..] == feed[1..] + more;
      match ProcessBatch(r, feed[0].changes)
      case Raise(_) =>
      case Continue(r') =>
        WaitIgnoresLaterUpdates(r', feed[1..], more);
    }
  }

  /** The wait reads exactly the updates it needs: a finished wait makes at
      most one call per update, the prefix it read already decides it, and
      every shorter prefix leaves it blocked. A blocked wait makes one call
      more than there are updates. */
  lemma {:induction false} WaitReadsMinimalPrefix(r: seq<TaskId>, feed: seq<Update>)
    ensures Wait(r, feed).StillWaiting? <==> Calls(r, feed) == |feed| + 1
    ensures !Wait(r, feed).StillWaiting? ==>
              && Calls(r, feed) <= |feed|
              && Wait(r, feed[..Calls(r, feed)]) == Wait(r, feed)
              && forall n :: 0 <= n < Calls(r, feed) ==> Wait(r, feed[..n]).StillWaiting?
    decreases |feed|
  {
    if r != [] && feed != [] {
      var n0 := Calls(r, feed);
      assert Wait(r, feed[..0]).StillWaiting?;
      match ProcessBatch(r, feed[0].changes)
      case Raise(_) =>
        assert feed[..1][0] == feed[0];
      case Continue(r') =>
        WaitReadsMinimalPrefix(r', feed[1..]);
        if !Wait(r, feed).StillWaiting? {
          assert feed[..n0][0] == feed[0];
          assert feed[..n0][1..] == feed[1..][..n0 - 1];
          forall n | 1 <= n < n0 ensures Wait(r, feed[..n]).StillWaiting? {
            assert feed[..n][0] == feed[0];
            assert feed[..n][1..] == feed[1..][..n - 1];
          }
        }
    }
  }

  /** The changes that can matter: of a tracked task and of a property
      the loop reads. */
  function Tracked(cs: seq<Change>, tasks: seq<TaskId>): (kept: seq<Change>)
    decreases |cs|
  {
    if cs == [] then []
    else if ReportedState(cs[0]).Some? && cs[0].task in tasks then [cs[0]] + Tracked(cs[1..], tasks)
    else Tracked(cs[1..], tasks)
  }

  function TrackedFeed(feed: seq<Update>, tasks: seq<TaskId>): (kept: seq<Update>)
    decreases |feed|
  {
    if feed == [] then []
    else [Update(feed[0].version, Tracked(feed[0].changes, tasks))] + TrackedFeed(feed[1..], tasks)
  }

  lemma {:induction false} ProcessBatchIgnoresUntracked(r: seq<TaskId>, cs: seq<Change>, tasks: seq<TaskId>)
    requires forall t :: t in r ==> t in tasks
    ensures ProcessBatch(r, cs) == ProcessBatch(r, Tracked(cs, tasks))
    decreases |cs|
  {
    if cs != [] {
      var c := cs[0];
      match Step(r, c)
      case Raise(t) =>
      case Continue(r1) =>
        assert multiset(r1) <= multiset(r);
        assert forall t :: t in r1 ==> t in tasks by {
          forall t | t in r1 ensures t in tasks {
            assert multiset(r1)[t] > 0;
          }
        }
        ProcessBatchIgnoresUntracked(r1, cs[1..], tasks);
        if ReportedState(c).Some? && c.task in tasks {
          var f := [c] + Tracked(cs[1..], tasks);
          assert f[0] == c && f[1..] == Tracked(cs[1..], tasks);
        } else {
          assert r1 == r;
        }
    }
  }

  /** Changes for tasks outside the tracked set, and changes of other
      properties, never alter the outcome or the number of calls. */
  lemma {:induction false} WaitIgnoresUntracked(r: seq<TaskId>, feed: seq<Update>, tasks: seq<TaskId>)
    requires forall t :: t in r ==> t in tasks
    ensures Wait(r, feed) == Wait(r, TrackedFeed(feed, tasks))
    ensures Calls(r, feed) == Calls(r, TrackedFeed(feed, tasks))
    decreases |feed|
  {
    if r != [] && feed != [] {
      var g := TrackedFeed(feed, tasks);
      assert g[0].changes == Tracked(feed[0].changes, tasks);
      assert g[1..] == TrackedFeed(feed[1..], tasks);
      ProcessBatchIgnoresUntracked(r, feed[0].changes, tasks);
      ProcessBatchShrinks(r, feed[0].changes);
      match ProcessBatch(r, feed[0].changes)
      case Raise(_) =>
      case Continue(r') =>
        assert forall t :: t in r' ==> t in tasks by {
          forall t | t in r' ensures t in tasks {
            assert multiset(r')[t] > 0;
          }
        }
        WaitIgnoresUntracked(r', feed[1..], tasks);
    }
  }
}
