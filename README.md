# Network migration of VMs to NSX logical switches — a Dafny model

`migrate.py` reads rows of (VM name, logical-switch name). For each row it
finds the logical switch and the VM by name in the vCenter inventory. It
edits the VM's first network adapter so that its backing is the switch's
opaque NSX network. It submits the edit as a reconfiguration task and waits
for the task through a property-collector filter. This project models that
core, with the remote platform replaced by plain data:

- **TaskMonitor** (`task_monitor.dfy`) is `wait_for_tasks`. The tracked tasks
  are a list (`seq<TaskId>`). The feed of `WaitForUpdates` results is a finite
  `seq<Update>`. Each update holds the version for the next call and its
  property changes `(task, property name, state)`, with the filter sets,
  object sets and change sets flattened in delivery order. `Wait`, `Calls`,
  `ProcessBatch` and `Step` define the receive loop as functions.
  `WaitForTasks` is the loop itself, proved equal to them. Ghost counters
  track filter creation and destruction. When the feed runs out while tasks
  are still tracked, the real call blocks for ever. The model ends with
  `StillWaiting` and does not destroy the filter, because the `finally`
  clause is never reached.
- **TaskMonitorProperties** (`task_monitor_properties.dfy`) holds lemmas about
  the state machine.
- **Inventory** (`inventory.dfy`) holds networks, VMs and their devices as
  values. A device carries an `isEthernet` tag that stands for the
  `VirtualEthernetCard` type test.
- **ObjectResolver** (`object_resolver.dfy`) is `get_obj`. The recursive
  container view is the inventory's objects of one type, in inventory order.
- **Reconfigure** (`reconfigure.dfy`) is `editVM`. It covers the first-adapter
  loop, the fixed field values, submission, the wait, and the return codes.
  **ReconfigureProperties** (`reconfigure_properties.dfy`) holds its lemmas.
- **BatchDriver** (`batch_driver.dfy`) is the row loop of `main`.

Notes on how the code behaves (the model follows the code):

- An unresolved network or VM name does not produce a `NotFound` row result:
  the code has none. `net.summary` or `vm.config` on `None` raises
  `AttributeError`. That is not a `MethodFault`,
  so it escapes `editVM` and ends the whole run. The model calls this
  `Aborted`, and `main` ends `Crashed`.
- A VM without a network adapter still gets a reconfiguration request, with an
  empty device-change list.
- The edit sets the adapter's `key` to 4000. It does not keep the adapter's
  own key.
- The task list is a Python list. `remove` drops one occurrence, so a task
  listed twice needs two success changes. `editVM` always passes a single task.
- A blank CSV row gives an empty field list. `row[0]` then raises
  `IndexError` and ends the run.
- The container view made by `get_obj` is never destroyed.
- The `finally` clause runs only when the loop exits normally or by raising.
  A wait that blocks for ever keeps its filter.

## Model

| member | source | states |
|---|---|---|
| `TaskMonitor.WaitForTasks` | migrate.py:59-96 | The outcome is `Wait(tasks, feed)`. The number of `WaitForUpdates` calls is `Calls(tasks, feed)`. Call k passes None when k = 0, and otherwise the version of update k-1. Exactly one filter is created. It is destroyed exactly once when the wait ends with `Done` or `Failed`, and not at all while it is blocked. |
| `TaskMonitor.RemoveFirst` | migrate.py:90 | `task_list.remove(t)` on a present `t` removes exactly one occurrence of it (multiset difference). Python would raise `ValueError` on an absent `t`, but the membership test at line 86 runs before every removal, so that case never arises. |
| `TaskMonitorProperties.ProcessBatchAppend` | migrate.py:75-92 | Changes are taken in order. Once an error is raised, no later change is looked at. Otherwise the rest start from the list the earlier changes left. |
| `TaskMonitorProperties.ProcessBatchShrinks` | migrate.py:86-92 | The tracked list only shrinks (multiset inclusion). A task loses an occurrence only through a success change for it. A raised fault belongs to a task that was tracked and comes from an error change for that task. |
| `TaskMonitorProperties.NonTerminalChangesKeepList` | migrate.py:89-91 | Changes that report Queued or Running, and skipped properties, leave the tracked list exactly as it was. |
| `TaskMonitorProperties.ErrorRaisesAtOnce` | migrate.py:91-92 | An error change for a task still tracked raises that task's fault at once, whatever changes follow it. |
| `TaskMonitorProperties.IgnoredChangeIsNoOp` | migrate.py:79-87 | A change of a property other than `info` or `info.state` can be removed without effect. So can a change for a task not in the list, including one already removed: a repeated success or a late error changes nothing. |
| `TaskMonitorProperties.WaitOutcomeJustified` | migrate.py:73-92 | `Done` implies every tracked task received a success change. `Failed(t)` implies `t` was tracked and received an error change. |
| `TaskMonitorProperties.ProcessBatchWithoutErrors` | migrate.py:78-91 | With distinct tasks and no error change for a tracked task, one update removes exactly the tasks that have a success change in it. The list stays distinct. |
| `TaskMonitorProperties.ProcessBatchFirstTerminal` | migrate.py:78-92 | Within one update, a task that stays tracked received no error change. A task that leaves the list received a success change before any error change for it. |
| `TaskMonitorProperties.WaitDoneOnlyWhenFirstTerminalIsSuccess` | migrate.py:73-93 | `Done` implies that, for every tracked task, the first Success or Error change delivered for it (across all updates, in order) is a Success. |
| `TaskMonitorProperties.ProcessBatchClearsList` | migrate.py:78-91 | With distinct tasks, if each tracked task gets a success change before any error change for it, processing those changes leaves nothing tracked. |
| `TaskMonitorProperties.WaitDoneWhenChangesClearList` | migrate.py:73-93 | If processing every delivered change in order empties the list, the wait returns normally. Changes after the update that empties the list are not read. |
| `TaskMonitorProperties.WaitDoneWhenFirstTerminalIsSuccess` | migrate.py:73-93 | The converse of `WaitDoneOnlyWhenFirstTerminalIsSuccess`, for distinct tasks. If the first terminal change delivered for each task is a Success, the wait returns normally. Errors for a task after its success are skipped. |
| `TaskMonitorProperties.LateErrorAfterSuccessIsSkipped` | migrate.py:86-90 | Example: a success for `t` followed in the same update by an error for `t` gives `Done`. |
| `TaskMonitorProperties.WaitIgnoresLaterUpdates` | migrate.py:73-93 | Once the wait has finished (`Done` or `Failed`), appending more updates changes neither the outcome nor the number of calls. |
| `TaskMonitorProperties.WaitReadsMinimalPrefix` | migrate.py:73-93 | A blocked wait makes exactly one call more than there are updates. A finished wait makes at most one call per update. The updates it read already decide it, and every shorter prefix leaves it blocked. |
| `TaskMonitorProperties.ProcessBatchIgnoresUntracked` | migrate.py:79-87 | Within one update, dropping skipped properties and changes for tasks outside the tracked set does not change the result. |
| `TaskMonitorProperties.WaitIgnoresUntracked` | migrate.py:79-87 | Over the whole feed, dropping changes for untracked tasks and for other properties changes neither the outcome nor the number of calls. |
| `ObjectResolver.ContainerView` | migrate.py:100 | The view holds exactly the inventory objects of the requested type. |
| `ObjectResolver.FirstNamed` | migrate.py:98-105 | None exactly when no object is named `name`. Otherwise, an object of the view with exactly that name, with no object of that name before it. |
| `ObjectResolver.GetObj` | migrate.py:98-105 | The scan with `break` returns `FirstNamed(view, name)`: the first exact match in view order, or None. |
| `Reconfigure.BuildDeviceChange` | migrate.py:113-131 | The device-change list has at most one entry. It is empty exactly when no device is an Ethernet card. Otherwise its only entry is an `edit` of the first Ethernet card. That card gets wake-on-LAN on, addressType `assigned`, key 4000, an opaque backing of type `nsx.LogicalSwitch` with the network's id, summary `nsx.LogicalSwitch: <id>`, and startConnected, connected and allowGuestControl all true. Every other field is kept. |
| `Reconfigure.EditVM` | migrate.py:107-139 | A request is submitted exactly when both names resolve, and it is the edit described for `BuildDeviceChange`. An unresolved name gives `Aborted`. The code is 0 exactly when the wait ends `Done`. It is -1 exactly when `ReconfigVM_Task` or the wait raises a fault. It is `Blocked` exactly when the wait blocks. One filter is created per submitted task, and it is released unless the call is blocked. |
| `ReconfigureProperties.NicEditUnique` | migrate.py:113-131 | The inputs determine the device-change list. |
| `ReconfigureProperties.EditBehaviourDeterministic` | migrate.py:107-139 | The inventory and the platform's response determine both the outcome of `editVM` and the request it submits. |
| `ReconfigureProperties.SingleAdapterMigrates` | migrate.py:107-139 | Example: a VM named `vm1` whose only device is an adapter, and a switch `ls-blue` with id `opaque-42`. The request is one edit whose backing is `nsx.LogicalSwitch`/`opaque-42`. A success change for the task makes `editVM` return 0. |
| `ReconfigureProperties.MissingVmAborts` | migrate.py:110-114 | A VM name that no virtual machine in the inventory bears (whatever the networks are called) makes `editVM` abort without submitting anything. It does not return -1. |
| `BatchDriver.Migrate` | migrate.py:151-154 | The run calls `editVM` once per row, in order. Every row before the last one attempted returned a code, so a -1 does not stop the run. It completes only after all rows. It hangs exactly when the last call blocked. It crashes exactly when the last call aborted or the next row has fewer than two fields. Exactly one filter is left behind when it hangs, and none otherwise. |

## Left out

- Argument parsing, the password prompt, opening and reading the CSV file, and connecting and disconnecting (migrate.py:11-56, 143-150, 155). These are command-line and network plumbing. Rows enter the model as lists of fields.
- The console messages of `editVM` and the fault's message text (migrate.py:135, 137). They are output only.
- The pyVmomi calls `CreateFilter`, `WaitForUpdates`, `CreateContainerView`, `RetrieveContent` and `ReconfigVM_Task` are not modelled as calls. Their results are inputs instead: the update feed, the inventory, and the per-row `Reconfiguration`. The filter spec construction (migrate.py:61-69) is left out. So is the `if pcfilter` test (migrate.py:95), because in the model the filter always exists.
- Real blocking. A feed that runs out stands for a `WaitForUpdates` call that never returns.
- Faults from the transport, or from `RetrieveContent` and `CreateContainerView`, are not modelled. The only `MethodFault`s modelled are a rejected reconfiguration and a task's reported error.
- The nesting of filter sets, object sets and change sets inside an update. It is flattened into one ordered list of changes, each with its task.
- Aliasing: `nicspec.device` is the VM's own device object, changed in place. The model builds the changed device as a new value.
- Device and network attributes beyond those listed in `Inventory`, and the fields of a fresh `ConnectInfo` it does not set. The model also assumes every network has an opaque network id and every device a `deviceInfo`. The `AttributeError` raised when they are missing is not modelled.
- One inventory snapshot serves every row. The code re-reads the inventory and `vm.config` on each row (migrate.py:110-114), so a VM listed twice would show its earlier edit the second time. The model does not capture changes to the platform's state between rows.
- ObjectResolver.ContainerView: states which objects the view holds, not that it keeps inventory order (which the definition does).
