/**
 * `editVM`: resolve the logical switch and the VM by name, build the edit of
 * the VM's first network adapter, submit it and wait for the task.
 */
module Reconfigure {
  import opened Wrappers
  import opened Inventory
  import opened ObjectResolver
  import opened TaskMonitor

  datatype Operation = Add | Remove | Edit

  datatype DeviceSpec = DeviceSpec(operation: Operation, device: Device)

  datatype ConfigSpec = ConfigSpec(deviceChange: seq<DeviceSpec>)

  /** What `ReconfigVM_Task` does with the request: raise a `MethodFault` at
      once, or return a task whose progress the feed then reports. */
  datatype Reconfiguration = Rejected | Accepted(task: TaskId, feed: seq<Update>)

  /** How a call of `editVM` ends: it returns a code; an error that is not a
      `MethodFault` escapes it (an attribute read on an unresolved name); or
      it never returns, because the wait blocks. */
  datatype EditOutcome = Returned(code: int) | Aborted | Blocked

  const NicKey := 4000
  const LogicalSwitchType := "nsx.LogicalSwitch"

  /** The adapter once the loop body of `editVM` has set its fields; every
      field not named here keeps its value. */
  function Reconnected(d: Device, opaqueId: string): (nic: Device)
  {
    d.(wakeOnLanEnabled := true,
       addressType := "assigned",
       key := NicKey,
       backing := OpaqueNetworkBacking(LogicalSwitchType, opaqueId),
       deviceInfo := d.deviceInfo.(summary := LogicalSwitchType + ": " + opaqueId),
       connectable := ConnectInfo(true, true, true))
  }

  ghost predicate IsFirstEthernet(devices: seq<Device>, i: int)
  {
    0 <= i < |devices| && devices[i].isEthernet && forall j :: 0 <= j < i ==> !devices[j].isEthernet
  }

  /** The device-change list `editVM` builds: empty when no device is a
      network adapter, otherwise the single edit of the first adapter. */
  ghost predicate IsNicEdit(devices: seq<Device>, opaqueId: string, deviceChange: seq<DeviceSpec>)
  {
    && |deviceChange| <= 1
    && (deviceChange == [] <==> forall i :: 0 <= i < |devices| ==> !devices[i].isEthernet)
    && (deviceChange != [] ==>
          exists i :: IsFirstEthernet(devices, i) &&
                      deviceChange[0] == DeviceSpec(Edit, Reconnected(devices[i], opaqueId)))
  }

  /** The device loop of `editVM`, which stops at the first adapter. */
  method BuildDeviceChange(devices: seq<Device>, opaqueId: string) returns (deviceChange: seq<DeviceSpec>)
    ensures IsNicEdit(devices, opaqueId, deviceChange)
  {
    deviceChange := [];
    var i := 0;
    while i < |devices|
      invariant 0 <= i <= |devices|
      invariant forall j :: 0 <= j < i ==> !devices[j].isEthernet
    {
      var device := devices[i];
      if device.isEthernet {
        var nicspec := DeviceSpec(Edit, Reconnected(device, opaqueId));
        deviceChange := deviceChange + [nicspec];
        assert IsFirstEthernet(devices, i);
        break;
      }
      i := i + 1;
    }
  }

  /** What one call of `editVM` does, given the inventory and the platform's
      handling of the request. */
  ghost predicate EditBehaviour(inventory: seq<ManagedObject>, vmName: string, ls: string,
                                remote: Reconfiguration, r: EditOutcome, submitted: Option<ConfigSpec>)
  {
    var net := FirstNamed(ContainerView(inventory, NetworkType), ls);
    var vm := FirstNamed(ContainerView(inventory, VirtualMachineType), vmName);
    var found := net.Some? && vm.Some?;
    && (submitted.Some? <==> found)
    && (found ==> net.value.Network? && vm.value.VirtualMachine? &&
                  IsNicEdit(vm.value.devices, net.value.opaqueNetworkId, submitted.value.deviceChange))
    && (r == Aborted <==> !found)
    && (r == Returned(0) <==> found && remote.Accepted? && Wait([remote.task], remote.feed) == Done)
    && (r == Returned(-1) <==> found && (remote.Rejected? || Wait([remote.task], remote.feed).Failed?))
    && (r == Blocked <==> found && remote.Accepted? && Wait([remote.task], remote.feed).StillWaiting?)
  }

  /**
   * `editVM`. `submitted` is the request passed to `ReconfigVM_Task`, if the
   * call is reached; the ghost counters count the property filters the wait
   * creates and destroys.
   */
  method EditVM(inventory: seq<ManagedObject>, vmName: string, ls: string, remote: Reconfiguration)
    returns (r: EditOutcome, submitted: Option<ConfigSpec>, ghost filtersCreated: nat, ghost filtersDestroyed: nat)
    ensures EditBehaviour(inventory, vmName, ls, remote, r, submitted)
    ensures filtersCreated == if submitted.Some? && remote.Accepted? then 1 else 0
    ensures filtersDestroyed == if r.Blocked? then 0 else filtersCreated
  {
    filtersCreated, filtersDestroyed := 0, 0;
    submitted := None;
    var net := GetObj(ContainerView(inventory, NetworkType), ls);
    if net.None? {
      // `net.summary` on None: the AttributeError is not a MethodFault
      r := Aborted;
      return;
    }
    assert net.value in ContainerView(inventory, NetworkType);
    var opaqueId := net.value.opaqueNetworkId;
    var vm := GetObj(ContainerView(inventory, VirtualMachineType), vmName);
    if vm.None? {
      // `vm.config` on None
      r := Aborted;
      return;
    }
    assert vm.value in ContainerView(inventory, VirtualMachineType);
    var deviceChange := BuildDeviceChange(vm.value.devices, opaqueId);
    var configSpec := ConfigSpec(deviceChange);
    submitted := Some(configSpec);
    match remote
    case Rejected =>
      r := Returned(-1);
    case Accepted(task, feed) =>
      var outcome, _, created, destroyed := WaitForTasks([task], feed);
      filtersCreated, filtersDestroyed := created, destroyed;
      match outcome
      case Done => r := Returned(0);
      case Failed(_) => r := Returned(-1);
      case StillWaiting => r := Blocked;
  }
}
