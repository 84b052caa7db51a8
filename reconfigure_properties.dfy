/** Properties of the `editVM` model. */
module ReconfigureProperties {
  import opened Wrappers
  import opened Inventory
  import opened ObjectResolver
  import opened TaskMonitor
  import opened Reconfigure

  /** The device-change list is determined by the devices and the network. */
  lemma NicEditUnique(devices: seq<Device>, opaqueId: string, dc1: seq<DeviceSpec>, dc2: seq<DeviceSpec>)
    requires IsNicEdit(devices, opaqueId, dc1) && IsNicEdit(devices, opaqueId, dc2)
    ensures dc1 == dc2
  {
    if dc1 != [] {
      var i1 :| IsFirstEthernet(devices, i1) && dc1[0] == DeviceSpec(Edit, Reconnected(devices[i1], opaqueId));
      var i2 :| IsFirstEthernet(devices, i2) && dc2[0] == DeviceSpec(Edit, Reconnected(devices[i2], opaqueId));
      assert i1 == i2;
      assert dc1 == [dc1[0]] && dc2 == [dc2[0]];
    }
  }

  /** A call of `editVM` has one possible result and one possible request. */
  lemma EditBehaviourDeterministic(inventory: seq<ManagedObject>, vmName: string, ls: string, remote: Reconfiguration,
                                   r1: EditOutcome, s1: Option<ConfigSpec>, r2: EditOutcome, s2: Option<ConfigSpec>)
    requires EditBehaviour(inventory, vmName, ls, remote, r1, s1)
    requires EditBehaviour(inventory, vmName, ls, remote, r2, s2)
    ensures r1 == r2 && s1 == s2
  {
    var net := FirstNamed(ContainerView(inventory, NetworkType), ls);
    var vm := FirstNamed(ContainerView(inventory, VirtualMachineType), vmName);
    if net.Some? && vm.Some? {
      NicEditUnique(vm.value.devices, net.value.opaqueNetworkId, s1.value.deviceChange, s2.value.deviceChange);
    }
  }

  /** A VM whose only device is a network adapter, on a switch that resolves:
      the submitted request repoints that adapter at the switch's opaque
      network, and a success reported for the task makes `editVM` return 0. */
  lemma SingleAdapterMigrates(nic: Device, r: EditOutcome, submitted: Option<ConfigSpec>)
    requires nic.isEthernet
    requires EditBehaviour([Network("ls-blue", "opaque-42"), VirtualMachine("vm1", [nic])], "vm1", "ls-blue",
                           Accepted("task-1", [Update("1", [Change("task-1", "info.state", Success)])]),
                           r, submitted)
    ensures r == Returned(0)
    ensures submitted.Some? && |submitted.value.deviceChange| == 1
    ensures submitted.value.deviceChange[0].device.backing == OpaqueNetworkBacking("nsx.LogicalSwitch", "opaque-42")
  {
    var inventory := [Network("ls-blue", "opaque-42"), VirtualMachine("vm1", [nic])];
    assert inventory[1..] == [VirtualMachine("vm1", [nic])] && inventory[1..][1..] == [];
    assert ContainerView(inventory[1..], NetworkType) == [];
    assert ContainerView(inventory[1..], VirtualMachineType) == [VirtualMachine("vm1", [nic])] + [];
    assert ContainerView(inventory, NetworkType) == [Network("ls-blue", "opaque-42")];
    assert ContainerView(inventory, VirtualMachineType) == [VirtualMachine("vm1", [nic])];
    var dc := submitted.value.deviceChange;
    var devices := [nic];
    assert devices[0].isEthernet;
    assert !(forall j :: 0 <= j < |devices| ==> !devices[j].isEthernet);
    var i :| IsFirstEthernet(devices, i) && dc[0] == DeviceSpec(Edit, Reconnected(devices[i], "opaque-42"));
  }

  /** A VM name that resolves to nothing: no request is submitted, and the
      error escapes `editVM` instead of becoming a return code. */
  lemma MissingVmAborts(inventory: seq<ManagedObject>, vmName: string, ls: string, remote: Reconfiguration,
                        r: EditOutcome, submitted: Option<ConfigSpec>)
    requires forall o :: o in inventory && o.VirtualMachine? ==> o.name != vmName
    requires EditBehaviour(inventory, vmName, ls, remote, r, submitted)
    ensures r == Aborted && submitted == None
  {
    var view := ContainerView(inventory, VirtualMachineType);
    assert forall i :: 0 <= i < |view| ==> view[i] in inventory;
  }
}
