/** The managed objects of the platform's inventory, as plain values. */
module Inventory {

  /** A network adapter's backing: an opaque (NSX) network, or anything else. */
  datatype Backing =
    | OpaqueNetworkBacking(opaqueNetworkType: string, opaqueNetworkId: string)
    | OtherBacking(description: string)

  datatype Description = Description(deviceLabel: string, summary: string)

  datatype ConnectInfo = ConnectInfo(startConnected: bool, connected: bool, allowGuestControl: bool)

  /** A virtual device of a VM's hardware list; `isEthernet` tells whether it
      is a `VirtualEthernetCard` (of whatever concrete adapter type). */
  datatype Device = Device(
    isEthernet: bool,
    key: int,
    deviceInfo: Description,
    wakeOnLanEnabled: bool,
    addressType: string,
    macAddress: string,
    backing: Backing,
    connectable: ConnectInfo)

  /** The managed objects the script looks up by name. */
  datatype ManagedObject =
    | Network(name: string, opaqueNetworkId: string)
    | VirtualMachine(name: string, devices: seq<Device>)

  /** The managed-object types a container view is built for. */
  datatype ManagedType = NetworkType | VirtualMachineType

  predicate HasType(o: ManagedObject, t: ManagedType)
  {
    match t
    case NetworkType => o.Network?
    case VirtualMachineType => o.VirtualMachine?
  }
}
