/**
 * `get_obj`: the first object of a container view whose name equals the
 * query. The inventory and the container view the platform builds over it
 * are plain data here.
 */
module ObjectResolver {
  import opened Wrappers
  import opened Inventory

  /** The recursive container view from the root folder: the inventory's
      objects of the requested type, in inventory order. */
  function ContainerView(inventory: seq<ManagedObject>, t: ManagedType): (view: seq<ManagedObject>)
    ensures forall o :: o in view <==> o in inventory && HasType(o, t)
    decreases |inventory|
  {
    if inventory == [] then []
    else if HasType(inventory[0], t) then [inventory[0]] + ContainerView(inventory[1..], t)
    else ContainerView(inventory[1..], t)
  }

  /** The first object of the view named exactly `name`, or None. */
  function FirstNamed(view: seq<ManagedObject>, name: string): (r: Option<ManagedObject>)
    ensures r.None? <==> forall i :: 0 <= i < |view| ==> view[i].name != name
    ensures r.Some? ==> exists i :: 0 <= i < |view| && view[i] == r.value && r.value.name == name &&
                                   forall j :: 0 <= j < i ==> view[j].name != name
    decreases |view|
  {
    if view == [] then None
    else if view[0].name == name then Some(view[0])
    else
      var r := FirstNamed(view[1..], name);
      assert forall i :: 1 <= i < |view| ==> view[i] == view[1..][i - 1];
      r
  }

  /** `get_obj` over the objects of the container view, in view order. */
  method GetObj(view: seq<ManagedObject>, name: string) returns (obj: Option<ManagedObject>)
    ensures obj == FirstNamed(view, name)
  {
    obj := None;
    var i := 0;
    while i < |view|
      invariant 0 <= i <= |view|
      invariant forall j :: 0 <= j < i ==> view[j].name != name
    {
      if view[i].name == name {
        obj := Some(view[i]);
        break;
      }
      i := i + 1;
    }
  }
}
