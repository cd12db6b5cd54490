/** Choosing the network interface the multicast socket uses: the first
    enumerated interface that is up, not loopback, multicast-capable, named
    "wlan…", and that the socket accepts as its interface. */
module Interfaces {
  import opened Wrappers
  import opened Text

  /** A snapshot of one enumerated `NetworkInterface`. `setOk` is whether
      `socket.networkInterface = it` returns rather than throws. */
  datatype InterfaceDescriptor = InterfaceDescriptor(
    name: string,
    isUp: bool,
    isLoopback: bool,
    supportsMulticast: bool,
    setOk: bool)

  const WlanPrefix: string := "wlan"

  /** The condition the loop tests before it tries an interface. */
  predicate Eligible(d: InterfaceDescriptor) {
    d.isUp && !d.isLoopback && d.supportsMulticast && StartsWith(d.name, WlanPrefix)
  }

  /** An interface the loop stops at: eligible, and assigning it succeeded. */
  predicate Usable(d: InterfaceDescriptor) {
    Eligible(d) && d.setOk
  }

  /** The position of the first usable interface at or after `from`. */
  function FirstUsableFrom(interfaces: seq<InterfaceDescriptor>, from: nat): (r: Option<nat>)
    requires from <= |interfaces|
    ensures r.Some? ==> from <= r.value < |interfaces| && Usable(interfaces[r.value])
    ensures r.Some? ==> forall j :: from <= j < r.value ==> !Usable(interfaces[j])
    ensures r.None? ==> forall j :: from <= j < |interfaces| ==> !Usable(interfaces[j])
    decreases |interfaces| - from
  {
    if from == |interfaces| then None
    else if Usable(interfaces[from]) then Some(from)
    else FirstUsableFrom(interfaces, from + 1)
  }

  /** The interface selection as a value: the first usable interface, if any. */
  function FirstUsable(interfaces: seq<InterfaceDescriptor>): (r: Option<nat>)
    ensures r.Some? ==> r.value < |interfaces| && Usable(interfaces[r.value])
    ensures r.Some? ==> forall j :: 0 <= j < r.value ==> !Usable(interfaces[j])
    ensures r.None? <==> forall j :: 0 <= j < |interfaces| ==> !Usable(interfaces[j])
  {
    FirstUsableFrom(interfaces, 0)
  }

  /** The search loop of the listener: walk the enumeration in order, try to
      assign each eligible interface, stop at the first that sticks; an
      assignment that throws moves on to the next interface. */
  method SelectInterface(interfaces: seq<InterfaceDescriptor>) returns (r: Option<nat>)
    ensures r.Some? ==> r.value < |interfaces| && Usable(interfaces[r.value])
    ensures r.Some? ==> forall j :: 0 <= j < r.value ==> !Usable(interfaces[j])
    ensures r.None? <==> forall j :: 0 <= j < |interfaces| ==> !Usable(interfaces[j])
    ensures r == FirstUsable(interfaces)
  {
    var foundInterface := false;
    var i := 0;
    while i < |interfaces|
      invariant 0 <= i <= |interfaces|
      invariant forall j :: 0 <= j < i ==> !Usable(interfaces[j])
      invariant !foundInterface
      invariant FirstUsable(interfaces) == FirstUsableFrom(interfaces, i)
    {
      var candidate := interfaces[i];
      if candidate.isUp && !candidate.isLoopback && candidate.supportsMulticast
        && StartsWith(candidate.name, WlanPrefix)
      {
        if candidate.setOk {
          foundInterface := true;
          break;
        }
      }
      i := i + 1;
    }
    if foundInterface {
      r := Some(i);
    } else {
      r := None;
    }
  }
}
