/** The multicast session as the screen runs it: the listener setup that
    creates, binds, configures and joins a socket, and the button and field
    handlers of the screen with their state — the address and port texts,
    the message list, `isJoined`, `socketRef`, the sockets whose receive
    loop is running and the balance of the platform's multicast lock. Each
    handler runs as one atomic step, up to the point where its coroutine
    suspends for good. */
module Session {
  import opened Wrappers
  import opened Text
  import opened Validation
  import opened Messages
  import opened Interfaces
  import opened Receiver

  /** A resolved `InetAddress`; the model uses only its identity. */
  datatype InetAddress = InetAddress(literal: string)

  /** The host as the core sees it: how `InetAddress.getByName` resolves a
      text, the enumerated interfaces, and whether each socket call returns
      or throws. */
  datatype Network = Network(
    resolve: string -> Option<InetAddress>,
    bindOk: bool,
    ephemeralPort: EphemeralPort,
    interfaces: seq<InterfaceDescriptor>,
    optionsOk: bool,
    joinOk: bool,
    sendOk: bool)

  /** A port the system hands out for a bind to port 0: never 0 itself,
      and within the range of a UDP port. */
  type EphemeralPort = p: int | 1 <= p <= 65535 witness 1

  /** The step of the listener setup that threw. */
  datatype SetupError = ResolutionFailed | BindFailed | NoWlanInterface | OptionsFailed | JoinGroupFailed

  const MaxTimeToLive: int := 255
  const DefaultTimeToLive: int := 1

  /** The range `InetSocketAddress` and `DatagramPacket` accept for a port;
      outside it they throw `IllegalArgumentException`. */
  predicate InPortRange(p: int) {
    0 <= p <= 65535
  }

  /** A `MulticastSocket`, as far as the core configures it. */
  class MulticastSocket {
    var reuseAddress: bool
    /** The port the socket is bound to, once bound. */
    var localPort: Option<int>
    var networkInterface: Option<string>
    var timeToLive: int
    /** The value given to `loopbackMode`; Java reads `true` as "disable
        loopback", so `false` leaves local loopback delivery on. */
    var loopbackModeDisabled: bool
    var broadcast: bool
    var group: Option<InetAddress>
    var closed: bool

    /** `MulticastSocket(null)`: an open socket, not bound, in no group. The
        constructor turns `SO_REUSEADDR` on before its (here skipped) bind,
        and creating the underlying datagram socket turns `SO_BROADCAST` on. */
    constructor ()
      ensures reuseAddress && localPort == None && networkInterface == None
      ensures timeToLive == DefaultTimeToLive && !loopbackModeDisabled && broadcast
      ensures group == None && !closed
    {
      reuseAddress := true;
      localPort := None;
      networkInterface := None;
      timeToLive := DefaultTimeToLive;
      loopbackModeDisabled := false;
      broadcast := true;
      group := None;
      closed := false;
    }
  }

  /** The local port a successful `bind(InetSocketAddress("0.0.0.0", port))`
      leaves the socket on: port 0 asks the system for a temporary port,
      given by the network as `ephemeralPort`. */
  function BoundPort(port: int, net: Network): (p: int)
  {
    if port == 0 then net.ephemeralPort else port
  }

  /** The first setup step that throws, in the order the listener runs
      them; None when the whole setup returns. */
  function SetupFailure(address: string, port: int, net: Network): Option<SetupError> {
    if net.resolve(address).None? then Some(ResolutionFailed)
    else if !InPortRange(port) || !net.bindOk then Some(BindFailed)
    else if FirstUsable(net.interfaces).None? then Some(NoWlanInterface)
    else if !net.optionsOk then Some(OptionsFailed)
    else if !net.joinOk then Some(JoinGroupFailed)
    else None
  }

  /** The state of a socket the listener set up successfully. */
  ghost predicate Configured(socket: MulticastSocket, address: string, port: int, net: Network)
    reads socket
  {
    && socket.reuseAddress
    && socket.localPort == Some(BoundPort(port, net))
    && FirstUsable(net.interfaces).Some?
    && socket.networkInterface == Some(net.interfaces[FirstUsable(net.interfaces).value].name)
    && socket.timeToLive == MaxTimeToLive
    && !socket.loopbackModeDisabled
    && socket.broadcast
    && socket.group == net.resolve(address)
    && net.resolve(address).Some?
    && !socket.closed
  }

  /** `startMulticastListener` up to launching the receive loop: resolve the
      group, create and bind the socket, select the interface, set the
      options and join the group. A failure after the socket exists leaves
      it open and unreferenced: `created` names it. */
  method StartMulticastListener(address: string, port: int, net: Network)
    returns (r: Result<MulticastSocket, SetupError>, created: MulticastSocket?)
    ensures created == null <==> net.resolve(address).None?
    ensures created != null ==> fresh(created) && !created.closed
    ensures r.Success? <==> SetupFailure(address, port, net).None?
    ensures r.Failure? ==> SetupFailure(address, port, net) == Some(r.error)
    ensures r.Success? ==> r.value == created && Configured(created, address, port, net)
  {
    created := null;
    var group := net.resolve(address);
    if group.None? {
      return Failure(ResolutionFailed), created;
    }
    var socket := new MulticastSocket();
    created := socket;
    socket.reuseAddress := true;
    if !InPortRange(port) || !net.bindOk {
      return Failure(BindFailed), created;
    }
    socket.localPort := Some(BoundPort(port, net));
    var selected := SelectInterface(net.interfaces);
    if selected.None? {
      return Failure(NoWlanInterface), created;
    }
    socket.networkInterface := Some(net.interfaces[selected.value].name);
    if !net.optionsOk {
      return Failure(OptionsFailed), created;
    }
    socket.timeToLive := MaxTimeToLive;
    socket.loopbackModeDisabled := false;
    socket.broadcast := true;
    if !net.joinOk {
      return Failure(JoinGroupFailed), created;
    }
    socket.group := group;
    r := Success(socket);
  }

  /** Why a join attempt failed: `port.toInt()` threw, or the setup did. */
  datatype JoinError = PortNotANumber | Setup(error: SetupError)

  /** What a press of the join button did. */
  datatype JoinOutcome = AlreadyJoined | NoWifi | Joined | JoinFailed(error: JoinError)

  /** The failure a join attempt with these field texts meets, if any. */
  function JoinFailure(address: string, port: string, net: Network): Option<JoinError> {
    match ToIntOrNull(port)
    case None => Some(PortNotANumber)
    case Some(p) =>
      match SetupFailure(address, p, net)
      case None => None
      case Some(e) => Some(Setup(e))
  }

  /** `leaveGroup(InetAddress.getByName(address))` returns: the current
      address text resolves, and to the group the socket is in. */
  predicate LeaveGroupSucceeds(address: string, net: Network, joined: Option<InetAddress>) {
    net.resolve(address).Some? && joined == net.resolve(address)
  }

  /** The text of the test message, `"测试消息 ${System.currentTimeMillis()}"`. */
  function TestMessage(now: nat): string {
    "测试消息 " + NatToDecimal(now)
  }

  /** A datagram handed to `socket.send`. */
  datatype OutboundDatagram = OutboundDatagram(group: InetAddress, port: int, text: string)

  /** Every step of the send handler returns. */
  predicate SendSucceeds(address: string, port: string, net: Network) {
    && net.resolve(address).Some?
    && ToIntOrNull(port).Some?
    && InPortRange(ToIntOrNull(port).value)
    && net.sendOk
  }

  /** With port text that passes the edit filter, `port.toInt()` throws
      exactly when the field is empty; every other failure of a join comes
      from the setup. */
  lemma JoinPortFailureIff(address: string, port: string, net: Network)
    requires PortEditAccepted(port)
    ensures JoinFailure(address, port, net) == Some(PortNotANumber) <==> port == []
  {
    PortErrorOfAccepted(port);
  }

  /** The state of `MulticastScreen` and its handlers. */
  class MulticastScreen {
    var address: string
    var port: string
    var messages: seq<string>
    var isJoined: bool
    var socketRef: MulticastSocket?
    /** The sockets whose receive loop runs, in the order they were joined.
        The coroutine of each successful join is suspended inside
        `startMulticastListener`: its `withContext` block has launched the
        loop as a child coroutine, and `withContext` returns only once that
        child has finished, which the endless loop never does on its own. */
    var listening: seq<MulticastSocket>
    /** Acquisitions minus releases of the multicast lock. */
    var lockCount: int

    /** The invariant of the screen as the handlers run it. `socketRef` is
        never assigned a socket, since the assignment waits on a receive loop
        that no handler stops; so leave never releases the lock, and every
        successful join keeps its acquisition. The running loops' sockets
        are open and in a group, a join is shown only while some loop runs,
        the port text passes the edit filter, and every message can be
        displayed. */
    ghost predicate Valid()
      reads this, listening
    {
      && socketRef == null
      && lockCount == |listening|
      && (isJoined ==> listening != [])
      && (forall k :: 0 <= k < |listening| ==> !listening[k].closed && listening[k].group.Some?)
      && PortEditAccepted(port)
      && forall k :: 0 <= k < |messages| ==> Display(messages[k]).Some?
    }

    /** The screen once the saved settings are read; settings never saved
        fall back to the defaults. A port is saved only after the edit filter
        has accepted it. */
    constructor (savedAddress: Option<string>, savedPort: Option<string>)
      requires savedPort.Some? ==> PortEditAccepted(savedPort.value)
      ensures Valid()
      ensures address == savedAddress.GetOr(DefaultAddress) && port == savedPort.GetOr(DefaultPort)
      ensures messages == [] && !isJoined && socketRef == null && listening == [] && lockCount == 0
    {
      address := savedAddress.GetOr(DefaultAddress);
      port := savedPort.GetOr(DefaultPort);
      messages := [];
      isJoined := false;
      socketRef := null;
      listening := [];
      lockCount := 0;
      DecimalExample(DefaultPort, 1900);
    }

    /** The address field takes every edit. */
    method EditAddress(text: string)
      modifies this`address
      ensures address == text
      ensures old(Valid()) ==> Valid()
    {
      address := text;
    }

    /** The port field takes an edit only when the filter accepts it. */
    method EditPort(text: string)
      modifies this`port
      ensures port == ApplyPortEdit(old(port), text)
      ensures old(Valid()) ==> Valid()
    {
      if |text| <= 5 && AllDigits(text) {
        port := text;
      }
    }

    /** The clear button empties the message list. */
    method ClearMessages()
      modifies this`messages
      ensures messages == []
      ensures old(Valid()) ==> Valid()
    {
      messages := [];
    }

    /** The join button. Nothing happens when already joined or when Wi-Fi
        is not connected. Otherwise the lock is acquired and the listener
        started with the current texts; if `port.toInt()` or the setup
        throws, `isJoined` is set back and the lock released, and a socket
        created before the failure is left open. If the setup succeeds, the
        receive loop starts on the new socket and the coroutine waits on it,
        so `socketRef` is not assigned. `created` is the socket the attempt
        created, if any. */
    method Join(wifiConnected: bool, net: Network) returns (outcome: JoinOutcome, created: MulticastSocket?)
      modifies this
      ensures old(Valid()) ==> Valid()
      ensures address == old(address) && port == old(port) && messages == old(messages)
      ensures socketRef == old(socketRef)
      ensures old(isJoined) ==> outcome == AlreadyJoined
      ensures !old(isJoined) && !wifiConnected ==> outcome == NoWifi
      ensures outcome.AlreadyJoined? || outcome.NoWifi? ==>
        isJoined == old(isJoined) && listening == old(listening) && lockCount == old(lockCount) && created == null
      ensures !old(isJoined) && wifiConnected ==>
        (outcome == Joined <==> JoinFailure(address, port, net).None?)
      ensures !old(isJoined) && wifiConnected && PortEditAccepted(port) ==>
        (outcome == JoinFailed(PortNotANumber) <==> port == [])
      ensures outcome.JoinFailed? ==> JoinFailure(address, port, net) == Some(outcome.error)
      ensures outcome == Joined ==>
        && isJoined && created != null && fresh(created)
        && listening == old(listening) + [created]
        && lockCount == old(lockCount) + 1
        && Configured(created, address, ToIntOrNull(port).value, net)
      ensures outcome.JoinFailed? ==>
        !isJoined && listening == old(listening) && lockCount == old(lockCount)
      ensures outcome.JoinFailed? ==>
        (created != null <==> outcome.error.Setup? && outcome.error.error != ResolutionFailed)
      ensures created != null ==> fresh(created) && !created.closed
    {
      created := null;
      if isJoined {
        return AlreadyJoined, created;
      }
      if !wifiConnected {
        return NoWifi, created;
      }
      if PortEditAccepted(port) {
        JoinPortFailureIff(address, port, net);
      }
      isJoined := true;
      lockCount := lockCount + 1;
      var p := ToIntOrNull(port);
      if p.None? {
        isJoined := false;
        lockCount := lockCount - 1;
        return JoinFailed(PortNotANumber), created;
      }
      var r;
      r, created := StartMulticastListener(address, p.value, net);
      if r.Failure? {
        isJoined := false;
        lockCount := lockCount - 1;
        return JoinFailed(Setup(r.error)), created;
      }
      listening := listening + [r.value];
      outcome := Joined;
    }

    /** The leave button. With a socket in `socketRef`: leave the group of
        the current address text and close the socket, with any exception
        swallowed, and release the lock in `finally`; `leaveGroup` throwing
        skips `close`. Then, held or not, forget the socket and clear
        `isJoined`. The running receive loops are not touched. */
    method Leave(net: Network)
      modifies this, socketRef
      ensures old(Valid()) ==> Valid()
      ensures socketRef == null && !isJoined
      ensures address == old(address) && port == old(port) && messages == old(messages)
      ensures listening == old(listening)
      ensures lockCount == old(lockCount) - (if old(socketRef) != null then 1 else 0)
      ensures old(socketRef) != null ==>
        var left := LeaveGroupSucceeds(old(address), net, old(socketRef.group));
        && old(socketRef).closed == (old(socketRef.closed) || left)
        && old(socketRef).group == (if left then None else old(socketRef.group))
      ensures old(socketRef) != null ==>
        && old(socketRef).reuseAddress == old(socketRef.reuseAddress)
        && old(socketRef).localPort == old(socketRef.localPort)
        && old(socketRef).networkInterface == old(socketRef.networkInterface)
        && old(socketRef).timeToLive == old(socketRef.timeToLive)
        && old(socketRef).loopbackModeDisabled == old(socketRef.loopbackModeDisabled)
        && old(socketRef).broadcast == old(socketRef.broadcast)
    {
      var socket := socketRef;
      if socket != null {
        if net.resolve(address).Some? && socket.group == net.resolve(address) {
          socket.group := None;
          socket.closed := true;
        }
        lockCount := lockCount - 1;
      }
      socketRef := null;
      isJoined := false;
    }

    /** The send button: a fresh `DatagramSocket` sends the test message to
        the current address and port; any exception is swallowed. The
        handler touches no screen state. The send socket is closed only
        after a successful send. */
    method Send(net: Network, now: nat) returns (sent: Option<OutboundDatagram>, socketLeftOpen: bool)
      ensures sent.Some? <==> SendSucceeds(address, port, net)
      ensures sent.Some? ==>
        sent.value == OutboundDatagram(net.resolve(address).value, ToIntOrNull(port).value, TestMessage(now))
      ensures socketLeftOpen <==> sent.None?
    {
      var message := TestMessage(now);
      socketLeftOpen := true;
      sent := None;
      var group := net.resolve(address);
      if group.None? {
        return;
      }
      var p := ToIntOrNull(port);
      if p.None? || !InPortRange(p.value) {
        return;
      }
      if !net.sendOk {
        return;
      }
      sent := Some(OutboundDatagram(group.value, p.value, message));
      socketLeftOpen := false;
    }

    /** A running receive loop hands its messages to the screen: each is
        appended to the list, in order. Messages come only from a running
        loop, and its socket is open, so none of its receives throws
        "Socket closed". Loops keep delivering after leave. */
    method Receive(outcomes: seq<ReceiveOutcome>, decode: seq<byte> -> string)
      requires listening != [] && !HasClose(outcomes)
      modifies this`messages
      ensures old(Valid()) ==> Valid()
      ensures messages == old(messages) + Render(Deliveries(outcomes), decode)
    {
      var received, closed := ReceiveLoop(outcomes, decode);
      forall k | 0 <= k < |received| ensures Display(received[k]).Some? {
        var d := Deliveries(outcomes)[k];
        FormattedAlwaysDisplays(d.sender, decode(d.payload));
      }
      messages := messages + received;
    }
  }

  /** Two presses of leave in any state the screen reaches: neither finds a
      socket in `socketRef`, so the lock balance and the running loops stay
      as they were. */
  method LeaveTwice(screen: MulticastScreen, net: Network)
    requires screen.Valid()
    modifies screen
    ensures screen.Valid() && !screen.isJoined
    ensures screen.lockCount == old(screen.lockCount) && screen.listening == old(screen.listening)
  {
    screen.Leave(net);
    screen.Leave(net);
  }

  /** Join followed by leave with the address unchanged: after a successful
      join the lock stays acquired and the new socket stays open, in the
      group and listening, though the screen shows no join. */
  method JoinThenLeave(screen: MulticastScreen, net: Network) returns (socket: MulticastSocket?)
    requires screen.Valid() && !screen.isJoined
    modifies screen
    ensures screen.Valid() && !screen.isJoined && screen.socketRef == null
    ensures JoinFailure(old(screen.address), old(screen.port), net).None? ==>
      && socket != null && fresh(socket)
      && screen.lockCount == old(screen.lockCount) + 1
      && screen.listening == old(screen.listening) + [socket]
      && !socket.closed && socket.group == net.resolve(old(screen.address))
    ensures JoinFailure(old(screen.address), old(screen.port), net).Some? ==>
      screen.lockCount == old(screen.lockCount) && screen.listening == old(screen.listening)
  {
    var outcome;
    outcome, socket := screen.Join(true, net);
    screen.Leave(net);
  }

  /** Join, leave and join again with the same texts: when the setup
      succeeds, both sockets keep listening and the lock is held twice. */
  method JoinLeaveJoin(screen: MulticastScreen, net: Network) returns (first: MulticastSocket?, second: MulticastSocket?)
    requires screen.Valid() && !screen.isJoined
    modifies screen
    ensures screen.Valid()
    ensures JoinFailure(old(screen.address), old(screen.port), net).None? ==>
      && first != null && second != null && first != second
      && screen.isJoined
      && screen.lockCount == old(screen.lockCount) + 2
      && screen.listening == old(screen.listening) + [first, second]
      && !first.closed && !second.closed
  {
    var outcome;
    outcome, first := screen.Join(true, net);
    screen.Leave(net);
    outcome, second := screen.Join(true, net);
  }
}
