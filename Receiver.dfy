/** The listener's receive loop. Each pass builds a fresh `DatagramPacket`
    over one shared 4096-byte buffer, receives into it, and hands the
    formatted message to the screen; a `SocketException` whose message
    contains "Socket closed" ends the loop, and every other failure is
    logged and the loop goes on. The blocking receives are modelled as the
    finite sequence of their outcomes, in arrival order. */
module Receiver {
  import opened Wrappers
  import opened Text
  import opened Messages

  newtype byte = x: int | 0 <= x < 256

  /** `ByteArray(4096)`. */
  const BufferSize: nat := 4096

  /** What the catch block sees of an exception: whether it is a
      `SocketException`, and its (nullable) message. */
  datatype ReceiveError = ReceiveError(isSocketException: bool, message: Option<string>)

  /** One `socket.receive(packet)`: a datagram from a sender whose address
      text and port are given, carrying `data` on the wire; or an exception. */
  datatype ReceiveOutcome =
    | Datagram(senderAddress: string, senderPort: nat, data: seq<byte>)
    | Failed(error: ReceiveError)

  /** `e is SocketException && e.message?.contains("Socket closed") == true`. */
  predicate EndsLoop(e: ReceiveError) {
    e.isSocketException && e.message.Some? && Contains(e.message.value, "Socket closed")
  }

  lemma EndsLoopExamples()
    ensures EndsLoop(ReceiveError(true, Some("Socket closed")))
    ensures !EndsLoop(ReceiveError(false, Some("Socket closed")))
    ensures !EndsLoop(ReceiveError(true, None))
    ensures !EndsLoop(ReceiveError(true, Some("Try again")))
  {
    assert OccursAt("Socket closed", "Socket closed", 0);
  }

  /** The outcome at position i ends the loop. */
  predicate ClosesAt(outcomes: seq<ReceiveOutcome>, i: int)
    requires 0 <= i < |outcomes|
  {
    outcomes[i].Failed? && EndsLoop(outcomes[i].error)
  }

  predicate HasClose(outcomes: seq<ReceiveOutcome>) {
    exists i :: 0 <= i < |outcomes| && ClosesAt(outcomes, i)
  }

  /** What the loop hands over for one datagram: the sender text and the
      bytes it read. */
  datatype Delivery = Delivery(sender: string, payload: seq<byte>)

  /** The bytes of a datagram that fit a packet of `BufferSize` bytes; the
      rest is silently dropped. */
  function Truncate(data: seq<byte>): (p: seq<byte>)
    ensures |p| <= BufferSize
    ensures |p| == if |data| < BufferSize then |data| else BufferSize
    ensures p == data[..|p|]
  {
    if |data| < BufferSize then data else data[..BufferSize]
  }

  /** The loop's specification: one delivery per datagram, in arrival order,
      up to the first outcome that ends the loop; other failures are skipped. */
  function Deliveries(outcomes: seq<ReceiveOutcome>): seq<Delivery>
  {
    if outcomes == [] then []
    else
      match outcomes[0]
      case Datagram(address, port, data) =>
        [Delivery(SenderText(address, port), Truncate(data))] + Deliveries(outcomes[1..])
      case Failed(e) =>
        if EndsLoop(e) then [] else Deliveries(outcomes[1..])
  }

  /** The messages the screen receives for a list of deliveries, given how
      `String(bytes, 0, length)` decodes payloads. */
  function Render(deliveries: seq<Delivery>, decode: seq<byte> -> string): seq<string> {
    seq(|deliveries|, k requires 0 <= k < |deliveries| =>
      FormatMessage(deliveries[k].sender, decode(deliveries[k].payload)))
  }

  /** `DatagramPacket(buffer, length)`; `socket.receive(packet)` fills it. */
  class DatagramPacket {
    const buf: array<byte>
    var length: nat
    var senderAddress: string
    var senderPort: nat

    constructor (buf: array<byte>, length: nat)
      requires length <= buf.Length
      ensures this.buf == buf && this.length == length
    {
      this.buf := buf;
      this.length := length;
      senderAddress := "";
      senderPort := 0;
    }

    /** Receiving a datagram: at most `length` bytes are copied to the front
        of the buffer, the rest of the datagram is lost, `length` becomes the
        number of bytes kept, and the sender is recorded. */
    method Receive(address: string, port: nat, data: seq<byte>)
      requires length <= buf.Length
      modifies this, buf
      ensures length == if |data| < old(length) then |data| else old(length)
      ensures buf[..length] == data[..length]
      ensures forall k :: length <= k < buf.Length ==> buf[k] == old(buf[k])
      ensures senderAddress == address && senderPort == port
    {
      var n := if |data| < length then |data| else length;
      forall k | 0 <= k < n {
        buf[k] := data[k];
      }
      length := n;
      senderAddress := address;
      senderPort := port;
    }
  }

  /** The receive loop, run over the outcomes of its successive receives.
      It returns the messages handed to the screen, in order, and whether
      it stopped at a "Socket closed" exception (otherwise the outcomes ran
      out while it was still waiting). */
  method ReceiveLoop(outcomes: seq<ReceiveOutcome>, decode: seq<byte> -> string)
    returns (received: seq<string>, closed: bool)
    ensures received == Render(Deliveries(outcomes), decode)
    ensures closed <==> HasClose(outcomes)
  {
    var buffer := new byte[BufferSize];
    received := [];
    closed := false;
    ghost var delivered: seq<Delivery> := [];
    var i := 0;
    while i < |outcomes|
      invariant 0 <= i <= |outcomes|
      invariant buffer.Length == BufferSize
      invariant !HasClose(outcomes[..i])
      invariant Deliveries(outcomes) == delivered + Deliveries(outcomes[i..])
      invariant received == Render(delivered, decode)
    {
      assert outcomes[i..][0] == outcomes[i] && outcomes[i..][1..] == outcomes[i + 1..];
      var packet := new DatagramPacket(buffer, buffer.Length);
      match outcomes[i] {
        case Datagram(address, port, data) =>
          packet.Receive(address, port, data);
          var payload := packet.buf[..packet.length];
          var sender := SenderText(packet.senderAddress, packet.senderPort);
          assert payload == Truncate(data);
          received := received + [FormatMessage(sender, decode(payload))];
          delivered := delivered + [Delivery(sender, payload)];
        case Failed(e) =>
          if EndsLoop(e) {
            assert ClosesAt(outcomes, i);
            closed := true;
            break;
          }
      }
      NoCloseExtends(outcomes, i);
      i := i + 1;
    }
    if !closed {
      assert outcomes[..i] == outcomes;
    }
  }

  // ------------------------------------------------------------- lemmas

  lemma NoCloseExtends(outcomes: seq<ReceiveOutcome>, i: nat)
    requires i < |outcomes| && !HasClose(outcomes[..i]) && !ClosesAt(outcomes, i)
    ensures !HasClose(outcomes[..i + 1])
  {
    var longer := outcomes[..i + 1];
    forall j | 0 <= j < |longer| ensures !ClosesAt(longer, j) {
      if j < i {
        assert !ClosesAt(outcomes[..i], j);
      }
    }
  }

  /** No payload handed over is longer than the buffer. */
  lemma {:induction false} DeliveriesFitBuffer(outcomes: seq<ReceiveOutcome>)
    ensures forall k :: 0 <= k < |Deliveries(outcomes)| ==> |Deliveries(outcomes)[k].payload| <= BufferSize
  {
    if outcomes != [] {
      DeliveriesFitBuffer(outcomes[1..]);
    }
  }

  /** Outcomes before the loop ends are handled one after another: the
      deliveries of `a + b` are those of `a` followed by those of `b`. */
  lemma {:induction false} DeliveriesAppend(a: seq<ReceiveOutcome>, b: seq<ReceiveOutcome>)
    requires !HasClose(a)
    ensures Deliveries(a + b) == Deliveries(a) + Deliveries(b)
  {
    if a == [] {
      assert a + b == b;
    } else {
      assert (a + b)[0] == a[0] && (a + b)[1..] == a[1..] + b;
      assert !ClosesAt(a, 0);
      assert !HasClose(a[1..]) by {
        forall i | 0 <= i < |a[1..]| ensures !ClosesAt(a[1..], i) {
          assert !ClosesAt(a, i + 1);
        }
      }
      DeliveriesAppend(a[1..], b);
    }
  }

  /** Nothing is handed over after the first "Socket closed". */
  lemma DeliveriesStopAtClose(a: seq<ReceiveOutcome>, e: ReceiveError, b: seq<ReceiveOutcome>)
    requires !HasClose(a) && EndsLoop(e)
    ensures Deliveries(a + [Failed(e)] + b) == Deliveries(a)
  {
    DeliveriesAppend(a, [Failed(e)] + b);
    assert a + [Failed(e)] + b == a + ([Failed(e)] + b);
  }

  /** Any other receive failure is swallowed: it hands nothing over and the
      loop carries on with the next receive. */
  lemma DeliveriesSkipError(a: seq<ReceiveOutcome>, e: ReceiveError, b: seq<ReceiveOutcome>)
    requires !HasClose(a) && !EndsLoop(e)
    ensures Deliveries(a + [Failed(e)] + b) == Deliveries(a + b)
  {
    DeliveriesAppend(a, [Failed(e)] + b);
    DeliveriesAppend(a, b);
    assert a + [Failed(e)] + b == a + ([Failed(e)] + b);
    assert ([Failed(e)] + b)[1..] == b;
  }

  /** Each datagram is handed over as its sender and its first `BufferSize`
      bytes, independently of the datagrams before it: a short datagram does
      not shrink what the next one may carry. */
  lemma DeliveriesOfDatagram(a: seq<ReceiveOutcome>, address: string, port: nat, data: seq<byte>)
    requires !HasClose(a)
    ensures Deliveries(a + [Datagram(address, port, data)])
      == Deliveries(a) + [Delivery(SenderText(address, port), Truncate(data))]
  {
    DeliveriesAppend(a, [Datagram(address, port, data)]);
  }

  /** The number of datagrams in a list of outcomes. */
  function DatagramCount(outcomes: seq<ReceiveOutcome>): nat {
    if outcomes == [] then 0
    else (if outcomes[0].Datagram? then 1 else 0) + DatagramCount(outcomes[1..])
  }

  /** The outcomes the loop handles: those before the first that ends it. */
  function BeforeClose(outcomes: seq<ReceiveOutcome>): (prefix: seq<ReceiveOutcome>)
    ensures prefix <= outcomes && !HasClose(prefix)
    ensures |prefix| < |outcomes| ==> ClosesAt(outcomes, |prefix|)
  {
    if outcomes == [] then []
    else if ClosesAt(outcomes, 0) then []
    else
      var rest := BeforeClose(outcomes[1..]);
      assert !HasClose([outcomes[0]] + rest) by {
        forall i | 0 <= i < |rest| + 1 ensures !ClosesAt([outcomes[0]] + rest, i) {
          if i > 0 {
            assert ([outcomes[0]] + rest)[i] == rest[i - 1];
            assert !ClosesAt(rest, i - 1);
          } else {
            assert ([outcomes[0]] + rest)[0] == outcomes[0];
          }
        }
      }
      [outcomes[0]] + rest
  }

  /** Exactly one message per datagram that arrives before the loop ends. */
  lemma {:induction false} DeliveriesCount(outcomes: seq<ReceiveOutcome>)
    ensures |Deliveries(outcomes)| == DatagramCount(BeforeClose(outcomes))
  {
    if outcomes != [] && !ClosesAt(outcomes, 0) {
      DeliveriesCount(outcomes[1..]);
      var rest := BeforeClose(outcomes[1..]);
      assert ([outcomes[0]] + rest)[1..] == rest;
    }
  }

  /** Every message the loop hands to the screen can be displayed, and shows
      its sender's header and its payload text. */
  lemma RenderedDisplay(deliveries: seq<Delivery>, decode: seq<byte> -> string, k: nat)
    requires k < |deliveries| && '\n' !in deliveries[k].sender
    ensures Display(Render(deliveries, decode)[k])
      == Some((SenderPrefix + deliveries[k].sender, decode(deliveries[k].payload)))
  {
    DisplayFormatted(deliveries[k].sender, decode(deliveries[k].payload));
  }
}
