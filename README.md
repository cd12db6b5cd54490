# UDP multicast session — a verified model

This project models the logic of the UDPMulticast Android app's single
screen (`MainActivity.kt`). The app joins a UDP multicast group on a Wi-Fi
interface, shows every datagram it receives, sends test messages, and leaves
the group on demand. The model covers:

- the listener setup: resolve the group, create and bind a `MulticastSocket`,
  pick the network interface, set the options, join the group;
- the interface search: the first enumerated interface that is up, not
  loopback, multicast-capable and named `wlan…`, and that the socket accepts;
- the receive loop: a fresh `DatagramPacket` over one 4096-byte buffer on
  every pass, one message per datagram, a stop on "Socket closed", and every
  other error swallowed;
- the message text `"来自 <sender>\n<payload>"` and the display's
  `split("\n", limit = 2)`;
- the field checks: the port edit filter, the port error flag and the
  address error flag;
- the screen's join, leave, send and clear handlers, the address and port
  edits, and their state: `isJoined`, `socketRef`, the sockets whose receive
  loop runs, and the balance of the multicast lock.

Files:

- `Wrappers.dfy`: `Option` and `Result`.
- `Text.dfy`: ASCII digits, decimal text, Kotlin's `toIntOrNull`,
  `indexOf`, `split(limit = 2)`.
- `Validation.dfy`: the three field checks.
- `Messages.dfy`: the message format and the display split.
- `Interfaces.dfy`: interface selection.
- `Receiver.dfy`: the receive loop.
- `Session.dfy`: the socket, the listener setup and the screen.

The operating system enters only as inputs. A `Network` value holds how
`InetAddress.getByName` resolves a text, the list of enumerated interfaces,
the temporary port in 1..65535 the system picks for a bind to port 0, and whether
bind, the socket options, `joinGroup` and `send` return or throw.
The Wi-Fi check is a boolean. The receives are a finite sequence of
outcomes, in arrival order. Payload decoding is a function parameter. The
clock value is a natural number.

The model follows the code, including where its behaviour is surprising:

- A successful join never stores its socket. `startMulticastListener`
  returns the value of a `withContext` block that launches the receive loop
  as a child coroutine, and `withContext` returns only after its children
  finish. The `while (true)` loop ends only on "Socket closed", and nothing
  closes the socket. So the assignment `socketRef.value = …` waits for ever,
  and `socketRef` stays null. Leave then only clears `isJoined`: it leaves
  no group, closes nothing and releases no lock. The socket keeps listening
  and its messages keep arriving. Each further join acquires the lock once
  more and opens another listening socket. `JoinThenLeave` and
  `JoinLeaveJoin` show this; `MulticastScreen.Valid` records it as
  `socketRef == null` and `lockCount == |listening|`.
- The address and port error flags only colour the text fields. Join does
  not check them. A port of `0` reaches `bind` and is accepted there: the
  system then picks a temporary port, which the `Network` input names as
  `ephemeralPort`, and the socket listens on that port.
- The socket is not closed when bind, interface selection, the options or
  `joinGroup` fails. `Join` returns the leaked socket as `created`.
- `socket.loopbackMode = false` is Java's `setLoopbackMode(false)`, and
  false there means "do not disable". Loopback delivery stays on.
- Were a socket ever held in `socketRef`, leave would call `leaveGroup`
  with the address text current at the time of leave. If that text no
  longer resolves to the joined group, `leaveGroup` throws and `close` is
  skipped. `MulticastScreen.Leave` models this branch as written.
- The screen acquires and releases the multicast lock itself.
- The interface name prefix `"wlan"` is hard-coded.
- Send does not check `isJoined`; only the button's enabled state does.
  It sends to the current address and port texts. Its socket is closed
  only after a successful send.

## Model

| member | source | states |
|---|---|---|
| `Validation.ApplyPortEdit` | app/src/main/java/com/laird/udpmulticast/MainActivity.kt:160-168 | the port field after an edit is the new text or the old one, and once it passes the filter (at most 5 characters, all digits) every later edit leaves it passing |
| `Validation.PortErrorOfAccepted` | app/src/main/java/com/laird/udpmulticast/MainActivity.kt:161-173 | filtered port text never overflows `toIntOrNull`: empty is an error; otherwise it parses to its decimal value, at most 99999, and is flagged iff that value is 0 or above 65535 |
| `Validation.PortTextOfValidPort` | app/src/main/java/com/laird/udpmulticast/MainActivity.kt:173 | the decimal text of every port in 1..65535 passes the filter and is not flagged |
| `Validation.PortErrorExamples` | app/src/main/java/com/laird/udpmulticast/MainActivity.kt:173 | `""`, `"0"`, `"65536"` and `"abc"` are flagged |
| `Validation.PortAcceptedExamples` | app/src/main/java/com/laird/udpmulticast/MainActivity.kt:173 | the default `"1900"`, `"65535"` and `"1"` are not flagged |
| `Validation.PortEditExamples` | app/src/main/java/com/laird/udpmulticast/MainActivity.kt:161 | a 5-digit edit and the empty edit are taken; a 6-character edit and an edit with a letter are refused |
| `Validation.JoinedGroupsMatch` | app/src/main/java/com/laird/udpmulticast/MainActivity.kt:155 | every dot-joined run of 1-to-3-digit groups matches the pattern for that number of groups |
| `Validation.MatchingSplitsIntoGroups` | app/src/main/java/com/laird/udpmulticast/MainActivity.kt:155 | every matching text is such a dot-joined run, and the lemma returns its groups |
| `Validation.MatchesGroupsStep` | app/src/main/java/com/laird/udpmulticast/MainActivity.kt:155 | a group and a dot followed by a text form n groups iff that text forms n - 1 groups |
| `Validation.FourGroupsMatch` | app/src/main/java/com/laird/udpmulticast/MainActivity.kt:155 | any four groups joined by dots match the address pattern |
| `Validation.AddressMatchesIff` | app/src/main/java/com/laird/udpmulticast/MainActivity.kt:155 | the address pattern matches iff the text is exactly four groups of 1-3 ASCII digits joined by dots |
| `Validation.AddressDefaultAccepted` | app/src/main/java/com/laird/udpmulticast/MainActivity.kt:155 | `""` and the default `"239.255.255.250"` are not flagged |
| `Validation.AddressWithoutRangeCheck` | app/src/main/java/com/laird/udpmulticast/MainActivity.kt:155 | `"999.1.1.1"` is not flagged: the pattern has no 0..255 range check |
| `Validation.AddressTooFewGroups` | app/src/main/java/com/laird/udpmulticast/MainActivity.kt:155 | `"1.2.3"` is flagged |
| `Validation.AddressTooManyGroups` | app/src/main/java/com/laird/udpmulticast/MainActivity.kt:155 | `"1.2.3.4.5"` is flagged |
| `Validation.AddressLongGroup` | app/src/main/java/com/laird/udpmulticast/MainActivity.kt:155 | `"1234.1.1.1"` (a four-digit group) is flagged |
| `Validation.AddressEmptyGroup` | app/src/main/java/com/laird/udpmulticast/MainActivity.kt:155 | `"1..2.3"` (an empty group) is flagged |
| `Validation.AddressTrailingDot` | app/src/main/java/com/laird/udpmulticast/MainActivity.kt:155 | `"1.2.3."` (a trailing dot) is flagged |
| `Text.ToIntOrNull` | app/src/main/java/com/laird/udpmulticast/MainActivity.kt:173 | `toIntOrNull` returns only values in the 32-bit range, and only for text that starts with a digit or a sign |
| `Text.ToIntOrNullOfDigits` | app/src/main/java/com/laird/udpmulticast/MainActivity.kt:173 | a non-empty digit string of at most nine digits parses to its decimal value |
| `Text.ToIntOrNullRejects` | app/src/main/java/com/laird/udpmulticast/MainActivity.kt:173 | text with a character that is neither a digit nor a leading sign parses to null |
| `Text.ToIntOrNullRoundTrip` | app/src/main/java/com/laird/udpmulticast/MainActivity.kt:194 | the decimal text of any `Int`-sized natural number parses back to it |
| `Text.NatToDecimal` | app/src/main/java/com/laird/udpmulticast/MainActivity.kt:400 | a number's text is non-empty and all digits, and has one digit iff the number is below 10 |
| `Text.DecimalRoundTrip` | app/src/main/java/com/laird/udpmulticast/MainActivity.kt:400 | reading back the decimal text of n gives n |
| `Text.IndexOf` | app/src/main/java/com/laird/udpmulticast/MainActivity.kt:272 | the index found holds the character and is its first occurrence; none is found iff the character does not occur |
| `Text.SplitLimit2` | app/src/main/java/com/laird/udpmulticast/MainActivity.kt:272 | `split(sep, limit = 2)` gives one part (the whole text, without the separator) or two parts whose join with the separator is the text, with no separator in the first part |
| `Text.SplitLimit2Join` | app/src/main/java/com/laird/udpmulticast/MainActivity.kt:272 | splitting `head + sep + tail` gives `[head, tail]` when `head` has no separator, even when `tail` has some |
| `Messages.SenderText` | app/src/main/java/com/laird/udpmulticast/MainActivity.kt:400 | the sender text starts with the address text, and has no newline when the address text has none |
| `Messages.Display` | app/src/main/java/com/laird/udpmulticast/MainActivity.kt:271-273 | a card can be shown iff the message contains a newline; the header and body then rejoin to the message, and the header has no newline |
| `Messages.DisplayFormatted` | app/src/main/java/com/laird/udpmulticast/MainActivity.kt:403 | displaying `"来自 " + sender + "\n" + payload` gives back `"来自 " + sender` and the payload exactly, whenever the sender has no newline |
| `Messages.FormattedAlwaysDisplays` | app/src/main/java/com/laird/udpmulticast/MainActivity.kt:271-273 | the split of a formatted message always has two parts, so the destructuring never throws |
| `Messages.DisplayDatagram` | app/src/main/java/com/laird/udpmulticast/MainActivity.kt:399-403 | a card shows `"来自 "`, the sender's address text, `":"`, its port, and then the payload text |
| `Interfaces.FirstUsableFrom` | app/src/main/java/com/laird/udpmulticast/MainActivity.kt:359-376 | from a position on, the result is the first usable interface; every interface before it is unusable; no result means none is usable |
| `Interfaces.FirstUsable` | app/src/main/java/com/laird/udpmulticast/MainActivity.kt:357-376 | the first interface that is up, not loopback, multicast-capable, named `wlan…` and accepted by the socket; every earlier one fails a test; none iff no interface qualifies |
| `Interfaces.SelectInterface` | app/src/main/java/com/laird/udpmulticast/MainActivity.kt:357-381 | the search loop returns that same first usable interface, skips one whose assignment throws, and reports none iff no interface qualifies |
| `Receiver.EndsLoopExamples` | app/src/main/java/com/laird/udpmulticast/MainActivity.kt:406 | only a `SocketException` whose message contains "Socket closed" ends the loop; a null message or another exception type does not |
| `Receiver.Truncate` | app/src/main/java/com/laird/udpmulticast/MainActivity.kt:393-399 | the payload kept is the first min(length, 4096) bytes of the datagram |
| `Receiver.DatagramPacket.constructor` | app/src/main/java/com/laird/udpmulticast/MainActivity.kt:396 | a packet over the given buffer with the given length, which may not exceed the buffer (Java throws `IllegalArgumentException` otherwise); the loop passes `buffer.size`, so each packet has the full capacity |
| `Receiver.DatagramPacket.Receive` | app/src/main/java/com/laird/udpmulticast/MainActivity.kt:396-398 | a receive copies at most the packet's length into the front of the buffer, leaves the bytes past it as they were, and sets the length to the number of bytes kept |
| `Receiver.ReceiveLoop` | app/src/main/java/com/laird/udpmulticast/MainActivity.kt:392-414 | the loop hands over exactly the formatted messages of the specification `Deliveries`, and stops at a close iff one occurs |
| `Receiver.DeliveriesFitBuffer` | app/src/main/java/com/laird/udpmulticast/MainActivity.kt:393-399 | every payload handed over is at most 4096 bytes |
| `Receiver.DeliveriesAppend` | app/src/main/java/com/laird/udpmulticast/MainActivity.kt:394-413 | before any close, the deliveries of `a + b` are those of `a` followed by those of `b`: arrival order is kept |
| `Receiver.DeliveriesStopAtClose` | app/src/main/java/com/laird/udpmulticast/MainActivity.kt:405-409 | nothing after the first "Socket closed" is handed over |
| `Receiver.DeliveriesSkipError` | app/src/main/java/com/laird/udpmulticast/MainActivity.kt:405-412 | any other receive error hands nothing over and the loop carries on |
| `Receiver.DeliveriesOfDatagram` | app/src/main/java/com/laird/udpmulticast/MainActivity.kt:393-404 | each datagram adds one delivery of its sender and its first 4096 bytes, whatever the datagrams before it were |
| `Receiver.BeforeClose` | app/src/main/java/com/laird/udpmulticast/MainActivity.kt:394-409 | the outcomes the loop handles form a prefix with no close, followed by a close when shorter than the input |
| `Receiver.DeliveriesCount` | app/src/main/java/com/laird/udpmulticast/MainActivity.kt:394-413 | the number of messages equals the number of datagrams before the first close |
| `Receiver.RenderedDisplay` | app/src/main/java/com/laird/udpmulticast/MainActivity.kt:403 | the k-th message handed over displays as its sender's header and its decoded payload |
| `Session.MulticastSocket.constructor` | app/src/main/java/com/laird/udpmulticast/MainActivity.kt:352 | a new socket is open, unbound, in no group, with the default time-to-live, `SO_REUSEADDR` on and `SO_BROADCAST` on (the platform enables broadcast when it creates a datagram socket) |
| `Session.StartMulticastListener` | app/src/main/java/com/laird/udpmulticast/MainActivity.kt:341-390 | the setup fails with the first step that throws; it returns a socket bound to the port (to the system's temporary port when the port is 0), on the selected interface, with time-to-live 255, loopback mode `false`, broadcast on, in the resolved group; a socket created before a failure stays open |
| `Session.JoinPortFailureIff` | app/src/main/java/com/laird/udpmulticast/MainActivity.kt:194 | for port text that passes the edit filter, `port.toInt()` makes a join fail exactly when the field is empty |
| `Session.MulticastScreen.constructor` | app/src/main/java/com/laird/udpmulticast/MainActivity.kt:101-107 | the saved address and port, or `"239.255.255.250"` and `"1900"`; nothing joined or listening, no socket, lock balance 0 |
| `Session.MulticastScreen.EditAddress` | app/src/main/java/com/laird/udpmulticast/MainActivity.kt:144-151 | the address field takes every edit |
| `Session.MulticastScreen.EditPort` | app/src/main/java/com/laird/udpmulticast/MainActivity.kt:160-169 | the port field changes by the edit filter, and the screen invariant (with the port passing the filter) is kept |
| `Session.MulticastScreen.ClearMessages` | app/src/main/java/com/laird/udpmulticast/MainActivity.kt:238 | the message list becomes empty, in every state |
| `Session.MulticastScreen.Join` | app/src/main/java/com/laird/udpmulticast/MainActivity.kt:183-205 | no change when already joined or without Wi-Fi; otherwise the join succeeds iff `port.toInt()` and the setup succeed, and fails with `port.toInt()` iff the field is empty; success adds the configured socket to the running loops and keeps the lock acquired once more, without setting `socketRef`; on a failure `isJoined` is false again, the lock balance is back to its old value, and a socket created before the failure is left open |
| `Session.MulticastScreen.Leave` | app/src/main/java/com/laird/udpmulticast/MainActivity.kt:213-229 | with a socket in `socketRef` the lock is released exactly once and that socket is closed iff `leaveGroup` with the current address text succeeds, its other settings unchanged; in every case `socketRef` is null and `isJoined` false afterwards, and the running loops are untouched |
| `Session.MulticastScreen.Send` | app/src/main/java/com/laird/udpmulticast/MainActivity.kt:302-318 | the test message goes to the current group and port iff resolution, `toInt`, the port range and the send all succeed; the send socket stays open iff it fails; the handler has no `modifies`, so `isJoined` and `socketRef` cannot change |
| `Session.MulticastScreen.Receive` | app/src/main/java/com/laird/udpmulticast/MainActivity.kt:194-196 | a running loop's messages are appended to the list in order, and every message stays displayable |
| `Session.LeaveTwice` | app/src/main/java/com/laird/udpmulticast/MainActivity.kt:214-228 | in every state the screen reaches, leave finds no socket in `socketRef`, so neither of two leaves changes the lock balance or the running loops |
| `Session.JoinThenLeave` | app/src/main/java/com/laird/udpmulticast/MainActivity.kt:184-228 | after a successful join, leave with the address unchanged leaves the lock acquired once more and the new socket open, in the group and listening |
| `Session.JoinLeaveJoin` | app/src/main/java/com/laird/udpmulticast/MainActivity.kt:184-228 | join, leave and join again: when the setup succeeds, two distinct sockets listen and the lock is held twice more |

## Left out

- Compose layout, auto-scrolling, toasts, icons, log calls and the card
  timestamps (`SimpleDateFormat`): these are presentation only.
- DataStore: writes on each edit and the continuous `collect` of saved
  settings. The saved values are constructor parameters, read once.
- `ConnectivityManager` callbacks and `checkNetworkState`: the Wi-Fi check
  is a boolean input to `Join`.
- Real socket calls. `bind`, `joinGroup`, `send`, the interface
  assignment and the three option setters of lines 384-386 (together)
  return or throw according to the `Network` input. `leaveGroup` throws
  exactly when the current address text does not resolve to the joined
  group. `MulticastSocket(null)`, `reuseAddress = true`, `DatagramSocket()`
  and `close` always succeed in the model. Exceptions thrown by `isUp`,
  `isLoopback` or `supportsMulticast` during the interface search are not
  modelled.
- `InetAddress.getByName` is a function input. `InetAddress.toString()` in
  the sender text is an input too (the datagram's address text).
- Charset work: `String(bytes, 0, length)` is a function parameter, and the
  UTF-8 bytes of the test message are not modelled (its text is).
- Coroutines and dispatchers: each handler is one atomic step, up to the
  point where a successful join's coroutine suspends for good (see above).
  Interleavings of handlers with a join whose setup is still under way are
  not modelled, for example a leave pressed while `isJoined` is already
  true but the setup has not finished.
- The endless `while (true)` receive loop runs over a finite sequence of
  outcomes. When the sequence ends without a close, the loop is still
  waiting.
- Kotlin's `isDigit` and `toIntOrNull` accept every Unicode decimal digit.
  The model accepts only ASCII `'0'..'9'`.
- Validation.AddressMatches: accepts only ASCII digits in a group. Android's
  `java.util.regex` is backed by ICU, where `\d` matches every Unicode
  decimal digit, so line 155 also accepts e.g. Devanagari or Gurmukhi
  digits.
- Session.MulticastScreen.Receive: requires that no receive of the batch
  throws "Socket closed". Messages come only from a running loop, no handler
  closes a running loop's socket, and Java raises that exception only on a
  closed socket. The end of a loop and the late `socketRef` assignment it
  would allow are therefore not modelled on the screen; `Receiver.ReceiveLoop`
  models the loop's end on its own.
- Android's multicast lock throws when released below zero. The model keeps
  a plain counter; the `Valid` invariant shows the balance always equals the
  number of running loops, so that throw cannot happen here.
- The clear button's enabled state and the join/leave/send buttons'
  enabled states are not modelled. The handlers are modelled as callable
  in any state.
