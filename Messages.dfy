/** The text the receive loop hands to the screen for each datagram, and how
    the screen splits it again into a header line and a body for display. */
module Messages {
  import opened Wrappers
  import opened Text

  /** "From " in the app's language: the start of every message header. */
  const SenderPrefix: string := "来自 "

  /** The sender as the loop writes it, `"${packet.address}:${packet.port}"`.
      The address's own text (`InetAddress.toString()`) is taken as given. */
  function SenderText(addressText: string, port: nat): (s: string)
    ensures '\n' !in addressText ==> '\n' !in s
    ensures StartsWith(s, addressText)
  {
    var digits := NatToDecimal(port);
    assert '\n' !in digits by {
      assert forall k :: 0 <= k < |digits| ==> IsDigit(digits[k]);
    }
    assert (addressText + ":" + digits)[..|addressText|] == addressText;
    addressText + ":" + digits
  }

  /** The message handed to the screen: the header, a newline, the payload. */
  function FormatMessage(sender: string, text: string): string {
    SenderPrefix + sender + "\n" + text
  }

  /** What a message card shows: `val (message, timestamp) =
      messages[index].split("\n", limit = 2)`. With no newline the split has
      one part and the destructuring throws, which is None here. */
  function Display(message: string): (r: Option<(string, string)>)
    ensures r.Some? <==> '\n' in message
    ensures r.Some? ==> r.value.0 + "\n" + r.value.1 == message && '\n' !in r.value.0
  {
    var parts := SplitLimit2(message, '\n');
    if |parts| == 2 then Some((parts[0], parts[1])) else None
  }

  /** Displaying a formatted message gives back its header and its payload
      exactly, also when the payload holds newlines, provided the sender
      text has none. */
  lemma {:induction false} DisplayFormatted(sender: string, text: string)
    requires '\n' !in sender
    ensures Display(FormatMessage(sender, text)) == Some((SenderPrefix + sender, text))
  {
    assert '\n' !in SenderPrefix + sender;
    assert FormatMessage(sender, text) == (SenderPrefix + sender) + ['\n'] + text;
    SplitLimit2Join(SenderPrefix + sender, '\n', text);
  }

  /** A formatted message always splits into two parts, whatever the sender,
      so displaying it never throws. */
  lemma FormattedAlwaysDisplays(sender: string, text: string)
    ensures Display(FormatMessage(sender, text)).Some?
  {
    var m := FormatMessage(sender, text);
    assert m[|SenderPrefix + sender|] == '\n';
  }

  /** The header shown for a datagram is the prefix, the sender's address text
      and its port, and the body is its payload text. */
  lemma DisplayDatagram(addressText: string, port: nat, text: string)
    requires '\n' !in addressText
    ensures Display(FormatMessage(SenderText(addressText, port), text))
      == Some((SenderPrefix + addressText + ":" + NatToDecimal(port), text))
  {
    var digits := NatToDecimal(port);
    var sender := SenderText(addressText, port);
    assert sender == addressText + ":" + digits;
    DisplayFormatted(sender, text);
    assert SenderPrefix + (addressText + ":" + digits) == SenderPrefix + (addressText + ":") + digits;
    assert SenderPrefix + (addressText + ":") == SenderPrefix + addressText + ":";
  }
}
