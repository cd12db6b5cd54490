/** The checks the screen applies to the two text fields: the filter on port
    edits, the port field's error flag, and the address field's error flag.
    None of them guards Join: the error flags only colour the fields. */
module Validation {
  import opened Wrappers
  import opened Text

  /** Settings used when nothing has been saved yet. */
  const DefaultAddress: string := "239.255.255.250"
  const DefaultPort: string := "1900"

  // ---------------------------------------------------------------- port

  /** The port field's edit filter: at most five characters, all digits. */
  predicate PortEditAccepted(text: string) {
    |text| <= 5 && AllDigits(text)
  }

  /** The port field after an edit: the new text when the filter accepts it,
      otherwise the field keeps its old text. Text that passes the filter
      keeps passing it, whatever edits follow. */
  function ApplyPortEdit(port: string, text: string): (r: string)
    ensures PortEditAccepted(port) ==> PortEditAccepted(r)
    ensures r == text || r == port
  {
    if PortEditAccepted(text) then text else port
  }

  /** The port field's error flag: the text is not an `Int` in 1..65535. */
  predicate PortError(port: string) {
    match ToIntOrNull(port)
    case None => true
    case Some(v) => !(1 <= v <= 65535)
  }

  /** Text the filter accepts never overflows `toIntOrNull`: it is either
      empty (an error) or the decimal number it spells, at most 99999, and
      it is flagged exactly when that number is 0 or above 65535. */
  lemma PortErrorOfAccepted(port: string)
    requires PortEditAccepted(port)
    ensures port == [] ==> PortError(port)
    ensures port != [] ==> ToIntOrNull(port) == Some(DecimalValue(port) as int)
    ensures port != [] ==> DecimalValue(port) <= 99999
    ensures port != [] ==> (PortError(port) <==> DecimalValue(port) == 0 || DecimalValue(port) > 65535)
  {
    if port != [] {
      ToIntOrNullOfDigits(port);
      DecimalValueBound(port);
      Pow10Monotone(|port|, 5);
    }
  }

  /** The decimal text of every valid port number is accepted by the filter
      and is not flagged. */
  lemma PortTextOfValidPort(p: nat)
    requires 1 <= p <= 65535
    ensures PortEditAccepted(NatToDecimal(p))
    ensures !PortError(NatToDecimal(p))
  {
    ToIntOrNullRoundTrip(p);
    DecimalTextLength(p, 5);
  }

  /** A number below 10^k has a decimal text of at most k digits. */
  lemma {:induction false} DecimalTextLength(n: nat, k: nat)
    requires k >= 1 && n < Pow10(k)
    ensures |NatToDecimal(n)| <= k
  {
    if n >= 10 {
      DecimalTextLength(n / 10, k - 1);
    }
  }

  /** "", "0", "65536" and text that is not a number are flagged. */
  lemma PortErrorExamples()
    ensures PortError("") && PortError("0") && PortError("65536") && PortError("abc")
  {
    DecimalExample("0", 0);
    DecimalExample("65536", 65536);
    ToIntOrNullRejects("abc", 0);
  }

  /** The default port and both ends of the range are not flagged. */
  lemma PortAcceptedExamples()
    ensures !PortError(DefaultPort) && !PortError("65535") && !PortError("1")
  {
    DecimalExample(DefaultPort, 1900);
    DecimalExample("65535", 65535);
    DecimalExample("1", 1);
  }

  /** `text` is the decimal text of n and the filter accepts it. */
  lemma DecimalExample(text: string, n: nat)
    requires n < 100000 && text == NatToDecimal(n)
    ensures PortEditAccepted(text) && ToIntOrNull(text) == Some(n)
  {
    ToIntOrNullRoundTrip(n);
    DecimalTextLength(n, 5);
  }

  lemma PortEditExamples()
    ensures ApplyPortEdit("1900", "19000") == "19000"
    ensures ApplyPortEdit("1900", "190000") == "1900"
    ensures ApplyPortEdit("1900", "19a0") == "1900"
    ensures ApplyPortEdit("1900", "") == ""
  {
    assert !IsDigit("19a0"[2]);
  }

  // ------------------------------------------------------------- address

  /** One group of the address pattern: `\d{1,3}`. */
  predicate IsGroup(g: string) {
    1 <= |g| <= 3 && AllDigits(g)
  }

  /** The groups joined by dots. */
  function JoinDots(groups: seq<string>): string
    requires |groups| >= 1
  {
    if |groups| == 1 then groups[0] else groups[0] + "." + JoinDots(groups[1..])
  }

  /** Whether `s` is exactly n groups separated by dots. A group holds no
      dot, so the first dot always ends the first group. */
  predicate MatchesGroups(s: string, n: nat)
    decreases n
  {
    if n == 0 then false
    else if n == 1 then IsGroup(s)
    else
      match IndexOf(s, '.')
      case None => false
      case Some(i) => IsGroup(s[..i]) && MatchesGroups(s[i + 1..], n - 1)
  }

  /** `address.matches(Regex("^\\d{1,3}\\.\\d{1,3}\\.\\d{1,3}\\.\\d{1,3}$"))`;
      `\d` is modelled as the ASCII digits '0'..'9'; on Android the ICU-backed
      regex also accepts other Unicode decimal digits. */
  predicate AddressMatches(address: string) {
    MatchesGroups(address, 4)
  }

  /** The address field's error flag: non-empty and not matching. */
  predicate AddressError(address: string) {
    address != [] && !AddressMatches(address)
  }

  /** Every dotted run of groups matches. */
  lemma {:induction false} JoinedGroupsMatch(groups: seq<string>)
    requires |groups| >= 1
    requires forall k :: 0 <= k < |groups| ==> IsGroup(groups[k])
    ensures MatchesGroups(JoinDots(groups), |groups|)
  {
    if |groups| > 1 {
      var rest := JoinDots(groups[1..]);
      JoinedGroupsMatch(groups[1..]);
      assert '.' !in groups[0] by {
        assert forall k :: 0 <= k < |groups[0]| ==> IsDigit(groups[0][k]);
      }
      assert groups[0] + "." + rest == groups[0] + ['.'] + rest;
      IndexOfAfter(groups[0], '.', rest);
      var s := groups[0] + ['.'] + rest;
      assert s[..|groups[0]|] == groups[0];
      assert s[|groups[0]| + 1..] == rest;
    }
  }

  /** Every matching string is a dotted run of groups: the groups it is made
      of, returned as a witness. */
  lemma {:induction false} MatchingSplitsIntoGroups(s: string, n: nat) returns (groups: seq<string>)
    requires MatchesGroups(s, n)
    ensures |groups| == n && n >= 1
    ensures forall k :: 0 <= k < |groups| ==> IsGroup(groups[k])
    ensures JoinDots(groups) == s
    decreases n
  {
    if n == 1 {
      groups := [s];
    } else {
      var first, tail := SplitFirstGroup(s, n);
      var rest := MatchingSplitsIntoGroups(tail, n - 1);
      groups := [first] + rest;
      assert groups[0] == first && groups[1..] == rest;
      forall k | 0 <= k < |groups| ensures IsGroup(groups[k]) {
        if k > 0 {
          assert groups[k] == rest[k - 1];
        }
      }
    }
  }

  /** A run of n >= 2 groups is its first group, a dot and a run of n - 1. */
  lemma SplitFirstGroup(s: string, n: nat) returns (first: string, tail: string)
    requires n >= 2 && MatchesGroups(s, n)
    ensures IsGroup(first) && MatchesGroups(tail, n - 1) && s == first + "." + tail
  {
    var i := IndexOf(s, '.').value;
    first, tail := s[..i], s[i + 1..];
    assert s == first + "." + tail;
  }

  /** The address pattern, stated as the language it denotes: an address is
      accepted exactly when it is four groups of one to three digits with a
      dot between consecutive groups. */
  lemma AddressMatchesIff(address: string)
    ensures AddressMatches(address) <==>
      exists groups :: |groups| == 4 && (forall k :: 0 <= k < 4 ==> IsGroup(groups[k])) && JoinDots(groups) == address
  {
    if AddressMatches(address) {
      var groups := MatchingSplitsIntoGroups(address, 4);
    }
    if exists groups :: |groups| == 4 && (forall k :: 0 <= k < 4 ==> IsGroup(groups[k])) && JoinDots(groups) == address {
      var groups :| |groups| == 4 && (forall k :: 0 <= k < 4 ==> IsGroup(groups[k])) && JoinDots(groups) == address;
      JoinedGroupsMatch(groups);
    }
  }

  /** A group and a dot followed by `rest` make a run of n groups exactly
      when `rest` is a run of n - 1 groups. */
  lemma MatchesGroupsStep(g: string, rest: string, n: nat)
    requires n >= 2 && IsGroup(g)
    ensures MatchesGroups(g + "." + rest, n) <==> MatchesGroups(rest, n - 1)
  {
    var s := g + "." + rest;
    assert '.' !in g by {
      assert forall k :: 0 <= k < |g| ==> IsDigit(g[k]);
    }
    assert s == g + ['.'] + rest;
    IndexOfAfter(g, '.', rest);
    assert s[..|g|] == g;
    assert s[|g| + 1..] == rest;
  }

  /** Four groups joined by dots match the address pattern. */
  lemma FourGroupsMatch(a: string, b: string, c: string, d: string)
    requires IsGroup(a) && IsGroup(b) && IsGroup(c) && IsGroup(d)
    ensures AddressMatches(a + "." + (b + "." + (c + "." + d)))
  {
    MatchesGroupsStep(c, d, 2);
    MatchesGroupsStep(b, c + "." + d, 3);
    MatchesGroupsStep(a, b + "." + (c + "." + d), 4);
  }

  /** The empty field and the default group are not flagged. */
  lemma AddressDefaultAccepted()
    ensures !AddressError("") && !AddressError(DefaultAddress)
  {
    DefaultGroups();
    FourGroupsMatch("239", "255", "255", "250");
    DefaultAddressJoined();
  }

  /** "999.1.1.1" is not flagged: the pattern has no 0..255 range check. */
  lemma AddressWithoutRangeCheck()
    ensures !AddressError("999.1.1.1")
  {
    OutOfRangeGroups();
    FourGroupsMatch("999", "1", "1", "1");
    OutOfRangeJoined();
  }

  /** Three groups are flagged. */
  lemma AddressTooFewGroups()
    ensures AddressError("1.2.3")
  {
    assert IndexOf("1.2.3", '.') == Some(1);
    assert IndexOf("2.3", '.') == Some(1);
    assert IndexOf("3", '.') == None;
  }

  /** Five groups are flagged. */
  lemma AddressTooManyGroups()
    ensures AddressError("1.2.3.4.5")
  {
    MatchesGroupsStep("1", "2.3.4.5", 4);
    MatchesGroupsStep("2", "3.4.5", 3);
    MatchesGroupsStep("3", "4.5", 2);
    assert !IsDigit("4.5"[1]);
    FiveGroupsSplit();
  }

  /** A four-digit group is flagged. */
  lemma AddressLongGroup()
    ensures AddressError("1234.1.1.1")
  {
    assert IndexOf("1234.1.1.1", '.') == Some(4);
  }

  /** An empty group is flagged. */
  lemma AddressEmptyGroup()
    ensures AddressError("1..2.3")
  {
    assert IndexOf("1..2.3", '.') == Some(1);
    assert IndexOf(".2.3", '.') == Some(0);
  }

  /** A trailing dot is flagged. */
  lemma AddressTrailingDot()
    ensures AddressError("1.2.3.")
  {
    assert IndexOf("1.2.3.", '.') == Some(1);
    assert IndexOf("2.3.", '.') == Some(1);
    assert IndexOf("3.", '.') == Some(1);
  }

  // Proof steps for the examples above: facts about string literals, kept
  // in lemmas of their own so that each example's proof stays small.

  lemma DefaultGroups()
    ensures IsGroup("239") && IsGroup("255") && IsGroup("250")
  {
  }

  lemma DefaultAddressJoined()
    ensures "239" + "." + ("255" + "." + ("255" + "." + "250")) == DefaultAddress
  {
  }

  lemma OutOfRangeGroups()
    ensures IsGroup("999") && IsGroup("1")
  {
  }

  lemma OutOfRangeJoined()
    ensures "999" + "." + ("1" + "." + ("1" + "." + "1")) == "999.1.1.1"
  {
  }

  lemma FiveGroupsSplit()
    ensures "1" + "." + "2.3.4.5" == "1.2.3.4.5"
    ensures "2" + "." + "3.4.5" == "2.3.4.5"
    ensures "3" + "." + "4.5" == "3.4.5"
  {
  }
}
