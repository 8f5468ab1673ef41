/** Choosing the host's MAC address for the default topic suffix (`getMacAddr`),
    over an interface listing given as input in place of `net.Interfaces()`. */
module Net {
  import opened GoTypes

  /** Go's `net.Flags` is a `uint` bit set; `net.FlagUp` is its lowest bit. */
  const FlagUp: bv64 := 1

  /** One entry of the interface listing: its flags and hardware address. */
  datatype Interface = Interface(flags: bv64, hardwareAddr: seq<byte>)

  /** The selection condition: the interface is up and its hardware address is
      not empty (`bytes.Compare(addr, nil) != 0` holds exactly for a non-empty address). */
  predicate Eligible(i: Interface) {
    i.flags & FlagUp != 0 && |i.hardwareAddr| != 0
  }

  /** The separator of `HardwareAddr.String()`, `:`. */
  const Colon: byte := 58

  /** Lower-case hexadecimal digit of a nibble, from "0123456789abcdef". */
  function HexDigit(v: int): (c: byte)
    requires 0 <= v < 16
    ensures (48 <= c <= 57) || (97 <= c <= 102)
  {
    if v < 10 then 48 + v else 97 + (v - 10)
  }

  lemma HexDigitInjective(v: int, w: int)
    requires 0 <= v < 16 && 0 <= w < 16
    ensures HexDigit(v) == HexDigit(w) ==> v == w
  {
  }

  /** `net.HardwareAddr.String()`: two lower-case hex digits per byte,
      separated by colons, and "" for the empty address. */
  function HardwareAddrString(a: seq<byte>): (s: GoString)
    ensures |s| == if |a| == 0 then 0 else 3 * |a| - 1
    decreases |a|
  {
    if |a| == 0 then []
    else
      var head := [HexDigit(a[0] / 16), HexDigit(a[0] % 16)];
      if |a| == 1 then head else head + [Colon] + HardwareAddrString(a[1..])
  }

  /** The address 00:ab:10: leading zeros are kept and letters are lower case. */
  lemma HardwareAddrStringExample()
    ensures HardwareAddrString([0, 171, 16]) == [48, 48, 58, 97, 98, 58, 49, 48]
  {
    assert [0, 171, 16][1..] == [171, 16];
    assert [171, 16][1..] == [16];
  }

  /** Where byte i of the address appears in its text form. */
  lemma {:induction false} HardwareAddrStringAt(a: seq<byte>, i: nat)
    requires i < |a|
    ensures var s := HardwareAddrString(a);
      s[3 * i] == HexDigit(a[i] / 16) && s[3 * i + 1] == HexDigit(a[i] % 16) &&
      (i + 1 < |a| ==> s[3 * i + 2] == Colon)
    decreases i
  {
    if i > 0 {
      HardwareAddrStringAt(a[1..], i - 1);
      var s, rest := HardwareAddrString(a), HardwareAddrString(a[1..]);
      assert s == [HexDigit(a[0] / 16), HexDigit(a[0] % 16), Colon] + rest;
      assert s[3 * i] == rest[3 * (i - 1)];
      assert s[3 * i + 1] == rest[3 * (i - 1) + 1];
      if i + 1 < |a| {
        assert s[3 * i + 2] == rest[3 * (i - 1) + 2];
      }
    }
  }

  /** Distinct hardware addresses have distinct text forms. */
  lemma HardwareAddrStringInjective(a: seq<byte>, b: seq<byte>)
    requires HardwareAddrString(a) == HardwareAddrString(b)
    ensures a == b
  {
    assert |a| == |b|;
    forall i | 0 <= i < |a|
      ensures a[i] == b[i]
    {
      HardwareAddrStringAt(a, i);
      HardwareAddrStringAt(b, i);
      HexDigitInjective(a[i] / 16, b[i] / 16);
      HexDigitInjective(a[i] % 16, b[i] % 16);
    }
  }

  /** Index of the first eligible interface in list order, or |ifs| if none is. */
  function FirstEligible(ifs: seq<Interface>): (k: nat)
    ensures k <= |ifs|
    ensures forall j | 0 <= j < k :: !Eligible(ifs[j])
    ensures k < |ifs| ==> Eligible(ifs[k])
    decreases |ifs|
  {
    if |ifs| == 0 then 0
    else if Eligible(ifs[0]) then 0
    else 1 + FirstEligible(ifs[1..])
  }

  /** The address `getMacAddr` returns: None stands for a failed `net.Interfaces()`. */
  function MacAddr(listing: Option<seq<Interface>>): GoString {
    if listing.None? then []
    else
      var k := FirstEligible(listing.value);
      if k < |listing.value| then HardwareAddrString(listing.value[k].hardwareAddr) else []
  }

  /** `getMacAddr`: scan the listing in order and stop at the first interface
      that is up and has a hardware address. */
  method GetMacAddr(listing: Option<seq<Interface>>) returns (addr: GoString)
    ensures addr == MacAddr(listing)
  {
    addr := [];
    if listing.Some? {
      var interfaces := listing.value;
      var i := 0;
      while i < |interfaces|
        invariant 0 <= i <= |interfaces|
        invariant forall j | 0 <= j < i :: !Eligible(interfaces[j])
        invariant addr == []
      {
        if Eligible(interfaces[i]) {
          addr := HardwareAddrString(interfaces[i].hardwareAddr);
          break;
        }
        i := i + 1;
      }
    }
  }

  /** The address is empty exactly when the listing failed or no interface is
      eligible; otherwise it is the text of the first eligible one's address. */
  lemma MacAddrEmpty(listing: Option<seq<Interface>>)
    ensures MacAddr(listing) == [] <==>
      listing.None? || forall j | 0 <= j < |listing.value| :: !Eligible(listing.value[j])
  {
    if listing.Some? {
      var k := FirstEligible(listing.value);
      if k < |listing.value| {
        assert |HardwareAddrString(listing.value[k].hardwareAddr)| > 0;
      }
    }
  }

  /** Only the first eligible interface matters: anything after it, eligible or not,
      leaves the address unchanged. */
  lemma MacAddrFirstWins(before: seq<Interface>, chosen: Interface, after: seq<Interface>)
    requires forall j | 0 <= j < |before| :: !Eligible(before[j])
    requires Eligible(chosen)
    ensures MacAddr(Some(before + [chosen] + after)) == HardwareAddrString(chosen.hardwareAddr)
  {
    var ifs := before + [chosen] + after;
    var k := FirstEligible(ifs);
    assert ifs[|before|] == chosen;
    assert forall j | 0 <= j < |before| :: ifs[j] == before[j];
    assert k == |before|;
  }
}
