/**
 * The default machine ID: the lower 16 bits of the node's private IPv4
 * address. The search over network interfaces belongs to the environment; its
 * outcome is an input here.
 */
module MachineIDs {
  import opened GoInts
  import opened Results

  /** A 4-byte IPv4 address, as net.IP.To4 returns it. */
  type IPv4 = ip: seq<uint8> | |ip| == 4 witness [0, 0, 0, 0]

  /**
   * isPrivateIPv4: the address (None for a nil net.IP) is in 10.0.0.0/8,
   * 172.16.0.0/12 or 192.168.0.0/16.
   */
  predicate IsPrivateIPv4(ip: Option<IPv4>) {
    ip.Some? &&
    (ip.value[0] == 10 ||
     (ip.value[0] == 172 && (ip.value[1] >= 16 && ip.value[1] < 32)) ||
     (ip.value[0] == 192 && ip.value[1] == 168))
  }

  /** The address as a 32-bit number, first octet most significant. */
  function AddressValue(ip: IPv4): (r: nat) {
    (ip[0] as int) * 0x100_0000 + (ip[1] as int) * 0x1_0000 + (ip[2] as int) * 0x100 + ip[3]
  }

  /** The address lies in the block base/prefixLength: the first prefixLength bits agree. */
  predicate InBlock(ip: IPv4, base: IPv4, prefixLength: nat)
    requires prefixLength <= 32
  {
    AddressValue(ip) / Pow2(32 - prefixLength) == AddressValue(base) / Pow2(32 - prefixLength)
  }

  /** The three private address blocks of section 3 of RFC 1918. */
  predicate InPrivateBlock(ip: IPv4) {
    InBlock(ip, [10, 0, 0, 0], 8) || InBlock(ip, [172, 16, 0, 0], 12) || InBlock(ip, [192, 168, 0, 0], 16)
  }

  /** The leading 8, 12 and 16 bits of an address, read off its octets. */
  lemma AddressPrefixes(a: IPv4)
    ensures AddressValue(a) / 0x100_0000 == a[0]
    ensures AddressValue(a) / 0x10_0000 == (a[0] as int) * 0x10 + a[1] / 0x10
    ensures AddressValue(a) / 0x1_0000 == (a[0] as int) * 0x100 + a[1]
  {
    var v := AddressValue(a);
    var low16 := (a[2] as int) * 0x100 + a[3];
    DivModUnique(v, 0x100_0000, a[0], (a[1] as int) * 0x1_0000 + low16);
    DivModUnique(v, 0x1_0000, (a[0] as int) * 0x100 + a[1], low16);
    DivModUnique(v, 0x10_0000, (a[0] as int) * 0x10 + a[1] / 0x10, (a[1] % 0x10) * 0x1_0000 + low16);
  }

  /** 10.0.0.0/8 as a condition on the first octet. */
  lemma InBlock10(a: IPv4)
    ensures InBlock(a, [10, 0, 0, 0], 8) <==> a[0] == 10
  {
    assert Pow2(24) == 0x100_0000 by { Pow2Values(); }
    AddressPrefixes(a);
    AddressPrefixes([10, 0, 0, 0]);
  }

  /** 172.16.0.0/12 as a condition on the first two octets. */
  lemma InBlock172(a: IPv4)
    ensures InBlock(a, [172, 16, 0, 0], 12) <==> a[0] == 172 && 16 <= a[1] < 32
  {
    assert Pow2(20) == 0x10_0000 by { Pow2Values(); Pow2Add(16, 4); assert Pow2(4) == 16; }
    AddressPrefixes(a);
    AddressPrefixes([172, 16, 0, 0]);
    var x := a[1] as int;
    assert x == (x / 0x10) * 0x10 + x % 0x10;
    if 16 <= x < 32 {
      DivModUnique(x, 0x10, 1, x - 16);
    }
  }

  /** 192.168.0.0/16 as a condition on the first two octets. */
  lemma InBlock192(a: IPv4)
    ensures InBlock(a, [192, 168, 0, 0], 16) <==> a[0] == 192 && a[1] == 168
  {
    assert Pow2(16) == 0x1_0000 by { Pow2Values(); }
    AddressPrefixes(a);
    AddressPrefixes([192, 168, 0, 0]);
  }

  /** isPrivateIPv4 accepts exactly the non-nil addresses in the RFC 1918 private blocks. */
  lemma IsPrivateIPv4MatchesRfc1918(ip: Option<IPv4>)
    ensures IsPrivateIPv4(ip) <==> ip.Some? && InPrivateBlock(ip.value)
  {
    if ip.Some? {
      InBlock10(ip.value);
      InBlock172(ip.value);
      InBlock192(ip.value);
    }
  }

  /** The packing of lower16BitPrivateIP: the third octet shifted up by 8 bits plus the fourth, in uint16. */
  function Lower16Bits(ip: IPv4): (r: uint16) {
    Add16(Shl16(ip[2], 8), ip[3])
  }

  /** The packing yields the third and fourth octets, high octet first, with no wrap-around. */
  lemma Lower16BitsOctets(ip: IPv4)
    ensures Lower16Bits(ip) == (ip[2] as int) * 0x100 + ip[3]
    ensures Lower16Bits(ip) / 0x100 == ip[2] && Lower16Bits(ip) % 0x100 == ip[3]
    ensures Lower16Bits(ip) == AddressValue(ip) % 0x1_0000
  {
    var c, d := ip[2] as int, ip[3] as int;
    var low := c * 0x100 + d;
    assert Shl16(ip[2], 8) == c * 0x100 by {
      assert Pow2(8) == 0x100 by { Pow2Values(); }
      DivModUnique(c * 0x100, TWO16, 0, c * 0x100);
    }
    assert Lower16Bits(ip) == low by {
      DivModUnique(low, TWO16, 0, low);
    }
    DivModUnique(low, 0x100, c, d);
    DivModUnique(AddressValue(ip), 0x1_0000, (ip[0] as int) * 0x100 + ip[1], low);
  }

  /**
   * lower16BitPrivateIP, given the outcome of privateIPv4 (the interface
   * search): its error is passed on, otherwise the address is packed.
   */
  function Lower16BitPrivateIP(privateIP: Result<IPv4>): (r: Result<uint16>)
    ensures privateIP.Err? ==> r == Err(privateIP.error)
    ensures privateIP.Ok? ==> r.Ok? && r.value == (privateIP.value[2] as int) * 0x100 + privateIP.value[3]
  {
    match privateIP
    case Err(e) => Err(e)
    case Ok(ip) => Lower16BitsOctets(ip); Ok(Lower16Bits(ip))
  }
}
