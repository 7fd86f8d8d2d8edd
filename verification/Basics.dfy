/** Scalar types shared by the models: IPv4 addresses, hardware addresses, octets
    and the fixed-width integers whose wrap-around the programs depend on. */
module Basics {

  datatype Option<+T> = None | Some(value: T)

  /** An octet. */
  type Byte = n: nat | n < 256

  /** An IPv4 address as a number in host byte order; 0 stands for "no address". */
  type Ip = n: nat | n < 0x1_0000_0000

  /** An unsigned 32-bit number. */
  type U32 = n: nat | n < 0x1_0000_0000

  /** A six-octet hardware address read as one big-endian number. */
  type Mac = n: nat | n < 0x1_0000_0000_0000

  const MAC_ANY: Mac := 0
  const MAC_BCAST: Mac := 0xffff_ffff_ffff

  // DHCP message types
  const DHCPDISCOVER: Byte := 1
  const DHCPOFFER: Byte := 2
  const DHCPREQUEST: Byte := 3
  const DHCPDECLINE: Byte := 4
  const DHCPACK: Byte := 5
  const DHCPNAK: Byte := 6
  const DHCPRELEASE: Byte := 7
  const DHCPINFORM: Byte := 8

  function Pow2(n: nat): nat {
    if n == 0 then 1 else 2 * Pow2(n - 1)
  }

  /** A linked list without the first node that holds `x`. */
  function ListRemove<T(==)>(s: seq<T>, x: T): (r: seq<T>)
    ensures x !in s ==> r == s
    ensures x in s ==> |r| == |s| - 1
  {
    if s == [] then [] else if s[0] == x then s[1..] else [s[0]] + ListRemove(s[1..], x)
  }

  /** Conversion of a wide signed difference to a 32-bit signed integer. */
  function ToInt32(x: int): (r: int)
    ensures -0x8000_0000 <= r < 0x8000_0000
    ensures (x - r) % 0x1_0000_0000 == 0
  {
    (x + 0x8000_0000) % 0x1_0000_0000 - 0x8000_0000
  }

  /** Increment of an 8-bit counter. */
  function Inc8(x: Byte): (r: Byte)
    ensures r == 0 <==> x == 255
    ensures r != 0 ==> r == x + 1
  {
    (x + 1) % 256
  }
}
