// Machine integers and network addresses, as the client and the server share them.
module Net {

  type uint8 = x: int | 0 <= x < 0x100
  type uint16 = x: int | 0 <= x < 0x1_0000
  type uint32 = x: int | 0 <= x < 0x1_0000_0000
  type uint64 = x: int | 0 <= x < 0x1_0000_0000_0000_0000

  type Bytes = seq<uint8>

  // Addresses are the big-endian value of their octets.
  type Ipv4Addr = x: int | 0 <= x < 0x1_0000_0000
  type Ipv6Addr = x: int | 0 <= x < 0x1_0000_0000_0000_0000_0000_0000_0000_0000

  datatype IpAddr = V4(v4: Ipv4Addr) | V6(v6: Ipv6Addr)

  datatype SocketAddr = SocketAddr(ip: IpAddr, port: uint16)

  type Prefix4 = p: int | 0 <= p <= 32
  type Prefix6 = p: int | 0 <= p <= 128

  // A host address together with the prefix length of its network.
  datatype IpNet =
    | Net4(addr4: Ipv4Addr, prefix4: Prefix4)
    | Net6(addr6: Ipv6Addr, prefix6: Prefix6)
  {
    function Addr(): IpAddr {
      match this
      case Net4(a, _) => V4(a)
      case Net6(a, _) => V6(a)
    }
  }

}
