// SOCKS5 addresses and socket addresses.
module Addresses {
  import opened Records
  import opened Options

  /** hev_socks5_addr_len: the bytes of an address, by its type and for a name by its length byte. */
  function AddrLen(addr: seq<byte>): (len: int)
    requires |addr| >= 2
    ensures len == -1 || 4 <= len <= 259
  {
    var n: int := addr[1];
    if addr[0] == 1 then 7 else if addr[0] == 4 then 19 else if addr[0] == 3 then 4 + n else -1
  }

  predicate GoodAddr(addr: seq<byte>) { |addr| >= 2 && AddrLen(addr) == |addr| }

  // ----- socket addresses -----

  datatype Sockaddr = Sockaddr(ip: seq<byte>, port: seq<byte>)

  const ZERO: Sockaddr := Sockaddr([0, 0, 0, 0, 0, 0, 0, 0, 0, 0, 0, 0, 0, 0, 0, 0], [0, 0])
  const MAPPED: seq<byte> := [0, 0, 0, 0, 0, 0, 0, 0, 0, 0, 255, 255]

  predicate GoodSockaddr(a: Sockaddr) { |a.ip| == 16 && |a.port| == 2 }

  /** hev_socks5_addr_from_sockaddr6 */
  function FromSockaddr(a: Sockaddr): (r: seq<byte>)
    requires GoodSockaddr(a)
    ensures |r| in {7, 19} && AddrLen(r) == |r|
  {
    if a.ip[..12] == MAPPED then [1] + a.ip[12..] + a.port else [4] + a.ip + a.port
  }

  /** hev_socks5_addr_into_sockaddr6; names are resolved by the environment. */
  function IntoSockaddr(addr: seq<byte>, names: map<seq<byte>, Sockaddr>): (a: Option<Sockaddr>)
    requires GoodAddr(addr)
  {
    if addr[0] == 1 then Some(Sockaddr(MAPPED + addr[1..5], addr[5..7]))
    else if addr[0] == 4 then Some(Sockaddr(addr[1..17], addr[17..19]))
    else if addr in names then Some(names[addr]) else None
  }

  /** An address comes back from its socket address unless it is an IPv4 address written as IPv6. */
  lemma SockaddrBack(addr: seq<byte>)
    requires GoodAddr(addr) && addr[0] != 3
    ensures var a := IntoSockaddr(addr, map[]);
      a.Some? && GoodSockaddr(a.value) && (FromSockaddr(a.value) == addr <==> !(addr[0] == 4 && addr[1..13] == MAPPED))
  {
    var a := IntoSockaddr(addr, map[]).value;
    if addr[0] == 1 {
      assert a.ip[..12] == MAPPED && a.ip[12..] == addr[1..5];
      assert addr == [1] + addr[1..5] + addr[5..7];
    } else {
      assert a.ip[..12] == addr[1..13];
      assert addr == [4] + addr[1..17] + addr[17..19];
      assert FromSockaddr(a)[0] == 4 || FromSockaddr(a)[0] == 1;
    }
  }
}
