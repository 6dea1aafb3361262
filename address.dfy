/**
 * The IPv4 socket address value type: an ip and a port in host order, the
 * `sockaddr_in` image that carries them in network (big-endian) order, and
 * the lexicographic order that lets a `std::set` of addresses hold each
 * (ip, port) pair once.
 */
module Net {
  import opened ByteOrder
  import opened Wrappers
  import Utils

  type Ipv4 = n: nat | n < 0x1_0000_0000
  type Port = n: nat | n < 0x1_0000

  type Bytes2 = s: seq<byte> | |s| == 2 witness [0, 0]
  type Bytes4 = s: seq<byte> | |s| == 4 witness [0, 0, 0, 0]
  type Bytes8 = s: seq<byte> | |s| == 8 witness [0, 0, 0, 0, 0, 0, 0, 0]

  /** The address family of IPv4. */
  const AfInet: nat := 2
  /** `sizeof(sockaddr_in)`. */
  const SockaddrInSize: nat := 16

  /** `sockaddr_in`: the port and the address are stored in network byte order. */
  datatype SockaddrIn = SockaddrIn(family: nat, port: Bytes2, addr: Bytes4, zero: Bytes8)

  /** `net::address`; a default-constructed one is ip 0, port 0. */
  datatype Address = Address(ip: Ipv4, port: Port)

  const DefaultAddress: Address := Address(0, 0)

  lemma Pow256Of2And4()
    ensures Pow256(2) == 0x1_0000 && Pow256(4) == 0x1_0000_0000
  {
  }

  /** `address(const sockaddr_in&)`: ntohl of the address and ntohs of the port. */
  function FromSockaddrIn(src: SockaddrIn): (a: Address)
    ensures ToBigEndian(a.ip, 4) == src.addr && ToBigEndian(a.port, 2) == src.port
  {
    Pow256Of2And4();
    var ip: Ipv4 := FromBigEndian(src.addr);
    var port: Port := FromBigEndian(src.port);
    assert ToBigEndian(ip, 4) == src.addr by {
      EncodeDecode(src.addr);
    }
    assert ToBigEndian(port, 2) == src.port by {
      EncodeDecode(src.port);
    }
    Address(ip, port)
  }

  /**
   * `address(const sockaddr*, socklen_t)`: a size other than that of
   * `sockaddr_in` is a logic error; otherwise the bytes are read as a
   * `sockaddr_in`.
   */
  function FromSockaddr(src: SockaddrIn, size: nat): (r: Result<Address, Utils.Error>)
    ensures r.Success? <==> size == SockaddrInSize
    ensures r.Failure? ==> r.error == Utils.LogicError("address size mismatch")
    ensures r.Success? ==> r.value == FromSockaddrIn(src)
  {
    if size != SockaddrInSize then Failure(Utils.LogicError("address size mismatch"))
    else Success(FromSockaddrIn(src))
  }

  /** `address::data()`: family AF_INET, port and address in network order, zero padding. */
  function Data(a: Address): (s: SockaddrIn)
    ensures s.family == AfInet
    ensures FromBigEndian(s.port) == a.port && FromBigEndian(s.addr) == a.ip
    ensures forall i :: 0 <= i < 8 ==> s.zero[i] == 0
  {
    DecodeEncode(a.port, 2);
    DecodeEncode(a.ip, 4);
    SockaddrIn(AfInet, ToBigEndian(a.port, 2), ToBigEndian(a.ip, 4), [0, 0, 0, 0, 0, 0, 0, 0])
  }

  /** Reading back the image `data()` produces gives the same address. */
  lemma DataRoundTrip(a: Address)
    ensures FromSockaddrIn(Data(a)) == a
    ensures FromSockaddr(Data(a), SockaddrInSize) == Success(a)
  {
  }

  /** Two addresses with the same `sockaddr_in` image are equal. */
  lemma DataInjective(a: Address, b: Address)
    ensures Data(a) == Data(b) <==> a == b
  {
    if Data(a) == Data(b) {
      DataRoundTrip(a);
      DataRoundTrip(b);
    }
  }

  // ---------------------------------------------------------------------------
  // The defaulted `<=>`: ip first, then port.

  predicate Less(a: Address, b: Address) {
    a.ip < b.ip || (a.ip == b.ip && a.port < b.port)
  }

  /** The address as one number, ip in the high bits: an independent view of the order. */
  function Key(a: Address): (k: nat)
    ensures k < 0x1_0000_0000 * 0x1_0000
  {
    a.ip * 0x1_0000 + a.port
  }

  /** The order is the numeric order of the keys, and the keys tell addresses apart. */
  lemma LessIsKeyOrder(a: Address, b: Address)
    ensures Less(a, b) <==> Key(a) < Key(b)
    ensures a == b <==> Key(a) == Key(b)
  {
    if a.ip < b.ip {
      assert a.ip * 0x1_0000 + 0x1_0000 <= b.ip * 0x1_0000;
    } else if b.ip < a.ip {
      assert b.ip * 0x1_0000 + 0x1_0000 <= a.ip * 0x1_0000;
    }
  }

  /** A strong order: exactly one of a < b, a == b, b < a holds, and < is transitive. */
  lemma LessIsStrictTotalOrder(a: Address, b: Address, c: Address)
    ensures !Less(a, a)
    ensures Less(a, b) || a == b || Less(b, a)
    ensures !(Less(a, b) && Less(b, a))
    ensures Less(a, b) && Less(b, c) ==> Less(a, c)
  {
  }

  /** Two addresses are equivalent under the order (neither is less) exactly when they are equal. */
  lemma EquivalentIffEqual(a: Address, b: Address)
    ensures !Less(a, b) && !Less(b, a) <==> a == b
  {
  }

  // ---------------------------------------------------------------------------
  // A `std::set<address>`: the elements in increasing order, each once.

  predicate StrictlySorted(s: seq<Address>) {
    forall i, j :: 0 <= i < j < |s| ==> Less(s[i], s[j])
  }

  /** `std::set::insert`: a, put in its place unless an equal element is already there. */
  function SetInsert(s: seq<Address>, a: Address): (r: seq<Address>)
    requires StrictlySorted(s)
    ensures StrictlySorted(r)
    ensures forall x :: x in r <==> x in s || x == a
    ensures a in s ==> r == s
    ensures a !in s ==> |r| == |s| + 1
  {
    if |s| == 0 then [a]
    else if Less(a, s[0]) then [a] + s
    else if a == s[0] then s
    else
      var rest := SetInsert(s[1..], a);
      HeadBelowRest(s, a, rest);
      [s[0]] + rest
  }

  /** Inserting a larger address into the tail keeps the head below every element. */
  lemma HeadBelowRest(s: seq<Address>, a: Address, rest: seq<Address>)
    requires StrictlySorted(s) && |s| > 0 && Less(s[0], a)
    requires forall x :: x in rest <==> x in s[1..] || x == a
    ensures StrictlySorted(rest) ==> StrictlySorted([s[0]] + rest)
    ensures forall x :: x in [s[0]] + rest <==> x in s || x == a
  {
    assert forall x :: x in s <==> x == s[0] || x in s[1..] by {
      assert s == [s[0]] + s[1..];
    }
    forall j | 0 <= j < |rest|
      ensures Less(s[0], rest[j])
    {
      assert rest[j] in rest;
      if rest[j] in s[1..] {
        var k :| 0 <= k < |s[1..]| && s[1..][k] == rest[j];
        assert s[k + 1] == rest[j];
      }
    }
  }

  /** A strictly sorted sequence holds each (ip, port) pair at most once. */
  lemma SortedHasNoDuplicates(s: seq<Address>)
    requires StrictlySorted(s)
    ensures forall i, j :: 0 <= i < |s| && 0 <= j < |s| && s[i] == s[j] ==> i == j
  {
  }
}
