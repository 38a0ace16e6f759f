/** `udp_write`: an IP/UDP header built in place in front of user data, with its checksum. */
module UdpWrite {
  import opened Prelude
  import opened Checksum

  const IPPROTO_UDP: byte := 17
  const TTL_OUT: byte := 64
  const VERSION_AND_LENGTH: byte := 0x45

  /** `htons`, as bytes in memory. */
  function Net16(n: nat): (b: seq<byte>)
    requires n <= 0xffff
    ensures |b| == 2
  {
    Store(BigEndian, n)
  }

  /** Network byte order: the first byte counts 256. */
  lemma NetworkOrder16(n: nat)
    requires n <= 0xffff
    ensures 0x100 * (Net16(n)[0] as int) + (Net16(n)[1] as int) == n
  {
  }

  datatype Endpoint = Endpoint(addr: seq<byte>, port: seq<byte>)

  ghost predicate ValidEndpoint(e: Endpoint)
  {
    |e.addr| == 4 && |e.port| == 2
  }

  /**
   * What the checksum of RFC 768 covers: addresses, a zero byte, the protocol and the UDP
   * length, all from the headers of the packet, then the UDP header and its data.
   */
  function Covered(packet: seq<byte>): seq<byte>
    requires |packet| >= 28
  {
    packet[12..20] + [0, packet[9]] + packet[24..26] + packet[20..]
  }

  /** The image `udp_write` sums: the same fields in the layout of `struct udpiphdr`. */
  function Image(packet: seq<byte>): seq<byte>
    requires |packet| >= 28
  {
    Zeros(9) + [packet[9]] + packet[24..26] + packet[12..]
  }

  lemma ConcatAt<T>(a: seq<T>, b: seq<T>, n: nat)
    requires n <= |b|
    ensures (a + b)[..|a| + n] == a + b[..n] && (a + b)[|a| + n..] == b[n..]
  {
  }

  lemma {:induction false} SumConcat(h: Host, a: seq<byte>, b: seq<byte>)
    requires |a| % 2 == 0
    ensures Sum(h, a + b) == Sum(h, a) + Sum(h, b)
    decreases |b|
  {
    if b == [] {
      Nil(a);
    } else {
      var n := if |b| % 2 == 1 then |b| - 1 else |b| - 2;
      SumLast(h, b, n);
      SumConcatLast(h, a, b, n);
      SumConcat(h, a, b[..n]);
    }
  }

  lemma SumConcatLast(h: Host, a: seq<byte>, b: seq<byte>, n: nat)
    requires |a| % 2 == 0 && n % 2 == 0 && n < |b| <= n + 2
    ensures Sum(h, a + b) == Sum(h, a + b[..n]) + LastWord(h, b[n..])
  {
    SumLast(h, a + b, |a| + n);
    ConcatAt(a, b, n);
  }

  /** The order of the words of the pseudo-header does not matter. */
  lemma ImageCoversSame(h: Host, packet: seq<byte>)
    requires 28 <= |packet| <= 65535
    ensures Cksum(h, Image(packet)) == Cksum(h, Covered(packet))
  {
    var addrs, proto, len, rest := packet[12..20], [0, packet[9]], packet[24..26], packet[20..];
    SumOfCovered(h, addrs, proto, len, rest);
    SumOfImage(h, addrs, proto, len, rest);
    ImageParts(packet);
    NoOverflow(h, Image(packet));
    NoOverflow(h, Covered(packet));
  }

  lemma ImageParts(packet: seq<byte>)
    requires 28 <= |packet|
    ensures var addrs, proto, len, rest := packet[12..20], [0, packet[9]], packet[24..26], packet[20..];
            && Image(packet) == Zeros(8) + (proto + (len + (addrs + rest)))
            && Covered(packet) == addrs + (proto + (len + rest))
  {
    assert packet[12..] == packet[12..20] + packet[20..];
  }

  lemma SumOfCovered(h: Host, addrs: seq<byte>, proto: seq<byte>, len: seq<byte>, rest: seq<byte>)
    requires |addrs| == 8 && |proto| == |len| == 2
    ensures Sum(h, addrs + (proto + (len + rest))) == Sum(h, addrs) + Sum(h, proto) + Sum(h, len) + Sum(h, rest)
  {
    SumConcat(h, addrs, proto + (len + rest));
    SumConcat(h, proto, len + rest);
    SumConcat(h, len, rest);
  }

  lemma SumOfImage(h: Host, addrs: seq<byte>, proto: seq<byte>, len: seq<byte>, rest: seq<byte>)
    requires |addrs| == 8 && |proto| == |len| == 2
    ensures Sum(h, Zeros(8) + (proto + (len + (addrs + rest))))
            == Sum(h, addrs) + Sum(h, proto) + Sum(h, len) + Sum(h, rest)
  {
    SumConcat(h, Zeros(8), proto + (len + (addrs + rest)));
    SumConcat(h, proto, len + (addrs + rest));
    SumConcat(h, len, addrs + rest);
    SumConcat(h, addrs, rest);
    SumZeros(h, 8);
  }

  lemma {:induction false} SumZeros(h: Host, n: nat)
    ensures Sum(h, Zeros(n)) == 0
  {
    if n > 0 {
      var m := if n % 2 == 1 then n - 1 else n - 2;
      SumZeros(h, m);
      assert Zeros(n)[..m] == Zeros(m);
    }
  }

  /** The fields of a packet of `n` bytes that the receiver's check depends on. */
  ghost predicate Headed(packet: seq<byte>, src: Endpoint, dst: Endpoint, n: nat)
    requires 28 <= n <= 65535 && ValidEndpoint(src) && ValidEndpoint(dst)
  {
    && |packet| == n
    && packet[9] == IPPROTO_UDP
    && (forall k :: 0 <= k < 4 ==> packet[12 + k] == src.addr[k] && packet[16 + k] == dst.addr[k])
    && (forall k :: 0 <= k < 2 ==> packet[20 + k] == src.port[k] && packet[22 + k] == dst.port[k])
    && packet[24] == Net16(n - 20)[0] && packet[25] == Net16(n - 20)[1]
  }

  /** The rest of the IP header: version, total length, no fragment, time to live. */
  ghost predicate IpHeaded(packet: seq<byte>, n: nat)
    requires 28 <= n <= 65535
  {
    && |packet| == n
    && packet[0] == VERSION_AND_LENGTH && packet[1] == 0
    && packet[2] == Net16(n)[0] && packet[3] == Net16(n)[1]
    && packet[4] == packet[5] == packet[6] == packet[7] == 0
    && packet[8] == TTL_OUT
  }

  /** Zeros where the layout of `struct udpiphdr` has its unused bytes, and the length again. */
  ghost predicate Blank(packet: seq<byte>)
  {
    && |packet| >= 28
    && (forall k :: 0 <= k < 9 ==> packet[k] == 0)
    && packet[10] == packet[24] && packet[11] == packet[25]
  }

  lemma BlankIsImage(packet: seq<byte>)
    requires Blank(packet)
    ensures packet == Image(packet)
  {
  }

  /** Header bytes outside the covered fields do not reach the image. */
  lemma SameImage(p: seq<byte>, q: seq<byte>)
    requires |p| == |q| >= 28 && forall k :: 9 <= k < |p| ==> p[k] == q[k]
    ensures Image(p) == Image(q)
  {
    assert p[12..] == q[12..] && p[24..26] == q[24..26];
  }

  /** The pseudo-header and the UDP header, summed and with the checksum in place. */
  method FillAndSum(h: Host, buf: array<byte>, userlen: nat, src: Endpoint, dst: Endpoint, zerosum: bool)
    requires ValidEndpoint(src) && ValidEndpoint(dst)
    requires 28 + userlen <= 65535 && 28 + userlen == buf.Length
    modifies buf
    ensures forall k :: 28 <= k < buf.Length ==> buf[k] == old(buf[k])
    ensures Headed(buf[..], src, dst, buf.Length) && Blank(buf[..])
    ensures zerosum ==> buf[26] == buf[27] == 0
    ensures !zerosum ==> (buf[26] != 0 || buf[27] != 0) && Cksum(h, buf[..]) == 0
  {
    Fill(buf, userlen, src, dst);
    if !zerosum {
      ghost var before := buf[..];
      var c := InCksum(h, buf[..]);
      if c == 0 {
        c := 0xffff;
      }
      UdpChecksumVerifies(h, before, 26);
      buf[26], buf[27] := Store(h, c)[0], Store(h, c)[1];
      assert buf[..] == Put(h, before, 26, c);
    }
  }

  /** `bcopy` of a field. */
  method PutField(buf: array<byte>, off: nat, field: seq<byte>)
    requires off + |field| <= buf.Length
    modifies buf
    ensures forall k :: 0 <= k < |field| ==> buf[off + k] == field[k]
    ensures forall k :: 0 <= k < buf.Length && !(off <= k < off + |field|) ==> buf[k] == old(buf[k])
  {
    forall k | 0 <= k < |field| { buf[off + k] := field[k]; }
  }

  method PutEndpoints(buf: array<byte>, src: Endpoint, dst: Endpoint)
    requires ValidEndpoint(src) && ValidEndpoint(dst) && buf.Length >= 28
    modifies buf
    ensures forall k :: 0 <= k < buf.Length && !(12 <= k < 24) ==> buf[k] == old(buf[k])
    ensures forall k :: 0 <= k < 4 ==> buf[12 + k] == src.addr[k] && buf[16 + k] == dst.addr[k]
    ensures forall k :: 0 <= k < 2 ==> buf[20 + k] == src.port[k] && buf[22 + k] == dst.port[k]
  {
    PutField(buf, 12, src.addr);
    PutField(buf, 16, dst.addr);
    PutField(buf, 20, src.port);
    PutField(buf, 22, dst.port);
  }

  method Fill(buf: array<byte>, userlen: nat, src: Endpoint, dst: Endpoint)
    requires ValidEndpoint(src) && ValidEndpoint(dst)
    requires 28 + userlen <= 65535 && 28 + userlen == buf.Length
    modifies buf
    ensures forall k :: 28 <= k < buf.Length ==> buf[k] == old(buf[k])
    ensures Headed(buf[..], src, dst, buf.Length) && Blank(buf[..])
    ensures buf[26] == buf[27] == 0
  {
    forall k | 0 <= k < 28 { buf[k] := 0; }
    buf[10], buf[11] := Net16(8 + userlen)[0], Net16(8 + userlen)[1];
    buf[9] := IPPROTO_UDP;
    PutEndpoints(buf, src, dst);
    buf[24], buf[25] := buf[10], buf[11];
  }

  /**
   * `udp_write`: `buf` has room for 28 bytes of header before `userlen` bytes of data.
   * The data is untouched; unless checksums are off, the checksum field is never zero and
   * the check of RFC 768 over the packet sent comes out zero.
   */
  method UdpWrite(h: Host, buf: array<byte>, userlen: nat, src: Endpoint, dst: Endpoint, zerosum: bool)
    requires ValidEndpoint(src) && ValidEndpoint(dst)
    requires 28 + userlen <= 65535 && 28 + userlen == buf.Length
    modifies buf
    ensures forall k :: 28 <= k < buf.Length ==> buf[k] == old(buf[k])
    ensures Headed(buf[..], src, dst, buf.Length) && IpHeaded(buf[..], buf.Length)
    ensures 0x100 * (buf[2] as int) + (buf[3] as int) == 28 + userlen
    ensures 0x100 * (buf[24] as int) + (buf[25] as int) == 8 + userlen
    ensures zerosum ==> buf[26] == buf[27] == 0
    ensures !zerosum ==> (buf[26] != 0 || buf[27] != 0) && Cksum(h, Covered(buf[..])) == 0
  {
    FillAndSum(h, buf, userlen, src, dst, zerosum);
    ghost var summed := buf[..];
    BlankIsImage(summed);
    PutIpFields(buf);
    SameImage(buf[..], summed);
    ImageCoversSame(h, buf[..]);
    NetworkOrder16(28 + userlen);
    NetworkOrder16(8 + userlen);
  }

  /** The rest of the IP header, over bytes summed as zeros. */
  method PutIpFields(buf: array<byte>)
    requires 28 <= buf.Length <= 65535
    modifies buf
    ensures forall k :: 9 <= k < buf.Length ==> buf[k] == old(buf[k])
    ensures IpHeaded(buf[..], buf.Length)
  {
    buf[0], buf[1] := VERSION_AND_LENGTH, 0;
    buf[2], buf[3] := Net16(buf.Length)[0], Net16(buf.Length)[1];
    forall k | 4 <= k < 8 { buf[k] := 0; }
    buf[8] := TTL_OUT;
  }
}
