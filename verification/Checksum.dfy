/** Internet checksums of the packets the stack emits (k64_net.c:88-172, 306-359, 402-416, 536-541, 991-1013; RFC 1071). */
module Checksum {
  import opened Blocks

  const WORD32: nat := 0x1_0000_0000

  /** The 16-bit big-endian words of the data added up, an odd last byte as the high half of a word. */
  function Sum(d: seq<Byte>): nat {
    if |d| == 0 then 0
    else if |d| == 1 then d[0] * 256
    else d[0] * 256 + d[1] + Sum(d[2..])
  }

  /** Carries added back in until 16 bits are left. */
  function Fold(n: nat): (r: nat)
    ensures r < 0x1_0000
    decreases n
  {
    if n < 0x1_0000 then n else Fold(n % 0x1_0000 + n / 0x1_0000)
  }

  function Complement(n: nat): nat
    requires n < 0x1_0000
  {
    0xFFFF - n
  }

  /** A receiver's test. */
  predicate Verifies(total: nat) { Fold(total) == 0xFFFF }

  // ---------------------------------------------------------------------------------------
  // One's complement arithmetic
  // ---------------------------------------------------------------------------------------

  /** Folding keeps the value modulo 65535 and tells zero from the rest. */
  lemma {:induction false} FoldMod(n: nat)
    ensures Fold(n) % 0xFFFF == n % 0xFFFF && (Fold(n) == 0 <==> n == 0)
    decreases n
  {
    if n >= 0x1_0000 {
      var q, r := n / 0x1_0000, n % 0x1_0000;
      FoldMod(r + q);
      ModMultiple(q + r, q);
      assert n == q + r + q * 0xFFFF;
    }
  }

  lemma {:induction false} ModMultiple(a: nat, k: nat)
    ensures (a + k * 0xFFFF) % 0xFFFF == a % 0xFFFF
  {
    var q, r := a / 0xFFFF, a % 0xFFFF;
    assert a == q * 0xFFFF + r;
    assert a + k * 0xFFFF == (q + k) * 0xFFFF + r;
  }

  lemma {:induction false} VerifiesIff(n: nat)
    ensures Verifies(n) <==> n > 0 && n % 0xFFFF == 0
  {
    FoldMod(n);
    var f := Fold(n);
    assert f % 0xFFFF == 0 <==> f == 0 || f == 0xFFFF;
  }

  /** The complement of the folded sum, added in, verifies. */
  lemma {:induction false} ComplementVerifies(s: nat)
    ensures Verifies(s + Complement(Fold(s)))
  {
    FoldMod(s);
    SmallRemainder(Fold(s));
    FillUp(s, Fold(s));
    VerifiesIff(s + Complement(Fold(s)));
  }

  lemma {:induction false} FillUp(s: nat, f: nat)
    requires f <= 0xFFFF && s % 0xFFFF == (if f == 0xFFFF then 0 else f) && (f == 0 <==> s == 0)
    ensures s + (0xFFFF - f) > 0 && (s + (0xFFFF - f)) % 0xFFFF == 0
  {
    if f != 0xFFFF {
      var q := s / 0xFFFF;
      assert s + (0xFFFF - f) == 0 + (q + 1) * 0xFFFF;
      ModMultiple(0, q + 1);
    }
  }

  /** And so does all ones where the complement is zero. */
  lemma {:induction false} OnesVerify(s: nat)
    requires Complement(Fold(s)) == 0
    ensures Verifies(s + 0xFFFF)
  {
    FoldMod(s);
    ModMultiple(s, 1);
    VerifiesIff(s + 0xFFFF);
  }

  /** No other 16-bit value does, up to the two ways to write zero. */
  lemma {:induction false} OnlyComplementVerifies(s: nat, c: nat)
    requires c < 0x1_0000 && Verifies(s + c)
    ensures var k := Complement(Fold(s)); c == k || (c == 0 && k == 0xFFFF) || (c == 0xFFFF && k == 0)
  {
    VerifiesIff(s + c);
    FoldMod(s);
    var f := Fold(s);
    var q := s / 0xFFFF;
    assert s == q * 0xFFFF + s % 0xFFFF;
    ModMultiple(s % 0xFFFF + c, q);
    assert s + c == s % 0xFFFF + c + q * 0xFFFF;
    SmallMultiple(s % 0xFFFF, c);
    SmallRemainder(f);
  }

  lemma SmallMultiple(r: nat, c: nat)
    requires r < 0xFFFF && c <= 0xFFFF && (r + c) % 0xFFFF == 0
    ensures r + c == 0 || r + c == 0xFFFF
  {
  }

  lemma SmallRemainder(f: nat)
    requires f <= 0xFFFF
    ensures f % 0xFFFF == if f == 0xFFFF then 0 else f
  {
  }

  // ---------------------------------------------------------------------------------------
  // Sums of byte strings
  // ---------------------------------------------------------------------------------------

  lemma {:induction false} SumConcat(a: seq<Byte>, b: seq<Byte>)
    requires |a| % 2 == 0
    ensures Sum(a + b) == Sum(a) + Sum(b)
    decreases |a|
  {
    if a == [] {
      assert a + b == b;
    } else {
      SumConcat(a[2..], b);
      assert (a + b)[2..] == a[2..] + b;
    }
  }

  /** An odd string sums like the string with a zero byte more (section 1 of RFC 1071). */
  lemma {:induction false} SumPadded(d: seq<Byte>)
    requires |d| % 2 == 1
    ensures Sum(d) == Sum(d + [0])
    decreases |d|
  {
    var padded: seq<Byte> := d + [0];
    if |d| > 1 {
      SumPadded(d[2..]);
      assert padded[2..] == d[2..] + [0];
    } else {
      assert padded[2..] == [];
    }
  }

  lemma {:induction false} SumBound(d: seq<Byte>)
    ensures Sum(d) <= 0xFFFF * ((|d| + 1) / 2)
    decreases |d|
  {
    if |d| >= 2 {
      SumBound(d[2..]);
    }
  }

  function Put16(v: nat): (b: seq<Byte>)
    requires v < 0x1_0000
    ensures |b| == 2 && Sum(b) == v
  {
    assert v / 256 < 256;
    [v / 256, v % 256]
  }

  function Put32(v: nat): (b: seq<Byte>)
    requires v < WORD32
    ensures |b| == 4 && (b[0] as int) * 0x100_0000 + (b[1] as int) * 0x1_0000 + (b[2] as int) * 0x100 + b[3] == v
  {
    Put16(v / 0x1_0000) + Put16(v % 0x1_0000)
  }

  /** The pseudo-header that goes into a TCP or UDP checksum. */
  function Pseudo(src: nat, dst: nat, proto: Byte, len: nat): (b: seq<Byte>)
    requires src < WORD32 && dst < WORD32 && len < 0x1_0000
    ensures |b| == 12 && b[0..4] == Put32(src) && b[4..8] == Put32(dst) && b[8] == 0 && b[9] == proto && (b[10] as int) * 256 + b[11] == len
  {
    Put32(src) + Put32(dst) + [0, proto] + Put16(len)
  }

  // ---------------------------------------------------------------------------------------
  // The loops
  // ---------------------------------------------------------------------------------------

  lemma {:induction false} WrapAdd(a: nat, b: nat)
    ensures (a % WORD32 + b) % WORD32 == (a + b) % WORD32
  {
    var q := a / WORD32;
    assert a + b == q * WORD32 + (a % WORD32 + b);
    WrapOff(q, a % WORD32 + b);
  }

  lemma {:induction false} WrapOff(q: nat, r: nat)
    ensures (q * WORD32 + r) % WORD32 == r % WORD32
  {
    assert q * WORD32 + r == (q + r / WORD32) * WORD32 + r % WORD32;
  }

  /** csum_add_bytes: the 32-bit accumulator may wrap, but not when it starts in its lower half. */
  method AddBytes(start: nat, data: seq<Byte>) returns (sum: nat)
    requires start < WORD32 && |data| < 0x1_0000
    ensures sum == (start + Sum(data)) % WORD32
    ensures start < 0x8000_0000 ==> sum == start + Sum(data)
  {
    SumBound(data);
    sum := start;
    var i := 0;
    assert data[0..] == data;
    while |data| - i > 1
      invariant i <= |data| && sum < WORD32 && (sum + Sum(data[i..])) % WORD32 == (start + Sum(data)) % WORD32
    {
      assert data[i..][2..] == data[i + 2..];
      var hi: int := data[i];
      var word := hi * 256 + data[i + 1];
      WrapAdd(sum + word, Sum(data[i + 2..]));
      sum := (sum + word) % WORD32;
      i := i + 2;
    }
    if |data| - i > 0 {
      var hi: int := data[i];
      sum := (sum + hi * 256) % WORD32;
    }
  }

  /** csum_finish. */
  method Finish(total: nat) returns (r: nat)
    requires total < WORD32
    ensures r == Complement(Fold(total))
  {
    var sum := total;
    while sum / 0x1_0000 != 0
      invariant Fold(sum) == Fold(total)
      decreases sum
    {
      sum := sum % 0x1_0000 + sum / 0x1_0000;
    }
    r := 0xFFFF - sum;
  }

  /** csum16. */
  method Csum16(data: seq<Byte>) returns (r: nat)
    requires |data| < 0x1_0000
    ensures r == Complement(Fold(Sum(data)))
  {
    var sum := AddBytes(0, data);
    r := Finish(sum);
  }

  const TCP: Byte := 6
  const UDP: Byte := 17

  method TcpChecksum(src: nat, dst: nat, tcp: seq<Byte>) returns (r: nat)
    requires src < WORD32 && dst < WORD32 && |tcp| < 0x1_0000
    ensures r == Complement(Fold(Sum(Pseudo(src, dst, TCP, |tcp|)) + Sum(tcp)))
  {
    SumBound(Pseudo(src, dst, TCP, |tcp|));
    var sum := AddBytes(0, Pseudo(src, dst, TCP, |tcp|));
    sum := AddBytes(sum, tcp);
    r := Finish(sum);
  }

  method UdpChecksum(src: nat, dst: nat, udp: seq<Byte>) returns (r: nat)
    requires src < WORD32 && dst < WORD32 && |udp| < 0x1_0000
    ensures 0 < r < 0x1_0000
    ensures var k := Complement(Fold(Sum(Pseudo(src, dst, UDP, |udp|)) + Sum(udp))); r == if k == 0 then 0xFFFF else k
  {
    SumBound(Pseudo(src, dst, UDP, |udp|));
    var sum := AddBytes(0, Pseudo(src, dst, UDP, |udp|));
    sum := AddBytes(sum, udp);
    r := Finish(sum);
    if r == 0 {
      r := 0xFFFF;
    }
  }

  // ---------------------------------------------------------------------------------------
  // Packets
  // ---------------------------------------------------------------------------------------

  /** A receiver's sum over a TCP segment or UDP datagram. */
  ghost predicate DatagramVerifies(src: nat, dst: nat, proto: Byte, d: seq<Byte>) {
    src < WORD32 && dst < WORD32 && |d| < 0x1_0000 && Verifies(Sum(Pseudo(src, dst, proto, |d|)) + Sum(d))
  }

  /** Writing a value over a zero field at an even offset adds it to the sum. */
  lemma {:induction false} FieldAdds(head: seq<Byte>, v: nat, tail: seq<Byte>)
    requires |head| % 2 == 0 && v < 0x1_0000
    ensures Sum(head + Put16(v) + tail) == Sum(head + Put16(0) + tail) + v
  {
    forall u: nat | u < 0x1_0000 ensures Sum(head + Put16(u) + tail) == Sum(head) + u + Sum(tail) {
      SumConcat(head + Put16(u), tail);
      SumConcat(head, Put16(u));
    }
  }

  class NetStack {
    const mac: seq<Byte>
    const ipv4: nat
    var nextIpId: nat

    constructor (mac: seq<Byte>, ipv4: nat)
      ensures this.mac == mac && this.ipv4 == ipv4 && nextIpId == 1
    {
      this.mac, this.ipv4, this.nextIpId := mac, ipv4, 1;
    }

    /**
     * send_ipv4_from: an Ethernet frame whose IPv4 header verifies, around the payload. The total length is kept in 16 bits;
     * `overlong` tells that the length check let a payload pass that the frame cannot hold.
     */
    method SendIpv4(dstMac: seq<Byte>, src: nat, dst: nat, proto: Byte, payload: seq<Byte>) returns (frame: Option<seq<Byte>>, overlong: bool)
      requires |mac| == 6 && |dstMac| == 6 && src < WORD32 && dst < WORD32 && nextIpId < 0x1_0000
      requires |payload| < 0x1_0000
      modifies this`nextIpId
      ensures nextIpId < 0x1_0000 && (frame.None? ==> nextIpId == old(nextIpId)) && (frame.Some? ==> nextIpId == (old(nextIpId) + 1) % 0x1_0000)
      ensures overlong <==> 20 + |payload| >= 0x1_0000
      ensures frame.None? <==> 20 + |payload| > 1500
      ensures frame.Some? ==> var f := frame.value;
                && |f| == 34 + |payload| && f[34..] == payload && f[..14] == dstMac + mac + [8, 0]
                && Verifies(Sum(f[14..34])) && f[14] == 0x45 && f[23] == proto
                && f[16..18] == Put16(20 + |payload|) && f[18..20] == Put16(old(nextIpId)) && f[26..34] == Put32(src) + Put32(dst)
    {
      var len := (20 + |payload|) % 0x1_0000;
      if len > 1500 {
        return None, false;
      }
      if 34 + |payload| > 1514 {
        return None, true;
      }
      var head: seq<Byte> := [0x45, 0] + Put16(len) + Put16(nextIpId) + Put16(0x4000) + [64, proto];
      var tail := Put32(src) + Put32(dst);
      nextIpId := (nextIpId + 1) % 0x1_0000;
      var c := Csum16(head + Put16(0) + tail);
      var header := head + Put16(c) + tail;
      FieldAdds(head, c, tail);
      ComplementVerifies(Sum(head + Put16(0) + tail));
      var eth: seq<Byte> := dstMac + mac + [8, 0];
      var f := eth + header + payload;
      FrameParts(eth, header, payload, head, Put16(c), Put32(src), Put32(dst));
      assert header[2..4] == Put16(len);
      return Some(f), false;
    }

    /** send_tcp: header, payload and a checksum that verifies; `overlong` as above, for the length of the segment. */
    method SendTcp(dstMac: seq<Byte>, dst: nat, dstPort: nat, srcPort: nat, seqNo: nat, ackNo: nat, flags: Byte, payload: seq<Byte>)
      returns (frame: Option<seq<Byte>>, overlong: bool)
      requires |mac| == 6 && |dstMac| == 6 && ipv4 < WORD32 && dst < WORD32 && nextIpId < 0x1_0000
      requires dstPort < 0x1_0000 && srcPort < 0x1_0000 && seqNo < WORD32 && ackNo < WORD32 && |payload| < 0x1_0000
      modifies this`nextIpId
      ensures nextIpId < 0x1_0000
      ensures overlong <==> 20 + |payload| >= 0x1_0000
      ensures frame.None? <==> 20 + |payload| > 1480
      ensures frame.Some? ==> var f := frame.value;
                && |f| == 54 + |payload| && f[54..] == payload && Verifies(Sum(f[14..34]))
                && f[..14] == dstMac + mac + [8, 0] && f[23] == 6 && f[26..34] == Put32(ipv4) + Put32(dst)
                && f[34..36] == Put16(srcPort) && f[36..38] == Put16(dstPort) && f[38..42] == Put32(seqNo) && f[42..46] == Put32(ackNo)
                && f[46] == 0x50 && f[47] == flags && f[48..50] == Put16(4096)
                && DatagramVerifies(ipv4, dst, TCP, f[34..])
    {
      if (20 + |payload|) % 0x1_0000 > 1480 {
        return None, false;
      }
      if 20 + |payload| > 1480 {
        return None, true;
      }
      var head: seq<Byte> := Put16(srcPort) + Put16(dstPort) + Put32(seqNo) + Put32(ackNo) + [5 * 16, flags] + Put16(4096);
      var tail: seq<Byte> := Put16(0) + payload;
      var c := TcpChecksum(ipv4, dst, head + Put16(0) + tail);
      var packet := head + Put16(c) + tail;
      FieldAdds(head, c, tail);
      ComplementVerifies(Sum(Pseudo(ipv4, dst, TCP, |packet|)) + Sum(head + Put16(0) + tail));
      frame, overlong := SendIpv4(dstMac, ipv4, dst, TCP, packet);
      TcpParts(frame.value, packet, Put16(srcPort), Put16(dstPort), Put32(seqNo), Put32(ackNo), flags, Put16(c), payload);
    }

    /** The scheme all emitters of UDP datagrams share: the checksum verifies and its field is never zero. */
    method EmitUdp(dstMac: seq<Byte>, src: nat, dst: nat, srcPort: nat, dstPort: nat, payload: seq<Byte>) returns (frame: Option<seq<Byte>>)
      requires |mac| == 6 && |dstMac| == 6 && src < WORD32 && dst < WORD32 && nextIpId < 0x1_0000
      requires srcPort < 0x1_0000 && dstPort < 0x1_0000 && 8 + |payload| <= 1480
      modifies this`nextIpId
      ensures nextIpId < 0x1_0000
      ensures frame.Some? && IsUdp(frame.value, src, dst, srcPort, dstPort, payload) && frame.value[..14] == dstMac + mac + [8, 0]
    {
      var head: seq<Byte> := Put16(srcPort) + Put16(dstPort) + Put16(8 + |payload|);
      var c := UdpChecksum(src, dst, head + Put16(0) + payload);
      var packet := head + Put16(c) + payload;
      FieldAdds(head, c, payload);
      var s := Sum(Pseudo(src, dst, UDP, |packet|)) + Sum(head + Put16(0) + payload);
      ComplementVerifies(s);
      if Complement(Fold(s)) == 0 {
        OnesVerify(s);
      }
      var overlong;
      frame, overlong := SendIpv4(dstMac, src, dst, UDP, packet);
      UdpParts(frame.value, packet, head, Put16(c), payload);
    }

    /** k64_net_send_udp: the length of the string is kept in 16 bits. */
    method SendUdp(dstMac: seq<Byte>, dst: nat, dstPort: nat, payload: seq<Byte>) returns (frame: Option<seq<Byte>>)
      requires |mac| == 6 && |dstMac| == 6 && ipv4 < WORD32 && dst < WORD32 && nextIpId < 0x1_0000 && dstPort < 0x1_0000
      modifies this`nextIpId
      ensures nextIpId < 0x1_0000
      ensures frame.None? <==> |payload| % 0x1_0000 > 1400
      ensures frame.Some? ==> IsUdp(frame.value, ipv4, dst, 49152, dstPort, payload[..|payload| % 0x1_0000]) && frame.value[..6] == dstMac
    {
      var len := |payload| % 0x1_0000;
      if len > 1400 {
        return None;
      }
      frame := EmitUdp(dstMac, ipv4, dst, 49152, dstPort, payload[..len]);
    }

    /** The end of send_dns_query: the query goes to the name server, and once more to the gateway if that is another host. */
    method SendDnsQuery(dstMac: seq<Byte>, server: nat, gateway: nat, query: seq<Byte>) returns (frames: seq<seq<Byte>>)
      requires |mac| == 6 && |dstMac| == 6 && ipv4 < WORD32 && server < WORD32 && gateway < WORD32 && nextIpId < 0x1_0000
      requires 8 + |query| <= 512
      modifies this`nextIpId
      ensures nextIpId < 0x1_0000
      ensures |frames| == if gateway != 0 && gateway != server then 2 else 1
      ensures forall k :: 0 <= k < |frames| ==> IsUdp(frames[k], ipv4, if k == 0 then server else gateway, 49153, 53, query)
    {
      var frame := EmitUdp(dstMac, ipv4, server, 49153, 53, query);
      frames := [frame.value];
      if gateway != 0 && gateway != server {
        frame := EmitUdp(dstMac, ipv4, gateway, 49153, 53, query);
        frames := frames + [frame.value];
      }
    }

    /** The end of send_dhcp_message: broadcast, from address 0. */
    method SendDhcp(message: seq<Byte>) returns (frame: Option<seq<Byte>>)
      requires |mac| == 6 && nextIpId < 0x1_0000 && 8 + |message| <= 548
      modifies this`nextIpId
      ensures nextIpId < 0x1_0000
      ensures frame.Some? && IsUdp(frame.value, 0, 0xFFFF_FFFF, 68, 67, message) && frame.value[..6] == [255, 255, 255, 255, 255, 255]
    {
      frame := EmitUdp([255, 255, 255, 255, 255, 255], 0, 0xFFFF_FFFF, 68, 67, message);
    }
  }

  /** An Ethernet frame with a UDP datagram whose header and datagram checksums verify. */
  ghost predicate IsUdp(f: seq<Byte>, src: nat, dst: nat, srcPort: nat, dstPort: nat, payload: seq<Byte>) {
    && srcPort < 0x1_0000 && dstPort < 0x1_0000 && 8 + |payload| < 0x1_0000
    && src < WORD32 && dst < WORD32
    && |f| == 42 + |payload| && f[42..] == payload && Verifies(Sum(f[14..34]))
    && f[23] == 17 && f[26..34] == Put32(src) + Put32(dst)
    && f[34..40] == Put16(srcPort) + Put16(dstPort) + Put16(8 + |payload|)
    && DatagramVerifies(src, dst, UDP, f[34..]) && (f[40] != 0 || f[41] != 0)
  }

  /** Where the fields of a segment are found in its frame. */
  lemma {:induction false} TcpParts(f: seq<Byte>, packet: seq<Byte>, a: seq<Byte>, b: seq<Byte>, n: seq<Byte>, m: seq<Byte>, flags: Byte, c: seq<Byte>, payload: seq<Byte>)
    requires |a| == 2 && |b| == 2 && |n| == 4 && |m| == 4 && |c| == 2 && |f| == 34 + |packet| && f[34..] == packet
    requires packet == a + b + n + m + [5 * 16, flags] + Put16(4096) + c + (Put16(0) + payload)
    ensures |f| == 54 + |payload| && f[54..] == payload
    ensures f[34..36] == a && f[36..38] == b && f[38..42] == n && f[42..46] == m && f[46] == 0x50 && f[47] == flags && f[48..50] == Put16(4096)
  {
    var g := f[34..];
    assert g[20..] == payload && f[54..] == g[20..];
    assert g[0..2] == a && f[34..36] == g[0..2];
    assert g[2..4] == b && f[36..38] == g[2..4];
    assert g[4..8] == n && f[38..42] == g[4..8];
    assert g[8..12] == m && f[42..46] == g[8..12];
    assert g[12] == 0x50 && g[13] == flags && f[46] == g[12] && f[47] == g[13];
    assert g[14..16] == Put16(4096) && f[48..50] == g[14..16];
  }

  lemma {:induction false} UdpParts(f: seq<Byte>, packet: seq<Byte>, head: seq<Byte>, c: seq<Byte>, payload: seq<Byte>)
    requires |head| == 6 && |c| == 2 && packet == head + c + payload && |f| == 34 + |packet| && f[34..] == packet
    ensures |f| == 42 + |payload| && f[42..] == payload && f[34..40] == head && f[40] == c[0] && f[41] == c[1]
  {
    assert packet[8..] == payload && packet[..6] == head && packet[6] == c[0] && packet[7] == c[1];
    assert f[42..] == f[34..][8..] && f[34..40] == f[34..][..6];
    assert f[40] == f[34..][6] && f[41] == f[34..][7];
  }

  lemma FrameParts(eth: seq<Byte>, header: seq<Byte>, payload: seq<Byte>, head: seq<Byte>, c: seq<Byte>, a: seq<Byte>, b: seq<Byte>)
    requires |eth| == 14 && |head| == 10 && |c| == 2 && |a| == 4 && |b| == 4 && header == head + c + (a + b)
    ensures var f := eth + header + payload;
            && f[..14] == eth && f[14..34] == header && f[34..] == payload && f[14] == head[0] && f[23] == head[9]
            && f[16..18] == header[2..4] && f[26..34] == a + b
  {
  }
}
