// Ethernet, ARP, IPv4, ICMP echo and UDP as kernel/net_proto.cc and kernel/udp.cc build
// and take apart raw frames (RFC 826, RFC 791 section 3.1, RFC 792, RFC 768).

module FrameFormat {
  import opened InternetChecksum
  import opened Addresses

  const ETH_ARP: nat := 0x0806
  const ETH_IPV4: nat := 0x0800
  const ARP_REQUEST: nat := 1
  const ARP_REPLY: nat := 2
  const PROTO_ICMP: Byte := 1
  const PROTO_UDP: Byte := 17
  const BROADCAST: Mac := [0xff, 0xff, 0xff, 0xff, 0xff, 0xff]
  const NO_MAC: Mac := [0, 0, 0, 0, 0, 0]

  function EthHead(dst: Mac, src: Mac, etherType: nat): (r: Bytes)
    requires etherType < 0x1_0000
    ensures |r| == 14
  {
    dst + src + Be16(etherType)
  }

  function ArpBody(op: nat, sha: Mac, spa: Ip, tha: Mac, tpa: Ip): (r: Bytes)
    requires op < 0x1_0000
    ensures |r| == 28
  {
    Be16(1) + Be16(0x0800) + [6, 4] + Be16(op) + sha + spa + tha + tpa
  }

  function ArpFrame(dst: Mac, src: Mac, op: nat, sha: Mac, spa: Ip, tha: Mac, tpa: Ip): (r: Bytes)
    requires op < 0x1_0000
    ensures |r| == 42
  {
    EthHead(dst, src, ETH_ARP) + ArpBody(op, sha, spa, tha, tpa)
  }

  // The header net_send_ipv4 writes, with the given checksum.
  function Ipv4Head(total: nat, proto: Byte, sum: nat, src: Ip, dst: Ip): (r: Bytes)
    requires total < 0x1_0000 && sum < 0x1_0000
    ensures |r| == 20
  {
    [0x45, 0] + Be16(total) + Be16(0x2222) + [0, 0, 64, proto] + Be16(sum) + src + dst
  }

  function SummedHead(total: nat, proto: Byte, src: Ip, dst: Ip): (r: Bytes)
    requires total < 0x1_0000
    ensures |r| == 20
  {
    Ipv4Head(total, proto, Checksum(Ipv4Head(total, proto, 0, src, dst)), src, dst)
  }

  function Ipv4Frame(dstMac: Mac, srcMac: Mac, proto: Byte, src: Ip, dst: Ip, payload: Bytes): (r: Bytes)
    requires 20 + |payload| < 0x1_0000
    ensures |r| == 34 + |payload|
  {
    EthHead(dstMac, srcMac, ETH_IPV4) + SummedHead(20 + |payload|, proto, src, dst) + payload
  }

  function UdpDatagram(srcPort: nat, dstPort: nat, payload: Bytes): (r: Bytes)
    requires srcPort < 0x1_0000 && dstPort < 0x1_0000 && 8 + |payload| < 0x1_0000
    ensures |r| == 8 + |payload|
  {
    Be16(srcPort) + Be16(dstPort) + Be16(8 + |payload|) + [0, 0] + payload
  }

  // The header with its checksum verifies.
  lemma HeadVerifies(total: nat, proto: Byte, src: Ip, dst: Ip)
    requires total < 0x1_0000
    ensures Checksum(SummedHead(total, proto, src, dst)) == 0
  {
    hide Checksum;
    var zero := Ipv4Head(total, proto, 0, src, dst);
    HeadField(total, proto, 0, src, dst);
    HeadField(total, proto, Checksum(zero), src, dst);
    StoredChecksumVerifies(zero, 10);
  }

  lemma HeadField(total: nat, proto: Byte, x: nat, src: Ip, dst: Ip)
    requires total < 0x1_0000 && x < 0x1_0000
    ensures Ipv4Head(total, proto, x, src, dst) == WithField(Ipv4Head(total, proto, 0, src, dst), 10, x)
  {
    hide Be16;
  }
}

module FrameHandling {
  import opened Basics
  import opened InternetChecksum
  import opened Addresses
  import opened RecencyList
  import opened FrameFormat

  datatype Host = Host(mac: Mac, ip: Ip)

  datatype UdpInput = UdpInput(src: Ip, data: Bytes)

  // What one frame makes the host do: learn a mapping, send a frame, pass data to UDP.
  datatype Reaction = Reaction(learn: Option<Pair>, reply: Option<Bytes>, udp: Option<UdpInput>)

  const NOTHING := Reaction(None, None, None)

  predicate MacForMe(h: Host, data: Bytes)
    requires 14 <= |data|
  {
    data[..6] == BROADCAST || data[..6] == h.mac
  }

  // handle_arp
  function HandleArp(h: Host, data: Bytes): Reaction
    requires 14 <= |data|
  {
    if |data| < 42 then NOTHING
    else
      var sha, spa := data[22..28], data[28..32];
      var learn :=
        if data[18] == 6 && data[19] == 4 && Get16(data, 14) == 1 && Get16(data, 16) == 0x0800 then Some(Pair(spa, sha))
        else None;
      var op := Get16(data, 20);
      if op == ARP_REPLY || op != ARP_REQUEST || data[38..42] != h.ip then Reaction(learn, None, None)
      else Reaction(learn, Some(ArpFrame(data[6..12], h.mac, ARP_REPLY, h.mac, h.ip, sha, spa)), None)
  }

  function HeaderLength(data: Bytes): (n: nat)
    requires 34 <= |data|
    ensures n <= 60
  {
    var low: nat := data[14] % 16;
    low * 4
  }

  // The checks handle_ipv4 makes before it looks at the protocol.
  predicate Ipv4Accepts(h: Host, data: Bytes) {
    34 <= |data| &&
    var hl := HeaderLength(data);
    20 <= hl && 14 + hl <= |data| &&
    Checksum(data[14..14 + hl]) == 0 &&
    data[30..34] == h.ip &&
    hl <= Get16(data, 16) && 14 + Get16(data, 16) <= |data|
  }

  function Zeros(n: nat): (r: Bytes)
    ensures |r| == n && forall i :: 0 <= i < n ==> r[i] == 0
  {
    if n == 0 then [] else [0] + Zeros(n - 1)
  }

  // The IP header of an echo reply with the given checksum; options come out as zeros.
  function ReplyHead(h: Host, data: Bytes, hl: nat, sum: nat): (r: Bytes)
    requires 34 <= |data| && 20 <= hl && sum < 0x1_0000
    ensures |r| == hl
  {
    [data[14], 0] + data[16..22] + [64, data[23]] + Be16(sum) + h.ip + data[26..30] + Zeros(hl - 20)
  }

  // The ICMP message of an echo reply with the given checksum.
  function ReplyMessage(data: Bytes, hl: nat, total: nat, sum: nat): (r: Bytes)
    requires hl + 8 <= total && 14 + total <= |data| && sum < 0x1_0000
    ensures |r| == total - hl
  {
    [0, 0] + Be16(sum) + data[14 + hl + 4..14 + total]
  }

  function SummedReplyHead(h: Host, data: Bytes, hl: nat): (r: Bytes)
    requires 34 <= |data| && 20 <= hl
    ensures |r| == hl
  {
    ReplyHead(h, data, hl, Checksum(ReplyHead(h, data, hl, 0)))
  }

  function SummedReplyMessage(data: Bytes, hl: nat, total: nat): (r: Bytes)
    requires hl + 8 <= total && 14 + total <= |data|
    ensures |r| == total - hl
  {
    ReplyMessage(data, hl, total, Checksum(ReplyMessage(data, hl, total, 0)))
  }

  function EchoReply(h: Host, data: Bytes, hl: nat, total: nat): (r: Bytes)
    requires 34 <= |data| && 20 <= hl && hl + 8 <= total && 14 + total <= |data|
    ensures |r| == 14 + total
  {
    data[6..12] + h.mac + data[12..14] + SummedReplyHead(h, data, hl) + SummedReplyMessage(data, hl, total)
  }

  // handle_ipv4
  function HandleIpv4(h: Host, data: Bytes): Reaction
    requires 14 <= |data|
  {
    if !Ipv4Accepts(h, data) then NOTHING
    else
      var hl, total := HeaderLength(data), Get16(data, 16);
      if data[23] == PROTO_UDP then
        Reaction(None, None, Some(UdpInput(data[26..30], data[14 + hl..14 + total])))
      else if data[23] != PROTO_ICMP || total < hl + 8 || data[14 + hl] != 8 || Checksum(data[14 + hl..14 + total]) != 0 then
        NOTHING
      else
        Reaction(None, Some(EchoReply(h, data, hl, total)), None)
  }

  // net_handle_frame
  function HandleFrame(h: Host, data: Bytes): Reaction {
    if |data| < 14 || !MacForMe(h, data) then NOTHING
    else if Get16(data, 12) == ETH_ARP then HandleArp(h, data)
    else if Get16(data, 12) == ETH_IPV4 then HandleIpv4(h, data)
    else NOTHING
  }

  // --- UDP -----------------------------------------------------------------

  const HANDLERS := 8

  datatype HandlerSlot = HandlerSlot(valid: bool, port: nat, handler: nat)

  datatype Delivery = Delivery(handler: nat, src: Ip, srcPort: nat, payload: Bytes)

  function FindHandler(table: seq<HandlerSlot>, port: nat): Option<nat> {
    if table == [] then None
    else if table[0].valid && table[0].port == port then Some(table[0].handler)
    else FindHandler(table[1..], port)
  }

  // udp_handle_packet
  function HandleUdp(table: seq<HandlerSlot>, input: UdpInput): Option<Delivery> {
    var data := input.data;
    if |data| < 8 || Get16(data, 4) < 8 || Get16(data, 4) > |data| then None
    else
      match FindHandler(table, Get16(data, 2))
      case None => None
      case Some(handler) => Some(Delivery(handler, input.src, Get16(data, 0), data[8..Get16(data, 4)]))
  }

  // --- the round trip ------------------------------------------------------

  lemma EthParts(dst: Mac, src: Mac, etherType: nat, rest: Bytes)
    requires etherType < 0x1_0000
    ensures var f := EthHead(dst, src, etherType) + rest;
      f[..6] == dst && f[6..12] == src && Get16(f, 12) == etherType && f[14..] == rest
  {
  }

  lemma Ipv4Parts(dstMac: Mac, srcMac: Mac, proto: Byte, src: Ip, dst: Ip, payload: Bytes, pad: Bytes)
    requires 20 + |payload| < 0x1_0000
    ensures var f := Ipv4Frame(dstMac, srcMac, proto, src, dst, payload) + pad;
      && f[..6] == dstMac && f[6..12] == srcMac && Get16(f, 12) == ETH_IPV4
      && HeaderLength(f) == 20 && f[14..34] == SummedHead(20 + |payload|, proto, src, dst)
      && f[23] == proto && f[26..30] == src && f[30..34] == dst && Get16(f, 16) == 20 + |payload|
      && f[34..34 + |payload|] == payload
  {
    var head := SummedHead(20 + |payload|, proto, src, dst);
    var f := Ipv4Frame(dstMac, srcMac, proto, src, dst, payload) + pad;
    assert f == EthHead(dstMac, srcMac, ETH_IPV4) + (head + payload + pad);
    EthParts(dstMac, srcMac, ETH_IPV4, head + payload + pad);
    assert f[14..34] == head;
    HeadParts(20 + |payload|, proto, Checksum(Ipv4Head(20 + |payload|, proto, 0, src, dst)), src, dst);
    assert f[14] == head[0] && f[16] == head[2] && f[17] == head[3] && f[23] == head[9];
    assert f[26..30] == head[12..16] && f[30..34] == head[16..20];
  }

  lemma HeadParts(total: nat, proto: Byte, sum: nat, src: Ip, dst: Ip)
    requires total < 0x1_0000 && sum < 0x1_0000
    ensures var h := Ipv4Head(total, proto, sum, src, dst);
      h[0] == 0x45 && Get16(h, 2) == total && h[9] == proto && h[12..16] == src && h[16..20] == dst
  {
  }

  // The bytes a router looks at: version 4 and five header words, not a fragment and free to
  // be fragmented, the identification every datagram has, and 64 hops to live.
  lemma Ipv4Wire(dstMac: Mac, srcMac: Mac, proto: Byte, src: Ip, dst: Ip, payload: Bytes, pad: Bytes)
    requires 20 + |payload| < 0x1_0000
    ensures var f := Ipv4Frame(dstMac, srcMac, proto, src, dst, payload) + pad;
      && f[..6] == dstMac && f[6..12] == srcMac && f[12..16] == [8, 0, 0x45, 0]
      && f[16] == (20 + |payload|) / 256 && f[17] == (20 + |payload|) % 256
      && f[18..24] == [0x22, 0x22, 0, 0, 64, proto] && f[26..30] == src && f[30..34] == dst && f[34..34 + |payload|] == payload
  {
    var total := 20 + |payload|;
    var head := SummedHead(total, proto, src, dst);
    var f := Ipv4Frame(dstMac, srcMac, proto, src, dst, payload) + pad;
    Ipv4Parts(dstMac, srcMac, proto, src, dst, payload, pad);
    HeadWire(total, proto, Checksum(Ipv4Head(total, proto, 0, src, dst)), src, dst);
    assert f[18..24] == head[4..10] && f[14..16] == head[..2];
    assert f[12] == 8 && f[13] == 0;
    assert f[12..16] == f[12..14] + f[14..16];
  }

  lemma HeadWire(total: nat, proto: Byte, sum: nat, src: Ip, dst: Ip)
    requires total < 0x1_0000 && sum < 0x1_0000
    ensures var h := Ipv4Head(total, proto, sum, src, dst);
      h[..2] == [0x45, 0] && h[4..10] == [0x22, 0x22, 0, 0, 64, proto]
  {
  }

  // The addressed host accepts what net_send_ipv4 built, padded or not.
  lemma Ipv4FrameAccepted(you: Host, me: Host, proto: Byte, payload: Bytes, pad: Bytes)
    requires 20 + |payload| < 0x1_0000
    ensures var f := Ipv4Frame(you.mac, me.mac, proto, me.ip, you.ip, payload) + pad;
      MacForMe(you, f) && Get16(f, 12) == ETH_IPV4 && Ipv4Accepts(you, f)
  {
    Ipv4Parts(you.mac, me.mac, proto, me.ip, you.ip, payload, pad);
    HeadVerifies(20 + |payload|, proto, me.ip, you.ip);
    hide Ipv4Frame;
    hide SummedHead;
    hide Checksum;
  }

  lemma UdpParts(srcPort: nat, dstPort: nat, payload: Bytes)
    requires srcPort < 0x1_0000 && dstPort < 0x1_0000 && 8 + |payload| < 0x1_0000
    ensures var d := UdpDatagram(srcPort, dstPort, payload);
      Get16(d, 0) == srcPort && Get16(d, 2) == dstPort && Get16(d, 4) == 8 + |payload| && d[8..8 + |payload|] == payload
  {
  }

  lemma UdpWire(srcPort: nat, dstPort: nat, payload: Bytes)
    requires srcPort < 0x1_0000 && dstPort < 0x1_0000 && 8 + |payload| < 0x1_0000
    ensures var d, n := UdpDatagram(srcPort, dstPort, payload), 8 + |payload|;
      d[..8] == [srcPort / 256, srcPort % 256, dstPort / 256, dstPort % 256, n / 256, n % 256, 0, 0] && d[8..] == payload
  {
  }

  // The frame udp_send_to builds calls the handler registered for the port on the addressed
  // host with exactly the sender's IP, port and payload, whatever padding follows.
  lemma UdpRoundTrip(me: Host, you: Host, table: seq<HandlerSlot>, srcPort: nat, dstPort: nat, payload: Bytes, pad: Bytes)
    requires 0 < srcPort < 0x1_0000 && 0 < dstPort < 0x1_0000 && |payload| <= 1472
    ensures var f := Ipv4Frame(you.mac, me.mac, PROTO_UDP, me.ip, you.ip, UdpDatagram(srcPort, dstPort, payload)) + pad;
      var r := HandleFrame(you, f);
      && r.learn == None && r.reply == None && r.udp.Some?
      && HandleUdp(table, r.udp.value) == match FindHandler(table, dstPort)
         case None => None
         case Some(handler) => Some(Delivery(handler, me.ip, srcPort, payload))
  {
    var d := UdpDatagram(srcPort, dstPort, payload);
    var f := Ipv4Frame(you.mac, me.mac, PROTO_UDP, me.ip, you.ip, d) + pad;
    Ipv4Parts(you.mac, me.mac, PROTO_UDP, me.ip, you.ip, d, pad);
    Ipv4FrameAccepted(you, me, PROTO_UDP, d, pad);
    UdpParts(srcPort, dstPort, payload);
    hide Ipv4Frame;
    hide UdpDatagram;
    hide Ipv4Accepts;
  }

  // A frame the host accepts is ignored as soon as one word of its IPv4 header is damaged,
  // other than the first and other than from all zeros to all ones or back.
  lemma DamageFound(h: Host, data: Bytes, off: nat, x: nat)
    requires Ipv4Accepts(h, data) && off % 2 == 0 && 2 <= off && off + 2 <= HeaderLength(data)
    requires x < 0x1_0000 && x % 0xffff != Get16(data, 14 + off) % 0xffff
    ensures HandleIpv4(h, WithField(data, 14 + off, x)) == NOTHING
  {
    var hl, wrong := HeaderLength(data), WithField(data, 14 + off, x);
    assert wrong[14] == data[14];
    assert wrong[14..14 + hl] == WithField(data[14..14 + hl], off, x);
    hide Checksum;
    OneWordWrong(data[14..14 + hl], off, x);
  }

  // A frame for one host is ignored by every other.
  lemma OthersIgnore(h: Host, data: Bytes)
    requires 14 <= |data| && data[..6] != h.mac && data[..6] != BROADCAST
    ensures HandleFrame(h, data) == NOTHING
  {
  }

  // --- echo replies --------------------------------------------------------

  lemma EchoReplyParts(h: Host, data: Bytes, hl: nat, total: nat)
    requires 34 <= |data| && 20 <= hl && hl + 8 <= total && 14 + total <= |data|
    ensures var r := EchoReply(h, data, hl, total);
      && r[..6] == data[6..12] && r[6..12] == h.mac && r[12..14] == data[12..14]
      && r[14..14 + hl] == SummedReplyHead(h, data, hl) && r[14 + hl..] == SummedReplyMessage(data, hl, total)
  {
    hide SummedReplyHead;
    hide SummedReplyMessage;
  }

  lemma ReplyHeadParts(h: Host, data: Bytes, hl: nat, x: nat)
    requires 34 <= |data| && 20 <= hl && x < 0x1_0000
    ensures var r := ReplyHead(h, data, hl, x);
      r[0] == data[14] && r[2..4] == data[16..18] && r[9] == data[23] && r[12..16] == h.ip && r[16..20] == data[26..30]
    ensures ReplyHead(h, data, hl, x) == WithField(ReplyHead(h, data, hl, 0), 10, x)
  {
    hide Be16;
    hide Zeros;
    var front := [data[14], 0] + data[16..22] + [64, data[23]];
    var back := h.ip + data[26..30] + Zeros(hl - 20);
    assert front[0] == data[14] && front[9] == data[23];
    assert front[2] == data[16] && front[3] == data[17];
    assert front[2..4] == [front[2], front[3]] == data[16..18];
    assert back[..4] == h.ip && back[4..8] == data[26..30];
    assert ReplyHead(h, data, hl, x) == front + Be16(x) + back;
    assert ReplyHead(h, data, hl, 0) == front + Be16(0) + back;
    Between(front, Be16(x), Be16(0), back);
  }

  lemma Between(front: Bytes, mid: Bytes, mid0: Bytes, back: Bytes)
    requires |front| == 10 && |mid| == 2 && |mid0| == 2 && 8 <= |back|
    ensures var r := front + mid + back;
      r[0] == front[0] && r[2..4] == front[2..4] && r[9] == front[9] && r[12..16] == back[..4] && r[16..20] == back[4..8]
    ensures var r0 := front + mid0 + back; front + mid + back == r0[..10] + mid + r0[12..]
  {
  }

  lemma ReplyMessageParts(data: Bytes, hl: nat, total: nat, x: nat)
    requires hl + 8 <= total && 14 + total <= |data| && x < 0x1_0000
    ensures var r := ReplyMessage(data, hl, total, x); r[0] == 0 && r[4..] == data[14 + hl + 4..14 + total]
    ensures ReplyMessage(data, hl, total, x) == WithField(ReplyMessage(data, hl, total, 0), 2, x)
  {
    hide Be16;
    assert ReplyMessage(data, hl, total, x)[4..] == data[14 + hl + 4..14 + total];
    assert ReplyMessage(data, hl, total, 0)[4..] == data[14 + hl + 4..14 + total];
  }

  lemma SummedReplyParts(h: Host, data: Bytes, hl: nat, total: nat)
    requires 34 <= |data| && 20 <= hl && hl + 8 <= total && 14 + total <= |data|
    ensures var r := SummedReplyHead(h, data, hl);
      && r[0] == data[14] && r[2..4] == data[16..18] && r[9] == data[23] && r[12..16] == h.ip && r[16..20] == data[26..30]
      && Checksum(r) == 0
    ensures var r := SummedReplyMessage(data, hl, total);
      r[0] == 0 && r[4..] == data[14 + hl + 4..14 + total] && Checksum(r) == 0
  {
    hide Checksum;
    hide ReplyHead;
    hide ReplyMessage;
    hide WithField;
    var head, message := ReplyHead(h, data, hl, 0), ReplyMessage(data, hl, total, 0);
    ReplyHeadParts(h, data, hl, 0);
    ReplyHeadParts(h, data, hl, Checksum(head));
    ReplyMessageParts(data, hl, total, 0);
    ReplyMessageParts(data, hl, total, Checksum(message));
    StoredChecksumVerifies(head, 10);
    StoredChecksumVerifies(message, 2);
  }

  // The reply goes back to the sender of the request with both checksums valid and the
  // identifier, sequence number and payload unchanged.
  lemma EchoReplyValid(h: Host, data: Bytes, hl: nat, total: nat)
    requires 34 <= |data| && 20 <= hl && hl + 8 <= total && 14 + total <= |data|
    ensures var r := EchoReply(h, data, hl, total);
      && r[..6] == data[6..12] && r[6..12] == h.mac && r[12..14] == data[12..14]
      && r[26..30] == h.ip && r[30..34] == data[26..30] && r[14] == data[14] && r[16..18] == data[16..18] && r[23] == data[23]
      && Checksum(r[14..14 + hl]) == 0 && Checksum(r[14 + hl..]) == 0
      && r[14 + hl] == 0 && r[14 + hl + 4..] == data[14 + hl + 4..14 + total]
  {
    hide Checksum;
    hide EchoReply;
    hide SummedReplyHead;
    hide SummedReplyMessage;
    var r, h1, m1 := EchoReply(h, data, hl, total), SummedReplyHead(h, data, hl), SummedReplyMessage(data, hl, total);
    EchoReplyParts(h, data, hl, total);
    SummedReplyParts(h, data, hl, total);
    HeadInFrame(r, h1, hl);
    MessageInFrame(r, m1, hl);
  }

  lemma HeadInFrame(r: Bytes, head: Bytes, hl: nat)
    requires 20 <= hl && 14 + hl <= |r| && r[14..14 + hl] == head
    ensures r[14] == head[0] && r[16..18] == head[2..4] && r[23] == head[9] && r[26..30] == head[12..16] && r[30..34] == head[16..20]
  {
    assert forall i :: 0 <= i < hl ==> r[14 + i] == head[i];
  }

  lemma MessageInFrame(r: Bytes, message: Bytes, hl: nat)
    requires 14 + hl + 8 <= |r| && r[14 + hl..] == message
    ensures r[14 + hl] == message[0] && r[14 + hl + 4..] == message[4..]
  {
  }

  // What a host answers with an echo reply.
  lemma EchoRequest(h: Host, data: Bytes)
    requires 14 <= |data| && Get16(data, 12) == ETH_IPV4 && HandleFrame(h, data).reply.Some?
    ensures Ipv4Accepts(h, data) && data[23] == PROTO_ICMP && HeaderLength(data) + 8 <= Get16(data, 16)
    ensures HandleFrame(h, data) == Reaction(None, Some(EchoReply(h, data, HeaderLength(data), Get16(data, 16))), None)
  {
    hide EchoReply;
    hide Checksum;
  }

  // The sender accepts the reply as IPv4 and sends nothing back.
  lemma EchoReplyEndsThere(h: Host, sender: Host, data: Bytes)
    requires 14 <= |data| && Get16(data, 12) == ETH_IPV4 && data[6..12] == sender.mac
    requires HandleFrame(h, data).reply.Some? && data[26..30] == sender.ip
    ensures var r := HandleFrame(h, data).reply.value;
      Ipv4Accepts(sender, r) && HandleFrame(sender, r) == NOTHING
  {
    hide EchoReply;
    hide Checksum;
    EchoRequest(h, data);
    var hl, total := HeaderLength(data), Get16(data, 16);
    var r := EchoReply(h, data, hl, total);
    EchoReplyValid(h, data, hl, total);
    SameWord(r, data, 12);
    SameWord(r, data, 16);
    NoAnswer(sender, r, hl, total);
  }

  // A valid echo request for the host's own IP is answered, padded or not: the reply goes back
  // to the sender, which accepts it, with the identifier, sequence number and data sent.
  lemma PingAnswered(me: Host, you: Host, message: Bytes, pad: Bytes)
    requires 8 <= |message| && 20 + |message| < 0x1_0000 && message[0] == 8 && Checksum(message) == 0
    ensures var reaction := HandleFrame(you, Ipv4Frame(you.mac, me.mac, 1, me.ip, you.ip, message) + pad);
      reaction.learn == None && reaction.udp == None && reaction.reply.Some? &&
      var r := reaction.reply.value;
      |r| == 34 + |message| && r[..6] == me.mac && r[6..12] == you.mac && r[26..30] == you.ip && r[30..34] == me.ip &&
      r[34] == 0 && r[38..] == message[4..] && Checksum(r[34..]) == 0 &&
      Ipv4Accepts(me, r) && HandleFrame(me, r) == NOTHING
  {
    var f := Ipv4Frame(you.mac, me.mac, 1, me.ip, you.ip, message) + pad;
    var total := 20 + |message|;
    Ipv4Parts(you.mac, me.mac, 1, me.ip, you.ip, message, pad);
    Ipv4FrameAccepted(you, me, 1, message, pad);
    assert f[34] == f[34..34 + |message|][0] && f[14 + 20..14 + total] == message;
    hide Ipv4Frame;
    hide Checksum;
    hide EchoReply;
    hide Ipv4Accepts;
    assert HandleFrame(you, f) == Reaction(None, Some(EchoReply(you, f, 20, total)), None);
    EchoReplyValid(you, f, 20, total);
    EchoReplyEndsThere(you, me, f);
    assert f[38..14 + total] == message[4..];
  }

  lemma SameWord(r: Bytes, data: Bytes, i: nat)
    requires i + 2 <= |r| && i + 2 <= |data| && r[i..i + 2] == data[i..i + 2]
    ensures Get16(r, i) == Get16(data, i)
  {
    assert r[i] == r[i..i + 2][0] && r[i + 1] == r[i..i + 2][1];
    assert data[i] == data[i..i + 2][0] && data[i + 1] == data[i..i + 2][1];
  }

  lemma NoAnswer(sender: Host, r: Bytes, hl: nat, total: nat)
    requires 34 <= |r| == 14 + total && 20 <= hl && hl + 8 <= total && HeaderLength(r) == hl && Get16(r, 16) == total
    requires r[..6] == sender.mac && Get16(r, 12) == ETH_IPV4 && r[23] == PROTO_ICMP && r[30..34] == sender.ip
    requires Checksum(r[14..14 + hl]) == 0 && r[14 + hl] == 0
    ensures Ipv4Accepts(sender, r) && HandleFrame(sender, r) == NOTHING
  {
    hide Checksum;
    hide EchoReply;
  }
}
