// The protocol code of kernel/net_proto.cc and kernel/udp.cc as it runs: frames are filled in
// byte buffers field by field. Each method is proved against the functions of NetProto.dfy.

module NetStack {
  import opened Basics
  import opened InternetChecksum
  import opened Addresses
  import opened RecencyList
  import opened ArpCaching
  import opened FrameFormat
  import opened FrameHandling

  const MAX_FRAME := 2048
  const REPLY_BUFFER := 1514
  const MAX_UDP := 1472

  // copy_bytes, and the stores of single header fields.
  method Put(buf: array<Byte>, at: nat, bytes: Bytes)
    requires at + |bytes| <= buf.Length
    modifies buf
    ensures buf[..at + |bytes|] == old(buf[..at]) + bytes
    ensures forall i :: at + |bytes| <= i < buf.Length ==> buf[i] == old(buf[i])
  {
    for i := 0 to |bytes|
      invariant buf[..at] == old(buf[..at]) && buf[at..at + i] == bytes[..i]
      invariant forall j :: at + |bytes| <= j < buf.Length ==> buf[j] == old(buf[j])
    {
      buf[at + i] := bytes[i];
    }
    assert buf[..at + |bytes|] == buf[..at] + buf[at..at + |bytes|];
  }

  // Storing a checksum into a header that was filled with a zero there.
  method PutSum(buf: array<Byte>, start: nat, len: nat, off: nat)
    requires off % 2 == 0 && off + 2 <= len <= MAX_BYTES && start + len <= buf.Length
    modifies buf
    ensures buf[..start] == old(buf[..start]) && buf[start + len..] == old(buf[start + len..])
    ensures var s := old(buf[start..start + len]); buf[start..start + len] == WithField(s, off, Checksum(s))
  {
    hide Checksum;
    ghost var s := buf[start..start + len];
    var sum := Checksum16(buf, start, len);
    buf[start + off] := sum / 256;
    buf[start + off + 1] := sum % 256;
    assert buf[start..start + len] == WithField(s, off, sum);
  }

  // net_send_arp_request and the reply of handle_arp: one ARP frame.
  method BuildArp(dst: Mac, src: Mac, op: nat, sha: Mac, spa: Ip, tha: Mac, tpa: Ip) returns (buf: array<Byte>)
    requires op < 0x1_0000
    ensures fresh(buf) && buf[..] == ArpFrame(dst, src, op, sha, spa, tha, tpa)
  {
    hide Be16;
    hide ArpBody;
    buf := new Byte[42](_ => 0);
    Put(buf, 0, dst);
    Put(buf, 6, src);
    Put(buf, 12, Be16(ETH_ARP));
    assert buf[..14] == EthHead(dst, src, ETH_ARP);
    PutArpBody(buf, op, sha, spa, tha, tpa);
    assert buf[..] == buf[..42];
  }

  method PutArpBody(buf: array<Byte>, op: nat, sha: Mac, spa: Ip, tha: Mac, tpa: Ip)
    requires op < 0x1_0000 && buf.Length == 42
    modifies buf
    ensures buf[..42] == old(buf[..14]) + ArpBody(op, sha, spa, tha, tpa)
  {
    hide Be16;
    ghost var front := buf[..14];
    Put(buf, 14, Be16(1));
    Put(buf, 16, Be16(0x0800));
    Put(buf, 18, [6, 4]);
    Put(buf, 20, Be16(op));
    Put(buf, 22, sha);
    Put(buf, 28, spa);
    Put(buf, 32, tha);
    Put(buf, 38, tpa);
    assert buf[..42] == front + Be16(1) + Be16(0x0800) + [6, 4] + Be16(op) + sha + spa + tha + tpa;
    assert front + ArpBody(op, sha, spa, tha, tpa) ==
      front + Be16(1) + Be16(0x0800) + [6, 4] + Be16(op) + sha + spa + tha + tpa;
  }

  // The frame net_send_ipv4 builds once the MAC is known.
  method BuildIpv4(dst: Mac, src: Mac, proto: Byte, srcIp: Ip, dstIp: Ip, payload: Bytes) returns (buf: array<Byte>)
    requires 34 + |payload| <= MAX_FRAME
    ensures fresh(buf) && buf.Length == MAX_FRAME
    ensures buf[..34 + |payload|] == Ipv4Frame(dst, src, proto, srcIp, dstIp, payload)
  {
    hide Be16;
    hide Checksum;
    var total := 20 + |payload|;
    buf := new Byte[MAX_FRAME](_ => 0);
    Put(buf, 0, dst);
    Put(buf, 6, src);
    Put(buf, 12, Be16(ETH_IPV4));
    assert buf[..14] == EthHead(dst, src, ETH_IPV4);
    hide EthHead;
    PutHead(buf, total, proto, srcIp, dstIp);
    hide Ipv4Head;
    Put(buf, 34, payload);
    SumHead(buf, dst, src, proto, srcIp, dstIp, payload);
  }

  // The checksum goes into the IP header, and the frame is complete.
  method SumHead(buf: array<Byte>, ghost dst: Mac, ghost src: Mac, ghost proto: Byte, ghost srcIp: Ip, ghost dstIp: Ip, ghost payload: Bytes)
    requires 34 + |payload| <= buf.Length == MAX_FRAME
    requires buf[..34 + |payload|] ==
      EthHead(dst, src, ETH_IPV4) + Ipv4Head(20 + |payload|, proto, 0, srcIp, dstIp) + payload
    modifies buf
    ensures buf[..34 + |payload|] == Ipv4Frame(dst, src, proto, srcIp, dstIp, payload)
  {
    hide Be16;
    hide Checksum;
    ghost var total := 20 + |payload|;
    ghost var eth, head := EthHead(dst, src, ETH_IPV4), Ipv4Head(total, proto, 0, srcIp, dstIp);
    assert |eth| == 14 && |head| == 20;
    hide EthHead;
    hide Ipv4Head;
    ThreeParts(eth, head, payload, buf[..], 20, total);
    PutSum(buf, 14, 20, 10);
    HeadField(total, proto, Checksum(head), srcIp, dstIp);
    TailSlice(buf[..], payload, 20, total);
    ThreePartsJoin(eth, buf[14..34], payload, buf[..], 20, total);
  }

  lemma ThreePartsJoin(eth: Bytes, head: Bytes, rest: Bytes, buf: Bytes, hl: nat, total: nat)
    requires hl <= total && 14 + total <= |buf|
    requires buf[..14] == eth && buf[14..14 + hl] == head && buf[14 + hl..14 + total] == rest
    ensures buf[..14 + total] == eth + head + rest
  {
  }

  // Its IP header, with the checksum still zero.
  method PutHead(buf: array<Byte>, total: nat, proto: Byte, srcIp: Ip, dstIp: Ip)
    requires total < 0x1_0000 && 34 <= buf.Length
    modifies buf
    ensures buf[..34] == old(buf[..14]) + Ipv4Head(total, proto, 0, srcIp, dstIp)
  {
    hide Be16;
    ghost var front := buf[..14];
    Put(buf, 14, [0x45, 0]);
    Put(buf, 16, Be16(total));
    Put(buf, 18, Be16(0x2222));
    Put(buf, 20, [0, 0, 64, proto]);
    Put(buf, 24, Be16(0));
    Put(buf, 26, srcIp);
    Put(buf, 30, dstIp);
    assert buf[..34] == front + [0x45, 0] + Be16(total) + Be16(0x2222) + [0, 0, 64, proto] + Be16(0) + srcIp + dstIp;
    assert front + Ipv4Head(total, proto, 0, srcIp, dstIp) ==
      front + [0x45, 0] + Be16(total) + Be16(0x2222) + [0, 0, 64, proto] + Be16(0) + srcIp + dstIp;
  }

  // The echo reply of handle_ipv4, in its 1514-byte buffer.
  method BuildEchoReply(h: Host, data: Bytes, hl: nat, total: nat) returns (buf: array<Byte>)
    requires 34 <= |data| && 20 <= hl && hl + 8 <= total && 14 + total <= |data| && 14 + total <= REPLY_BUFFER
    ensures fresh(buf) && buf.Length == REPLY_BUFFER && buf[..14 + total] == EchoReply(h, data, hl, total)
  {
    hide Checksum;
    hide ReplyHead;
    hide ReplyMessage;
    hide WithField;
    buf := FillEchoReply(h, data, hl, total);
    ghost var eth, head, message := buf[..14], ReplyHead(h, data, hl, 0), ReplyMessage(data, hl, total, 0);
    ThreeParts(data[6..12] + h.mac + data[12..14], head, message, buf[..], hl, total);
    PutSum(buf, 14, hl, 10);
    ReplyHeadParts(h, data, hl, Checksum(head));
    ghost var head1 := buf[14..14 + hl];
    TailSlice(buf[..], message, hl, total);
    PutSum(buf, 14 + hl, total - hl, 2);
    ReplyMessageParts(data, hl, total, Checksum(message));
    ThreePartsJoin(eth, head1, buf[14 + hl..14 + total], buf[..], hl, total);
  }

  lemma ThreeParts(eth: Bytes, head: Bytes, message: Bytes, buf: Bytes, hl: nat, total: nat)
    requires |eth| == 14 && |head| == hl && |message| == total - hl && 14 + total <= |buf|
    requires buf[..14 + total] == eth + head + message
    ensures buf[..14] == eth && buf[14..14 + hl] == head && buf[14 + hl..14 + total] == message
  {
    assert buf[..14 + total][..14] == eth;
    assert buf[..14 + total][14..14 + hl] == head;
    assert buf[..14 + total][14 + hl..] == message;
  }

  lemma TailSlice(buf: Bytes, message: Bytes, hl: nat, total: nat)
    requires hl <= total && 14 + total <= |buf| && buf[14 + hl..][..total - hl] == message
    ensures buf[14 + hl..14 + total] == message
  {
  }

  // The reply with both checksums still zero.
  method FillEchoReply(h: Host, data: Bytes, hl: nat, total: nat) returns (buf: array<Byte>)
    requires 34 <= |data| && 20 <= hl && hl + 8 <= total && 14 + total <= |data| && 14 + total <= REPLY_BUFFER
    ensures fresh(buf) && buf.Length == REPLY_BUFFER
    ensures buf[..14 + total] ==
      (data[6..12] + h.mac + data[12..14]) + ReplyHead(h, data, hl, 0) + ReplyMessage(data, hl, total, 0)
  {
    hide Be16;
    buf := new Byte[REPLY_BUFFER](_ => 0);
    Put(buf, 0, data[6..12]);
    Put(buf, 6, h.mac);
    Put(buf, 12, data[12..14]);
    assert buf[..14] == data[6..12] + h.mac + data[12..14];
    PutReplyHead(buf, h, data, hl);
    ghost var front := buf[..14 + hl];
    hide ReplyHead;
    PutMessage(buf, 14 + hl, data[14 + hl + 4..14 + total]);
  }

  // The ICMP message of the reply: type and code zero, no checksum yet.
  method PutMessage(buf: array<Byte>, at: nat, rest: Bytes)
    requires at + 4 + |rest| <= buf.Length
    modifies buf
    ensures buf[..at + 4 + |rest|] == old(buf[..at]) + ([0, 0] + Be16(0) + rest)
  {
    hide Be16;
    ghost var front := buf[..at];
    Put(buf, at, [0, 0]);
    Put(buf, at + 2, Be16(0));
    Put(buf, at + 4, rest);
    assert buf[..at + 4 + |rest|] == front + [0, 0] + Be16(0) + rest;
    Regroup(front, [0, 0], Be16(0), rest);
  }

  lemma Regroup(a: Bytes, b: Bytes, c: Bytes, d: Bytes)
    ensures a + b + c + d == a + (b + c + d)
  {
  }

  // Its IP header, with the checksum still zero; option bytes stay zero.
  method PutReplyHead(buf: array<Byte>, h: Host, data: Bytes, hl: nat)
    requires 34 <= |data| && 20 <= hl && 14 + hl <= buf.Length
    requires forall i :: 14 <= i < buf.Length ==> buf[i] == 0
    modifies buf
    ensures buf[..14 + hl] == old(buf[..14]) + ReplyHead(h, data, hl, 0)
    ensures forall i :: 14 + hl <= i < buf.Length ==> buf[i] == 0
  {
    hide Be16;
    ghost var front := buf[..14];
    Put(buf, 14, [data[14], 0]);
    Put(buf, 16, data[16..22]);
    Put(buf, 22, [64, data[23]]);
    Put(buf, 24, Be16(0));
    Put(buf, 26, h.ip);
    Put(buf, 30, data[26..30]);
    ghost var fields := [data[14], 0] + data[16..22] + [64, data[23]] + Be16(0) + h.ip + data[26..30];
    assert buf[..34] == front + fields;
    assert buf[34..14 + hl] == Zeros(hl - 20);
    assert buf[..14 + hl] == buf[..34] + buf[34..14 + hl];
  }

  // One guest: its identity, its ARP cache, its UDP ports, what it sent and what it delivered.
  // Whether the network card accepts a frame is an input of every operation that sends.
  class NetHost {
    var mac: Mac
    var ip: Ip
    const cache: ArpCache
    const handlers: array<HandlerSlot>
    var sent: seq<Bytes>
    var delivered: seq<Delivery>

    ghost predicate Valid()
      reads this, cache, cache.entries, handlers
    {
      cache.Valid() && handlers.Length == HANDLERS
    }

    function Me(): Host
      reads this
    {
      Host(mac, ip)
    }

    constructor (mac: Mac, ip: Ip)
      ensures Valid() && Me() == Host(mac, ip) && cache.list == [] && sent == [] && delivered == []
      ensures forall i :: 0 <= i < handlers.Length ==> !handlers[i].valid
      ensures fresh(cache) && fresh(cache.entries) && fresh(handlers)
    {
      this.mac, this.ip, sent, delivered := mac, ip, [], [];
      cache := new ArpCache();
      handlers := new HandlerSlot[HANDLERS](_ => HandlerSlot(false, 0, 0));
    }

    // net_send_raw
    method SendRaw(frame: array<Byte>, len: nat, accepts: bool) returns (ok: bool)
      requires len <= frame.Length
      modifies this`sent
      ensures ok <==> accepts && 0 < len <= MAX_FRAME
      ensures sent == if ok then old(sent) + [frame[..len]] else old(sent)
    {
      ok := accepts && 0 < len <= MAX_FRAME;
      if ok {
        sent := sent + [frame[..len]];
      }
    }

    // net_send_arp_request
    method SendArpRequest(target: Ip, accepts: bool) returns (ok: bool)
      modifies this`sent
      ensures ok == accepts
      ensures sent == if ok then old(sent) + [ArpFrame(BROADCAST, mac, ARP_REQUEST, mac, ip, NO_MAC, target)] else old(sent)
    {
      var frame := BuildArp(BROADCAST, mac, ARP_REQUEST, mac, ip, NO_MAC, target);
      assert frame[..42] == frame[..];
      ok := SendRaw(frame, 42, accepts);
    }

    // net_send_ipv4: a cached destination gets the frame, any other an ARP request.
    method SendIpv4(dst: Ip, proto: Byte, payload: Bytes, accepts: bool) returns (ok: bool)
      requires Valid() && cache.clock + 1 < CLOCK_LIMIT
      modifies this`sent, cache, cache.entries
      ensures Valid()
      ensures 34 + |payload| > MAX_FRAME ==> !ok && sent == old(sent) && cache.list == old(cache.list)
      ensures 34 + |payload| <= MAX_FRAME ==>
        match Find(old(cache.list), dst)
        case None =>
          !ok && cache.list == old(cache.list) &&
          sent == if accepts then old(sent) + [ArpFrame(BROADCAST, mac, ARP_REQUEST, mac, ip, NO_MAC, dst)] else old(sent)
        case Some(dstMac) =>
          ok == accepts && cache.list == Touched(old(cache.list), dst) &&
          sent == if accepts then old(sent) + [Ipv4Frame(dstMac, mac, proto, ip, dst, payload)] else old(sent)
    {
      hide ArpFrame;
      hide Ipv4Frame;
      hide Find;
      hide CacheOk;
      var frameLen := 34 + |payload|;
      if |payload| > MAX_FRAME || frameLen > MAX_FRAME || 20 + |payload| > 0xffff {
        return false;
      }
      var found := cache.Lookup(dst);
      if found == None {
        var asked := SendArpRequest(dst, accepts);
        return false;
      }
      var frame := BuildIpv4(found.value, mac, proto, ip, dst, payload);
      ok := SendRaw(frame, frameLen, accepts);
    }

    // udp_send_to
    method SendUdp(dst: Ip, srcPort: nat, dstPort: nat, payload: Bytes, accepts: bool) returns (ok: bool)
      requires Valid() && cache.clock + 1 < CLOCK_LIMIT && srcPort < 0x1_0000 && dstPort < 0x1_0000
      modifies this`sent, cache, cache.entries
      ensures Valid()
      ensures ok <==> accepts && srcPort != 0 && dstPort != 0 && |payload| <= MAX_UDP && Find(old(cache.list), dst) != None
      ensures srcPort == 0 || dstPort == 0 || |payload| > MAX_UDP ==> sent == old(sent) && cache.list == old(cache.list)
      ensures srcPort != 0 && dstPort != 0 && |payload| <= MAX_UDP ==> cache.list == Touched(old(cache.list), dst)
      ensures !ok && accepts && srcPort != 0 && dstPort != 0 && |payload| <= MAX_UDP ==>
        sent == old(sent) + [ArpFrame(BROADCAST, mac, ARP_REQUEST, mac, ip, NO_MAC, dst)]
      ensures !accepts ==> sent == old(sent)
      ensures ok ==>
        sent == old(sent) +
          [Ipv4Frame(Find(old(cache.list), dst).value, mac, PROTO_UDP, ip, dst, UdpDatagram(srcPort, dstPort, payload))]
    {
      if srcPort == 0 || dstPort == 0 || |payload| > 0xffff - 8 {
        return false;
      }
      if |payload| > MAX_UDP {
        return false;
      }
      var packet := BuildUdp(srcPort, dstPort, payload);
      ok := SendIpv4(dst, PROTO_UDP, packet[..8 + |payload|], accepts);
    }

    // udp_register_handler: an existing port is updated, otherwise the first free slot is used.
    method RegisterHandler(port: nat, handler: nat) returns (ok: bool)
      requires Valid()
      modifies handlers
      ensures Valid()
      ensures ok ==> FindHandler(handlers[..], port) == Some(handler)
      ensures forall p :: p != port ==> FindHandler(handlers[..], p) == FindHandler(old(handlers[..]), p)
      ensures !ok ==> handlers[..] == old(handlers[..])
      ensures ok <==> port != 0 && (FindHandler(old(handlers[..]), port) != None || HasFree(old(handlers[..])))
    {
      if port == 0 {
        return false;
      }
      for i := 0 to HANDLERS
        invariant forall k :: 0 <= k < i ==> !(handlers[k].valid && handlers[k].port == port)
      {
        if handlers[i].valid && handlers[i].port == port {
          HandlerSet(handlers[..], i, port, handler);
          handlers[i] := HandlerSlot(true, port, handler);
          assert handlers[..] == old(handlers[..])[i := HandlerSlot(true, port, handler)];
          return true;
        }
      }
      NoHandler(handlers[..], port);
      for i := 0 to HANDLERS
        invariant forall k :: 0 <= k < i ==> handlers[k].valid
      {
        if !handlers[i].valid {
          HandlerSet(handlers[..], i, port, handler);
          handlers[i] := HandlerSlot(true, port, handler);
          assert handlers[..] == old(handlers[..])[i := HandlerSlot(true, port, handler)];
          return true;
        }
      }
      ok := false;
    }

    // udp_handle_packet
    method HandlePacket(src: Ip, data: Bytes) returns (ok: bool)
      requires Valid()
      modifies this`delivered
      ensures match HandleUdp(handlers[..], UdpInput(src, data))
        case None => !ok && delivered == old(delivered)
        case Some(d) => ok && delivered == old(delivered) + [d]
    {
      if |data| < 8 {
        return false;
      }
      var srcPort, dstPort, udpLen := Get16(data, 0), Get16(data, 2), Get16(data, 4);
      if udpLen < 8 || udpLen > |data| {
        return false;
      }
      var i := 0;
      while i < HANDLERS && !(handlers[i].valid && handlers[i].port == dstPort)
        invariant 0 <= i <= HANDLERS
        invariant FindHandler(handlers[..], dstPort) == FindHandler(handlers[i..], dstPort)
      {
        assert handlers[i..][1..] == handlers[i + 1..];
        i := i + 1;
      }
      if i == HANDLERS {
        return false;
      }
      delivered := delivered + [Delivery(handlers[i].handler, src, srcPort, data[8..udpLen])];
      ok := true;
    }

    // net_handle_frame with handle_arp and handle_ipv4.
    method Handle(data: Bytes, accepts: bool)
      requires Valid() && cache.clock + 1 < CLOCK_LIMIT
      requires var r := HandleFrame(Me(), data).reply; r.Some? ==> |r.value| <= REPLY_BUFFER
      modifies this`sent, this`delivered, cache, cache.entries
      ensures Valid()
      ensures var r := HandleFrame(Me(), data);
        && cache.list == (if r.learn.Some? then Inserted(old(cache.list), r.learn.value.ip, r.learn.value.mac) else old(cache.list))
        && sent == (if r.reply.Some? && accepts then old(sent) + [r.reply.value] else old(sent))
        && delivered == old(delivered) +
             (if r.udp.Some? && HandleUdp(handlers[..], r.udp.value).Some? then [HandleUdp(handlers[..], r.udp.value).value] else [])
    {
      if |data| < 14 {
        return;
      }
      if !(data[..6] == BROADCAST || data[..6] == mac) {
        return;
      }
      var etherType := Get16(data, 12);
      if etherType == ETH_ARP {
        HandleArpFrame(data, accepts);
      } else if etherType == ETH_IPV4 {
        HandleIpv4Frame(data, accepts);
      }
    }

    method HandleArpFrame(data: Bytes, accepts: bool)
      requires Valid() && cache.clock + 1 < CLOCK_LIMIT && 14 <= |data|
      modifies this`sent, cache, cache.entries
      ensures Valid()
      ensures var r := HandleArp(Me(), data);
        && cache.list == (if r.learn.Some? then Inserted(old(cache.list), r.learn.value.ip, r.learn.value.mac) else old(cache.list))
        && sent == (if r.reply.Some? && accepts then old(sent) + [r.reply.value] else old(sent))
    {
      hide ArpFrame;
      if |data| < 42 {
        return;
      }
      var op := Get16(data, 20);
      var sha, spa := data[22..28], data[28..32];
      if data[18] == 6 && data[19] == 4 && Get16(data, 14) == 1 && Get16(data, 16) == 0x0800 {
        cache.Insert(spa, sha);
      }
      if op == ARP_REPLY {
        return;
      }
      if op != ARP_REQUEST {
        return;
      }
      if data[38..42] != ip {
        return;
      }
      var reply := BuildArp(data[6..12], mac, ARP_REPLY, mac, ip, sha, spa);
      assert reply[..42] == reply[..];
      var ok := SendRaw(reply, 42, accepts);
    }

    method HandleIpv4Frame(data: Bytes, accepts: bool)
      requires Valid() && 14 <= |data|
      requires var r := HandleIpv4(Me(), data).reply; r.Some? ==> |r.value| <= REPLY_BUFFER
      modifies this`sent, this`delivered
      ensures var r := HandleIpv4(Me(), data);
        && sent == (if r.reply.Some? && accepts then old(sent) + [r.reply.value] else old(sent))
        && delivered == old(delivered) +
             (if r.udp.Some? && HandleUdp(handlers[..], r.udp.value).Some? then [HandleUdp(handlers[..], r.udp.value).value] else [])
    {
      hide Checksum;
      hide EchoReply;
      hide HandleUdp;
      if |data| < 34 {
        return;
      }
      var hl := HeaderLength(data);
      if hl < 20 {
        return;
      }
      if |data| < 14 + hl {
        return;
      }
      var headSum := ChecksumOf(data[14..14 + hl]);
      if headSum != 0 {
        return;
      }
      if data[30..34] != ip {
        return;
      }
      var total := Get16(data, 16);
      if total < hl {
        return;
      }
      if 14 + total > |data| {
        return;
      }
      if data[23] == PROTO_UDP {
        var ok := HandlePacket(data[26..30], data[14 + hl..14 + total]);
        return;
      }
      if data[23] != PROTO_ICMP {
        return;
      }
      if total < hl + 8 {
        return;
      }
      if data[14 + hl] != 8 {
        return;
      }
      var messageSum := ChecksumOf(data[14 + hl..14 + total]);
      if messageSum != 0 {
        return;
      }
      var reply := BuildEchoReply(Me(), data, hl, total);
      var ok := SendRaw(reply, 14 + total, accepts);
    }
  }

  // checksum16 over bytes of a received frame.
  method ChecksumOf(s: Bytes) returns (c: nat)
    requires |s| <= MAX_BYTES
    ensures c == Checksum(s)
  {
    hide Checksum;
    var buf := new Byte[|s|](i requires 0 <= i < |s| => s[i]);
    assert buf[0..0 + |s|] == s;
    c := Checksum16(buf, 0, |s|);
  }

  // The datagram udp_send_to builds in its packet buffer.
  method BuildUdp(srcPort: nat, dstPort: nat, payload: Bytes) returns (buf: array<Byte>)
    requires srcPort < 0x1_0000 && dstPort < 0x1_0000 && |payload| <= MAX_UDP
    ensures fresh(buf) && buf.Length == 8 + MAX_UDP && buf[..8 + |payload|] == UdpDatagram(srcPort, dstPort, payload)
  {
    hide Be16;
    buf := new Byte[8 + MAX_UDP](_ => 0);
    Put(buf, 0, Be16(srcPort));
    Put(buf, 2, Be16(dstPort));
    Put(buf, 4, Be16(8 + |payload|));
    Put(buf, 6, [0, 0]);
    Put(buf, 8, payload);
    assert buf[..8 + |payload|] == Be16(srcPort) + Be16(dstPort) + Be16(8 + |payload|) + [0, 0] + payload;
  }

  predicate HasFree(table: seq<HandlerSlot>) {
    exists i :: 0 <= i < |table| && !table[i].valid
  }

  lemma {:induction false} NoHandler(table: seq<HandlerSlot>, port: nat)
    requires forall k :: 0 <= k < |table| ==> !(table[k].valid && table[k].port == port)
    ensures FindHandler(table, port) == None
  {
    if table != [] {
      NoHandler(table[1..], port);
    }
  }

  // Writing the first slot that has the port, or one that is free, sets the port's handler only.
  lemma {:induction false} HandlerSet(table: seq<HandlerSlot>, i: nat, port: nat, handler: nat)
    requires i < |table| && (!table[i].valid || table[i].port == port)
    requires forall k :: 0 <= k < i ==> !(table[k].valid && table[k].port == port)
    ensures table[i].valid ==> FindHandler(table, port) == Some(table[i].handler)
    ensures var t := table[i := HandlerSlot(true, port, handler)];
      FindHandler(t, port) == Some(handler) && forall p :: p != port ==> FindHandler(t, p) == FindHandler(table, p)
  {
    var t := table[i := HandlerSlot(true, port, handler)];
    if i == 0 {
      assert t[1..] == table[1..];
    } else {
      assert t[1..] == table[1..][i - 1 := HandlerSlot(true, port, handler)];
      HandlerSet(table[1..], i - 1, port, handler);
    }
  }
}
