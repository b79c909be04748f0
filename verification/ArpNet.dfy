// Many hosts on one network, all running the ARP and IPv4 code of kernel/net_proto.cc, with
// frames lost, duplicated, delayed, reordered and padded at will.

module ArpNetwork {
  import opened Basics
  import opened InternetChecksum
  import opened Addresses
  import opened RecencyList
  import opened FrameFormat
  import opened FrameHandling

  // wire holds every frame ever sent; a step may deliver any of them, any number of times.
  datatype Net = Net(hosts: seq<Host>, caches: seq<Pairs>, wire: set<Bytes>)

  datatype Event =
    | Ask(i: nat, target: Ip)                                      // net_send_arp_request
    | Send(i: nat, dst: Ip, proto: Byte, payload: Bytes)           // net_send_ipv4
    | Receive(i: nat, frame: Bytes, pad: Bytes, accepted: bool)    // net_handle_frame; the NIC takes the reply or not

  ghost predicate Enabled(n: Net, e: Event) {
    e.i < |n.hosts| && |n.caches| == |n.hosts| &&
    match e
    case Ask(_, _) => true
    case Send(_, _, _, payload) => |payload| <= 2048 - 34
    case Receive(_, frame, _, _) => frame in n.wire
  }

  function Request(h: Host, target: Ip): Bytes {
    ArpFrame(BROADCAST, h.mac, ARP_REQUEST, h.mac, h.ip, NO_MAC, target)
  }

  function Learned(cache: Pairs, learn: Option<Pair>): Pairs {
    match learn
    case None => cache
    case Some(p) => Inserted(cache, p.ip, p.mac)
  }

  ghost function Apply(n: Net, e: Event): Net
    requires Enabled(n, e)
  {
    var h := n.hosts[e.i];
    match e
    case Ask(_, target) => n.(wire := n.wire + {Request(h, target)})
    case Send(i, dst, proto, payload) =>
      (match Find(n.caches[i], dst)
       case None => n.(wire := n.wire + {Request(h, dst)})
       case Some(mac) =>
         n.(caches := n.caches[i := Touched(n.caches[i], dst)],
            wire := n.wire + {Ipv4Frame(mac, h.mac, proto, h.ip, dst, payload)}))
    case Receive(i, frame, pad, accepted) =>
      var r := HandleFrame(h, frame + pad);
      n.(caches := n.caches[i := Learned(n.caches[i], r.learn)],
         wire := if accepted && r.reply.Some? then n.wire + {r.reply.value} else n.wire)
  }

  // Distinct identities, none of them the broadcast address.
  ghost predicate GoodHosts(hosts: seq<Host>) {
    (forall i :: 0 <= i < |hosts| ==> hosts[i].mac != BROADCAST) &&
    (forall i, j :: 0 <= i < j < |hosts| ==> hosts[i].mac != hosts[j].mac && hosts[i].ip != hosts[j].ip)
  }

  // Some host has this IP and this MAC.
  ghost predicate Owner(hosts: seq<Host>, ip: Bytes, mac: Bytes) {
    exists i :: 0 <= i < |hosts| && hosts[i].ip == ip && hosts[i].mac == mac
  }

  ghost predicate TrueCache(hosts: seq<Host>, cache: Pairs) {
    forall k :: 0 <= k < |cache| ==> Owner(hosts, cache[k].ip, cache[k].mac)
  }

  // An ARP frame names its true sender; an IPv4 frame goes from the MAC owning its source
  // IP to the MAC owning its destination IP.
  ghost predicate Genuine(hosts: seq<Host>, f: Bytes) {
    14 <= |f| && (Get16(f, 12) == ETH_ARP || Get16(f, 12) == ETH_IPV4) &&
    (Get16(f, 12) == ETH_ARP ==> 42 <= |f| && Owner(hosts, f[28..32], f[22..28])) &&
    (Get16(f, 12) == ETH_IPV4 ==> 34 <= |f| && Owner(hosts, f[26..30], f[6..12]) && Owner(hosts, f[30..34], f[..6]))
  }

  ghost predicate Inv(n: Net) {
    |n.caches| == |n.hosts| &&
    (forall i :: 0 <= i < |n.caches| ==> TrueCache(n.hosts, n.caches[i])) &&
    (forall f :: f in n.wire ==> Genuine(n.hosts, f))
  }

  lemma ArpParts(dst: Mac, src: Mac, op: nat, sha: Mac, spa: Ip, tha: Mac, tpa: Ip, pad: Bytes)
    requires op < 0x1_0000
    ensures var f := ArpFrame(dst, src, op, sha, spa, tha, tpa) + pad;
      Get16(f, 12) == ETH_ARP && f[6..12] == src && Get16(f, 20) == op && f[22..28] == sha && f[28..32] == spa && f[38..42] == tpa
  {
    var body := ArpBody(op, sha, spa, tha, tpa);
    var f := ArpFrame(dst, src, op, sha, spa, tha, tpa) + pad;
    assert f == EthHead(dst, src, ETH_ARP) + (body + pad);
    EthParts(dst, src, ETH_ARP, body + pad);
    BodyParts(op, sha, spa, tha, tpa);
    assert f[14..42] == body;
    hide ArpBody;
    assert f[22..28] == body[8..14] && f[28..32] == body[14..18] && f[38..42] == body[24..28];
    assert f[20] == body[6] && f[21] == body[7];
  }

  lemma BodyParts(op: nat, sha: Mac, spa: Ip, tha: Mac, tpa: Ip)
    requires op < 0x1_0000
    ensures var b := ArpBody(op, sha, spa, tha, tpa);
      Get16(b, 6) == op && b[8..14] == sha && b[14..18] == spa && b[24..28] == tpa
  {
  }

  // What stands in front of the addresses: Ethernet and IPv4, of 6 and 4 bytes.
  lemma ArpWire(dst: Mac, src: Mac, op: Byte, sha: Mac, spa: Ip, tha: Mac, tpa: Ip, pad: Bytes)
    ensures var f := ArpFrame(dst, src, op, sha, spa, tha, tpa) + pad;
      f[..6] == dst && f[12..22] == [8, 6, 0, 1, 8, 0, 6, 4, 0, op]
  {
    var body := ArpBody(op, sha, spa, tha, tpa);
    var f := ArpFrame(dst, src, op, sha, spa, tha, tpa) + pad;
    assert f == EthHead(dst, src, ETH_ARP) + (body + pad);
    EthParts(dst, src, ETH_ARP, body + pad);
    assert f[14..22] == body[..8] == [0, 1, 8, 0, 6, 4, 0, op];
    assert f[12] == 8 && f[13] == 6;
    assert f[12..22] == f[12..14] + f[14..22];
  }

  function Reply(h: Host, you: Host): Bytes {
    ArpFrame(h.mac, you.mac, ARP_REPLY, you.mac, you.ip, h.mac, h.ip)
  }

  // The host asked for learns the asker and answers it.
  lemma RequestAnswered(h: Host, you: Host, pad: Bytes)
    ensures HandleFrame(you, Request(h, you.ip) + pad) == Reaction(Some(Pair(h.ip, h.mac)), Some(Reply(h, you)), None)
  {
    ArpParts(BROADCAST, h.mac, ARP_REQUEST, h.mac, h.ip, NO_MAC, you.ip, pad);
    ArpWire(BROADCAST, h.mac, 1, h.mac, h.ip, NO_MAC, you.ip, pad);
    var f := Request(h, you.ip) + pad;
    WireWords(f, 1);
    hide ArpFrame;
  }

  lemma WireWords(f: Bytes, op: Byte)
    requires 42 <= |f| && f[12..22] == [8, 6, 0, 1, 8, 0, 6, 4, 0, op]
    ensures f[18] == 6 && f[19] == 4 && Get16(f, 14) == 1 && Get16(f, 16) == 0x0800
    ensures Get16(f, 12) == 0x0806 && Get16(f, 20) == op
  {
    var w := f[12..22];
    assert f[12] == w[0] && f[13] == w[1] && f[14] == w[2] && f[15] == w[3] && f[16] == w[4];
    assert f[17] == w[5] && f[18] == w[6] && f[19] == w[7] && f[20] == w[8] && f[21] == w[9];
  }

  // The asker learns from the answer, and there the exchange ends.
  lemma ReplyLearned(h: Host, you: Host, pad: Bytes)
    ensures HandleFrame(h, Reply(h, you) + pad) == Reaction(Some(Pair(you.ip, you.mac)), None, None)
  {
    ArpParts(h.mac, you.mac, ARP_REPLY, you.mac, you.ip, h.mac, h.ip, pad);
    ArpWire(h.mac, you.mac, 2, you.mac, you.ip, h.mac, h.ip, pad);
    WireWords(Reply(h, you) + pad, 2);
    hide ArpFrame;
  }

  lemma InsertedFound(cache: Pairs, ip: Ip, mac: Mac)
    ensures Find(Inserted(cache, ip, mac), ip) == Some(mac)
  {
  }

  // Host i asks for host j, and both frames arrive, with any padding.
  function Exchange(h: Host, you: Host, i: nat, j: nat, pad: Bytes, pad': Bytes): seq<Event> {
    [Ask(i, you.ip), Receive(j, Request(h, you.ip), pad, true), Receive(i, Reply(h, you), pad', true)]
  }

  ghost predicate TakesIpv4(you: Host, f: Bytes) {
    14 <= |f| && MacForMe(you, f) && Get16(f, 12) == ETH_IPV4 && Ipv4Accepts(you, f)
  }

  ghost predicate Puts(n: Net, e: Event, f: Bytes) {
    Enabled(n, e) && f in Apply(n, e).wire
  }

  function DatagramFrame(h: Host, you: Host, proto: Byte, payload: Bytes): Bytes
    requires |payload| <= 2048 - 34
  {
    Ipv4Frame(you.mac, h.mac, proto, h.ip, you.ip, payload)
  }

  // After an exchange in any state of the network each of the two has the other's MAC, and
  // what i sends to j next is an IPv4 frame that j accepts.
  lemma Resolved(n: Net, i: nat, j: nat, pad: Bytes, pad': Bytes, proto: Byte, payload: Bytes) returns (n': Net)
    requires i < |n.hosts| && j < |n.hosts| && i != j && |n.caches| == |n.hosts| && |payload| <= 2048 - 34
    ensures Reaches(n, Exchange(n.hosts[i], n.hosts[j], i, j, pad, pad'), n')
    ensures n'.hosts == n.hosts && |n'.caches| == |n.hosts|
    ensures Find(n'.caches[i], n.hosts[j].ip) == Some(n.hosts[j].mac) && Find(n'.caches[j], n.hosts[i].ip) == Some(n.hosts[i].mac)
    ensures var f := DatagramFrame(n.hosts[i], n.hosts[j], proto, payload);
      Puts(n', Send(i, n.hosts[j].ip, proto, payload), f) && TakesIpv4(n.hosts[j], f)
  {
    var h, you := n.hosts[i], n.hosts[j];
    var asked, arrived, answered := Ask(i, you.ip), Receive(j, Request(h, you.ip), pad, true), Receive(i, Reply(h, you), pad', true);
    RequestAnswered(h, you, pad);
    ReplyLearned(h, you, pad');
    Ipv4FrameAccepted(you, h, proto, payload, []);
    assert Ipv4Frame(you.mac, h.mac, proto, h.ip, you.ip, payload) + [] == Ipv4Frame(you.mac, h.mac, proto, h.ip, you.ip, payload);
    hide HandleFrame;
    hide ArpFrame;
    hide Ipv4Frame;
    hide Ipv4Accepts;
    InsertedFound(n.caches[j], h.ip, h.mac);
    InsertedFound(n.caches[i], you.ip, you.mac);
    hide Inserted;
    var n1 := Apply(n, asked);
    var n2 := Apply(n1, arrived);
    n' := Apply(n2, answered);
    ThreeSteps(n, asked, arrived, answered, n1, n2, n');
  }

  lemma ThreeSteps(n: Net, a: Event, b: Event, c: Event, n1: Net, n2: Net, n3: Net)
    requires Enabled(n, a) && n1 == Apply(n, a) && Enabled(n1, b) && n2 == Apply(n1, b) && Enabled(n2, c) && n3 == Apply(n2, c)
    ensures Reaches(n, [a, b, c], n3)
  {
    hide Enabled;
    hide Apply;
    assert [a, b, c][1..] == [b, c] && [b, c][1..] == [c] && [c][1..] == [];
    assert Reaches(n3, [], n3);
    assert Reaches(n2, [c], n3);
    assert Reaches(n1, [b, c], n3);
  }

  // A frame some host built as an ARP reply is never answered.
  lemma ArpReplySilent(h: Host, dst: Mac, src: Mac, sha: Mac, spa: Ip, tha: Mac, tpa: Ip, pad: Bytes)
    ensures HandleFrame(h, ArpFrame(dst, src, ARP_REPLY, sha, spa, tha, tpa) + pad).reply == None
  {
    ArpParts(dst, src, ARP_REPLY, sha, spa, tha, tpa, pad);
    hide ArpFrame;
  }

  lemma ArpGenuine(hosts: seq<Host>, i: nat, dst: Mac, op: nat, tha: Mac, tpa: Ip)
    requires i < |hosts| && op < 0x1_0000
    ensures var h := hosts[i]; Genuine(hosts, ArpFrame(dst, h.mac, op, h.mac, h.ip, tha, tpa))
  {
    var h := hosts[i];
    var f := ArpFrame(dst, h.mac, op, h.mac, h.ip, tha, tpa);
    ArpParts(dst, h.mac, op, h.mac, h.ip, tha, tpa, []);
    assert f + [] == f;
    hide ArpFrame;
    assert hosts[i].ip == f[28..32] && hosts[i].mac == f[22..28];
  }

  lemma Ipv4Genuine(hosts: seq<Host>, i: nat, mac: Mac, proto: Byte, dst: Ip, payload: Bytes)
    requires i < |hosts| && |payload| <= 2048 - 34 && Owner(hosts, dst, mac)
    ensures var h := hosts[i]; Genuine(hosts, Ipv4Frame(mac, h.mac, proto, h.ip, dst, payload))
  {
    var h := hosts[i];
    var f := Ipv4Frame(mac, h.mac, proto, h.ip, dst, payload);
    Ipv4Parts(mac, h.mac, proto, h.ip, dst, payload, []);
    assert f + [] == f;
    hide Ipv4Frame;
    assert hosts[i].ip == f[26..30] && hosts[i].mac == f[6..12];
  }

  lemma PaddedGenuine(hosts: seq<Host>, f: Bytes, pad: Bytes)
    requires Genuine(hosts, f)
    ensures Genuine(hosts, f + pad)
  {
    var g := f + pad;
    assert g[..14] == f[..14] && Get16(g, 12) == Get16(f, 12);
    if Get16(f, 12) == ETH_ARP {
      assert g[28..32] == f[28..32] && g[22..28] == f[22..28];
    } else {
      assert g[26..30] == f[26..30] && g[6..12] == f[6..12] && g[30..34] == f[30..34] && g[..6] == f[..6];
    }
  }

  lemma {:induction false} FoundIsTrue(hosts: seq<Host>, cache: Pairs, ip: Ip)
    requires TrueCache(hosts, cache) && Find(cache, ip) != None
    ensures Owner(hosts, ip, Find(cache, ip).value)
  {
    if cache[0].ip != ip {
      FoundIsTrue(hosts, cache[1..], ip);
    }
  }

  lemma {:induction false} WithoutIsTrue(hosts: seq<Host>, cache: Pairs, ip: Ip)
    requires TrueCache(hosts, cache)
    ensures TrueCache(hosts, Without(cache, ip))
  {
    if cache != [] {
      WithoutIsTrue(hosts, cache[1..], ip);
    }
  }

  lemma InsertedIsTrue(hosts: seq<Host>, cache: Pairs, ip: Ip, mac: Mac)
    requires TrueCache(hosts, cache) && Owner(hosts, ip, mac)
    ensures TrueCache(hosts, Inserted(cache, ip, mac))
  {
    WithoutIsTrue(hosts, cache, ip);
  }

  lemma TouchedIsTrue(hosts: seq<Host>, cache: Pairs, ip: Ip)
    requires TrueCache(hosts, cache)
    ensures TrueCache(hosts, Touched(cache, ip))
  {
    WithoutIsTrue(hosts, cache, ip);
    if Find(cache, ip) != None {
      FoundIsTrue(hosts, cache, ip);
    }
  }

  // What a host does with a genuine frame is genuine.
  lemma ReactionGenuine(hosts: seq<Host>, i: nat, data: Bytes)
    requires i < |hosts| && Genuine(hosts, data)
    ensures var r := HandleFrame(hosts[i], data);
      (r.learn.Some? ==> Owner(hosts, r.learn.value.ip, r.learn.value.mac)) && (r.reply.Some? ==> Genuine(hosts, r.reply.value))
  {
    var h := hosts[i];
    if MacForMe(h, data) {
      if Get16(data, 12) == ETH_ARP {
        ArpGenuine(hosts, i, data[6..12], ARP_REPLY, data[22..28], data[28..32]);
        hide ArpFrame;
        hide Genuine;
      } else if HandleFrame(h, data).reply.Some? {
        EchoRequest(h, data);
        EchoGenuine(hosts, i, data, HeaderLength(data), Get16(data, 16));
      }
    }
  }

  lemma EchoGenuine(hosts: seq<Host>, i: nat, data: Bytes, hl: nat, total: nat)
    requires i < |hosts| && Genuine(hosts, data) && Get16(data, 12) == ETH_IPV4
    requires 34 <= |data| && 20 <= hl && hl + 8 <= total && 14 + total <= |data|
    ensures Genuine(hosts, EchoReply(hosts[i], data, hl, total))
  {
    EchoReplyValid(hosts[i], data, hl, total);
    var r := EchoReply(hosts[i], data, hl, total);
    SameWord(r, data, 12);
    hide EchoReply;
    hide Checksum;
    assert hosts[i].ip == r[26..30] && hosts[i].mac == r[6..12];
  }

  lemma StepKeeps(n: Net, e: Event)
    requires Inv(n) && Enabled(n, e)
    ensures Inv(Apply(n, e))
  {
    hide Genuine;
    hide TrueCache;
    hide ArpFrame;
    hide Ipv4Frame;
    var h := n.hosts[e.i];
    match e
    case Ask(i, target) =>
      ArpGenuine(n.hosts, i, BROADCAST, ARP_REQUEST, NO_MAC, target);
    case Send(i, dst, proto, payload) =>
      if Find(n.caches[i], dst) == None {
        ArpGenuine(n.hosts, i, BROADCAST, ARP_REQUEST, NO_MAC, dst);
      } else {
        FoundIsTrue(n.hosts, n.caches[i], dst);
        TouchedIsTrue(n.hosts, n.caches[i], dst);
        Ipv4Genuine(n.hosts, i, Find(n.caches[i], dst).value, proto, dst, payload);
      }
    case Receive(i, frame, pad, accepted) =>
      PaddedGenuine(n.hosts, frame, pad);
      ReactionGenuine(n.hosts, i, frame + pad);
      var learn := HandleFrame(h, frame + pad).learn;
      if learn.Some? {
        InsertedIsTrue(n.hosts, n.caches[i], learn.value.ip, learn.value.mac);
      }
      hide HandleFrame;
  }

  ghost predicate Reaches(n0: Net, es: seq<Event>, n: Net)
    decreases |es|
  {
    if es == [] then n == n0
    else Enabled(n0, es[0]) && Reaches(Apply(n0, es[0]), es[1..], n)
  }

  ghost predicate Initial(n: Net) {
    |n.caches| == |n.hosts| && n.wire == {} && forall i :: 0 <= i < |n.caches| ==> n.caches[i] == []
  }

  lemma {:induction false} RunKeeps(n0: Net, es: seq<Event>, n: Net)
    requires Inv(n0) && Reaches(n0, es, n)
    ensures Inv(n) && n.hosts == n0.hosts
    decreases |es|
  {
    if es != [] {
      StepKeeps(n0, es[0]);
      RunKeeps(Apply(n0, es[0]), es[1..], n);
    }
  }

  // In every run, whatever the network does to the frames, each cache entry is the true
  // pair of one host, and each IPv4 frame goes to the one host that has its destination IP.
  lemma CachesAndFramesTrue(n0: Net, es: seq<Event>, n: Net)
    requires Initial(n0) && GoodHosts(n0.hosts) && Reaches(n0, es, n)
    ensures forall i, k :: 0 <= i < |n.caches| && 0 <= k < |n.caches[i]| ==>
      Owner(n.hosts, n.caches[i][k].ip, n.caches[i][k].mac)
    ensures forall f :: f in n.wire && 14 <= |f| && Get16(f, 12) == ETH_IPV4 ==> 34 <= |f| && Owner(n.hosts, f[30..34], f[..6])
    ensures forall f, j :: f in n.wire && 34 <= |f| && Get16(f, 12) == ETH_IPV4 && 0 <= j < |n.hosts| ==>
      (n.hosts[j].ip == f[30..34] <==> MacForMe(n.hosts[j], f))
  {
    RunKeeps(n0, es, n);
    forall f, j | f in n.wire && 34 <= |f| && Get16(f, 12) == ETH_IPV4 && 0 <= j < |n.hosts|
      ensures n.hosts[j].ip == f[30..34] <==> MacForMe(n.hosts[j], f)
    {
      assert Genuine(n.hosts, f);
      OnlyOwner(n.hosts, f[30..34], f[..6], j);
    }
  }

  lemma OnlyOwner(hosts: seq<Host>, ip: Bytes, mac: Bytes, j: nat)
    requires GoodHosts(hosts) && Owner(hosts, ip, mac) && j < |hosts|
    ensures mac != BROADCAST && (hosts[j].ip == ip <==> hosts[j].mac == mac)
  {
    var i :| 0 <= i < |hosts| && hosts[i].ip == ip && hosts[i].mac == mac;
    assert i < j || i == j || j < i;
  }
}
