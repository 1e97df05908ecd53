/** ipv4_frag_out of kernel/net/ip.c: how a payload is cut, and that reassembly undoes it. */
module Fragmentation {
  import opened Chunks
  import opened Checksum
  import opened Ipv4
  import opened Reassembly

  /** netif->mtu - sizeof(ipv4_hdr_t), an unsigned 32-bit value. */
  function MaxData(mtu: nat): (r: nat) {
    if mtu >= HDR_SIZE then mtu - HDR_SIZE else mtu + (TWO32 - HDR_SIZE)
  }

  /** How much of `left` bytes the next fragment takes: everything, or a multiple of 8. */
  function FragSize(left: nat, mtu: nat): (r: nat)
    ensures r <= left
    ensures r < left ==> r % 8 == 0 && r <= MaxData(mtu)
  {
    if left <= MaxData(mtu) then left else Unit(mtu)
  }

  /** The data bytes of every fragment but the last. */
  function Unit(mtu: nat): (r: nat)
    ensures r % 8 == 0 && r <= MaxData(mtu) < r + 8
  {
    MaxData(mtu) / 8 * 8
  }

  /** The loop of ipv4_frag_out makes progress exactly when the rest fits into one packet or a
      packet has room for eight bytes of data: not for an MTU from 20 to 27. */
  lemma {:induction false} ProgressIff(left: nat, mtu: nat)
    requires left > 0
    ensures FragSize(left, mtu) > 0 <==> left <= MaxData(mtu) || MaxData(mtu) >= 8
    ensures (forall n: nat :: 0 < n < TWO32 - HDR_SIZE ==> FragSize(n, mtu) > 0) <==> mtu < 20 || mtu >= 28
  {
    if 20 <= mtu < 28 {
      assert FragSize(8, mtu) == 0;
    }
  }

  /** The fields that every fragment of a datagram shares. */
  datatype Flow = Flow(id: Word16, protocol: Byte, src: Addr, dst: Addr)

  /** The header of a fragment with `n` bytes of data at byte `at`, checksum field still 0. */
  function Blank(flow: Flow, at: nat, n: nat, more: bool): (r: Header) {
    Header(5, 4, 0, (n + HDR_SIZE) % TWO16, flow.id, at / 8 % 8192, more, false, false,
           TTL, flow.protocol, 0, flow.src, flow.dst)
  }

  /** The header as it is sent. */
  function FragHeader(flow: Flow, at: nat, n: nat, more: bool): (r: Header) {
    var h := Blank(flow, at, n, more);
    h.(checksum := Complement(AreaSum(Wire(h), 0)))
  }

  function Fragment(flow: Flow, payload: seq<Byte>, at: nat, n: nat): (r: Packet)
    requires at + n <= |payload| && n + HDR_SIZE < TWO16
  {
    var h := FragHeader(flow, at, n, at + n < |payload|);
    RawPacket(h, Host(h), payload[at..at + n])
  }

  /** All the fragments from byte `at` on, for an MTU that a 16-bit length can express. */
  function Fragments(flow: Flow, payload: seq<Byte>, at: nat, mtu: nat): (r: seq<Packet>)
    requires 28 <= mtu < TWO16 && at <= |payload|
    decreases |payload| - at
  {
    if at == |payload| then []
    else var n := FragSize(|payload| - at, mtu);
         [Fragment(flow, payload, at, n)] + Fragments(flow, payload, at + n, mtu)
  }

  lemma {:induction false} FragmentFacts(flow: Flow, payload: seq<Byte>, at: nat, n: nat)
    requires at + n <= |payload| && n + HDR_SIZE < TWO16 && at % 8 == 0 && at < TWO16
    ensures var f := Fragment(flow, payload, at, n);
            Start(f) == at && f.data == payload[at..at + n] && f.hdr.more == (at + n < |payload|)
  {
  }

  lemma {:induction false} FragSizeFacts(left: nat, mtu: nat)
    requires 28 <= mtu < TWO16 && left > 0
    ensures var n := FragSize(left, mtu);
            0 < n <= left && n + HDR_SIZE < TWO16 && if left <= MaxData(mtu) then n == left else n == Unit(mtu) < left
  {
  }

  /** Back to back, non-empty, `more` on all but the last, and together the payload. */
  lemma {:induction false} FragmentsContiguous(flow: Flow, payload: seq<Byte>, at: nat, mtu: nat)
    requires 28 <= mtu < TWO16 && at < |payload| < TWO16 && at % 8 == 0
    ensures Contiguous(Fragments(flow, payload, at, mtu), at)
    ensures DataOf(Fragments(flow, payload, at, mtu)) == payload[at..]
    decreases |payload| - at
  {
    hide Fragment, FragSize, Start, Unit;
    FragSizeFacts(|payload| - at, mtu);
    var n := FragSize(|payload| - at, mtu);
    FragmentFacts(flow, payload, at, n);
    var f, rest := Fragment(flow, payload, at, n), Fragments(flow, payload, at + n, mtu);
    var fs := Fragments(flow, payload, at, mtu);
    assert fs[0] == f && fs[1..] == rest;
    if at + n < |payload| {
      FragmentsContiguous(flow, payload, at + n, mtu);
      assert payload[at..] == payload[at..at + n] + payload[at + n..];
    } else {
      assert rest == [];
      assert payload[at..at + n] + [] == payload[at..];
    }
  }

  /** Every datagram that fits the 16-bit length of IP, cut for any usable MTU into at most ten
      fragments, comes back: its first header followed by the whole payload, when the last
      missing fragment arrives, for any order and any repetition of the fragments. */
  lemma {:induction false} FragmentRoundTrip(flow: Flow, payload: seq<Byte>, mtu: nat, ds: seq<nat>, k: nat)
    requires 28 <= mtu < TWO16 && 0 < |payload| < TWO16
    requires var fs := Fragments(flow, payload, 0, mtu);
             && |fs| <= FRAGS_MAX && k < |ds| && (forall i :: 0 <= i < |ds| ==> ds[i] < |fs|)
             && !Covers(ds[..k], |fs|) && Covers(ds[..k + 1], |fs|)
    ensures var fs := Fragments(flow, payload, 0, mtu);
            var outs := Outputs([], Deliver(fs, ds));
            && (forall i :: 0 <= i < k ==> outs[i] == None)
            && outs[k] == Some(Host(fs[0].hdr) + payload)
            && HostHead(Host(fs[0].hdr), flow, if |payload| > MaxData(mtu) then Unit(mtu) else |payload|,
                        |payload| > MaxData(mtu))
  {
    var fs := Fragments(flow, payload, 0, mtu);
    FragmentsContiguous(flow, payload, 0, mtu);
    HandedUpWithLastMissing(fs, ds, k);
    assert payload[0..] == payload;
    FirstHead(flow, payload, mtu);
  }

  /** Two bytes read as a number. */
  function Number(high: int, low: int): (r: int) {
    256 * high + low
  }

  /** What the 20 bytes in front of a datagram that is handed up say, low byte first: version 4 and
      five words, the length of the first fragment, the identification, no offset, lifetime 64, the
      protocol, and the two addresses. */
  predicate HostHead(h: seq<Byte>, flow: Flow, n: nat, more: bool) {
    && |h| == HDR_SIZE && h[0] == 0x45 && h[1] == 0 && Number(h[3], h[2]) == n + HDR_SIZE
    && Number(h[5], h[4]) == flow.id && Number(h[7], h[6]) == (if more then 8192 else 0)
    && h[8] == 64 && h[9] == flow.protocol && h[12..16] == flow.src && h[16..20] == flow.dst
  }

  lemma {:induction false} FirstHead(flow: Flow, payload: seq<Byte>, mtu: nat)
    requires 28 <= mtu < TWO16 && 0 < |payload| < TWO16
    ensures var fs := Fragments(flow, payload, 0, mtu);
            var n := if |payload| > MaxData(mtu) then Unit(mtu) else |payload|;
            fs != [] && HostHead(Host(fs[0].hdr), flow, n, |payload| > MaxData(mtu))
  {
    hide HostHead, Host, FragHeader, FragSize, Unit;
    FragSizeFacts(|payload|, mtu);
    var n := FragSize(|payload|, mtu);
    HeadSays(flow, n, n < |payload|);
  }

  /** The fields of the header of a fragment. */
  ghost predicate Says(h: Header, flow: Flow, at: nat, n: nat, more: bool) {
    && h.shdr == 5 && h.version == 4 && h.tos == 0 && h.totalLen == n + HDR_SIZE && h.id == flow.id
    && h.offset == at / 8 && h.more == more && !h.disable && !h.reserved
    && h.ttl == 64 && h.protocol == flow.protocol && h.src == flow.src && h.dst == flow.dst
  }

  lemma {:induction false} HeaderSays(flow: Flow, at: nat, n: nat, more: bool)
    requires n + HDR_SIZE < TWO16 && at < TWO16
    ensures Says(FragHeader(flow, at, n, more), flow, at, n, more)
  {
    hide AreaSum, Wire;
  }

  lemma {:induction false} HeadSays(flow: Flow, n: nat, more: bool)
    requires n + HDR_SIZE < TWO16
    ensures HostHead(Host(FragHeader(flow, 0, n, more)), flow, n, more)
  {
    hide FragHeader, Host, FragAll;
    HeaderSays(flow, 0, n, more);
    var h := FragHeader(flow, 0, n, more);
    HostBytes(h);
    FragAllIs(h);
  }

  /** The bytes of a header in memory, read as numbers. */
  lemma {:induction false} HostBytes(h: Header)
    ensures var b := Host(h);
            && b[0] == FirstByte(h) && b[1] == h.tos && Number(b[3], b[2]) == h.totalLen
            && Number(b[5], b[4]) == h.id && Number(b[7], b[6]) == FragAll(h)
            && b[8] == h.ttl && b[9] == h.protocol && b[12..16] == h.src && b[16..20] == h.dst
  {
  }

  /** The bytes of a header on the wire. */
  lemma {:induction false} WireBytes(h: Header)
    ensures var b := Wire(h);
            && b[0] == FirstByte(h) && b[1] == h.tos && Number(b[2], b[3]) == h.totalLen
            && Number(b[4], b[5]) == h.id && Number(b[6], b[7]) == FragAll(h)
            && b[8] == h.ttl && b[9] == h.protocol && b[12..16] == h.src && b[16..20] == h.dst
  {
  }

  /** How many fragments a payload makes, and so which payloads can be reassembled at all. */
  lemma {:induction false} FragmentCount(flow: Flow, payload: seq<Byte>, at: nat, mtu: nat, k: nat)
    requires 28 <= mtu < TWO16 && at < |payload|
    ensures |Fragments(flow, payload, at, mtu)| <= k + 1 <==>
            |payload| - at <= k * Unit(mtu) + MaxData(mtu)
    decreases |payload| - at
  {
    hide Fragment, FragSize, Unit;
    var unit := Unit(mtu);
    FragSizeFacts(|payload| - at, mtu);
    if |payload| - at > MaxData(mtu) {
      if k > 0 {
        FragmentCount(flow, payload, at + unit, mtu, k - 1);
        assert k * unit == (k - 1) * unit + unit;
      } else {
        assert |Fragments(flow, payload, at + unit, mtu)| > 0;
      }
    } else {
      assert k * unit >= 0;
    }
  }

  // ------------------------------------------------------------------ on the wire

  /** The packet that leaves: header in network order, then the data. */
  function Frame(p: Packet): (r: seq<Byte>) {
    Wire(p.hdr) + p.data
  }

  /** ipv4_in up to the choice between ipv4_frag_in and ipv4_normal_in, for a packet whose
      length field stays within the bytes received: header bytes swapped back, and the link
      layer's padding cut off by pktbuf_resize. */
  function Received(frame: seq<Byte>): (r: Option<Packet>) {
    if |frame| < HDR_SIZE then None
    else
      var host := Htons(frame);
      var h := Fields(host);
      var n := 4 * h.shdr as int;
      if n <= h.totalLen <= |frame| then Some(RawPacket(h, host[..n], host[n..h.totalLen])) else None
  }

  /** What is sent is what is received, whatever padding the link layer adds. */
  lemma {:induction false} ReceivedFrame(flow: Flow, payload: seq<Byte>, at: nat, n: nat, pad: seq<Byte>)
    requires at + n <= |payload| && n + HDR_SIZE < TWO16
    ensures var f := Fragment(flow, payload, at, n); Received(Frame(f) + pad) == Some(f)
  {
    hide FragHeader;
    var f := Fragment(flow, payload, at, n);
    HeaderLength(flow, at, n, at + n < |payload|);
    assert Frame(f) + pad == Wire(f.hdr) + (f.data + pad);
    HtonsWire(f.hdr, f.data + pad);
    FieldsHost(f.hdr, f.data + pad);
    var host := Host(f.hdr) + (f.data + pad);
    assert host[..HDR_SIZE] == Host(f.hdr) && host[HDR_SIZE..HDR_SIZE + n] == f.data;
  }

  lemma {:induction false} HeaderLength(flow: Flow, at: nat, n: nat, more: bool)
    ensures FragHeader(flow, at, n, more).shdr == 5 && FragHeader(flow, at, n, more).totalLen == (n + HDR_SIZE) % TWO16
  {
  }

  /** The header of every fragment passes the check of RFC 791. */
  lemma {:induction false} HeaderChecks(flow: Flow, at: nat, n: nat, more: bool)
    ensures Complement(AreaSum(Wire(FragHeader(flow, at, n, more)), 0)) == 0
  {
    var h := Blank(flow, at, n, more);
    var w := Complement(AreaSum(Wire(h), 0));
    StoredChecksumCloses(Wire(h), 10);
    WireChecksum(h, w);
  }

  lemma {:induction false} WireChecksum(h: Header, w: Word16)
    requires h.checksum == 0
    ensures Wire(h)[10] == 0 && Wire(h)[11] == 0
    ensures Wire(h.(checksum := w)) == Splice(Wire(h), 10, Store16(w))
  {
    var t := Wire(h.(checksum := w));
    assert FragAll(h.(checksum := w)) == FragAll(h) && FirstByte(h.(checksum := w)) == FirstByte(h);
    assert t[12..] == Wire(h)[12..];
    assert forall k :: 0 <= k < HDR_SIZE && k != 10 && k != 11 ==> t[k] == Wire(h)[k];
  }

  /** What the first 20 bytes of a fragment say on the wire, high byte first, as section 3.1 of
      RFC 791 asks: version 4 and five words, the length of the fragment, the identification, where
      its data belongs and whether more follow, lifetime 64, the protocol, a checksum that closes,
      and the two addresses. */
  predicate WireHead(f: seq<Byte>, flow: Flow, at: nat, more: bool) {
    && |f| >= HDR_SIZE && f[0] == 0x45 && f[1] == 0 && Number(f[2], f[3]) == |f| && Number(f[4], f[5]) == flow.id
    && Number(f[6], f[7]) == at / 8 + (if more then 8192 else 0)
    && f[8] == 64 && f[9] == flow.protocol && f[12..16] == flow.src && f[16..20] == flow.dst
    && Complement(AreaSum(f[..HDR_SIZE], 0)) == 0
  }

  /** Frames that carry the payload from byte `at` on: each within the MTU, with a header that says
      where its data belongs, all but the last filled up to a multiple of eight bytes. */
  predicate Carry(frames: seq<seq<Byte>>, flow: Flow, payload: seq<Byte>, at: nat, mtu: nat)
    requires at <= |payload|
    decreases |frames|
  {
    if frames == [] then at == |payload|
    else
      var f := frames[0];
      && HDR_SIZE < |f| <= mtu && at + (|f| - HDR_SIZE) <= |payload|
      && var next := at + (|f| - HDR_SIZE);
         && f[HDR_SIZE..] == payload[at..next] && at % 8 == 0 && WireHead(f, flow, at, next < |payload|)
         && (next < |payload| ==> mtu < |f| + 8) && Carry(frames[1..], flow, payload, next, mtu)
  }

  lemma {:induction false} FrameSays(flow: Flow, payload: seq<Byte>, at: nat, n: nat)
    requires at + n <= |payload| < TWO16 && n + HDR_SIZE < TWO16 && at % 8 == 0
    ensures var f := Frame(Fragment(flow, payload, at, n));
            |f| == HDR_SIZE + n && f[HDR_SIZE..] == payload[at..at + n] && WireHead(f, flow, at, at + n < |payload|)
  {
    hide Wire, AreaSum, FragAll, FragHeader;
    HeaderSays(flow, at, n, at + n < |payload|);
    var h := FragHeader(flow, at, n, at + n < |payload|);
    var f := Frame(Fragment(flow, payload, at, n));
    WireBytes(h);
    HeaderChecks(flow, at, n, at + n < |payload|);
    FragAllIs(h);
    assert f[..HDR_SIZE] == Wire(h) && f[HDR_SIZE..] == payload[at..at + n];
    assert f[12..16] == Wire(h)[12..16] && f[16..20] == Wire(h)[16..20];
  }

  lemma {:induction false} FragAllIs(h: Header)
    requires !h.disable && !h.reserved
    ensures FragAll(h) == h.offset + if h.more then 8192 else 0
  {
  }

  /** The 16-bit length field holds the length of every possible fragment exactly when the MTU
      fits 16 bits itself. */
  lemma {:induction false} LengthFieldExactIff(flow: Flow, mtu: nat)
    requires mtu >= 28
    ensures (forall left: nat :: LengthExact(flow, left, mtu)) <==> mtu < TWO16
  {
    hide FragHeader;
    forall left: nat ensures LengthExact(flow, left, mtu) <==> FragSize(left, mtu) + HDR_SIZE < TWO16 {
      var n := FragSize(left, mtu);
      HeaderLength(flow, 0, n, n < left);
    }
    assert FragSize(MaxData(mtu), mtu) == MaxData(mtu);
    assert mtu >= TWO16 ==> !LengthExact(flow, MaxData(mtu), mtu);
  }

  predicate LengthExact(flow: Flow, left: nat, mtu: nat) {
    var n := FragSize(left, mtu);
    FragHeader(flow, 0, n, n < left).totalLen == n + HDR_SIZE
  }

  /** The frames of a datagram, each received with some padding behind it. */
  function Arrivals(fs: seq<Packet>, ds: seq<nat>, pads: seq<seq<Byte>>): (r: seq<Option<Packet>>)
    requires |pads| == |ds| && forall i :: 0 <= i < |ds| ==> ds[i] < |fs|
    ensures |r| == |ds|
  {
    seq(|ds|, i requires 0 <= i < |ds| => Received(Frame(fs[ds[i]]) + pads[i]))
  }

  lemma {:induction false} FragmentIs(flow: Flow, payload: seq<Byte>, at: nat, mtu: nat, d: nat)
    returns (a: nat, n: nat)
    requires 28 <= mtu < TWO16 && at <= |payload| && d < |Fragments(flow, payload, at, mtu)|
    ensures a + n <= |payload| && n + HDR_SIZE < TWO16
    ensures Fragments(flow, payload, at, mtu)[d] == Fragment(flow, payload, a, n)
    decreases |payload| - at
  {
    hide Fragment, FragSize;
    FragSizeFacts(|payload| - at, mtu);
    n := FragSize(|payload| - at, mtu);
    if d == 0 {
      a := at;
    } else {
      a, n := FragmentIs(flow, payload, at + n, mtu, d - 1);
    }
  }

  /** The frames received, in whatever order and with whatever padding, are the fragments. */
  lemma {:induction false} ArrivalsAreFragments(flow: Flow, payload: seq<Byte>, mtu: nat, ds: seq<nat>,
                                                pads: seq<seq<Byte>>, i: nat)
    requires 28 <= mtu < TWO16 && |pads| == |ds| && i < |ds|
    requires forall i :: 0 <= i < |ds| ==> ds[i] < |Fragments(flow, payload, 0, mtu)|
    ensures var fs := Fragments(flow, payload, 0, mtu); Arrivals(fs, ds, pads)[i] == Some(Deliver(fs, ds)[i])
  {
    hide Fragment, Fragments, Received, Frame;
    var a, n := FragmentIs(flow, payload, 0, mtu, ds[i]);
    ReceivedFrame(flow, payload, a, n, pads[i]);
  }
}
