/** From sender to receiver: a fragmented datagram among the traffic of other sources. */
module Datagrams {
  import opened Chunks
  import opened Checksum
  import opened Ipv4
  import opened Reassembly
  import opened FragTable
  import opened Fragmentation
  import opened Streams

  /** The packets of source `x` are the frames of these fragments, each with some padding, as the
      receiver reads them. */
  ghost predicate SentBy(arrivals: seq<Arrival>, x: Addr, fs: seq<Packet>, ds: seq<nat>, pads: seq<seq<Byte>>) {
    && |PacketsOf(arrivals, x)| == |ds| == |pads|
    && (forall i :: 0 <= i < |ds| ==> ds[i] < |fs|)
    && (forall i :: 0 <= i < |ds| ==> Received(Frame(fs[ds[i]]) + pads[i]) == Some(PacketsOf(arrivals, x)[i]))
  }

  lemma {:induction false} PacketsAreFragments(arrivals: seq<Arrival>, x: Addr, flow: Flow, payload: seq<Byte>,
                                               mtu: nat, ds: seq<nat>, pads: seq<seq<Byte>>)
    requires 28 <= mtu < TWO16 && SentBy(arrivals, x, Fragments(flow, payload, 0, mtu), ds, pads)
    ensures PacketsOf(arrivals, x) == Deliver(Fragments(flow, payload, 0, mtu), ds)
  {
    hide Fragments, Received, Frame, PacketsOf;
    var fs := Fragments(flow, payload, 0, mtu);
    forall i | 0 <= i < |ds| ensures PacketsOf(arrivals, x)[i] == Deliver(fs, ds)[i] {
      ArrivalsAreFragments(flow, payload, mtu, ds, pads, i);
    }
  }

  /** The datagram comes through: while at most ten sources send fragments, whatever the others
      send in between, the fragments of a payload in any order and with any repetition hand up
      its first header and the whole payload, precisely with the last missing fragment. */
  lemma {:induction false} ComesThrough(t: Table, arrivals: seq<Arrival>, sources: set<Addr>, x: Addr,
                                        flow: Flow, payload: seq<Byte>, mtu: nat, ds: seq<nat>, pads: seq<seq<Byte>>,
                                        k: nat)
    requires TableOk(t) && Among(t, arrivals, sources) && |sources| <= FRAGS_MAX && ListOf(t.entries, x) == []
    requires 28 <= mtu < TWO16 && 0 < |payload| < TWO16
    requires var fs := Fragments(flow, payload, 0, mtu);
             && |fs| <= FRAGS_MAX && k < |ds| && SentBy(arrivals, x, fs, ds, pads)
             && !Covers(ds[..k], |fs|) && Covers(ds[..k + 1], |fs|)
    ensures var fs, outs := Fragments(flow, payload, 0, mtu), OutputsOf(arrivals, TableOutputs(t, arrivals), x);
            && |outs| == |ds| && fs != []
            && (forall i :: 0 <= i < k ==> outs[i] == None)
            && outs[k] == Some(Host(fs[0].hdr) + payload)
            && HostHead(Host(fs[0].hdr), flow, if |payload| > MaxData(mtu) then Unit(mtu) else |payload|,
                        |payload| > MaxData(mtu))
  {
    hide Received, Frame, PacketsOf, OutputsOf, TableOutputs, TableOk, Among, Outputs, ListOf;
    PacketsAreFragments(arrivals, x, flow, payload, mtu, ds, pads);
    SourcesIndependent(t, arrivals, sources, x);
    FragmentRoundTrip(flow, payload, mtu, ds, k);
  }

  /** Datagrams of a source that come one after the other, each complete before the next begins and
      without a late repetition, come through in order, whatever up to nine other sources send in
      between. */
  lemma {:induction false} StreamComesThrough(t: Table, arrivals: seq<Arrival>, sources: set<Addr>, x: Addr,
                                              bs: seq<Batch>)
    requires TableOk(t) && Among(t, arrivals, sources) && |sources| <= FRAGS_MAX && ListOf(t.entries, x) == []
    requires (forall i :: 0 <= i < |bs| ==> Whole(bs[i])) && PacketsOf(arrivals, x) == Arriving(bs)
    ensures OutputsOf(arrivals, TableOutputs(t, arrivals), x) == AllExpected(bs)
  {
    hide PacketsOf, OutputsOf, TableOutputs, TableOk, Among, Outputs, ListOf, Whole, Arriving, AllExpected;
    SourcesIndependent(t, arrivals, sources, x);
    InOrder(bs);
  }
}
