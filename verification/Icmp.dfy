/** The echo service of kernel/net/icmp.c on packet buffers. */
module Icmp {
  import opened Chunks
  import opened Checksum
  import opened Pktbuf
  import opened PktCursor

  const ICMP_HDR := 4
  const ECHO_REPLY: Byte := 0
  const ECHO_REQUEST: Byte := 8

  /** icmp_pkt_check on flat bytes: long enough, and the checksum over all of it is 0. */
  predicate Checks(msg: seq<Byte>) {
    |msg| > ICMP_HDR && Complement(AreaSum(msg, 0)) == 0
  }

  function Cleared(msg: seq<Byte>): (r: seq<Byte>)
    requires |msg| > ICMP_HDR
    ensures |r| == |msg|
  {
    Splice(Splice(msg, 0, [ECHO_REPLY]), 2, [0, 0])
  }

  /** The reply: type 0, and the checksum of the message with a zero checksum field. */
  function EchoReply(msg: seq<Byte>): (r: seq<Byte>)
    requires |msg| > ICMP_HDR
    ensures |r| == |msg|
  {
    Splice(Cleared(msg), 2, Store16(Complement(AreaSum(Cleared(msg), 0))))
  }

  /** Every reply passes the check that was applied to the request, and differs from it in
      the type byte and the checksum field only. */
  lemma {:induction false} EchoReplyChecks(msg: seq<Byte>)
    requires |msg| > ICMP_HDR
    ensures Checks(EchoReply(msg))
    ensures EchoReply(msg)[0] == 0
    ensures forall k :: 0 <= k < |msg| && k !in {0, 2, 3} ==> EchoReply(msg)[k] == msg[k]
  {
    var c := Cleared(msg);
    StoredChecksumCloses(c, 2);
  }

  /** icmp_in up to the hand-over to IP: an echo request with a correct checksum is turned into
      its reply in place, anything else is left alone or handed to the raw layer (NOT_SUPPORT
      stands for that hand-over). */
  method IcmpIn(pool: PktPool, buf: PktBuf) returns (err: NetErr)
    requires buf.Ok() && buf.totalSize < TWO16 && NonEmpty(buf.blkList) && buf.blkList != []
    modifies pool`blockList, buf
    ensures buf.Ok()
    ensures var bytes := old(buf.Bytes());
            && 0 < |bytes| && var hdr := 4 * (bytes[0] % 16);
            && (hdr + ICMP_HDR > |bytes| ==> err == SIZE && buf.Bytes() == bytes)
            && (hdr + ICMP_HDR <= |bytes| ==>
                  var msg := bytes[hdr..];
                  && err == (if |msg| <= 4 then SIZE else if Complement(AreaSum(msg, 0)) != 0 then CHECKSUM
                             else if msg[0] != 8 then NOT_SUPPORT else OK)
                  && buf.Bytes() == if err == OK then EchoReply(msg) else bytes)
  {
    ghost var bytes := buf.Bytes();
    FlatFirst(buf.blkList);
    var b0 := PeekFirst(buf, 0);
    var hdr: int := 4 * ((b0 as int) % 16);
    err := pool.SetCont(buf, ICMP_HDR + hdr);
    if err.Failed() {
      return;
    }
    ResetAcc(buf);
    ResetAt(buf.blkList);
    var e := Seek(buf, hdr);
    err := PktCheck(buf, buf.totalSize - hdr);
    if err.Failed() {
      return;
    }
    var ty := PeekFirst(buf, hdr);
    if ty != ECHO_REQUEST {
      return NOT_SUPPORT;
    }
    e := pool.RemoveHeader(buf, hdr);
    Reply(buf);
  }

  /** icmp_pkt_check. */
  method PktCheck(buf: PktBuf, size: nat) returns (err: NetErr)
    requires CursorOk(buf) && NonEmpty(buf.blkList) && 0 <= buf.pos && buf.pos + size == buf.totalSize < TWO16
    modifies buf`pos, buf`currIdx, buf`blkOffset
    ensures CursorOk(buf) && old(buf.pos) <= |buf.Bytes()|
    ensures var msg := buf.Bytes()[old(buf.pos)..];
            err == if |msg| <= 4 then SIZE else if Complement(AreaSum(msg, 0)) != 0 then CHECKSUM else OK
    ensures err == OK ==> buf.pos == buf.totalSize
  {
    ghost var p := buf.pos;
    if size <= ICMP_HDR {
      return SIZE;
    }
    var checksum := ChecksumArea(buf, size, 0, true);
    assert buf.Bytes()[p..buf.pos] == buf.Bytes()[p..];
    WordSumFits(buf.Bytes()[p..]);
    if checksum != 0 {
      return CHECKSUM;
    }
    return OK;
  }

  /** icmp_echo_reply and icmp_out. */
  method Reply(buf: PktBuf)
    requires buf.Ok() && NonEmpty(buf.blkList) && buf.blkList != [] && buf.blkList[0].size >= ICMP_HDR
    requires ICMP_HDR < buf.totalSize < TWO16 && buf.pos > 0
    modifies buf
    ensures buf.Ok() && buf.Bytes() == EchoReply(old(buf.Bytes()))
  {
    PokeFirst(buf, 0, [ECHO_REPLY]);
    PokeFirst(buf, 2, [0, 0]);
    var e := Seek(buf, 0);
    var checksum := ChecksumArea(buf, buf.totalSize, 0, true);
    assert buf.Bytes()[0..buf.pos] == buf.Bytes();
    WordSumFits(buf.Bytes());
    PokeFirst(buf, 2, Store16(checksum));
  }
}
