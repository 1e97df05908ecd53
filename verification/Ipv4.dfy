/** The IPv4 header of kernel/net/ip.h and the fragments that ipv4_frag_out sends. */
module Ipv4 {
  import opened Chunks
  import opened Checksum

  const HDR_SIZE := 20
  const TTL := 64

  type Nibble = x: int | 0 <= x < 16
  type Word16 = x: int | 0 <= x < TWO16
  type Offset13 = x: int | 0 <= x < 8192
  type Addr = s: seq<Byte> | |s| == 4 witness [0, 0, 0, 0]

  /** ipv4_hdr_t, field by field, in host order. */
  datatype Header = Header(
    shdr: Nibble, version: Nibble, tos: Byte, totalLen: Word16, id: Word16,
    offset: Offset13, more: bool, disable: bool, reserved: bool,
    ttl: Byte, protocol: Byte, checksum: Word16, src: Addr, dst: Addr)

  /** The 16-bit union member frag_all. */
  function FragAll(h: Header): (r: Word16)
    ensures r % 8192 == h.offset
    ensures (r / 8192 % 2 == 1) == h.more && (r / 16384 % 2 == 1) == h.disable && (r / 32768 == 1) == h.reserved
  {
    var o: int := h.offset;
    o + (if h.more then 8192 else 0) + (if h.disable then 16384 else 0) + (if h.reserved then 32768 else 0)
  }

  function Low(w: Word16): (r: Byte) { w % 256 }

  function High(w: Word16): (r: Byte) { w / 256 }

  function FirstByte(h: Header): (r: Byte)
    ensures r % 16 == h.shdr && r / 16 == h.version
  {
    var s: int, v: int := h.shdr, h.version;
    s + 16 * v
  }

  /** The header as iphdr_htons leaves it for the wire: three fields high byte first. */
  function Wire(h: Header): (r: seq<Byte>)
    ensures |r| == HDR_SIZE
  {
    [FirstByte(h), h.tos, High(h.totalLen), Low(h.totalLen), High(h.id), Low(h.id),
     High(FragAll(h)), Low(FragAll(h)), h.ttl, h.protocol, Low(h.checksum), High(h.checksum)] + h.src + h.dst
  }

  /** The header in memory on this little-endian machine, before iphdr_htons or after the
      receiver has applied it again. */
  function Host(h: Header): (r: seq<Byte>)
    ensures |r| == HDR_SIZE
  {
    [FirstByte(h), h.tos, Low(h.totalLen), High(h.totalLen), Low(h.id), High(h.id),
     Low(FragAll(h)), High(FragAll(h)), h.ttl, h.protocol, Low(h.checksum), High(h.checksum)] + h.src + h.dst
  }

  /** iphdr_htons on the bytes of a packet: swaps the bytes of total_len, id and frag_all. */
  function Htons(s: seq<Byte>): (r: seq<Byte>)
    requires |s| >= HDR_SIZE
    ensures |r| == |s|
  {
    s[..2] + [s[3], s[2], s[5], s[4], s[7], s[6]] + s[8..]
  }

  /** Reading the fields of a header in host order. */
  function Fields(s: seq<Byte>): (h: Header)
    requires |s| >= HDR_SIZE
  {
    var f := Word(s[6], s[7]);
    var b: int := s[0];
    Header(b % 16, b / 16, s[1], Word(s[2], s[3]), Word(s[4], s[5]),
           f % 8192, f / 8192 % 2 == 1, f / 16384 % 2 == 1, f / 32768 == 1,
           s[8], s[9], Word(s[10], s[11]), s[12..16], s[16..20])
  }

  lemma {:induction false} WordOfHalves(w: Word16)
    ensures Word(Low(w), High(w)) == w
  {
  }

  /** Reading back a header gives the header. */
  lemma {:induction false} FieldsHost(h: Header, rest: seq<Byte>)
    ensures Fields(Host(h) + rest) == h
  {
    var s := Host(h) + rest;
    WordOfHalves(h.totalLen);
    WordOfHalves(h.id);
    WordOfHalves(FragAll(h));
    WordOfHalves(h.checksum);
    assert s[12..16] == h.src && s[16..20] == h.dst;
  }

  /** The receiver's iphdr_htons undoes the sender's. */
  lemma {:induction false} HtonsWire(h: Header, rest: seq<Byte>)
    ensures Htons(Wire(h) + rest) == Host(h) + rest
    ensures Htons(Host(h) + rest) == Wire(h) + rest
  {
    assert Wire(h)[8..] == Host(h)[8..];
  }
}
