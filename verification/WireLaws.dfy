/** The packet format as the bytes on the wire: where each field stands and with which weight, and
    exactly what pkt_encode and pkt_decode accept. */
module WireLaws {
  import opened Crc32
  import opened Wire
  import opened WireTheorems

  // ---------- Weights ----------

  /** Four bytes, the first the most significant, as one number. */
  function Word(a: byte, b: byte, c: byte, d: byte): bv32 {
    (a as bv32) * 0x100_0000 + (b as bv32) * 0x1_0000 + (c as bv32) * 0x100 + (d as bv32)
  }

  lemma BigEndianIs(c: bv32)
    ensures var s := BigEndian(c); Word(s[0], s[1], s[2], s[3]) == c
  {
  }

  lemma LittleEndianIs(c: bv32)
    ensures var s := LittleEndian(c); Word(s[3], s[2], s[1], s[0]) == c
  {
  }

  lemma HeadIs(p: Pkt)
    requires p.Fits()
    ensures Head(p) == p.ptype * 64 + p.tr * 32 + p.window
  {
  }

  // ---------- The fields on the wire ----------

  lemma HeaderFields(p: Pkt)
    requires p.Fits()
    ensures var h, k := Header(p), SeqAt(p.ptype);
      && h[0] == p.ptype * 64 + p.tr * 32 + p.window
      && (p.ptype == PTYPE_DATA ==> Val(h[1]) * 256 + Val(h[2]) == p.length)
      && Val(h[k]) == p.seqnum && |h| == k + 5 && Word(h[k + 4], h[k + 3], h[k + 2], h[k + 1]) == p.timestamp
  {
    hide LittleEndian, Head, Word, Val;
    HeadIs(p);
    HeaderLayout(p);
    LittleEndianIs(p.timestamp);
    var h, k := Header(p), SeqAt(p.ptype);
    var t := h[k + 1..];
    assert t[0] == h[k + 1] && t[1] == h[k + 2] && t[2] == h[k + 3] && t[3] == h[k + 4];
  }

  lemma SealedFields(h: seq<byte>)
    ensures var s, n := Sealed(h), |h|;
      s[..n] == h && Word(s[n], s[n + 1], s[n + 2], s[n + 3]) == Crc(h)
  {
    hide BigEndian, Word, Crc;
    BigEndianIs(Crc(h));
  }

  /** Every field of a packet where the format puts it: type, TR and window in the first byte, the
      length and the checksums in network order, the timestamp in the order of a little-endian host;
      the payload follows only a DATA packet that is not truncated. */
  lemma EncodingIs(p: Pkt)
    requires p.Fits()
    ensures var e, k := Encoding(p), SeqAt(p.ptype) + 5;
      var data := p.ptype == PTYPE_DATA && p.tr == 0 && p.HasData();
      && |e| == (if p.ptype != PTYPE_DATA then 10 else if data then 16 + p.length else 12)
      && e[0] == p.ptype * 64 + p.tr * 32 + p.window
      && (p.ptype == PTYPE_DATA ==> Val(e[1]) * 256 + Val(e[2]) == p.length)
      && Val(e[k - 5]) == p.seqnum && Word(e[k - 1], e[k - 2], e[k - 3], e[k - 4]) == p.timestamp
      && Word(e[k], e[k + 1], e[k + 2], e[k + 3]) == Crc(e[..k])
      && (data ==>
        var n := p.length;
        && e[12..12 + n] == p.payload.value[..n]
        && Word(e[12 + n], e[13 + n], e[14 + n], e[15 + n]) == Crc(p.payload.value[..n]))
  {
    hide Head, Header, Word, Val, Crc, BigEndian, LittleEndian, Sealed;
    HeaderFields(p);
    SealedFields(Header(p));
    var e, s := Encoding(p), Sealed(Header(p));
    assert e[..|s|] == s;
    assert e[..|Header(p)|] == s[..|Header(p)|];
    if p.ptype == PTYPE_DATA && p.tr == 0 && p.HasData() {
      SealedFields(p.Data());
      assert e[12..] == Sealed(p.Data());
      assert e[12..12 + p.length] == e[12..][..p.length];
    }
  }

  // ---------- What is accepted ----------

  /** pkt_encode accepts exactly ACK and NACK without TR, truncated DATA without a length, and other
      DATA of at most 528 bytes unless it carries bytes with a checksum of zero. */
  lemma EncodeAcceptsIff(p: Pkt)
    ensures EncodeStatus(p) == PKT_OK <==>
      if p.ptype != PTYPE_DATA then p.tr == 0
      else p.length <= 528 && (p.tr != 0 ==> p.length == 0) &&
           (p.tr == 0 && p.length > 0 && p.payload.Some? ==> Crc(p.Data()) != 0)
  {
  }

  /** pkt_decode accepts exactly the buffers of 10 to 528 bytes in which some packet of a known type
      shows, with its checksums. */
  lemma DecodeAcceptsIff(d: seq<byte>, len: int, prior: Pkt)
    requires Covers(d, len)
    ensures Decode(d, len, prior).0 == PKT_OK <==>
      10 <= len <= 528 && exists q: Pkt :: q.ptype >= 1 && Room(d, q) && Shows(d, q)
  {
    hide FromBigEndian, FromLittleEndian, Crc, Val, Pair, TypeOf, TrOf, WindowOf;
    if Decode(d, len, prior).0 == PKT_OK {
      Accepted(d, len, prior);
    }
  }

  /** And why it refuses the others: first for the number of bytes, then for the type, then for the
      length field, and else for a checksum. */
  lemma DecodeRefuses(d: seq<byte>, len: int, prior: Pkt)
    requires Covers(d, len)
    ensures var st := Decode(d, len, prior).0;
      if len < 10 || len > 528 then st == E_LENGTH
      else if d[0] < 64 then st == E_TYPE
      else if d[0] / 64 == 1 && Val(d[1]) * 256 + Val(d[2]) > 512 then st == E_LENGTH
      else st == PKT_OK || st == E_CRC
  {
    hide FromBigEndian, FromLittleEndian, Crc, Val;
  }

  lemma FromBigEndianIs(s: seq<byte>)
    requires |s| == 4
    ensures FromBigEndian(s) == Word(s[0], s[1], s[2], s[3])
  {
  }

  lemma FromLittleEndianIs(s: seq<byte>)
    requires |s| == 4
    ensures FromLittleEndian(s) == Word(s[3], s[2], s[1], s[0])
  {
  }

  /** What a wrong number of bytes, an unknown type or a length that is too large leave in the packet:
      in the last case the length with its bytes swapped. */
  lemma EarlyRefusalLeaves(d: seq<byte>, len: int, prior: Pkt)
    requires Covers(d, len) && Decode(d, len, prior).0 != PKT_OK && Decode(d, len, prior).0 != E_CRC
    ensures var q := Decode(d, len, prior).1;
      if len < 10 || len > 528 then q == prior
      else q == ZERO.(ptype := TypeOf(d[0]), tr := TrOf(d[0]), window := WindowOf(d[0]),
                      length := if d[0] < 64 then 0 else Val(d[2]) * 256 + Val(d[1]))
  {
    hide Crc, Val, TrOf, WindowOf, FromBigEndian, FromLittleEndian;
  }

  /** `q` holds the header that `d` starts with, TR at 0 and its checksum included. */
  ghost predicate HoldsHeader(d: seq<byte>, q: Pkt)
    requires |d| >= SeqAt(q.ptype) + 9
  {
    var k := SeqAt(q.ptype) + 5;
    && q.ptype == TypeOf(d[0]) && q.tr == 0 && q.window == WindowOf(d[0])
    && q.length == (if q.ptype == PTYPE_DATA then Val(d[1]) * 256 + Val(d[2]) else 0)
    && q.seqnum == Val(d[k - 5]) && q.timestamp == Word(d[k - 1], d[k - 2], d[k - 3], d[k - 4])
    && q.crc1 == Word(d[k], d[k + 1], d[k + 2], d[k + 3])
  }

  lemma HeaderHeld(d: seq<byte>, p: Pkt)
    requires |d| >= SeqAt(p.ptype) + 9 && p.tr == 0
    requires p.ptype == TypeOf(d[0]) && p.window == WindowOf(d[0])
    requires p.length == if p.ptype == PTYPE_DATA then Val(d[1]) * 256 + Val(d[2]) else 0
    ensures HoldsHeader(d, ReadHeader(d, p))
  {
    hide TypeOf, WindowOf, Val, Word, FromBigEndian, FromLittleEndian;
    var k := SeqAt(p.ptype) + 5;
    FromLittleEndianIs(d[k - 4..k]);
    FromBigEndianIs(d[k..k + 4]);
  }

  lemma HeldIgnores(d: seq<byte>, q: Pkt, r: Pkt)
    requires r == q.(payload := r.payload, crc2 := r.crc2) && |d| >= SeqAt(q.ptype) + 9
    ensures HoldsHeader(d, q) <==> HoldsHeader(d, r)
  {
  }

  /** What a wrong checksum leaves: the header, and the payload when it is the second that is wrong. */
  lemma ChecksumRefusalLeaves(d: seq<byte>, len: int, prior: Pkt)
    requires Covers(d, len) && Decode(d, len, prior).0 == E_CRC
    ensures var q := Decode(d, len, prior).1;
      && |d| >= SeqAt(q.ptype) + 9 && HoldsHeader(d, q)
      && (if q.crc1 != Crc(d[..SeqAt(q.ptype) + 5]) then q.payload == None && q.crc2 == 0
          else |d| >= 16 + q.length && q.payload == Some(d[12..12 + q.length]))
  {
    hide Crc, Val, TypeOf, TrOf, WindowOf, FromBigEndian, FromLittleEndian, HoldsHeader;
    var p := DecodeStart(d).1.(tr := 0);
    assert |d| >= SeqAt(p.ptype) + 9;
    HeaderHeld(d, p);
    var q := ReadHeader(d, p);
    HeldIgnores(d, q, Decode(d, len, prior).1);
  }
}
