/** The codec's promises: decoding undoes encoding, encoding undoes decoding, and nothing that
    one pass through the link alters is taken for a DATA packet (or, by the sender, for an ACK). */
module WireTheorems {
  import opened Crc32
  import opened Wire

  /** A valid type, no TR bit, and a length that the type allows and the payload covers. */
  ghost predicate WellFormed(p: Pkt) {
    p.Fits() && p.ptype >= 1 && p.tr == 0 && p.length <= MAX_PAYLOAD_SIZE &&
    (if p.ptype == PTYPE_DATA then p.length == 0 || p.payload.Some? else p.length == 0)
  }

  /** The packets the round trip is promised for. */
  ghost predicate Sendable(p: Pkt) {
    WellFormed(p) && EncodeStatus(p) == PKT_OK
  }

  // ---------- Fields of the header ----------

  lemma HeadFields(p: Pkt)
    requires p.Fits()
    ensures TypeOf(Head(p)) == p.ptype
    ensures TrOf(Head(p)) == p.tr
    ensures WindowOf(Head(p)) == p.window
  {
  }

  lemma HeaderLayout(p: Pkt)
    ensures Header(p)[0] == Head(p)
    ensures p.ptype == PTYPE_DATA ==>
      Header(p)[1] == ToByte(p.length / 256) && Header(p)[2] == ToByte(p.length % 256)
    ensures Header(p)[SeqAt(p.ptype)] == ToByte(p.seqnum)
    ensures Header(p)[SeqAt(p.ptype) + 1..] == LittleEndian(p.timestamp)
  {
  }

  /** A buffer that starts with a sealed string shows the string and its checksum. */
  lemma SealedPrefix(h: seq<byte>, d: seq<byte>, at: nat)
    requires at + |h| + 4 <= |d| && d[at..at + |h| + 4] == Sealed(h)
    ensures d[at..at + |h|] == h
    ensures FromBigEndian(d[at + |h|..at + |h| + 4]) == Crc(h)
  {
    var s := Sealed(h);
    assert s[..|h|] == h && s[|h|..] == BigEndian(Crc(h));
    assert d[at..at + |h|] == d[at..at + |h| + 4][..|h|];
    assert d[at + |h|..at + |h| + 4] == d[at..at + |h| + 4][|h|..];
    BigEndianInverse(Crc(h), BigEndian(Crc(h)));
  }

  // ---------- Decoding undoes encoding ----------

  lemma DecodeHeader(p: Pkt, d: seq<byte>, q: Pkt)
    requires p.Fits() && Sealed(Header(p)) <= d
    requires q.ptype == p.ptype
    ensures var r := ReadHeader(d, q);
      r == q.(seqnum := p.seqnum, timestamp := p.timestamp, crc1 := Crc(Header(p)))
    ensures d[..SeqAt(p.ptype) + 5] == Header(p)
    ensures d[0] == Head(p)
    ensures p.ptype == PTYPE_DATA ==> Pair(d[1], d[2]) == p.length
  {
    var h, at := Header(p), SeqAt(p.ptype);
    assert d[0..0 + |h| + 4] == Sealed(h);
    SealedPrefix(h, d, 0);
    HeaderLayout(p);
    assert d[..|h|] == h;
    assert d[at + 1..at + 5] == h[at + 1..];
    LittleEndianInverse(p.timestamp, LittleEndian(p.timestamp));
    assert forall i :: 0 <= i < |h| ==> d[i] == d[..|h|][i];
  }

  lemma EncodingParts(p: Pkt, d: seq<byte>)
    requires Encoding(p) <= d
    ensures Sealed(Header(p)) <= d
    ensures p.ptype == PTYPE_DATA && p.tr == 0 && p.HasData() ==>
      16 + |p.Data()| <= |d| && d[12..16 + |p.Data()|] == Sealed(p.Data())
  {
    var e := Encoding(p);
    assert Sealed(Header(p)) == e[..|Header(p)| + 4];
    assert e == d[..|e|];
    if p.ptype == PTYPE_DATA && p.tr == 0 && p.HasData() {
      assert e[12..16 + |p.Data()|] == Sealed(p.Data());
    }
  }

  /** The packet the decoder holds after it accepted the header of `p`. */
  function Headed(p: Pkt): Pkt {
    p.(tr := 0, crc1 := Crc(Header(p)), payload := None, crc2 := 0)
  }

  /** A buffer that the decoder stays in and that starts with the header of `p` has room for the
      rest of `p`. */
  lemma HeaderCovers(p: Pkt, d: seq<byte>, len: int)
    requires p.Fits() && p.ptype == PTYPE_DATA && p.length <= MAX_PAYLOAD_SIZE
    requires Covers(d, len) && Sealed(Header(p)) <= d && 10 <= len <= MAX_PKT_SIZE
    ensures |d| >= 16 + p.length
  {
    hide Crc, FromBigEndian, FromLittleEndian, BigEndian, LittleEndian, Head, TypeOf, TrOf, WindowOf, Val;
    HeadFields(p);
    DecodeHeader(p, d, ZERO.(ptype := p.ptype));
  }

  lemma HeaderAccepted(p: Pkt, d: seq<byte>, len: int, prior: Pkt)
    requires p.Fits() && p.ptype >= 1 && p.length <= MAX_PAYLOAD_SIZE
    requires p.ptype != PTYPE_DATA ==> p.length == 0
    requires Covers(d, len) && Sealed(Header(p)) <= d && 10 <= len <= MAX_PKT_SIZE
    requires p.ptype == PTYPE_DATA ==> |d| >= 16 + p.length
    ensures Decode(d, len, prior) == DecodeBody(d, Headed(p), p.tr)
  {
    HeadFields(p);
    DecodeHeader(p, d, ZERO.(ptype := p.ptype, window := p.window, length := p.length));
  }

  lemma BodyAccepted(p: Pkt, d: seq<byte>)
    requires WellFormed(p) && Encoding(p) <= d && (p.ptype == PTYPE_DATA ==> |d| >= 16 + p.length)
    ensures DecodeBody(d, Headed(p), 0).0 == PKT_OK
    ensures DecodeBody(d, Headed(p), 0).1.SameMessage(p)
  {
    hide FromBigEndian, FromLittleEndian, Crc, BigEndian, LittleEndian, Head, Val, TypeOf, TrOf, WindowOf;
    EncodingParts(p, d);
    if p.ptype == PTYPE_DATA && p.length != 0 {
      SealedPrefix(p.Data(), d, 12);
    }
  }

  /** The decoder accepts the bytes of every well-formed packet, also of one that pkt_encode
      refuses to write, and gives the packet back. */
  lemma DecodesBack(p: Pkt, d: seq<byte>, len: int, prior: Pkt)
    requires WellFormed(p)
    requires Covers(d, len) && Encoding(p) <= d && 10 <= len <= MAX_PKT_SIZE
    ensures Decode(d, len, prior).0 == PKT_OK
    ensures Decode(d, len, prior).1.SameMessage(p)
  {
    EncodingParts(p, d);
    if p.ptype == PTYPE_DATA {
      HeaderCovers(p, d, len);
    }
    var body := DecodeBody(d, Headed(p), 0);
    assert body.0 == PKT_OK && body.1.SameMessage(p) by {
      BodyAccepted(p, d);
    }
    assert Decode(d, len, prior) == body by {
      HeaderAccepted(p, d, len, prior);
    }
  }

  /** Whatever follows the packet in the receive buffer, and whatever length is reported, the
      packet that was encoded comes back. */
  lemma DecodeUndoesEncode(p: Pkt, d: seq<byte>, len: int, prior: Pkt)
    requires Sendable(p)
    requires Covers(d, len) && Encoding(p) <= d && 10 <= len <= MAX_PKT_SIZE
    ensures Decode(d, len, prior).0 == PKT_OK
    ensures Decode(d, len, prior).1.SameMessage(p)
  {
    DecodesBack(p, d, len, prior);
  }

  // ---------- Encoding undoes decoding ----------

  lemma SealedBack(h: seq<byte>, d: seq<byte>, at: nat)
    requires at + |h| + 4 <= |d| && d[at..at + |h|] == h
    requires FromBigEndian(d[at + |h|..at + |h| + 4]) == Crc(h)
    ensures d[at..at + |h| + 4] == Sealed(h)
  {
  }

  lemma HeadBack(b: byte, q: Pkt)
    requires q.ptype == TypeOf(b) && q.tr == TrOf(b) && q.window == WindowOf(b)
    ensures Head(q) == b
  {
  }

  lemma LengthBack(hi: byte, lo: byte)
    ensures ToByte(Pair(hi, lo) / 256) == hi
    ensures ToByte(Pair(hi, lo) % 256) == lo
  {
    hide Val, ToByte;
    ToByteInverse(hi);
    ToByteInverse(lo);
  }

  lemma HeaderBack(d: seq<byte>, q: Pkt)
    requires |d| >= SeqAt(q.ptype) + 5
    requires q.ptype == TypeOf(d[0]) && q.tr == TrOf(d[0]) && q.window == WindowOf(d[0])
    requires q.ptype == PTYPE_DATA ==> q.length == Pair(d[1], d[2])
    requires q.seqnum == Val(d[SeqAt(q.ptype)])
    requires q.timestamp == FromLittleEndian(d[SeqAt(q.ptype) + 1..SeqAt(q.ptype) + 5])
    ensures Header(q) == d[..SeqAt(q.ptype) + 5]
  {
    hide Head, LittleEndian, FromLittleEndian, ToByte, Val, TypeOf, TrOf, WindowOf;
    var at := SeqAt(q.ptype);
    HeadBack(d[0], q);
    LittleEndianInverse(0, d[at + 1..at + 5]);
    ToByteInverse(d[at]);
    LengthBack(d[1], d[2]);
    if q.ptype == PTYPE_DATA {
      assert d[..8] == [d[0]] + [d[1], d[2]] + [d[3]] + d[4..8];
    } else {
      assert d[..6] == [d[0]] + [] + [d[1]] + d[2..6];
    }
  }

  /** The buffer is long enough for what `q` was read from. */
  predicate Room(d: seq<byte>, q: Pkt) {
    |d| >= SeqAt(q.ptype) + 9 && (q.ptype == PTYPE_DATA ==> |d| >= 16 + q.length)
  }

  /** `q` is what an accepted buffer shows. */
  ghost predicate Shows(d: seq<byte>, q: Pkt)
    requires Room(d, q)
  {
    var k := SeqAt(q.ptype) + 5;
    && q.ptype == TypeOf(d[0]) && q.tr == TrOf(d[0]) && q.window == WindowOf(d[0])
    && q.length == (if q.ptype == PTYPE_DATA then Pair(d[1], d[2]) else 0)
    && q.length <= MAX_PAYLOAD_SIZE
    && q.seqnum == Val(d[k - 5]) && q.timestamp == FromLittleEndian(d[k - 4..k])
    && FromBigEndian(d[k..k + 4]) == Crc(d[..k])
    && (q.HasData() <==> q.ptype == PTYPE_DATA && q.length != 0)
    && q.Data() == (if q.ptype == PTYPE_DATA then d[12..12 + q.length] else [])
    && (q.HasData() && q.tr == 0 ==>
      FromBigEndian(d[12 + q.length..16 + q.length]) == Crc(d[12..12 + q.length]))
  }

  lemma Accepted(d: seq<byte>, len: int, prior: Pkt)
    requires Covers(d, len) && Decode(d, len, prior).0 == PKT_OK
    ensures Shows(d, Decode(d, len, prior).1)
  {
    hide FromBigEndian, FromLittleEndian, Crc, Val, Pair, TypeOf, TrOf, WindowOf;
  }

  lemma AcceptedType(d: seq<byte>, len: int, prior: Pkt)
    requires Covers(d, len) && Decode(d, len, prior).0 == PKT_OK
    ensures Decode(d, len, prior).1.ptype == TypeOf(d[0])
  {
    Accepted(d, len, prior);
  }

  lemma EncodingBack(d: seq<byte>, q: Pkt)
    requires Room(d, q) && Shows(d, q) && q.tr == 0
    ensures |Encoding(q)| == (if q.ptype != PTYPE_DATA then 10 else if q.length == 0 then 12 else 16 + q.length)
    ensures Encoding(q) <= d
  {
    hide FromBigEndian, FromLittleEndian, Crc, BigEndian, LittleEndian, Head, Val, TypeOf, TrOf, WindowOf;
    HeaderBack(d, q);
    var h := Header(q);
    SealedBack(h, d, 0);
    assert d[0..|h| + 4] == d[..|h| + 4];
    if q.HasData() {
      SealedBack(q.Data(), d, 12);
      assert d[..16 + q.length] == d[..12] + d[12..16 + q.length];
    }
  }

  lemma StatusBack(d: seq<byte>, q: Pkt)
    requires Room(d, q) && Shows(d, q) && q.tr == 0
    ensures EncodeStatus(q) == PKT_OK <==> q.Data() == [] || Crc(q.Data()) != 0
  {
  }

  /** Re-encoding what was accepted reproduces the bytes that were consumed.  The one exception
      is a non-empty payload whose checksum is zero: it is accepted but never encoded. */
  lemma EncodeUndoesDecode(d: seq<byte>, len: int, prior: Pkt)
    requires Covers(d, len)
    requires Decode(d, len, prior).0 == PKT_OK && Decode(d, len, prior).1.tr == 0
    ensures var q := Decode(d, len, prior).1;
      && |Encoding(q)| == (if q.ptype != PTYPE_DATA then 10 else if q.length == 0 then 12 else 16 + q.length)
      && Encoding(q) <= d
      && (EncodeStatus(q) == PKT_OK <==> q.Data() == [] || Crc(q.Data()) != 0)
  {
    var q := Decode(d, len, prior).1;
    Accepted(d, len, prior);
    EncodingBack(d, q);
    StatusBack(d, q);
  }

  // ---------- The exception happens ----------

  /** A packet that carries them is accepted when it arrives and refused when it is to be sent. */
  lemma ZeroSumIsAcceptedNotSent(p: Pkt, d: seq<byte>, len: int, prior: Pkt)
    requires WellFormed(p) && p.ptype == PTYPE_DATA && p.Data() == ZERO_SUM
    requires Covers(d, len) && Encoding(p) <= d && 10 <= len <= MAX_PKT_SIZE
    ensures Decode(d, len, prior).0 == PKT_OK && Decode(d, len, prior).1.Data() == ZERO_SUM
    ensures EncodeStatus(p) == EncodeStatus(Decode(d, len, prior).1) == E_UNCONSISTENT
  {
    ZeroSumIsZero();
    DecodesBack(p, d, len, prior);
  }

  const ZERO_SUM_PKT := ZERO.(ptype := PTYPE_DATA, length := 4, payload := Some(ZERO_SUM))

  /** One such datagram, 20 bytes long, in a cleared buffer. */
  lemma ZeroSumHappens()
    ensures var e := Encoding(ZERO_SUM_PKT);
      var (st, q) := Decode(e + seq(MAX_PKT_SIZE, _ => 0), |e|, ZERO);
      |e| == 20 && st == PKT_OK && q.Data() == ZERO_SUM && EncodeStatus(q) == E_UNCONSISTENT
  {
    hide Decode, Crc, EncodeStatus;
    var p := ZERO_SUM_PKT;
    assert WellFormed(p) && p.Data() == ZERO_SUM;
    ZeroSumIsAcceptedNotSent(p, Encoding(p) + seq(MAX_PKT_SIZE, _ => 0), |Encoding(p)|, ZERO);
  }

  // ---------- One altered byte is never taken for what was sent ----------

  /** `d` starts with `w` except that byte `i` was replaced. */
  ghost predicate Struck(w: seq<byte>, d: seq<byte>, i: nat) {
    i < |w| <= |d| && DiffersOnlyAt(w, d[..|w|], i)
  }

  lemma WrongSum(h: seq<byte>, c: seq<byte>)
    requires |c| == 4 && c != BigEndian(Crc(h))
    ensures FromBigEndian(c) != Crc(h)
  {
    BigEndianInverse(0, c);
  }

  lemma WrongData(h: seq<byte>, g: seq<byte>, i: nat)
    requires DiffersOnlyAt(h, g, i)
    ensures FromBigEndian(BigEndian(Crc(h))) != Crc(g)
  {
    CrcDetectsOneByte(h, g, i);
    BigEndianInverse(Crc(h), BigEndian(0));
  }

  lemma StruckHalf(a: seq<byte>, b: seq<byte>, g: seq<byte>, c: seq<byte>, i: nat)
    requires |a| == |g| && |b| == |c| && DiffersOnlyAt(a + b, g + c, i)
    ensures if i < |a| then DiffersOnlyAt(a, g, i) && b == c
      else a == g && b != c && DiffersOnlyAt(b, c, i - |a|)
  {
    assert forall j :: 0 <= j < |a| ==> a[j] == (a + b)[j] && g[j] == (g + c)[j];
    assert forall j :: 0 <= j < |b| ==> b[j] == (a + b)[|a| + j] && c[j] == (g + c)[|a| + j];
  }

  /** A sealed string with one byte replaced no longer matches its checksum. */
  lemma StruckSeal(h: seq<byte>, d: seq<byte>, at: nat, i: nat)
    requires at + |h| + 4 <= |d| && DiffersOnlyAt(Sealed(h), d[at..at + |h| + 4], i)
    ensures FromBigEndian(d[at + |h|..at + |h| + 4]) != Crc(d[at..at + |h|])
  {
    var g, c := d[at..at + |h|], d[at + |h|..at + |h| + 4];
    assert d[at..at + |h| + 4] == g + c;
    StruckHalf(h, BigEndian(Crc(h)), g, c, i);
    if i < |h| {
      WrongData(h, g, i);
    } else {
      WrongSum(h, c);
    }
  }

  /** A replaced byte in the sealed header leaves no acceptable packet of the type sent... */
  lemma StruckHeader(p: Pkt, d: seq<byte>, i: nat, q: Pkt)
    requires Room(d, q) && Struck(Sealed(Header(p)), d, i)
    requires Shows(d, q)
    ensures q.ptype != p.ptype
  {
    hide FromBigEndian, FromLittleEndian, Crc, BigEndian, LittleEndian, Head, Val, TypeOf, TrOf, WindowOf;
    var n := |Header(p)|;
    assert d[0..0 + n + 4] == d[..n + 4] && d[0..n] == d[..n];
    StruckSeal(Header(p), d, 0, i);
  }

  lemma PayloadParts(p: Pkt, d: seq<byte>, i: nat)
    requires p.ptype == PTYPE_DATA && p.tr == 0 && p.HasData() && |p.Data()| == p.length
    requires 12 <= i && Struck(Encoding(p), d, i)
    ensures 16 + p.length <= |d| && Sealed(Header(p)) <= d
    ensures DiffersOnlyAt(Sealed(p.Data()), d[12..16 + p.length], i - 12)
  {
    hide Crc, BigEndian, LittleEndian, Head, Header, DiffersOnlyAt;
    var e, n := Encoding(p), |p.Data()|;
    assert i < |e| == 16 + n && DiffersOnlyAt(e, d[..|e|], i);
    assert d[..|e|] == d[..12] + d[12..16 + n];
    StruckHalf(Sealed(Header(p)), Sealed(p.Data()), d[..12], d[12..16 + n], i);
  }

  /** ...and neither does one behind the header of a DATA packet. */
  lemma StruckPayload(p: Pkt, d: seq<byte>, i: nat, q: Pkt)
    requires Sendable(p) && p.ptype == PTYPE_DATA && p.HasData()
    requires Room(d, q) && 12 <= i && Struck(Encoding(p), d, i)
    ensures !Shows(d, q)
  {
    hide FromBigEndian, FromLittleEndian, Crc, BigEndian, LittleEndian, Head, Val, TypeOf, TrOf, WindowOf, Header;
    hide Sealed, DiffersOnlyAt;
    var n := p.length;
    PayloadParts(p, d, i);
    StruckSeal(p.Data(), d, 12, i - 12);
    HeadFields(p);
    DecodeHeader(p, d, ZERO.(ptype := p.ptype));
    assert d[12..12 + n] == d[12..12 + |p.Data()|];
  }

  lemma StruckEncoding(p: Pkt, d: seq<byte>, i: nat, q: Pkt)
    requires Sendable(p) && Room(d, q) && Struck(Encoding(p), d, i)
    requires Shows(d, q)
    ensures q.ptype != p.ptype
  {
    hide FromBigEndian, FromLittleEndian, Crc, BigEndian, LittleEndian, Head, Val, TypeOf, TrOf, WindowOf;
    var e, s := Encoding(p), Sealed(Header(p));
    assert s == e[..|s|];
    if i < |s| {
      assert forall j :: 0 <= j < |s| ==> d[..|s|][j] == d[..|e|][j];
      StruckHeader(p, d, i, q);
    } else {
      StruckPayload(p, d, i, q);
    }
  }

  /** However one byte of an encoded packet is replaced, the result is refused or has another
      type than the packet had. */
  lemma OneByteReplaced(p: Pkt, d: seq<byte>, i: nat, len: int, prior: Pkt)
    requires Sendable(p) && Covers(d, len) && Struck(Encoding(p), d, i)
    ensures Decode(d, len, prior).0 != PKT_OK || Decode(d, len, prior).1.ptype != p.ptype
  {
    if Decode(d, len, prior).0 == PKT_OK {
      Accepted(d, len, prior);
      StruckEncoding(p, d, i, Decode(d, len, prior).1);
    }
  }

  lemma TruncatedMark(b: byte)
    requires TrOf(b) == 0
    ensures b | 0x20 != b
  {
  }

  lemma InvertedByte(b: byte)
    ensures !b != b
  {
  }

  lemma CutIsStruck(p: Pkt, d: seq<byte>)
    requires Sendable(p) && |Encoding(p)| > 12
    requires Altered(Encoding(p), Cut) <= d
    ensures Struck(Sealed(Header(p)), d, 0) && |Header(p)| == 8
  {
    var e, s, t := Encoding(p), Sealed(Header(p)), Altered(Encoding(p), Cut);
    assert |s| == 12 && s == e[..12] && t == d[..12];
    HeadFields(p);
    HeaderLayout(p);
    assert s[0] == Header(p)[0];
    TruncatedMark(e[0]);
    assert forall j :: 1 <= j < 12 ==> t[j] == e[1..12][j - 1] == s[j];
  }

  lemma AlteredShows(p: Pkt, a: Alteration, d: seq<byte>, q: Pkt)
    requires Sendable(p) && !a.Intact? && CanAlter(Encoding(p), a)
    requires Room(d, q) && Altered(Encoding(p), a) <= d
    requires Shows(d, q)
    ensures q.ptype != p.ptype
  {
    hide FromBigEndian, FromLittleEndian, Crc, BigEndian, LittleEndian, Head, Val, TypeOf, TrOf, WindowOf;
    if a.Cut? {
      CutIsStruck(p, d);
      StruckHeader(p, d, 0, q);
    } else {
      var e := Encoding(p);
      InvertedByte(e[a.at]);
      assert d[..|e|] == Altered(e, a);
      StruckEncoding(p, d, a.at, q);
    }
  }

  /** Everything one pass of simulate_link makes of an encoded packet, except leaving it intact,
      is refused or changes type, whatever bytes were in the receive buffer before.  In
      particular a packet whose TR bit was set on the way fails its checksum: pkt_decode does
      not take the bit as 0 as its header comment says. */
  lemma AlteredIsRejected(p: Pkt, a: Alteration, d: seq<byte>, len: int, prior: Pkt)
    requires Sendable(p) && !a.Intact? && CanAlter(Encoding(p), a)
    requires Covers(d, len) && Altered(Encoding(p), a) <= d
    ensures Decode(d, len, prior).0 != PKT_OK || Decode(d, len, prior).1.ptype != p.ptype
  {
    if Decode(d, len, prior).0 == PKT_OK {
      Accepted(d, len, prior);
      AlteredShows(p, a, d, Decode(d, len, prior).1);
    }
  }

  lemma AckHead(p: Pkt)
    requires Sendable(p) && p.ptype == PTYPE_ACK
    ensures |Encoding(p)| == 10 && TypeOf(Encoding(p)[0]) == PTYPE_ACK
  {
  }

  lemma InvertedType(b: byte)
    requires TypeOf(b) == PTYPE_ACK
    ensures TypeOf(!b) == PTYPE_DATA
  {
  }

  lemma TypesDiffer()
    ensures PTYPE_ACK != PTYPE_DATA && PTYPE_ACK >= 1 && PTYPE_DATA >= 1
  {
  }

  /** The 10 bytes of the sender's receive buffer are enough for an ACK, altered or not, except
      when the inverted first byte makes it look like DATA of an acceptable length. */
  lemma AckStaysInBufferIff(p: Pkt, a: Alteration)
    requires Sendable(p) && p.ptype == PTYPE_ACK && CanAlter(Encoding(p), a)
    ensures var e := Encoding(p);
      |e| == 10 && (Covers(Altered(e, a), 10) <==> !(a == Invert(0) && Pair(e[1], e[2]) <= MAX_PAYLOAD_SIZE))
  {
    hide Crc, FromBigEndian, Encoding, TypeOf, Pair;
    AckHead(p);
    InvertedType(Encoding(p)[0]);
    TypesDiffer();
  }

  /** An altered ACK that is still accepted can only pass for DATA, which the sender ignores. */
  lemma AlteredAckIsNoAck(p: Pkt, a: Alteration, d: seq<byte>, len: int, prior: Pkt)
    requires Sendable(p) && p.ptype == PTYPE_ACK && !a.Intact? && CanAlter(Encoding(p), a)
    requires Covers(d, len) && Altered(Encoding(p), a) <= d
    ensures Decode(d, len, prior).0 != PKT_OK || Decode(d, len, prior).1.ptype == PTYPE_DATA
  {
    hide Decode, Encoding, TypeOf, Shows;
    AlteredIsRejected(p, a, d, len, prior);
    if Decode(d, len, prior).0 == PKT_OK {
      AcceptedType(d, len, prior);
      AckHead(p);
      if a.Invert? && a.at == 0 {
        InvertedType(Encoding(p)[0]);
      }
    }
  }
}
