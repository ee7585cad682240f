/** The packet format of src/packet/packet.c as functions: what pkt_encode writes, what
    pkt_decode makes of a buffer, and how link_simulator/link_sim.c may alter a datagram. */
module Wire {
  import opened Crc32

  const MAX_PAYLOAD_SIZE := 512
  const MAX_PKT_SIZE := 528
  const MAX_WINDOW_SIZE: bv8 := 31

  const PTYPE_DATA: bv8 := 1
  const PTYPE_ACK: bv8 := 2
  const PTYPE_NACK: bv8 := 3

  type SeqNum = n: nat | n < 256
  type Length = n: nat | n < 0x1_0000

  datatype Option<+T> = None | Some(value: T)

  datatype Status =
    | PKT_OK | E_TYPE | E_TR | E_LENGTH | E_CRC | E_WINDOW | E_SEQNUM | E_NOMEM | E_NOHEADER
    | E_UNCONSISTENT

  /** The fields of struct pkt.  `payload` is None for the null pointer. */
  datatype Pkt = Pkt(
    ptype: bv8, tr: bv8, window: bv8, length: Length, seqnum: SeqNum, timestamp: bv32,
    crc1: bv32, payload: Option<seq<byte>>, crc2: bv32)
  {
    /** What the bit fields of the struct can hold, and a payload pointer that covers `length`. */
    ghost predicate Fits() {
      ptype <= 3 && tr <= 1 && window <= 31 && (payload.Some? ==> length <= |payload.value|)
    }

    /** pkt_get_payload is non-null. */
    predicate HasData() {
      length != 0 && payload.Some?
    }

    /** The bytes pkt_get_payload and pkt_get_length describe together. */
    function Data(): seq<byte> {
      if HasData() && length <= |payload.value| then payload.value[..length] else []
    }

    /** Equality of what travels: everything but the two checksums. */
    ghost predicate SameMessage(q: Pkt) {
      ptype == q.ptype && tr == q.tr && window == q.window && length == q.length &&
      seqnum == q.seqnum && timestamp == q.timestamp && Data() == q.Data()
    }
  }

  /** struct pkt after memset(pkt, 0, sizeof(pkt_t)). */
  const ZERO := Pkt(0, 0, 0, 0, 0, 0, 0, None, 0)

  /** The sequence numbers in a buffer. */
  function Nums(buf: seq<Pkt>): (ns: seq<nat>)
    ensures |ns| == |buf|
    ensures forall i :: 0 <= i < |buf| ==> ns[i] == buf[i].seqnum
  {
    seq(|buf|, i requires 0 <= i < |buf| => buf[i].seqnum)
  }

  // ---------- Numbers as bytes ----------

  /** A byte read as an unsigned number. */
  function Val(b: byte): (n: nat)
    ensures n < 256
  {
    b as int
  }

  /** The byte that holds `n`. */
  function ToByte(n: nat): (b: byte)
    requires n < 256
    ensures Val(b) == n
  {
    if n == 0 then 0 else ToByte(n - 1) + 1
  }

  lemma ValInjective(a: byte, b: byte)
    requires Val(a) == Val(b)
    ensures a == b
  {
    assert a == (a as int) as bv8;
  }

  lemma ToByteInverse(b: byte)
    ensures ToByte(Val(b)) == b
  {
    ValInjective(ToByte(Val(b)), b);
  }

  lemma TypeBytes()
    ensures ToByte(1) == PTYPE_DATA && ToByte(2) == PTYPE_ACK && ToByte(3) == PTYPE_NACK
  {
  }

  /** The comparison with the largest window is the same on bytes and on numbers. */
  lemma WindowByte(b: byte)
    ensures b <= MAX_WINDOW_SIZE <==> Val(b) <= 31
  {
  }

  /** Two bytes in network order as one number. */
  function Pair(hi: byte, lo: byte): Length {
    Val(hi) * 256 + Val(lo)
  }

  /** Network order: the most significant byte first. */
  function BigEndian(c: bv32): (s: seq<byte>)
    ensures |s| == 4
  {
    [((c >> 24) & 0xFF) as bv8, ((c >> 16) & 0xFF) as bv8, ((c >> 8) & 0xFF) as bv8, (c & 0xFF) as bv8]
  }

  function FromBigEndian(s: seq<byte>): bv32
    requires |s| == 4
  {
    ((s[0] as bv32) << 24) | ((s[1] as bv32) << 16) | ((s[2] as bv32) << 8) | (s[3] as bv32)
  }

  /** Order of a little-endian host, in which the timestamp is copied. */
  function LittleEndian(c: bv32): (s: seq<byte>)
    ensures |s| == 4
  {
    [(c & 0xFF) as bv8, ((c >> 8) & 0xFF) as bv8, ((c >> 16) & 0xFF) as bv8, ((c >> 24) & 0xFF) as bv8]
  }

  function FromLittleEndian(s: seq<byte>): bv32
    requires |s| == 4
  {
    (s[0] as bv32) | ((s[1] as bv32) << 8) | ((s[2] as bv32) << 16) | ((s[3] as bv32) << 24)
  }

  lemma BigEndianInverse(c: bv32, s: seq<byte>)
    requires |s| == 4
    ensures FromBigEndian(BigEndian(c)) == c
    ensures BigEndian(FromBigEndian(s)) == s
  {
  }

  lemma LittleEndianInverse(c: bv32, s: seq<byte>)
    requires |s| == 4
    ensures FromLittleEndian(LittleEndian(c)) == c
    ensures LittleEndian(FromLittleEndian(s)) == s
  {
  }

  // ---------- pkt_encode ----------

  function Head(p: Pkt): byte {
    (p.ptype << 6) | (p.tr << 5) | (p.window & 0x1F)
  }

  /** The bytes in front of the first checksum: 8 for a DATA packet, 6 for ACK and NACK. */
  function Header(p: Pkt): (h: seq<byte>)
    ensures |h| == if p.ptype == PTYPE_DATA then 8 else 6
  {
    [Head(p)] +
    (if p.ptype == PTYPE_DATA then [ToByte(p.length / 256), ToByte(p.length % 256)] else []) +
    [ToByte(p.seqnum)] + LittleEndian(p.timestamp)
  }

  /** A header followed by its checksum. */
  function Sealed(h: seq<byte>): (s: seq<byte>)
    ensures |s| == |h| + 4
  {
    h + BigEndian(Crc(h))
  }

  /** The bytes pkt_encode leaves in the buffer when it returns PKT_OK. */
  function Encoding(p: Pkt): seq<byte> {
    Sealed(Header(p)) +
    (if p.ptype == PTYPE_DATA && p.tr == 0 && p.HasData() then Sealed(p.Data()) else [])
  }

  function EncodeStatus(p: Pkt): Status {
    if p.ptype != PTYPE_DATA then (if p.tr != 0 then E_UNCONSISTENT else PKT_OK)
    else if p.length > MAX_PKT_SIZE then E_LENGTH
    else if p.tr != 0 then (if p.length != 0 then E_UNCONSISTENT else PKT_OK)
    else if p.HasData() && Crc(p.Data()) == 0 then E_UNCONSISTENT
    else PKT_OK
  }

  // ---------- pkt_decode ----------

  function TypeOf(head: byte): bv8 {
    (head & 0xC0) >> 6
  }

  function TrOf(head: byte): bv8 {
    (head & 0x20) >> 5
  }

  function WindowOf(head: byte): bv8 {
    head & 0x1F
  }

  /** Where the sequence number stands. */
  function SeqAt(ptype: bv8): nat {
    if ptype == PTYPE_DATA then 3 else 1
  }

  /** The packet after the sequence number, the timestamp and the first checksum were read. */
  function ReadHeader(d: seq<byte>, p: Pkt): Pkt
    requires |d| >= SeqAt(p.ptype) + 9
  {
    var at := SeqAt(p.ptype);
    p.(seqnum := Val(d[at]),
       timestamp := FromLittleEndian(d[at + 1..at + 5]),
       crc1 := FromBigEndian(d[at + 5..at + 9]))
  }

  /** The packet after its payload and second checksum were read. */
  function ReadPayload(d: seq<byte>, p: Pkt): Pkt
    requires |d| >= 16 + p.length
  {
    p.(payload := Some(d[12..12 + p.length]),
       crc2 := FromBigEndian(d[12 + p.length..16 + p.length]))
  }

  /** pkt_decode once the first checksum was accepted; `tr` is the TR bit as it arrived. */
  function DecodeBody(d: seq<byte>, q: Pkt, tr: bv8): (Status, Pkt)
    requires q.ptype == PTYPE_DATA ==> |d| >= 16 + q.length
  {
    if q.ptype != PTYPE_DATA then (PKT_OK, q.(tr := tr)) else
    var r := ReadPayload(d, q);
    if tr == 0 && r.length != 0 && r.crc2 != Crc(d[12..12 + r.length]) then (E_CRC, r)
    else (PKT_OK, r.(tr := tr))
  }

  /** pkt_decode up to the length field, on a cleared struct. */
  function DecodeStart(d: seq<byte>): (r: (Status, Pkt))
    requires |d| >= 1 && (TypeOf(d[0]) == PTYPE_DATA ==> |d| >= 3)
    ensures r.0 == PKT_OK ==> r.1.length <= MAX_PAYLOAD_SIZE
  {
    var head := d[0];
    var p := ZERO.(ptype := TypeOf(head), tr := TrOf(head), window := WindowOf(head));
    if p.ptype < 1 then (E_TYPE, p) else
    var length := if p.ptype == PTYPE_DATA then Pair(d[1], d[2]) else 0;
    // a refused length stays in the struct as it was copied, in the order of the host
    if length > MAX_PAYLOAD_SIZE then (E_LENGTH, p.(length := Pair(d[2], d[1])))
    else (PKT_OK, p.(length := length))
  }

  predicate CoversPacket(d: seq<byte>) {
    |d| >= 1 && (TypeOf(d[0]) >= 1 ==>
      var data := TypeOf(d[0]) == PTYPE_DATA;
      && (data ==> |d| >= 3)
      && (data && Pair(d[1], d[2]) <= MAX_PAYLOAD_SIZE ==> |d| >= 12)
      && (data && Pair(d[1], d[2]) <= MAX_PAYLOAD_SIZE && FromBigEndian(d[8..12]) == Crc(d[..8]) ==>
        |d| >= 16 + Pair(d[1], d[2]))
      && (!data ==> |d| >= 10))
  }

  /** pkt_decode, which trusts the length field and not the number of bytes that arrived, reads
      nothing behind the buffer. */
  predicate Covers(d: seq<byte>, len: int) {
    |d| >= MAX_PKT_SIZE || (10 <= len <= MAX_PKT_SIZE ==> CoversPacket(d))
  }

  /** What the buffer holds at each stage of pkt_decode. */
  lemma CoversStages(d: seq<byte>, len: int)
    requires Covers(d, len) && 10 <= len <= MAX_PKT_SIZE
    ensures |d| >= 1 && (TypeOf(d[0]) == PTYPE_DATA ==> |d| >= 3)
    ensures var (st, p) := DecodeStart(d); st == PKT_OK ==>
      && |d| >= SeqAt(p.ptype) + 9
      && (p.ptype == PTYPE_DATA && ReadHeader(d, p.(tr := 0)).crc1 == Crc(d[..SeqAt(p.ptype) + 5])
          ==> |d| >= 16 + p.length)
  {
    hide Crc, FromBigEndian, FromLittleEndian, Val;
  }

  /** The status pkt_decode returns for `len` received bytes in buffer `d`, and the packet it
      leaves behind; `prior` is the packet's content before the call. */
  function Decode(d: seq<byte>, len: int, prior: Pkt): (Status, Pkt)
    requires Covers(d, len)
  {
    if len > MAX_PKT_SIZE || len < 10 then (E_LENGTH, prior) else
    var (st, p) := DecodeStart(d);
    if st != PKT_OK then (st, p) else
    var q := ReadHeader(d, p.(tr := 0));
    if q.crc1 != Crc(d[..SeqAt(p.ptype) + 5]) then (E_CRC, q)
    else DecodeBody(d, q, p.tr)
  }

  // ---------- The link ----------

  /** What simulate_link does to one datagram: nothing, cut it behind the header and mark it
      as truncated, or invert one byte. */
  datatype Alteration = Intact | Cut | Invert(at: nat)

  predicate CanAlter(w: seq<byte>, a: Alteration) {
    match a
    case Intact => true
    case Cut => |w| > 12
    case Invert(i) => i < |w|
  }

  function Altered(w: seq<byte>, a: Alteration): seq<byte>
    requires CanAlter(w, a)
  {
    match a
    case Intact => w
    case Cut => [w[0] | 0x20] + w[1..12]
    case Invert(i) => w[i := !w[i]]
  }
}
