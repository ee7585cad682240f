/** struct pkt of src/packet/packet.c as an object, with the setters, pkt_encode and pkt_decode
    as methods that move a cursor over a buffer, proved against the functions of Wire. */
module Packets {
  import opened Crc32
  import opened Wire

  /** Writes `s` into the buffer at `at`, as memcpy does. */
  method CopyInto(buf: array<byte>, at: nat, s: seq<byte>)
    requires at + |s| <= buf.Length
    modifies buf
    ensures buf[..at + |s|] == old(buf[..at]) + s
    ensures forall j :: at + |s| <= j < buf.Length ==> buf[j] == old(buf[j])
  {
    for i := 0 to |s|
      invariant forall j :: 0 <= j < i ==> buf[at + j] == s[j]
      invariant forall j :: 0 <= j < buf.Length && !(at <= j < at + i) ==> buf[j] == old(buf[j])
    {
      buf[at + i] := s[i];
    }
  }

  class Packet {
    var ptype: bv8
    var tr: bv8
    var window: bv8
    var length: Length
    var seqnum: SeqNum
    var timestamp: bv32
    var crc1: bv32
    var payload: Option<seq<byte>>
    var crc2: bv32

    /** pkt_new: the allocation is not cleared, so the fields hold anything the struct can. */
    constructor ()
      ensures View().Fits()
    {
      var a, b, c: bv8 :| a <= 3 && b <= 1 && c <= 31;
      var n: Length, s: SeqNum, t: bv32, u: bv32, v: bv32 :| true;
      ptype, tr, window, length, seqnum, timestamp, crc1, payload, crc2 := a, b, c, n, s, t, u, None, v;
    }

    function View(): (p: Pkt)
      reads this
    {
      Pkt(ptype, tr, window, length, seqnum, timestamp, crc1, payload, crc2)
    }

    // ---------- Setters: a value out of range is refused and nothing changes ----------

    method SetType(t: int) returns (st: Status)
      modifies `ptype
      ensures st == if 1 <= t <= 3 then PKT_OK else E_TYPE
      ensures View() == if 1 <= t <= 3 then old(View()).(ptype := ToByte(t)) else old(View())
    {
      if t < 1 || t > 3 {
        return E_TYPE;
      }
      ptype := ToByte(t);
      return PKT_OK;
    }

    method SetTr(t: bv8) returns (st: Status)
      modifies `tr
      ensures st == if t <= 1 then PKT_OK else E_TR
      ensures View() == if t <= 1 then old(View()).(tr := t) else old(View())
    {
      if t > 1 {
        return E_TR;
      }
      tr := t;
      return PKT_OK;
    }

    method SetWindow(w: bv8) returns (st: Status)
      modifies `window
      ensures st == if w <= MAX_WINDOW_SIZE then PKT_OK else E_WINDOW
      ensures View() == if w <= MAX_WINDOW_SIZE then old(View()).(window := w) else old(View())
    {
      if w > MAX_WINDOW_SIZE {
        return E_WINDOW;
      }
      window := w;
      return PKT_OK;
    }

    method SetSeqnum(s: SeqNum) returns (st: Status)
      modifies `seqnum
      ensures st == PKT_OK && View() == old(View()).(seqnum := s)
    {
      seqnum := s;
      return PKT_OK;
    }

    method SetTimestamp(t: bv32) returns (st: Status)
      modifies `timestamp
      ensures st == PKT_OK && View() == old(View()).(timestamp := t)
    {
      timestamp := t;
      return PKT_OK;
    }

    method SetLength(n: Length) returns (st: Status)
      modifies `length
      ensures st == if n <= MAX_PAYLOAD_SIZE then PKT_OK else E_LENGTH
      ensures View() == if n <= MAX_PAYLOAD_SIZE then old(View()).(length := n) else old(View())
    {
      if n > MAX_PAYLOAD_SIZE {
        return E_LENGTH;
      }
      length := n;
      return PKT_OK;
    }

    /** pkt_set_payload with `data` the bytes the pointer and the length describe. */
    method SetPayload(data: seq<byte>) returns (st: Status)
      requires |data| < 0x1_0000
      modifies `length, `payload
      ensures st == if |data| <= MAX_PAYLOAD_SIZE then PKT_OK else E_LENGTH
      ensures View() == if |data| <= MAX_PAYLOAD_SIZE
        then old(View()).(length := |data|, payload := Some(data)) else old(View())
    {
      if |data| > MAX_PAYLOAD_SIZE {
        return E_LENGTH;
      }
      payload := Some(data);
      st := SetLength(|data|);
    }

    // ---------- pkt_encode ----------

    /** How many bytes of the buffer pkt_encode touches. */
    static function Room(p: Pkt): nat {
      if p.ptype != PTYPE_DATA && p.tr != 0 then 0
      else if EncodeStatus(p) == E_LENGTH then 1
      else |Encoding(p)|
    }

    /** The sequence number, the timestamp and the checksum of everything so far. */
    method PutRest(buf: array<byte>, at: nat) returns (cur: nat)
      requires at + 9 <= buf.Length
      modifies buf
      ensures cur == at + 9
      ensures buf[..cur] == Sealed(old(buf[..at]) + [ToByte(seqnum)] + LittleEndian(timestamp))
      ensures forall j :: cur <= j < buf.Length ==> buf[j] == old(buf[j])
    {
      hide BigEndian, LittleEndian, Crc, ToByte;
      cur := at;
      CopyInto(buf, cur, [ToByte(seqnum)]);
      cur := cur + 1;
      CopyInto(buf, cur, LittleEndian(timestamp));
      cur := cur + 4;
      CopyInto(buf, cur, BigEndian(Crc(buf[..cur])));
      cur := cur + 4;
    }

    /** The payload and its checksum; a checksum of zero is refused. */
    method PutPayload(buf: array<byte>, at: nat) returns (st: Status, cur: nat)
      requires payload.Some? && length <= |payload.value| && at + length + 4 <= buf.Length
      modifies buf
      ensures st == if Crc(payload.value[..length]) == 0 then E_UNCONSISTENT else PKT_OK
      ensures st == PKT_OK ==> cur == at + length + 4
      ensures st == PKT_OK ==> buf[..cur] == old(buf[..at]) + Sealed(payload.value[..length])
      ensures forall j :: at + length + 4 <= j < buf.Length ==> buf[j] == old(buf[j])
    {
      hide BigEndian, Crc;
      var data := payload.value[..length];
      cur := at;
      CopyInto(buf, cur, data);
      var crc2 := Crc(buf[cur..cur + length]);
      assert buf[cur..cur + length] == buf[..cur + length][cur..] == data;
      cur := cur + length;
      if crc2 == 0 {
        return E_UNCONSISTENT, cur;
      }
      CopyInto(buf, cur, BigEndian(crc2));
      return PKT_OK, cur + 4;
    }

    /** The rest of a DATA header, after its first byte. */
    method PutDataHeader(buf: array<byte>) returns (cur: nat)
      requires ptype == PTYPE_DATA && 12 <= buf.Length && buf[0] == Head(View())
      modifies buf
      ensures cur == 12 && buf[..12] == Sealed(Header(View()))
      ensures forall j :: 12 <= j < buf.Length ==> buf[j] == old(buf[j])
    {
      hide BigEndian, LittleEndian, Crc, ToByte, Head, Sealed;
      cur := 1;
      assert buf[..1] == [Head(View())];
      CopyInto(buf, cur, [ToByte(length / 256), ToByte(length % 256)]);
      cur := cur + 2;
      assert buf[..3] == [Head(View())] + [ToByte(length / 256), ToByte(length % 256)];
      cur := PutRest(buf, cur);
    }

    /** `lenBefore` is what the caller's length variable held; it is left alone when the packet
        is refused and also when its TR bit is set. */
    method Encode(buf: array<byte>, lenBefore: nat) returns (st: Status, len: nat)
      requires payload.Some? ==> length <= |payload.value|
      requires Room(View()) <= buf.Length
      modifies buf
      ensures st == EncodeStatus(View())
      ensures st == PKT_OK ==> buf[..|Encoding(View())|] == Encoding(View())
      ensures len == if st == PKT_OK && tr == 0 then |Encoding(View())| else lenBefore
      ensures forall j :: Room(View()) <= j < buf.Length ==> buf[j] == old(buf[j])
    {
      hide BigEndian, LittleEndian, Crc, ToByte, Head, Sealed;
      len := lenBefore;
      if ptype != PTYPE_DATA && tr != 0 {
        return E_UNCONSISTENT, len;
      }
      CopyInto(buf, 0, [Head(View())]);
      assert buf[..1] == [Head(View())];
      if ptype != PTYPE_DATA {
        assert [Head(View())] + [] == [Head(View())];
        var cur := PutRest(buf, 1);
        assert buf[..cur] == Sealed(Header(View()));
        return PKT_OK, cur;
      }
      if length > MAX_PKT_SIZE {
        return E_LENGTH, len;
      }
      assert buf[0] == buf[..1][0];
      var cur := PutDataHeader(buf);
      if tr != 0 {
        return (if length != 0 then E_UNCONSISTENT else PKT_OK), len;
      }
      if length != 0 && payload.Some? {
        st, cur := PutPayload(buf, cur);
        return st, (if st == PKT_OK then cur else len);
      }
      return PKT_OK, cur;
    }

    // ---------- pkt_decode ----------

    /** What pkt_decode does once it accepted the first checksum. */
    method DecodeBody(data: array<byte>, arrived: bv8) returns (st: Status)
      requires length <= MAX_PAYLOAD_SIZE && (ptype == PTYPE_DATA ==> data.Length >= 16 + length)
      modifies this
      ensures (st, View()) == Wire.DecodeBody(data[..], old(View()), arrived)
    {
      hide FromBigEndian, Crc;
      if ptype != PTYPE_DATA {
        tr := arrived;
        return PKT_OK;
      }
      var cur := 12;
      assert data[cur..cur + length] == data[..][cur..cur + length];
      st := SetPayload(data[cur..cur + length]);
      cur := cur + length;
      assert data[cur..cur + 4] == data[..][cur..cur + 4];
      crc2 := FromBigEndian(data[cur..cur + 4]);
      if arrived == 0 && length != 0 && crc2 != Crc(data[12..12 + length]) {
        return E_CRC;
      }
      tr := arrived;
      return PKT_OK;
    }

    /** Everything in front of the first checksum, and the checksum, for a packet whose type and
        length are already set. */
    method ReadRest(data: array<byte>, at: nat) returns (cur: nat)
      requires at == SeqAt(ptype) && data.Length >= at + 9
      modifies this
      ensures cur == at + 9
      ensures View() == ReadHeader(data[..], old(View()))
    {
      hide FromBigEndian, FromLittleEndian, Val;
      cur := at;
      seqnum := Val(data[cur]);
      cur := cur + 1;
      assert data[cur..cur + 4] == data[..][cur..cur + 4];
      timestamp := FromLittleEndian(data[cur..cur + 4]);
      cur := cur + 4;
      assert data[cur..cur + 4] == data[..][cur..cur + 4];
      crc1 := FromBigEndian(data[cur..cur + 4]);
      cur := cur + 4;
    }

    /** The length field of a DATA packet; a refused one stays as it was copied. */
    method ReadLength(data: array<byte>) returns (st: Status)
      requires data.Length >= 3
      modifies this
      ensures var n := Pair(data[1], data[2]);
        && st == (if n > MAX_PAYLOAD_SIZE then E_LENGTH else PKT_OK)
        && View() == old(View()).(length := if n > MAX_PAYLOAD_SIZE then Pair(data[2], data[1]) else n)
    {
      hide Val, Pair;
      length := Pair(data[2], data[1]);
      st := SetLength(Pair(data[1], data[2]));
    }

    /** Everything up to the length field, after the struct was cleared. */
    method ReadStart(data: array<byte>) returns (st: Status, cur: nat)
      requires data.Length >= 1 && (TypeOf(data[0]) == PTYPE_DATA ==> data.Length >= 3)
      modifies this
      ensures (st, View()) == DecodeStart(data[..])
      ensures st == PKT_OK ==> cur == SeqAt(ptype)
    {
      hide Val, Pair, TypeOf, TrOf, WindowOf;
      length, seqnum, timestamp, crc1, payload, crc2 := 0, 0, 0, 0, None, 0;
      var head := data[0];
      cur := 1;
      ptype, tr, window := TypeOf(head), TrOf(head), WindowOf(head);
      // the masks leave pkt_set_type's upper bound, pkt_set_tr and pkt_set_window nothing to refuse
      st := PKT_OK;
      if ptype < 1 {
        return E_TYPE, cur;
      }
      if ptype == PTYPE_DATA {
        st := ReadLength(data);
        cur := cur + 2;
      }
    }

    method Decode(data: array<byte>, len: int) returns (st: Status)
      requires Covers(data[..], len)
      modifies this
      ensures (st, View()) == Wire.Decode(data[..], len, old(View()))
    {
      hide FromBigEndian, FromLittleEndian, Crc, Val, Pair, DecodeStart, Wire.DecodeBody;
      if len > MAX_PKT_SIZE || len < 10 {
        return E_LENGTH;
      }
      CoversStages(data[..], len);
      var cur;
      st, cur := ReadStart(data);
      if st != PKT_OK {
        return st;
      }
      cur := ReadRest(data, cur);
      var arrived := tr;
      tr := 0;
      assert data[..cur - 4] == data[..][..cur - 4];
      if crc1 != Crc(data[..cur - 4]) {
        return E_CRC;
      }
      st := DecodeBody(data, arrived);
    }
  }

  lemma PacketNumber(pkt: Packet)
    ensures pkt.View().seqnum == pkt.seqnum
  {
  }
}
