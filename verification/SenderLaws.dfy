/** What each step of the sender's loop does, in terms of its state and of what it gets: what is read,
    what is put on the wire and when, and what an acknowledgement changes. */
module SenderLaws {
  import opened Crc32
  import opened Wire
  import opened WireTheorems
  import opened RingSpec
  import opened ReceiverSpec
  import opened SenderSpec

  // ---------- What goes on the wire ----------

  /** Wherever these bytes arrive unaltered, the decoder accepts them and gets this packet. */
  ghost predicate DecodesTo(bytes: seq<byte>, p: Pkt) {
    && 10 <= |bytes| <= MAX_PKT_SIZE
    && forall d, len, prior :: bytes <= d && Covers(d, len) && 10 <= len <= MAX_PKT_SIZE ==>
      Decode(d, len, prior).0 == PKT_OK && Decode(d, len, prior).1.SameMessage(p)
  }

  /** The sender's buffer holds only such packets. */
  ghost predicate DataPacket(p: Pkt) {
    WellFormed(p) && p.ptype == PTYPE_DATA
  }

  /** The checksum of its payload lets the packet be sent. */
  predicate HasSum(p: Pkt) {
    p.Data() == [] || Crc(p.Data()) != 0
  }

  /** `bytes` is what handing packet `p` to send at time `now` puts on the wire. */
  ghost predicate OnTheWire(bytes: Option<seq<byte>>, p: Pkt, now: bv32) {
    if HasSum(p) then bytes.Some? && DecodesTo(bytes.value, p.(timestamp := now)) else bytes.None?
  }

  lemma StampedIs(p: Pkt, now: bv32)
    requires DataPacket(p)
    ensures DataPacket(p.(timestamp := now)) && (EncodeStatus(p.(timestamp := now)) == PKT_OK <==> HasSum(p))
    ensures EncodeStatus(p.(timestamp := now)) == PKT_OK ==> 10 <= |Encoding(p.(timestamp := now))| <= MAX_PKT_SIZE
  {
    hide Crc, BigEndian, LittleEndian, Head, ToByte;
  }

  lemma EncodingDecodes(p: Pkt)
    requires Sendable(p) && 10 <= |Encoding(p)| <= MAX_PKT_SIZE
    ensures DecodesTo(Encoding(p), p)
  {
    hide Sendable, Encoding, Decode, Covers;
    forall d, len, prior | Encoding(p) <= d && Covers(d, len) && 10 <= len <= MAX_PKT_SIZE
      ensures Decode(d, len, prior).0 == PKT_OK && Decode(d, len, prior).1.SameMessage(p)
    {
      DecodeUndoesEncode(p, d, len, prior);
    }
  }

  /** send_pkt */
  lemma SendIs(s: Sender, k: nat, now: bv32)
    requires k < |s.buf| && DataPacket(s.buf[k])
    ensures var (t, bytes) := SendAt(s, k, now);
      t == s.(buf := s.buf[k := s.buf[k].(timestamp := now)]) && OnTheWire(bytes, s.buf[k], now)
  {
    hide Encoding, EncodeStatus, DecodesTo, HasSum;
    var p := s.buf[k].(timestamp := now);
    StampedIs(s.buf[k], now);
    if EncodeStatus(p) == PKT_OK {
      EncodingDecodes(p);
    }
  }

  // ---------- Time-outs ----------

  /** The seconds from `t` to `now`. */
  function Passed(t: bv32, now: bv32): bv32 {
    now - t
  }

  /** Three seconds or more have passed, on a clock of 32 bits, since the packet was sent. */
  predicate Expired(p: Pkt, now: bv32) {
    p.timestamp != 0 && Passed(p.timestamp, now) >= 3
  }

  lemma TimePassed(t: bv32, passed: bv32)
    ensures Passed(t, t + passed) == passed
  {
  }

  /** A packet stamped `t` has expired at every time from `t` + 3 on, until the clock comes round. */
  lemma ExpiresAfterThree(p: Pkt, t: bv32, passed: bv32)
    ensures Expired(p.(timestamp := t), t + passed) <==> t != 0 && passed >= 3
  {
    hide Passed;
    TimePassed(t, passed);
  }

  lemma OverTwo(t: bv32, now: bv32)
    ensures TimedOut(t, now) <==> Passed(t, now) >= 3
  {
  }

  lemma OverdueIsExpired(p: Pkt, now: bv32)
    ensures Overdue(p, now) <==> Expired(p, now)
  {
    hide TimedOut, Passed;
    OverTwo(p.timestamp, now);
  }

  lemma SoonerIs(now: bv32)
    ensures Sooner(now) == now - 1
  {
  }

  /** The packet at `k` is the first that has expired when it is looked at. */
  ghost predicate FirstExpired(buf: seq<Pkt>, scan: nat -> bv32, k: nat) {
    k < |buf| && Expired(buf[k], scan(k)) && forall i :: 0 <= i < k ==> !Expired(buf[i], scan(i))
  }

  lemma FirstExpiredIs(buf: seq<Pkt>, scan: nat -> bv32, k: nat)
    requires FirstExpired(buf, scan, k)
    ensures FirstOverdue(buf, scan) == k
  {
    hide Overdue, Expired;
    forall i | 0 <= i < |buf|
      ensures Overdue(buf[i], scan(i)) <==> Expired(buf[i], scan(i))
    {
      OverdueIsExpired(buf[i], scan(i));
    }
  }

  /** What the scan makes of a packet that is not sent again now: an expired one is stamped so that it
      expires again in two seconds. */
  function Aged(p: Pkt, now: bv32): Pkt {
    if Expired(p, now) then p.(timestamp := now - 1) else p
  }

  lemma AgedExpiresInTwo(p: Pkt, now: bv32)
    requires Expired(p, now) && now != 1
    ensures !Expired(Aged(p, now), now) && !Expired(Aged(p, now), now + 1) && Expired(Aged(p, now), now + 2)
  {
  }

  lemma ScannedIs(buf: seq<Pkt>, scan: nat -> bv32, k: nat, i: nat)
    requires FirstExpired(buf, scan, k) && i < |buf|
    ensures i != k ==> Scanned(buf, scan)[i] == Aged(buf[i], scan(i))
    ensures i == k ==> Scanned(buf, scan)[i] == buf[i].(timestamp := scan(i))
  {
    hide Overdue, Expired, Sooner, FirstOverdue;
    FirstExpiredIs(buf, scan, k);
    OverdueIsExpired(buf[i], scan(i));
    SoonerIs(scan(i));
  }

  lemma NothingScanned(buf: seq<Pkt>, scan: nat -> bv32)
    requires forall i :: 0 <= i < |buf| ==> !Expired(buf[i], scan(i))
    ensures FirstOverdue(buf, scan) == |buf| && Scanned(buf, scan) == buf
  {
    hide Overdue, Expired, Sooner;
    forall i | 0 <= i < |buf|
      ensures !Overdue(buf[i], scan(i))
    {
      OverdueIsExpired(buf[i], scan(i));
    }
  }

  /** Nothing happens before a packet expires. */
  lemma NothingTimesOut(s: Sender, scan: nat -> bv32, now: bv32)
    requires forall i :: 0 <= i < |s.buf| ==> !Expired(s.buf[i], scan(i))
    ensures ResendTimedOut(s, scan, now) == (s, None)
  {
    hide Overdue, Expired, Scanned, FirstOverdue;
    NothingScanned(s.buf, scan);
  }

  lemma StampIrrelevant(p: Pkt, t: bv32, now: bv32, bytes: Option<seq<byte>>)
    ensures DataPacket(p) <==> DataPacket(p.(timestamp := t))
    ensures OnTheWire(bytes, p.(timestamp := t), now) <==> OnTheWire(bytes, p, now)
  {
    hide DecodesTo;
  }

  lemma LateIs(s: Sender, k: nat, now: bv32)
    requires k < |s.buf| && DataPacket(s.buf[k])
    ensures var (t, bytes) := ResendLate(s, k, now);
      var eof := s.buf[k].seqnum == s.lastAckToReceive;
      var enough := eof && s.eofTimeouts == 3;
      && t == s.(buf := if enough then s.buf else s.buf[k := s.buf[k].(timestamp := now)],
                 eofTimeouts := if eof then s.eofTimeouts + 1 else s.eofTimeouts, gaveUp := s.gaveUp || enough)
      && (if enough then bytes.None? else OnTheWire(bytes, s.buf[k], now))
  {
    hide SendAt, OnTheWire, DataPacket;
    var eof := s.buf[k].seqnum == s.lastAckToReceive;
    SendIs(s.(eofTimeouts := if eof then s.eofTimeouts + 1 else s.eofTimeouts), k, now);
  }

  /** The first packet that has expired is sent again, stamped with the time of sending; the others are
      stamped to expire sooner.  The fourth time that it is the EOF the sender gives up instead. */
  lemma TimeOutSends(s: Sender, scan: nat -> bv32, now: bv32, k: nat)
    requires FirstExpired(s.buf, scan, k) && DataPacket(s.buf[k])
    ensures var (t, bytes) := ResendTimedOut(s, scan, now);
      var eof := s.buf[k].seqnum == s.lastAckToReceive;
      var enough := eof && s.eofTimeouts == 3;
      && |t.buf| == |s.buf| && (forall i :: 0 <= i < |s.buf| && i != k ==> t.buf[i] == Aged(s.buf[i], scan(i)))
      && t.buf[k] == s.buf[k].(timestamp := if enough then scan(k) else now)
      && t == s.(buf := t.buf, eofTimeouts := if eof then s.eofTimeouts + 1 else s.eofTimeouts,
                 gaveUp := s.gaveUp || enough)
      && (if enough then bytes.None? else OnTheWire(bytes, s.buf[k], now))
  {
    hide Scanned, FirstOverdue, Overdue, Expired, ResendLate, OnTheWire, Aged, DataPacket;
    FirstExpiredIs(s.buf, scan, k);
    forall i | 0 <= i < |s.buf|
      ensures Scanned(s.buf, scan)[i] == if i == k then s.buf[i].(timestamp := scan(i)) else Aged(s.buf[i], scan(i))
    {
      ScannedIs(s.buf, scan, k, i);
    }
    var u := s.(buf := Scanned(s.buf, scan));
    StampIrrelevant(s.buf[k], scan(k), now, ResendLate(u, k, now).1);
    LateIs(u, k, now);
  }

  // ---------- Other sends ----------

  /** The packet at `k` is the first with this number. */
  ghost predicate FirstNumbered(buf: seq<Pkt>, number: int, k: nat) {
    k < |buf| && buf[k].seqnum == number && forall i :: 0 <= i < k ==> buf[i].seqnum != number
  }

  lemma FirstNumberedIs(buf: seq<Pkt>, number: nat, k: nat)
    requires FirstNumbered(buf, number, k)
    ensures Find(Nums(buf), number) == k && number in Nums(buf)
  {
    assert Nums(buf)[k] == number;
  }

  /** The packet that a pending ACK names is sent, and the ACK is no longer pending. */
  lemma AckResends(s: Sender, now: bv32, k: nat)
    requires 0 <= s.ackReceived && FirstNumbered(s.buf, s.ackReceived, k) && DataPacket(s.buf[k])
    ensures CanLookUp(s, s.ackReceived)
    ensures var (t, bytes) := ResendAcked(s, now);
      t == s.(buf := s.buf[k := s.buf[k].(timestamp := now)], ackReceived := -1) && OnTheWire(bytes, s.buf[k], now)
  {
    hide SendAt, OnTheWire, DataPacket;
    FirstNumberedIs(s.buf, s.ackReceived, k);
    SendIs(s, k, now);
  }

  /** The same for a pending NACK. */
  lemma NackResends(s: Sender, now: bv32, k: nat)
    requires 0 <= s.pktTr && FirstNumbered(s.buf, s.pktTr, k) && DataPacket(s.buf[k])
    ensures CanLookUp(s, s.pktTr)
    ensures var (t, bytes) := ResendTruncated(s, now);
      t == s.(buf := s.buf[k := s.buf[k].(timestamp := now)], pktTr := -1) && OnTheWire(bytes, s.buf[k], now)
  {
    hide SendAt, OnTheWire, DataPacket;
    FirstNumberedIs(s.buf, s.pktTr, k);
    SendIs(s, k, now);
  }

  /** Without a pending number nothing is sent again. */
  lemma NothingPending(s: Sender, now: bv32)
    ensures s.ackReceived == -1 ==> CanLookUp(s, -1) && ResendAcked(s, now) == (s, None)
    ensures s.pktTr == -1 ==> CanLookUp(s, -1) && ResendTruncated(s, now) == (s, None)
  {
    hide SendAt;
  }

  /** The first packet that was never sent is sent, and nothing when there is none. */
  lemma UnsentIsSent(s: Sender, now: bv32, k: nat)
    requires k <= |s.buf| && forall i :: 0 <= i < k ==> s.buf[i].timestamp != 0
    requires k < |s.buf| ==> s.buf[k].timestamp == 0 && DataPacket(s.buf[k])
    ensures var (t, bytes) := SendUnsent(s, now);
      if k == |s.buf| then t == s && bytes == None
      else t == s.(buf := s.buf[k := s.buf[k].(timestamp := now)]) && OnTheWire(bytes, s.buf[k], now)
  {
    hide SendAt, OnTheWire, DataPacket;
    assert FirstUnsent(s.buf) == k;
    if k < |s.buf| {
      SendIs(s, k, now);
    }
  }

  // ---------- Reading ----------

  /** The packet made of what was read: the chunk or the EOF, with the next number, the current window
      and not yet sent. */
  ghost predicate MadeFrom(s: Sender, input: Input, p: Pkt) {
    && p.ptype == PTYPE_DATA && p.tr == 0 && Val(p.window) == s.window && p.seqnum == s.seqnum && p.timestamp == 0
    && match input
       case Chunk(data) => p.length == |data| && p.Data() == data
       case EndOfFile => p.length == 0
       case ReadError => false
  }

  lemma MadeIs(s: Sender, input: Input, prior: Pkt)
    requires s.window <= MAX_WINDOW && !input.ReadError?
    requires input.Chunk? ==> 0 < |input.data| <= MAX_PAYLOAD_SIZE
    ensures MadeFrom(s, input, ReadPkt(s, input, prior)) && ReadPkt(s, input, prior).seqnum == s.seqnum
  {
    hide ToByte, Val;
  }

  /** Something is read only while the buffer is smaller than the window, and kept only until the end
      of the file was seen: one packet more, numbered on. */
  lemma ReadingIs(s: Sender, input: Input, prior: Pkt)
    requires s.window <= MAX_WINDOW && (input.Chunk? ==> 0 < |input.data| <= MAX_PAYLOAD_SIZE)
    ensures var t := OnRead(s, input, prior);
      var took := |s.buf| < s.window && !input.ReadError?;
      && (if took && s.lastAckToReceive == -1
          then exists p :: MadeFrom(s, input, p) && multiset(t.buf) == multiset(s.buf + [p])
          else t.buf == s.buf)
      && t == s.(buf := t.buf,
          seqnum := if took && input.Chunk? then (s.seqnum + 1) % 256 else s.seqnum,
          nbSended := if took && input.Chunk? then s.nbSended + 1 else s.nbSended,
          lastAckToReceive := if took && input.EndOfFile? && s.lastAckToReceive == -1 then s.seqnum
                              else s.lastAckToReceive)
  {
    hide Place, ToByte, Val, InsertAt, MadeFrom, ReadPkt;
    if !Full(s) && !input.ReadError? {
      var p := ReadPkt(s, input, prior);
      MadeIs(s, input, prior);
      InsertedItems(s.buf, Place(Nums(s.buf), p.seqnum), p);
    }
  }

  // ---------- Acknowledgements ----------

  /** The sender takes this in: an ACK or a NACK that names neither a number beyond the next one to be
      read nor one beyond the EOF. */
  ghost predicate TakenIn(s: Sender, st: Status, p: Pkt) {
    st == PKT_OK && p.ptype != PTYPE_DATA && p.seqnum <= s.nbSended + 1 &&
    (s.lastAckToReceive == -1 || p.seqnum <= s.lastAckToReceive)
  }

  /** Everything else changes nothing. */
  lemma OthersAreIgnored(s: Sender, st: Status, p: Pkt)
    requires !TakenIn(s, st, p)
    ensures OnAck(s, st, p) == s
  {
    hide Acked, Val;
  }

  /** A NACK is noted and nothing else. */
  lemma NackIsNoted(s: Sender, st: Status, p: Pkt)
    requires TakenIn(s, st, p) && p.ptype == PTYPE_NACK
    ensures OnAck(s, st, p) == s.(pktTr := p.seqnum)
  {
    hide Acked, Val;
  }

  /** What an ACK changes: the window becomes the one it grants, the packets in front of the one it names
      are dropped, and nothing when it names none.  When it dropped nothing and the EOF was not read its
      number stays pending; otherwise the number of the EOF ends the transfer. */
  lemma AckIsHeeded(s: Sender, st: Status, p: Pkt, k: nat)
    requires TakenIn(s, st, p) && p.ptype != PTYPE_NACK
    requires FirstNumbered(s.buf, p.seqnum, k) || (k == 0 && p.seqnum !in Nums(s.buf))
    ensures k <= |s.buf|
    ensures var pending := k == 0 && s.lastAckToReceive == -1;
      OnAck(s, st, p) == s.(window := Val(p.window), buf := s.buf[k..],
        ackReceived := if pending then p.seqnum else -1,
        eofAcked := s.eofAcked || (!pending && p.seqnum == s.lastAckToReceive))
  {
    hide Val, Find;
    if p.seqnum in Nums(s.buf) {
      FirstNumberedIs(s.buf, p.seqnum, k);
    }
  }
}
