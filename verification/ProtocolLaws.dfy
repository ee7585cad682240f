/** What single steps do in every reachable state of sender, link and receiver: chunks that arrive are
    kept, acknowledgements tell the receiver's state, the sender stays in the window it was granted,
    and what times out is sent again. */
module ProtocolLaws {
  import opened Crc32
  import opened Wire
  import opened WireTheorems
  import opened ReceiverSpec
  import opened ReceiverLaws
  import opened SenderSpec
  import opened SenderLaws
  import opened Protocol
  import opened ProtocolInvariant
  import opened ProtocolRuns

  lemma RunInv(file: seq<seq<byte>>, steps: seq<Step>)
    requires Readable(file) && Legal(file, START, steps)
    ensures Inv(file, Run(file, START, steps)) && Runnable(Run(file, START, steps))
  {
    hide Inv, Legal, Run, Runnable;
    InvHoldsAtStart(file);
    RunKeepsInv(file, START, steps);
    InvRunnable(file, Run(file, START, steps));
  }

  // ---------- Chunks that arrive ----------

  /** Chunk `a` is in the receiver's buffer. */
  ghost predicate Buffered(file: seq<seq<byte>>, r: Receiver, a: nat) {
    a < |file| && exists i :: 0 <= i < |r.buf| && r.buf[i].seqnum == a % 256 && r.buf[i].Data() == file[a]
  }

  lemma BufferedAt(file: seq<seq<byte>>, cursor: nat, r: Receiver, a: nat)
    requires Readable(file) && ContentInv(file, cursor, r) && r.nbWrited <= a <= r.nbWrited + 30
    requires a % 256 in Nums(r.buf)
    ensures Buffered(file, r, a)
  {
    hide Carries, Encodable, Offset, Joined;
    var i :| 0 <= i < |r.buf| && Nums(r.buf)[i] == a % 256;
    NumberTellsIndex(r, a);
    ChunkIs(file, a, r.buf[i]);
  }

  lemma KeptChunk(r: Receiver, p: Pkt, written: seq<Pkt>, buf: seq<Pkt>)
    requires multiset(written + buf) == multiset(r.buf + [p])
    ensures p in written || p in buf
  {
    assert p in multiset(r.buf + [p]);
    assert p in written + buf;
  }

  lemma WrittenIndex(n: nat, written: seq<Pkt>, rest: seq<Pkt>, writable: nat, a: nat, p: Pkt)
    requires WrittenFrom(n, written, rest, writable) && p in written && p.seqnum == a % 256
    requires |written| <= 32 && n <= a < n + 31
    ensures a < n + |written|
  {
    var i :| 0 <= i < |written| && written[i] == p;
    SameResidue(a, n + i);
  }

  lemma WrittenIsShort(r: Receiver, p: Pkt, written: seq<Pkt>, buf: seq<Pkt>)
    requires Sound(r) && multiset(written + buf) == multiset(r.buf + [p])
    ensures |written| <= 32
  {
    hide Sound;
    BufferFitsWindow(r);
    assert |multiset(written + buf)| == |written + buf| && |multiset(r.buf + [p])| == |r.buf| + 1;
  }

  lemma SoundOf(file: seq<seq<byte>>, cursor: nat, r: Receiver)
    requires ContentInv(file, cursor, r)
    ensures Sound(r) && -1 <= r.lastWrited < 256
    ensures r.lastWrited == if r.nbWrited == 0 then -1 else (r.nbWrited - 1) % 256
  {
  }

  lemma BufferedIgnores(file: seq<seq<byte>>, r: Receiver, s: Receiver, a: nat)
    requires Buffered(file, r, a) && s.buf == r.buf
    ensures Buffered(file, s, a)
  {
  }

  lemma BufferedNow(file: seq<seq<byte>>, r: Receiver, a: nat, p: Pkt)
    requires a < |file| && p in r.buf && p.seqnum == a % 256 && p.Data() == file[a]
    ensures Buffered(file, r, a)
  {
  }

  lemma TakenInto(file: seq<seq<byte>>, w: World, t: Transit, env: Surroundings)
    requires Readable(file) && Inv(file, w) && Runnable(w) && Enabled(w, DeliverData(t, env)) && t.alteration.Intact?
    requires t.msg.index < |file| && w.r.nbWrited <= t.msg.index < w.r.nbWrited + 30
    ensures var w' := Apply(file, w, DeliverData(t, env));
      t.msg.index < w'.r.nbWrited || Buffered(file, w'.r, t.msg.index)
  {
    hide Carries, Decode, Encoding, Sound, IsData, IsAck, OnDatagram, ContentInv, SenderInv, PendingInv, EndInv;
    hide Offset, Buffered, Encodable, Altered, WrittenFrom;
    var a := t.msg.index;
    var (st, p) := Decode(t.buffer, |t.Arrived()|, ZERO);
    ArrivesAsSent(file, t);
    ChunkIs(file, a, p);
    SoundOf(file, w.cursor, w.r);
    NumberTellsIndex(w.r, a);
    if p.seqnum in Nums(w.r.buf) {
      BufferedAt(file, w.cursor, w.r, a);
      OthersAreDropped(w.r, st, p, env);
      BufferedIgnores(file, w.r, OnDatagram(w.r, st, p, env).0, a);
    } else {
      var written := ChunkIsKept(w.r, p, env);
      var r' := OnDatagram(w.r, PKT_OK, p, env).0;
      KeptChunk(w.r, p, written, r'.buf);
      if p in written {
        WrittenIsShort(w.r, p, written, r'.buf);
        WrittenIndex(w.r.nbWrited, written, r'.buf, env.writable, a, p);
      } else {
        BufferedNow(file, r', a, p);
      }
    }
  }

  /** A chunk that arrives unaltered before it was written, and less than 30 chunks ahead, is
      afterwards written or buffered. */
  lemma ChunkIsTaken(file: seq<seq<byte>>, steps: seq<Step>, t: Transit, env: Surroundings)
    requires Readable(file) && Legal(file, START, steps)
    requires var w := Run(file, START, steps);
      && Enabled(w, DeliverData(t, env)) && t.alteration.Intact?
      && t.msg.index < |file| && w.r.nbWrited <= t.msg.index < w.r.nbWrited + 30
    ensures Runnable(Run(file, START, steps))
    ensures var w' := Apply(file, Run(file, START, steps), DeliverData(t, env));
      t.msg.index < w'.r.nbWrited || Buffered(file, w'.r, t.msg.index)
  {
    hide Legal, Run, Inv, Runnable;
    RunInv(file, steps);
    TakenInto(file, Run(file, START, steps), t, env);
  }

  lemma EofNotBuffered(file: seq<seq<byte>>, cursor: nat, r: Receiver, n: nat)
    requires ContentInv(file, cursor, r) && n == |file| <= r.nbWrited + 30
    ensures n % 256 !in Nums(r.buf)
  {
    hide Carries, Encodable, Joined, Offset;
    NumberTellsIndex(r, n);
    forall i | 0 <= i < |r.buf|
      ensures Nums(r.buf)[i] != n % 256
    {
      assert IndexOf(r, r.buf[i].seqnum) < cursor;
    }
  }

  lemma NotedEof(file: seq<seq<byte>>, w: World, t: Transit, env: Surroundings)
    requires Readable(file) && Inv(file, w) && Runnable(w) && Enabled(w, DeliverData(t, env)) && t.alteration.Intact?
    requires t.msg.index == |file| < w.r.nbWrited + 30
    ensures Apply(file, w, DeliverData(t, env)).r.lastackToSend == |file| % 256
  {
    hide Carries, Decode, Encoding, Sound, IsData, IsAck, OnDatagram, ContentInv, SenderInv, PendingInv, EndInv;
    hide Offset, Encodable, Altered;
    var n := |file|;
    var (st, p) := Decode(t.buffer, |t.Arrived()|, ZERO);
    ArrivesAsSent(file, t);
    ChunkIs(file, n, p);
    SoundOf(file, w.cursor, w.r);
    ContentIsSound(file, w.cursor, w.r);
    NumberTellsIndex(w.r, n);
    EofNotBuffered(file, w.cursor, w.r, n);
    EofIsNoted(w.r, st, p, env);
  }

  /** An EOF that arrives unaltered is noted, also while chunks in front of it are missing: from then on
      the receiver waits until its acknowledgement names the end of the file. */
  lemma EofIsTakenIn(file: seq<seq<byte>>, steps: seq<Step>, t: Transit, env: Surroundings)
    requires Readable(file) && Legal(file, START, steps)
    requires var w := Run(file, START, steps);
      && Enabled(w, DeliverData(t, env)) && t.alteration.Intact?
      && t.msg.index == |file| < w.r.nbWrited + 30
    ensures Runnable(Run(file, START, steps))
    ensures Apply(file, Run(file, START, steps), DeliverData(t, env)).r.lastackToSend == |file| % 256
  {
    hide Legal, Run, Inv, Runnable;
    RunInv(file, steps);
    NotedEof(file, Run(file, START, steps), t, env);
  }

  // ---------- What an acknowledgement tells ----------

  /** These bytes are an ACK that tells the state of `r`. */
  ghost predicate AckFor(bytes: seq<byte>, r: Receiver) {
    exists p :: DecodesTo(bytes, p) && p.ptype == PTYPE_ACK && p.seqnum == r.nbWrited % 256 &&
      Val(p.window) + |r.buf| == 31 && p.timestamp == r.timeLastData
  }

  lemma NeverTruncated(file: seq<seq<byte>>, w: World, t: Transit)
    requires Readable(file) && Inv(file, w) && t.msg in w.forward && t.Possible() && t.Fits()
    ensures var (st, p) := Decode(t.buffer, |t.Arrived()|, ZERO);
      st == PKT_OK && p.ptype == PTYPE_DATA ==> p.tr == 0
  {
    hide Carries, Decode, Encoding, Altered, IsData, ContentInv, SenderInv, PendingInv, EndInv;
    ArrivesAsSent(file, t);
    if t.alteration.Intact? {
      CarriesType(file, t.msg.index, Decode(t.buffer, |t.Arrived()|, ZERO).1);
    }
  }

  lemma ReplySendable(reply: Reply)
    requires reply.Reply? && (reply.ptype == PTYPE_ACK || reply.ptype == PTYPE_NACK) && reply.window <= 31
    ensures Sendable(reply.Packet()) && |Encoding(reply.Packet())| == 10
  {
    hide Crc, BigEndian, LittleEndian, Head, ToByte;
    ShortEncoding(reply.Packet(), reply.Packet());
  }

  lemma ReplyDecodes(reply: Reply)
    requires reply.Reply? && (reply.ptype == PTYPE_ACK || reply.ptype == PTYPE_NACK) && Val(reply.window) <= 31
    ensures DecodesTo(Encoding(reply.Packet()), reply.Packet())
  {
    hide Encoding, DecodesTo;
    WindowByte(reply.window);
    ReplySendable(reply);
    EncodingDecodes(reply.Packet());
  }

  lemma ToldBy(file: seq<seq<byte>>, w: World, t: Transit, env: Surroundings, m: Datagram)
    requires Readable(file) && Inv(file, w) && Runnable(w) && Enabled(w, DeliverData(t, env)) && m !in w.back
    ensures var w' := Apply(file, w, DeliverData(t, env)); m in w'.back ==> AckFor(m.bytes, w'.r)
  {
    hide Carries, Decode, Encoding, Sound, IsData, IsAck, OnDatagram, ContentInv, SenderInv, PendingInv, EndInv;
    hide Offset, Altered, DecodesTo;
    var (st, p) := Decode(t.buffer, |t.Arrived()|, ZERO);
    SoundOf(file, w.cursor, w.r);
    NeverTruncated(file, w, t);
    AnswerIs(w.r, st, p, env);
    var (r, reply) := OnDatagram(w.r, st, p, env);
    if reply.Reply? {
      ReplyDecodes(reply);
    }
  }

  /** Whatever the receiver answers to a datagram decodes, wherever it arrives unaltered, to an ACK that
      names the chunk it waits for and grants the window that its buffer leaves. */
  lemma AckTellsReceiver(file: seq<seq<byte>>, steps: seq<Step>, t: Transit, env: Surroundings, m: Datagram)
    requires Readable(file) && Legal(file, START, steps)
    requires var w := Run(file, START, steps);
      Enabled(w, DeliverData(t, env)) && m !in w.back
    ensures Runnable(Run(file, START, steps))
    ensures var w' := Apply(file, Run(file, START, steps), DeliverData(t, env));
      m in w'.back ==> AckFor(m.bytes, w'.r)
  {
    hide Legal, Run, Inv, Runnable, AckFor;
    RunInv(file, steps);
    ToldBy(file, Run(file, START, steps), t, env, m);
  }

  // ---------- Flow control ----------

  /** In every reachable state the sender's window is the one that the last ACK taken in granted, one
      before any. */
  lemma WindowIsGranted(file: seq<seq<byte>>, steps: seq<Step>)
    requires Readable(file) && Legal(file, START, steps)
    ensures Run(file, START, steps).s.window == Run(file, START, steps).granted
  {
    hide Legal, Run, SenderInv, ReceiverInv, LinkInv, EndInv, Runnable;
    RunInv(file, steps);
  }

  lemma ReadBy(file: seq<seq<byte>>, w: World, prior: Pkt)
    requires Readable(file) && Runnable(w) && Enabled(w, Read(prior))
    ensures var w' := Apply(file, w, Read(prior));
      |w'.s.buf| == if |w.s.buf| < w.s.window && !EofRead(w.s) then |w.s.buf| + 1 else |w.s.buf|
  {
    hide Sound, OnRead;
    var input := NextInput(file, w.cursor);
    ReadingIs(w.s, input, prior);
    var t := OnRead(w.s, input, prior);
    if |w.s.buf| < w.s.window && !EofRead(w.s) {
      var p :| MadeFrom(w.s, input, p) && multiset(t.buf) == multiset(w.s.buf + [p]);
      assert |multiset(t.buf)| == |t.buf|;
    }
  }

  /** And the sender reads, one chunk or the EOF at a time, exactly while its buffer is smaller than
      that. */
  lemma ReadsWithinWindow(file: seq<seq<byte>>, steps: seq<Step>, prior: Pkt)
    requires Readable(file) && Legal(file, START, steps) && Enabled(Run(file, START, steps), Read(prior))
    ensures Runnable(Run(file, START, steps))
    ensures var w := Run(file, START, steps);
      var w' := Apply(file, w, Read(prior));
      |w'.s.buf| == if |w.s.buf| < w.granted && !EofRead(w.s) then |w.s.buf| + 1 else |w.s.buf|
  {
    hide Legal, Run, Inv, Runnable;
    RunInv(file, steps);
    WindowIsGranted(file, steps);
    ReadBy(file, Run(file, START, steps), prior);
  }

  // ---------- Retransmission ----------

  /** The packet is on its way as chunk `a`. */
  ghost predicate SentAgain(p: Pkt, a: nat, w: World) {
    exists m :: m in w.forward && m.index == a && DecodesTo(m.bytes, p)
  }

  lemma CarriesData(file: seq<seq<byte>>, a: nat, p: Pkt)
    requires Readable(file) && Carries(file, a, p)
    ensures DataPacket(p) && (HasSum(p) <==> Encodable(file, a))
  {
  }

  lemma PutOnWire(w: World, k: nat, res: (Sender, Option<seq<byte>>), p: Pkt, now: bv32)
    requires OnTheWire(res.1, p, now) && HasSum(p)
    ensures SentAgain(p.(timestamp := now), w.base + k, Sent(w, k, res))
  {
    hide DecodesTo, HasSum;
    assert Datagram(w.base + k, res.1.value) in Sent(w, k, res).forward;
  }

  lemma SentBy(file: seq<seq<byte>>, w: World, scan: nat -> bv32, now: bv32, k: nat)
    requires Readable(file) && Inv(file, w) && Runnable(w) && Enabled(w, TimeOut(scan, now))
    requires FirstExpired(w.s.buf, scan, k) && Encodable(file, w.base + k)
    requires !(w.s.buf[k].seqnum == w.s.lastAckToReceive && w.s.eofTimeouts == 3)
    ensures SentAgain(w.s.buf[k].(timestamp := now), w.base + k, Apply(file, w, TimeOut(scan, now)))
  {
    hide Carries, Encodable, PendingInv, ReceiverInv, LinkInv, EndInv, ResendTimedOut, FirstOverdue, DecodesTo;
    hide Expired, HasSum, DataPacket, Aged, OnTheWire, SentAgain;
    CarriesData(file, w.base + k, w.s.buf[k]);
    TimeOutSends(w.s, scan, now, k);
    FirstExpiredIs(w.s.buf, scan, k);
    PutOnWire(w, k, ResendTimedOut(w.s, scan, now), w.s.buf[k], now);
  }

  /** In every reachable state, when a packet has expired and can be encoded, the time-out step puts the
      first such packet on the wire again: bytes for its chunk that decode to it. */
  lemma ExpiredIsSentAgain(file: seq<seq<byte>>, steps: seq<Step>, scan: nat -> bv32, now: bv32, k: nat)
    requires Readable(file) && Legal(file, START, steps)
    requires var w := Run(file, START, steps);
      && Enabled(w, TimeOut(scan, now)) && FirstExpired(w.s.buf, scan, k) && Encodable(file, w.base + k)
      && !(w.s.buf[k].seqnum == w.s.lastAckToReceive && w.s.eofTimeouts == 3)
    ensures Runnable(Run(file, START, steps))
    ensures var w := Run(file, START, steps);
      SentAgain(w.s.buf[k].(timestamp := now), w.base + k, Apply(file, w, TimeOut(scan, now)))
  {
    hide Legal, Run, Inv, Runnable, SentAgain, FirstExpired, Encodable;
    RunInv(file, steps);
    SentBy(file, Run(file, START, steps), scan, now, k);
  }

  lemma NamedAt(file: seq<seq<byte>>, w: World)
    requires SenderInv(file, w) && PendingInv(w) && w.s.ackReceived != -1
    requires w.base <= w.heard < w.base + |w.s.buf|
    ensures 0 <= w.s.ackReceived && FirstNumbered(w.s.buf, w.s.ackReceived, w.heard - w.base)
  {
    hide Carries;
    forall i | 0 <= i < |w.s.buf|
      ensures w.s.buf[i].seqnum == w.s.ackReceived <==> i == w.heard - w.base
    {
      CarriesNumber(file, w.base + i, w.s.buf[i]);
      if w.s.buf[i].seqnum == w.s.ackReceived {
        SameResidue(w.base + i, w.heard);
      }
    }
  }

  lemma NamedBy(file: seq<seq<byte>>, w: World, now: bv32)
    requires Readable(file) && Inv(file, w) && Runnable(w) && !w.s.Done() && w.s.ackReceived != -1
    requires w.base <= w.heard < w.base + |w.s.buf| && Encodable(file, w.heard)
    ensures Enabled(w, AnswerAck(now))
    ensures SentAgain(w.s.buf[w.heard - w.base].(timestamp := now), w.heard, Apply(file, w, AnswerAck(now)))
  {
    hide Carries, Encodable, PendingInv, ReceiverInv, LinkInv, EndInv, ResendAcked, DecodesTo, HasSum, DataPacket;
    hide FirstNumbered, OnTheWire, SentAgain;
    var k := w.heard - w.base;
    CarriesData(file, w.heard, w.s.buf[k]);
    NamedAt(file, w);
    FirstNumberedIs(w.s.buf, w.s.ackReceived, k);
    AckResends(w.s, now, k);
    PutOnWire(w, k, ResendAcked(w.s, now), w.s.buf[k], now);
  }

  /** The same for the chunk that a pending ACK names. */
  lemma NamedIsSentAgain(file: seq<seq<byte>>, steps: seq<Step>, now: bv32)
    requires Readable(file) && Legal(file, START, steps)
    requires var w := Run(file, START, steps);
      && !w.s.Done() && w.s.ackReceived != -1 && w.base <= w.heard < w.base + |w.s.buf| && Encodable(file, w.heard)
    ensures var w := Run(file, START, steps);
      && Runnable(w) && Enabled(w, AnswerAck(now))
      && SentAgain(w.s.buf[w.heard - w.base].(timestamp := now), w.heard, Apply(file, w, AnswerAck(now)))
  {
    hide Legal, Run, Inv, Runnable, SentAgain, Encodable;
    RunInv(file, steps);
    NamedBy(file, Run(file, START, steps), now);
  }
}
