/** What every step of the transition system keeps. */
module ProtocolInvariant {
  import opened Crc32
  import opened Wire
  import opened WireTheorems
  import opened RingSpec
  import opened ReceiverSpec
  import opened SenderSpec
  import opened Protocol

  function Joined(file: seq<seq<byte>>): seq<byte> {
    if file == [] then [] else Joined(file[..|file| - 1]) + file[|file| - 1]
  }

  /** The packet carries chunk `a`, or is the EOF when `a` is the number of chunks. */
  ghost predicate Carries(file: seq<seq<byte>>, a: nat, p: Pkt) {
    p.seqnum == a % 256 && p.ptype == PTYPE_DATA && p.tr == 0 && p.window <= 31 &&
    p.length <= MAX_PAYLOAD_SIZE && (p.payload.Some? ==> p.length <= |p.payload.value|) &&
    (if a < |file| then p.length == |file[a]| && p.Data() == file[a] else a == |file| && p.length == 0)
  }

  // ---------- The sender ----------

  ghost predicate EofRead(s: Sender) {
    s.lastAckToReceive != -1
  }

  /** The buffer is the window of at most 31 consecutive chunks that starts at `base`, the EOF
      included once it was read. */
  ghost predicate SenderInv(file: seq<seq<byte>>, w: World) {
    && w.cursor <= |file| && w.s.seqnum == w.cursor % 256 && w.s.nbSended == w.cursor
    && (EofRead(w.s) ==> w.cursor == |file| && w.s.lastAckToReceive == |file| % 256)
    && w.base + |w.s.buf| == w.cursor + (if EofRead(w.s) then 1 else 0)
    && |w.s.buf| <= MAX_WINDOW && w.s.window <= MAX_WINDOW
    && w.s.pktTr == -1 && -1 <= w.s.ackReceived < 256
    && (forall i :: 0 <= i < |w.s.buf| ==> Carries(file, w.base + i, w.s.buf[i]))
  }

  /** The window is the one that the last ACK taken in granted; a pending number is the one of that
      ACK, which was not too old. */
  ghost predicate PendingInv(w: World) {
    && w.s.window == w.granted
    && (w.s.ackReceived != -1 ==>
      w.s.ackReceived == w.heard % 256 && w.heard <= w.acked && w.base - w.heard <= LIFETIME)
  }

  // ---------- The receiver ----------

  /** The absolute index of a buffered packet. */
  function IndexOf(r: Receiver, seqnum: nat): nat
    requires -1 <= r.lastWrited < 256 && seqnum < 256
  {
    r.nbWrited + Offset(r.lastWrited, seqnum)
  }

  /** pkt_encode does not refuse chunk `a`. */
  ghost predicate Encodable(file: seq<seq<byte>>, a: nat) {
    a < |file| ==> Crc(file[a]) != 0
  }

  /** What was written is the first chunks, and what is buffered are later ones; none of them is
      one that pkt_encode refuses. */
  ghost predicate ContentInv(file: seq<seq<byte>>, cursor: nat, r: Receiver) {
    && Sound(r) && r.nbWrited <= cursor <= |file|
    && r.out == Joined(file[..r.nbWrited])
    && (forall a :: 0 <= a < r.nbWrited ==> Encodable(file, a))
    && (forall i :: 0 <= i < |r.buf| ==>
      var a := IndexOf(r, r.buf[i].seqnum); a < cursor && Carries(file, a, r.buf[i]) && Encodable(file, a))
  }

  ghost predicate ReceiverInv(file: seq<seq<byte>>, w: World) {
    && ContentInv(file, w.cursor, w.r)
    && w.base <= w.acked <= w.r.nbWrited && w.r.lastAcked == w.acked % 256
    && (w.r.lastackToSend == -2 || (w.r.lastackToSend == |file| % 256 && |file| <= w.acked + 30))
  }

  // ---------- The link ----------

  ghost predicate Encodes(file: seq<seq<byte>>, m: Datagram, p: Pkt) {
    Carries(file, m.index, p) && EncodeStatus(p) == PKT_OK && m.bytes == Encoding(p)
  }

  ghost predicate IsData(file: seq<seq<byte>>, m: Datagram) {
    exists p :: Encodes(file, m, p)
  }

  ghost predicate Acknowledges(m: Datagram, reply: Reply) {
    reply.Reply? && reply.ptype == PTYPE_ACK && reply.seqnum == m.index % 256 && reply.window <= 31 &&
    m.bytes == Encoding(reply.Packet())
  }

  ghost predicate IsAck(m: Datagram) {
    exists reply :: Acknowledges(m, reply)
  }

  /** Everything on its way was sent for a chunk in or before the sender's window, or names a
      chunk up to the last one acknowledged; no NACK is ever on its way. */
  ghost predicate LinkInv(file: seq<seq<byte>>, w: World) {
    && (forall m :: m in w.forward ==> m.index < w.base + |w.s.buf| && IsData(file, m))
    && (forall m :: m in w.back ==> m.index <= w.acked && IsAck(m))
  }

  /** The sender takes an EOF for acknowledged only when everything was written. */
  ghost predicate EndInv(file: seq<seq<byte>>, w: World) {
    w.s.eofAcked ==> w.r.nbWrited == |file|
  }

  ghost predicate Inv(file: seq<seq<byte>>, w: World) {
    SenderInv(file, w) && PendingInv(w) && ReceiverInv(file, w) && LinkInv(file, w) && EndInv(file, w)
  }

  lemma InvHoldsAtStart(file: seq<seq<byte>>)
    requires Readable(file)
    ensures Inv(file, START)
  {
  }

  lemma InvRunnable(file: seq<seq<byte>>, w: World)
    requires Inv(file, w)
    ensures Runnable(w)
  {
  }

  // ---------- Reading ----------

  /** The next number is always appended at the tail, across the wrap too. */
  lemma NextGoesLast(s: seq<nat>, q: nat)
    requires q < 256 && (s != [] ==> s[|s| - 1] < 256 && q == (s[|s| - 1] + 1) % 256)
    ensures Place(s, q) == |s|
  {
  }

  lemma CarriesNumber(file: seq<seq<byte>>, a: nat, p: Pkt)
    requires Carries(file, a, p)
    ensures p.seqnum == a % 256
  {
  }

  lemma NextNumber(a: nat)
    ensures (a + 1) % 256 == (a % 256 + 1) % 256
  {
  }

  lemma InsertLast(s: seq<Pkt>, p: Pkt)
    ensures InsertAt(s, |s|, p) == s + [p]
  {
  }

  lemma AppendIsTail(file: seq<seq<byte>>, w: World, p: Pkt)
    requires SenderInv(file, w) && p.seqnum == w.cursor % 256 && !EofRead(w.s)
    ensures Append(w.s, p).buf == w.s.buf + [p]
  {
    hide Carries, Place, InsertAt;
    var n := |w.s.buf|;
    if n > 0 {
      CarriesNumber(file, w.base + n - 1, w.s.buf[n - 1]);
      NextNumber(w.cursor - 1);
    }
    NextGoesLast(Nums(w.s.buf), p.seqnum);
    InsertLast(w.s.buf, p);
  }

  lemma ReadPktCarries(file: seq<seq<byte>>, s: Sender, cursor: nat, prior: Pkt)
    requires Readable(file) && cursor <= |file| && s.seqnum == cursor % 256 && s.window <= MAX_WINDOW
    ensures Carries(file, cursor, ReadPkt(s, NextInput(file, cursor), prior))
  {
    WindowByte(ToByte(s.window));
  }

  /** The sender after a chunk or the EOF was read and appended. */
  lemma ReadStepIs(file: seq<seq<byte>>, w: World, prior: Pkt)
    requires Readable(file) && SenderInv(file, w) && !Full(w.s) && !EofRead(w.s)
    ensures var p, t := ReadPkt(w.s, NextInput(file, w.cursor), prior), OnRead(w.s, NextInput(file, w.cursor), prior);
      && Carries(file, w.cursor, p) && t.buf == w.s.buf + [p]
      && t == (if w.cursor < |file| then w.s.(buf := t.buf, seqnum := (w.cursor + 1) % 256, nbSended := w.cursor + 1)
               else w.s.(buf := t.buf, lastAckToReceive := w.cursor % 256))
  {
    hide Place, Carries, Nums;
    var p := ReadPkt(w.s, NextInput(file, w.cursor), prior);
    ReadPktCarries(file, w.s, w.cursor, prior);
    CarriesNumber(file, w.cursor, p);
    AppendIsTail(file, w, p);
  }

  /** The buffer grows at the tail by what carries the next chunk. */
  lemma GrownBuffer(file: seq<seq<byte>>, base: nat, buf: seq<Pkt>, p: Pkt)
    requires forall i :: 0 <= i < |buf| ==> Carries(file, base + i, buf[i])
    requires Carries(file, base + |buf|, p)
    ensures forall i :: 0 <= i < |buf| + 1 ==> Carries(file, base + i, (buf + [p])[i])
  {
  }

  /** Reading on does not touch what the receiver and the link hold. */
  lemma CursorGrows(file: seq<seq<byte>>, w: World, w': World)
    requires ReceiverInv(file, w) && EndInv(file, w) && w'.r == w.r && w.cursor <= w'.cursor <= |file|
    requires w'.base == w.base && w'.acked == w.acked && w'.s.eofAcked == w.s.eofAcked
    ensures ReceiverInv(file, w') && EndInv(file, w')
  {
  }

  lemma ReadKeepsInv(file: seq<seq<byte>>, w: World, prior: Pkt)
    requires Readable(file) && Inv(file, w) && Enabled(w, Read(prior))
    ensures Inv(file, Apply(file, w, Read(prior)))
  {
    hide Place, Encoding, Carries, Nums, ReadPkt, Append, ContentInv, IsData, IsAck, EndInv;
    InvRunnable(file, w);
    var w' := Apply(file, w, Read(prior));
    if Full(w.s) {
      assert w' == w;
    } else if EofRead(w.s) {
      assert w' == w;
    } else {
      ReadStepIs(file, w, prior);
      GrownBuffer(file, w.base, w.s.buf, ReadPkt(w.s, NextInput(file, w.cursor), prior));
      CursorGrows(file, w, w');
    }
  }

  // ---------- Sending ----------

  /** A step that restamps some packets and may send the one at `k`. */
  ghost predicate Restamps(s: Sender, t: Sender) {
    && |t.buf| == |s.buf|
    && (forall i :: 0 <= i < |s.buf| ==> t.buf[i] == s.buf[i].(timestamp := t.buf[i].timestamp))
    && t == s.(buf := t.buf, ackReceived := t.ackReceived, eofTimeouts := t.eofTimeouts, gaveUp := t.gaveUp)
    && (t.ackReceived == s.ackReceived || t.ackReceived == -1)
  }

  lemma StampKeepsCarries(file: seq<seq<byte>>, a: nat, p: Pkt, now: bv32)
    requires Carries(file, a, p)
    ensures Carries(file, a, p.(timestamp := now))
  {
  }

  lemma RestampKeepsSender(file: seq<seq<byte>>, w: World, t: Sender)
    requires SenderInv(file, w) && Restamps(w.s, t)
    ensures SenderInv(file, w.(s := t))
  {
    hide Carries;
    forall i | 0 <= i < |t.buf|
      ensures Carries(file, w.base + i, t.buf[i])
    {
      StampKeepsCarries(file, w.base + i, w.s.buf[i], t.buf[i].timestamp);
    }
  }

  /** The datagram a step sends is the packet at `k` as it now stands in the buffer. */
  ghost predicate Emits(k: nat, res: (Sender, Option<seq<byte>>)) {
    res.1.Some? ==>
      k < |res.0.buf| && EncodeStatus(res.0.buf[k]) == PKT_OK && res.1.value == Encoding(res.0.buf[k])
  }

  lemma SendKeepsInv(file: seq<seq<byte>>, w: World, k: nat, res: (Sender, Option<seq<byte>>))
    requires Inv(file, w) && Restamps(w.s, res.0) && Emits(k, res)
    ensures Inv(file, Sent(w, k, res))
  {
    hide Carries, Encoding, EncodeStatus, ContentInv, IsAck;
    RestampKeepsSender(file, w, res.0);
    if res.1.Some? {
      var m := Datagram(w.base + k, res.1.value);
      assert Encodes(file, m, res.0.buf[k]);
    }
  }

  lemma SendAtRestamps(s: Sender, k: nat, now: bv32)
    requires k < |s.buf|
    ensures Restamps(s, SendAt(s, k, now).0) && Emits(k, SendAt(s, k, now))
  {
    hide Encoding, EncodeStatus;
  }

  lemma AnswersRestamp(s: Sender, now: bv32)
    ensures CanLookUp(s, s.ackReceived) ==>
      Restamps(s, ResendAcked(s, now).0) && Emits(Position(s, s.ackReceived), ResendAcked(s, now))
    ensures CanLookUp(s, s.pktTr) && s.pktTr == -1 ==>
      Restamps(s, ResendTruncated(s, now).0) && Emits(Position(s, s.pktTr), ResendTruncated(s, now))
  {
    hide Encoding, EncodeStatus, SendAt;
    if CanLookUp(s, s.ackReceived) && s.ackReceived != -1 {
      SendAtRestamps(s, Position(s, s.ackReceived), now);
    }
  }

  lemma RestampsTwice(s: Sender, t: Sender, u: Sender)
    requires Restamps(s, t) && Restamps(t, u)
    ensures Restamps(s, u)
  {
  }

  lemma TimeOutRestamps(s: Sender, scan: nat -> bv32, now: bv32)
    ensures Restamps(s, ResendTimedOut(s, scan, now).0)
    ensures Emits(FirstOverdue(s.buf, scan), ResendTimedOut(s, scan, now))
  {
    hide Encoding, EncodeStatus, SendAt, Scanned, FirstOverdue, Overdue;
    ScanSettles(s.buf, scan);
    var k, t := FirstOverdue(s.buf, scan), s.(buf := Scanned(s.buf, scan));
    assert Restamps(s, t);
    if k < |s.buf| {
      var u := t.(eofTimeouts := if t.buf[k].seqnum == t.lastAckToReceive then t.eofTimeouts + 1 else t.eofTimeouts);
      SendAtRestamps(u, k, now);
      RestampsTwice(s, u, SendAt(u, k, now).0);
    }
  }

  lemma FirstSendRestamps(s: Sender, now: bv32)
    ensures Restamps(s, SendUnsent(s, now).0) && Emits(FirstUnsent(s.buf), SendUnsent(s, now))
  {
    hide Encoding, EncodeStatus, SendAt;
    if FirstUnsent(s.buf) < |s.buf| {
      SendAtRestamps(s, FirstUnsent(s.buf), now);
    }
  }

  lemma SendStepKeepsInv(file: seq<seq<byte>>, w: World, step: Step)
    requires Readable(file) && Inv(file, w) && Enabled(w, step)
    requires step.AnswerAck? || step.AnswerNack? || step.TimeOut? || step.FirstSend?
    ensures Runnable(w) && Inv(file, Apply(file, w, step))
  {
    hide Carries, Encoding, EncodeStatus, ContentInv, IsAck, IsData, SendAt, ResendTimedOut, ResendAcked;
    hide ResendTruncated, SendUnsent, Restamps, Sent, CanLookUp, Position;
    InvRunnable(file, w);
    match step
    case AnswerAck(now) =>
      AnswersRestamp(w.s, now);
      SendKeepsInv(file, w, Position(w.s, w.s.ackReceived), ResendAcked(w.s, now));
    case AnswerNack(now) =>
      AnswersRestamp(w.s, now);
      SendKeepsInv(file, w, Position(w.s, w.s.pktTr), ResendTruncated(w.s, now));
    case TimeOut(scan, now) =>
      TimeOutRestamps(w.s, scan, now);
      SendKeepsInv(file, w, FirstOverdue(w.s.buf, scan), ResendTimedOut(w.s, scan, now));
    case FirstSend(now) =>
      FirstSendRestamps(w.s, now);
      SendKeepsInv(file, w, FirstUnsent(w.s.buf), SendUnsent(w.s, now));
  }

  // ---------- The receiver ----------

  lemma ModUnique(x: int, k: int, r: int)
    requires 0 <= r < 256 && x == 256 * k + r
    ensures x % 256 == r
  {
  }

  /** The number of a chunk less than 256 ahead. */
  lemma NumberAhead(b: nat, q: nat)
    requires q < 256
    ensures (b + Ahead(b % 256, q)) % 256 == q
  {
    ModUnique(b + Ahead(b % 256, q), if q >= b % 256 then b / 256 else b / 256 + 1, q);
  }

  /** The offset of a number is the distance of its chunk, modulo 256. */
  lemma OffsetIsDistance(n: nat, a: nat)
    ensures Offset(if n == 0 then -1 else (n - 1) % 256, a % 256) == (a - n) % 256
  {
    var l := if n == 0 then -1 else (n - 1) % 256;
    var k := a / 256 - (if n == 0 then 0 else (n - 1) / 256);
    assert a - n == 256 * k + a % 256 - l - 1;
    ModUnique(a - n, if a % 256 > l then k else k - 1, Offset(l, a % 256));
  }

  /** Below the lifetime limit and within the window a number tells its chunk: what the receiver
      takes as ahead is ahead, by as much as the number says. */
  lemma NumberTellsIndex(r: Receiver, a: nat)
    requires r.lastWrited == (if r.nbWrited == 0 then -1 else (r.nbWrited - 1) % 256)
    requires r.nbWrited - a <= LIFETIME && a <= r.nbWrited + 30
    ensures Offset(r.lastWrited, a % 256) < MAX_WINDOW <==> r.nbWrited <= a
    ensures r.nbWrited <= a ==> IndexOf(r, a % 256) == a
  {
    hide Offset;
    OffsetIsDistance(r.nbWrited, a);
  }

  lemma JoinedNext(file: seq<seq<byte>>, n: nat)
    requires n < |file|
    ensures Joined(file[..n + 1]) == Joined(file[..n]) + file[n]
  {
    assert file[..n + 1][..n] == file[..n];
  }

  lemma HeadCarries(file: seq<seq<byte>>, n: nat, p: Pkt)
    requires n < |file| && Carries(file, n, p)
    ensures p.Data() == file[n]
  {
  }

  lemma WriteKeepsContent(file: seq<seq<byte>>, cursor: nat, r: Receiver)
    requires ContentInv(file, cursor, r) && HeadDue(r)
    ensures ContentInv(file, cursor, WriteHead(r))
  {
    hide Carries;
    var r', n := WriteHead(r), r.nbWrited;
    WriteKeepsSound(r);
    HeadCarries(file, n, r.buf[0]);
    JoinedNext(file, n);
    forall i | 0 <= i < |r'.buf|
      ensures IndexOf(r', r'.buf[i].seqnum) == IndexOf(r, r.buf[i + 1].seqnum)
    {
      assert r'.buf[i] == r.buf[i + 1] && r.buf[0].seqnum != r.buf[i + 1].seqnum;
    }
  }

  lemma {:induction false} DrainKeepsContent(file: seq<seq<byte>>, cursor: nat, r: Receiver, writable: nat)
    requires ContentInv(file, cursor, r)
    ensures ContentInv(file, cursor, Drain(r, writable))
    ensures Drain(r, writable).nbWrited >= r.nbWrited
    decreases |r.buf|
  {
    hide ContentInv;
    if HeadDue(r) && writable > 0 {
      WriteKeepsContent(file, cursor, r);
      DrainKeepsContent(file, cursor, WriteHead(r), writable - 1);
    }
  }

  lemma EnqueueKeepsContent(file: seq<seq<byte>>, cursor: nat, r: Receiver, a: nat, p: Pkt)
    requires ContentInv(file, cursor, r) && Carries(file, a, p) && Encodable(file, a) && a < cursor
    requires p.seqnum !in Nums(r.buf) && InWindow(r.lastWrited, p.seqnum)
    requires r.nbWrited - a <= LIFETIME && a <= r.nbWrited + 30
    ensures ContentInv(file, cursor, Enqueued(r, p))
  {
    hide Carries, Encodable, Place, Offset, InWindow, Joined;
    CarriesNumber(file, a, p);
    EnqueueKeepsSound(r, p);
    InWindowIsAhead(r.lastWrited, p.seqnum);
    NumberTellsIndex(r, a);
    var k, t := Place(Nums(r.buf), p.seqnum), Enqueued(r, p).buf;
    forall i | 0 <= i < |t|
      ensures var b := IndexOf(r, t[i].seqnum); b < cursor && Carries(file, b, t[i]) && Encodable(file, b)
    {
      assert t[i] == if i < k then r.buf[i] else if i == k then p else r.buf[i - 1];
    }
  }

  lemma ContentIgnores(file: seq<seq<byte>>, cursor: nat, r: Receiver, s: Receiver)
    requires ContentInv(file, cursor, r)
    requires s.buf == r.buf && s.lastWrited == r.lastWrited && s.nbWrited == r.nbWrited && s.out == r.out
    ensures ContentInv(file, cursor, s)
  {
    hide Carries;
  }

  // ---------- DATA arrives ----------

  lemma CarriedIsSendable(file: seq<seq<byte>>, a: nat, p: Pkt)
    requires Readable(file) && Carries(file, a, p) && EncodeStatus(p) == PKT_OK
    ensures Sendable(p) && 10 <= |Encoding(p)| <= MAX_PKT_SIZE
  {
    hide Crc, BigEndian, LittleEndian, Head, ToByte;
  }

  lemma SameMessageCarries(file: seq<seq<byte>>, a: nat, p: Pkt, q: Pkt)
    requires Readable(file) && Carries(file, a, p) && q.SameMessage(p)
    requires q.payload.Some? ==> q.length <= |q.payload.value|
    ensures Carries(file, a, q)
  {
  }

  lemma DecodedPayloadFits(d: seq<byte>, len: int)
    requires Covers(d, len)
    ensures var q := Decode(d, len, ZERO).1; q.payload.Some? ==> q.length <= |q.payload.value|
  {
    hide FromBigEndian, FromLittleEndian, Crc, Val, TypeOf, TrOf, WindowOf, Pair;
  }

  lemma SentIsEncodable(file: seq<seq<byte>>, a: nat, p: Pkt)
    requires Readable(file) && Carries(file, a, p) && EncodeStatus(p) == PKT_OK
    ensures Encodable(file, a)
  {
  }

  lemma CarriesType(file: seq<seq<byte>>, a: nat, p: Pkt)
    requires Carries(file, a, p)
    ensures p.ptype == PTYPE_DATA && p.tr == 0
    ensures p.length == 0 && Readable(file) ==> a == |file|
    ensures p.length != 0 ==> a < |file|
  {
  }

  /** An unaltered datagram brings its chunk, an altered one is no DATA. */
  lemma ArrivesAsSent(file: seq<seq<byte>>, t: Transit)
    requires Readable(file) && IsData(file, t.msg) && t.Possible() && t.Fits()
    ensures var (st, q) := Decode(t.buffer, |t.Arrived()|, ZERO);
      if t.alteration.Intact? then st == PKT_OK && Carries(file, t.msg.index, q) && Encodable(file, t.msg.index)
      else st != PKT_OK || q.ptype != PTYPE_DATA
  {
    hide Carries, Decode, Encoding, EncodeStatus, Sendable, Encodable;
    var p :| Encodes(file, t.msg, p);
    CarriedIsSendable(file, t.msg.index, p);
    SentIsEncodable(file, t.msg.index, p);
    CarriesType(file, t.msg.index, p);
    if t.alteration.Intact? {
      DecodeUndoesEncode(p, t.buffer, |t.Arrived()|, ZERO);
      DecodedPayloadFits(t.buffer, |t.Arrived()|);
      SameMessageCarries(file, t.msg.index, p, Decode(t.buffer, |t.Arrived()|, ZERO).1);
    } else {
      AlteredIsRejected(p, t.alteration, t.buffer, |t.Arrived()|, ZERO);
    }
  }

  lemma StoreKeepsContent(file: seq<seq<byte>>, cursor: nat, r: Receiver, a: nat, q: Pkt, env: Surroundings)
    requires ContentInv(file, cursor, r) && Carries(file, a, q) && Encodable(file, a) && a < cursor
    requires q.seqnum !in Nums(r.buf) && InWindow(r.lastWrited, q.seqnum)
    requires r.nbWrited - a <= LIFETIME && a <= r.nbWrited + 30
    ensures var s := Store(r, q, env);
      ContentInv(file, cursor, s) && s.nbWrited >= r.nbWrited &&
      s.lastAcked == r.lastAcked && s.lastackToSend == r.lastackToSend
  {
    hide Carries, Nums, InWindow, ContentInv, Drain, Place;
    EnqueueKeepsContent(file, cursor, r, a, q);
    var e := Enqueued(r, q);
    var s := e.(timeLastData := env.now);
    ContentIgnores(file, cursor, e, s);
    DrainKeepsContent(file, cursor, s, env.writable);
    DrainLeavesTheRest(s, env.writable);
  }

  /** The receiver's content after a datagram that either carries chunk `a` or is refused. */
  lemma AbsorbKeepsContent(
      file: seq<seq<byte>>, cursor: nat, r: Receiver, a: nat, st: Status, q: Pkt, env: Surroundings)
    requires Readable(file) && ContentInv(file, cursor, r)
    requires (st == PKT_OK && q.ptype == PTYPE_DATA) ==>
      Carries(file, a, q) && Encodable(file, a) && (a < |file| ==> a < cursor) &&
      r.nbWrited - a <= LIFETIME && a <= r.nbWrited + 30
    ensures var s := Absorb(r, st, q, env);
      && ContentInv(file, cursor, s) && s.nbWrited >= r.nbWrited && s.lastAcked == r.lastAcked
      && (s.lastackToSend == r.lastackToSend || (a == |file| && s.lastackToSend == |file| % 256))
    ensures !Judge(r, st, q).Truncated?
  {
    hide Carries, Store, Nums, InWindow, ContentInv;
    AbsorbIs(r, st, q, env);
    var counted := r.(accumulated := r.accumulated + 1);
    ContentIgnores(file, cursor, r, counted);
    ContentIgnores(file, cursor, r, counted.(lastackToSend := q.seqnum));
    if st == PKT_OK && q.ptype == PTYPE_DATA {
      CarriesType(file, a, q);
      CarriesNumber(file, a, q);
      if Judge(r, st, q).Data? {
        StoreKeepsContent(file, cursor, counted, a, q, env);
      }
    }
  }

  /** What is put on the wire is an ACK that names the next chunk. */
  lemma AckNamesNext(s: Receiver, v: Verdict, q: Pkt, env: Surroundings)
    requires Sound(s) && !v.Truncated?
    ensures var (r, reply) := ReceiverSpec.Acknowledge(s, v, q, env);
      && r == s.(accumulated := r.accumulated, lastAcked := r.lastAcked)
      && (if reply.NoReply? then r.lastAcked == s.lastAcked
          else reply.ptype == PTYPE_ACK && reply.seqnum == s.nbWrited % 256 &&
               r.lastAcked == s.nbWrited % 256 && reply.window <= 31)
  {
    hide ToByte;
    BufferFitsWindow(s);
    WindowByte(ToByte(MAX_WINDOW - |s.buf|));
  }

  /** The window bounds the index of everything the sender ever sent. */
  lemma SentIsInWindow(file: seq<seq<byte>>, w: World, m: Datagram)
    requires SenderInv(file, w) && ReceiverInv(file, w) && LinkInv(file, w) && m in w.forward
    ensures m.index <= w.base + 30 && m.index <= w.r.nbWrited + 30
    ensures m.index < |file| ==> m.index < w.cursor
  {
    hide Carries, IsData, IsAck, Sound;
  }

  lemma ContentIsSound(file: seq<seq<byte>>, cursor: nat, r: Receiver)
    requires ContentInv(file, cursor, r)
    ensures Sound(r) && r.nbWrited <= cursor <= |file|
  {
  }

  lemma ReceivedKeepsReceiver(file: seq<seq<byte>>, w: World, t: Transit, env: Surroundings)
    requires Readable(file) && Inv(file, w) && Enabled(w, DeliverData(t, env)) && Runnable(w)
    ensures var w' := Received(w, t, env);
      && ReceiverInv(file, w') && w'.r.nbWrited >= w.r.nbWrited && w'.acked >= w.acked
      && (w'.back == w.back || exists m :: w'.back == w.back + {m} && m.index <= w'.acked && IsAck(m))
  {
    hide Carries, Decode, Encoding, ContentInv, Sound, IsData, ReceiverSpec.Acknowledge, Absorb, Judge;
    ArrivesAsSent(file, t);
    var (st, q) := Decode(t.buffer, |t.Arrived()|, ZERO);
    var a := t.msg.index;
    SentIsInWindow(file, w, t.msg);
    if st == PKT_OK && q.ptype == PTYPE_DATA {
      assert Carries(file, a, q);
    }
    AbsorbKeepsContent(file, w.cursor, w.r, a, st, q, env);
    var s, v := Absorb(w.r, st, q, env), Judge(w.r, st, q);
    ContentIsSound(file, w.cursor, s);
    AckNamesNext(s, v, q, env);
    var (r, reply) := OnDatagram(w.r, st, q, env);
    ContentIgnores(file, w.cursor, s, r);
    if reply.Reply? {
      var m := Datagram(r.nbWrited, Encoding(reply.Packet()));
      assert Acknowledges(m, reply);
      assert Received(w, t, env).back == w.back + {m};
    }
  }

  lemma ReceivedKeepsInv(file: seq<seq<byte>>, w: World, t: Transit, env: Surroundings)
    requires Readable(file) && Inv(file, w) && Enabled(w, DeliverData(t, env)) && Runnable(w)
    ensures Inv(file, Received(w, t, env))
  {
    hide Carries, Decode, Encoding, Sound, IsData, IsAck, OnDatagram;
    ReceivedKeepsReceiver(file, w, t, env);
  }

  // ---------- An acknowledgement arrives ----------

  lemma AckIsSendable(m: Datagram, reply: Reply)
    requires Acknowledges(m, reply)
    ensures Sendable(reply.Packet()) && reply.Packet().ptype == PTYPE_ACK && |m.bytes| == 10
  {
    hide Crc, BigEndian, LittleEndian, Head, ToByte;
    ShortEncoding(reply.Packet(), reply.Packet());
  }

  /** An unaltered acknowledgement names its index, an altered one is ignored. */
  lemma AckArrivesAsSent(t: Transit)
    requires IsAck(t.msg) && t.Possible() && t.Fits()
    ensures var (st, q) := Decode(t.buffer, |t.Arrived()|, ZERO);
      if t.alteration.Intact? then
        st == PKT_OK && q.ptype == PTYPE_ACK && q.seqnum == t.msg.index % 256 && q.window <= 31
      else st != PKT_OK || q.ptype == PTYPE_DATA
  {
    hide Decode, Encoding, EncodeStatus, Sendable;
    var reply :| Acknowledges(t.msg, reply);
    AckIsSendable(t.msg, reply);
    if t.alteration.Intact? {
      DecodeUndoesEncode(reply.Packet(), t.buffer, |t.Arrived()|, ZERO);
    } else {
      AlteredAckIsNoAck(reply.Packet(), t.alteration, t.buffer, |t.Arrived()|, ZERO);
    }
  }

  lemma SameResidue(x: int, y: int)
    requires x % 256 == y % 256 && -256 < x - y < 256
    ensures x == y
  {
  }

  /** The number of the packet at position `i` of the sender's buffer. */
  lemma NumbersAre(file: seq<seq<byte>>, w: World, i: nat)
    requires SenderInv(file, w) && i < |w.s.buf|
    ensures Nums(w.s.buf)[i] == (w.base + i) % 256
  {
    hide Carries;
    CarriesNumber(file, w.base + i, w.s.buf[i]);
  }

  /** A number that is found names the chunk it is found at. */
  lemma FoundAt(file: seq<seq<byte>>, w: World, index: nat, i: nat)
    requires SenderInv(file, w) && i < |w.s.buf| && Nums(w.s.buf)[i] == index % 256
    requires w.base - index <= LIFETIME && index <= w.base + |w.s.buf|
    ensures w.base + i == index
  {
    hide Carries;
    NumbersAre(file, w, i);
    SameResidue(w.base + i, index);
  }

  /** Below the lifetime limit a chunk's number is found exactly when the chunk is in the window. */
  lemma LookUpByIndex(file: seq<seq<byte>>, w: World, index: nat)
    requires SenderInv(file, w)
    requires w.base - index <= LIFETIME && index <= w.base + |w.s.buf|
    ensures CanLookUp(w.s, index % 256) <==> w.base <= index < w.base + |w.s.buf|
  {
    hide Carries;
    var q := index % 256;
    if w.base <= index < w.base + |w.s.buf| {
      NumbersAre(file, w, index - w.base);
    }
    if q in Nums(w.s.buf) {
      var i :| 0 <= i < |w.s.buf| && Nums(w.s.buf)[i] == q;
      FoundAt(file, w, index, i);
    }
  }

  /** How many packets an ACK for this chunk drops. */
  lemma AckedIs(file: seq<seq<byte>>, w: World, index: nat)
    requires SenderInv(file, w)
    requires w.base - index <= LIFETIME && index <= w.base + |w.s.buf|
    ensures Acked(w.s, index % 256) == if w.base <= index < w.base + |w.s.buf| then index - w.base else 0
  {
    hide Carries;
    LookUpByIndex(file, w, index);
    if index % 256 in Nums(w.s.buf) {
      FoundAt(file, w, index, Find(Nums(w.s.buf), index % 256));
    }
  }

  /** Below the lifetime limit the number of an acknowledgement tells which buffered packet it
      names, if any. */
  lemma AckedTellsIndex(file: seq<seq<byte>>, w: World, index: nat)
    requires SenderInv(file, w) && ReceiverInv(file, w)
    requires index <= w.acked && w.base - index <= LIFETIME
    ensures Acked(w.s, index % 256) == if w.base <= index < w.base + |w.s.buf| then index - w.base else 0
    ensures EofRead(w.s) && index % 256 == w.s.lastAckToReceive ==> index == |file|
  {
    hide Carries, Sound, Acked, Offset;
    assert index <= w.r.nbWrited <= w.cursor <= w.base + |w.s.buf|;
    AckedIs(file, w, index);
    if EofRead(w.s) && index % 256 == w.s.lastAckToReceive {
      SameResidue(|file|, index);
    }
  }

  lemma CumulativeKeepsSender(file: seq<seq<byte>>, w: World, index: nat, window: bv8)
    requires SenderInv(file, w) && ReceiverInv(file, w) && window <= 31
    requires index <= w.acked && w.base - index <= LIFETIME
    ensures var s, k := Cumulative(w.s, index % 256, window), Acked(w.s, index % 256);
      && s.buf == w.s.buf[k..] && w.base + k <= w.acked
      && (s.ackReceived != -1 ==> k == 0 && s.ackReceived == index % 256) && s.window == Val(window)
      && SenderInv(file, w.(s := s, base := w.base + k))
      && (s.eofAcked ==> w.s.eofAcked || (EofRead(w.s) && index % 256 == w.s.lastAckToReceive))
  {
    hide Carries, Sound, Val, Acked;
    WindowByte(window);
    AckedTellsIndex(file, w, index);
  }

  /** With the EOF read the buffer holds it, so the number of the EOF names the end of the file. */
  lemma CumulativeKeepsRest(file: seq<seq<byte>>, w: World, index: nat, window: bv8)
    requires Inv(file, w) && window <= 31
    requires index <= w.acked && w.base - index <= LIFETIME
    ensures EofRead(w.s) && index % 256 == w.s.lastAckToReceive ==> w.r.nbWrited == |file|
  {
    hide Carries, Sound, IsData, IsAck, Acked;
    AckedTellsIndex(file, w, index);
    assert w.r.nbWrited <= w.cursor <= |file|;
  }

  lemma HeardKeepsInv(file: seq<seq<byte>>, w: World, t: Transit)
    requires Readable(file) && Inv(file, w) && Enabled(w, DeliverAck(t))
    ensures Inv(file, Heard(w, t))
  {
    hide Carries, Decode, Encoding, Sound, IsData, IsAck, Acked, Cumulative, ContentInv;
    AckArrivesAsSent(t);
    var (st, q) := Decode(t.buffer, |t.Arrived()|, ZERO);
    if t.alteration.Intact? && Plausible(w.s, q.seqnum) {
      CumulativeKeepsSender(file, w, t.msg.index, q.window);
      AckedTellsIndex(file, w, t.msg.index);
      CumulativeKeepsRest(file, w, t.msg.index, q.window);
    } else {
      assert OnAck(w.s, st, q) == w.s;
    }
  }

  // ---------- Every step, every run ----------

  lemma StepKeepsInv(file: seq<seq<byte>>, w: World, step: Step)
    requires Readable(file) && Inv(file, w) && Enabled(w, step)
    ensures Runnable(w) && Inv(file, Apply(file, w, step))
  {
    hide Inv, Received, Heard, Sent;
    InvRunnable(file, w);
    match step
    case Read(prior) => ReadKeepsInv(file, w, prior);
    case ReadFails => assert Apply(file, w, step) == w;
    case DeliverData(t, env) => ReceivedKeepsInv(file, w, t, env);
    case DeliverAck(t) => HeardKeepsInv(file, w, t);
    case _ => SendStepKeepsInv(file, w, step);
  }

  lemma {:induction false} RunKeepsInv(file: seq<seq<byte>>, w: World, steps: seq<Step>)
    requires Readable(file) && Inv(file, w) && Legal(file, w, steps)
    ensures Inv(file, Run(file, w, steps))
    decreases |steps|
  {
    hide Inv, Apply, Enabled;
    if steps != [] {
      StepKeepsInv(file, w, steps[0]);
      RunKeepsInv(file, Apply(file, w, steps[0]), steps[1..]);
    }
  }
}
