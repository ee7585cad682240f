/** The receiver of src/receiver.c as functions on its globals and its buffer, and what every
    datagram, from anyone, leaves true of them. */
module ReceiverSpec {
  import opened Crc32
  import opened Wire
  import opened RingSpec

  const MAX_WINDOW := 31

  /** The number behind `n`, also for the -1 that stands for nothing written. */
  function Successor(n: int): (s: SeqNum) {
    (n + 1) % 256
  }

  lemma SuccessorDiffers(n: int)
    ensures Successor(n) != n
  {
  }

  /** The globals, the buffer, the loop's counter and the output file. */
  datatype Receiver = Receiver(
    lastWrited: int, nbWrited: nat, lastAcked: int, lastackToSend: int, timeLastData: bv32,
    buf: seq<Pkt>, accumulated: nat, out: seq<byte>)
  {
    /** The number of the packet that is written next. */
    function Expected(): SeqNum {
      Successor(lastWrited)
    }

    /** The receive loop has ended. */
    predicate Done() {
      lastAcked == lastackToSend
    }
  }

  const INITIAL := Receiver(-1, 0, 0, -2, 0, [], 0, [])

  /** What the surroundings decide about one datagram: the clock, whether enough time has passed
      since the last acknowledgement, how many calls of write succeed before one fails, and whether
      send succeeds. */
  datatype Surroundings = Surroundings(now: bv32, late: bool, writable: nat, sendOk: bool)

  datatype Reply = NoReply | Reply(ptype: bv8, seqnum: SeqNum, window: bv8, timestamp: bv32)
  {
    /** The packet send_ack builds. */
    function Packet(): Pkt {
      if NoReply? then ZERO
      else ZERO.(ptype := ptype, seqnum := seqnum, window := window, timestamp := timestamp, payload := Some([]))
    }
  }

  /** An ACK or NACK carries its type, window, number and timestamp and nothing else. */
  lemma ShortEncoding(p: Pkt, q: Pkt)
    requires p.ptype == q.ptype != PTYPE_DATA && p.tr == q.tr && p.window == q.window
    requires p.seqnum == q.seqnum && p.timestamp == q.timestamp
    ensures Encoding(p) == Encoding(q) && |Encoding(p)| == 10
  {
  }

  /** The datagrams a reply puts on the wire. */
  function Wired(reply: Reply): seq<seq<byte>> {
    if reply.NoReply? then [] else [Encoding(reply.Packet())]
  }

  /** is_in_window, for the full window of 31. */
  predicate InWindow(lastWrited: int, seqnum: nat) {
    if seqnum == lastWrited then false
    else if seqnum < lastWrited then seqnum + 256 - lastWrited <= MAX_WINDOW
    else seqnum - lastWrited < MAX_WINDOW
  }

  /** The head of the buffer is the packet expected next. */
  predicate HeadDue(r: Receiver) {
    r.buf != [] && r.buf[0].seqnum == r.Expected()
  }

  function WriteHead(r: Receiver): Receiver
    requires r.buf != []
  {
    r.(lastWrited := r.buf[0].seqnum, nbWrited := r.nbWrited + 1, buf := r.buf[1..],
       out := r.out + r.buf[0].Data())
  }

  /** write_buffer_to_file when the next `writable` writes succeed. */
  function Drain(r: Receiver, writable: nat): Receiver
    decreases |r.buf|
  {
    if HeadDue(r) && writable > 0 then Drain(WriteHead(r), writable - 1) else r
  }

  /** `window - buffer->size` as the byte pkt_set_window is given. */
  function Advertised(r: Receiver): bv8
    requires |r.buf| <= MAX_WINDOW
  {
    ToByte(MAX_WINDOW - |r.buf|)
  }

  /** buffer_enqueue */
  function Enqueued(r: Receiver, p: Pkt): Receiver {
    r.(buf := InsertAt(r.buf, Place(Nums(r.buf), p.seqnum), p))
  }

  /** buffer_enqueue and the writes that follow it. */
  function Store(r: Receiver, p: Pkt, env: Surroundings): Receiver {
    Drain(Enqueued(r, p).(timeLastData := env.now), env.writable)
  }

  /** How a decoded datagram is taken. */
  datatype Verdict = Refused | Duplicate | Outside | Truncated | Eof | Data

  function Judge(r: Receiver, st: Status, p: Pkt): Verdict {
    if st != PKT_OK || p.ptype != PTYPE_DATA then Refused
    else if p.seqnum in Nums(r.buf) then Duplicate
    else if !InWindow(r.lastWrited, p.seqnum) then Outside
    else if p.tr == 1 then Truncated
    else if p.length == 0 then Eof
    else Data
  }

  /** The state when the acknowledgement is considered. */
  function Absorb(r: Receiver, st: Status, p: Pkt, env: Surroundings): Receiver {
    var counted := r.(accumulated := r.accumulated + 1);
    match Judge(r, st, p)
    case Eof => counted.(lastackToSend := p.seqnum)
    case Data => Store(counted, p, env)
    case _ => counted
  }

  lemma AbsorbIs(r: Receiver, st: Status, p: Pkt, env: Surroundings)
    ensures var counted := r.(accumulated := r.accumulated + 1);
      Absorb(r, st, p, env) ==
        if Judge(r, st, p).Eof? then counted.(lastackToSend := p.seqnum)
        else if Judge(r, st, p).Data? then Store(counted, p, env) else counted
  {
  }

  /** An acknowledgement is due. */
  predicate AckDue(r: Receiver, v: Verdict, late: bool) {
    late || r.accumulated >= MAX_WINDOW / 4 || v.Refused? || v.Duplicate? || v.Eof? || r.nbWrited == 1
  }

  // ---------- What every datagram keeps ----------

  /** How far a number lies ahead of the one expected next. */
  function Offset(lastWrited: int, seqnum: nat): (d: int)
    requires -1 <= lastWrited < 256 && seqnum < 256
    ensures 0 <= d < 256
  {
    if seqnum > lastWrited then seqnum - lastWrited - 1 else seqnum - lastWrited + 255
  }

  /** last_writed is the number of the chunk written last; the buffered numbers are distinct and
      among the 31 that may come next. */
  ghost predicate Sound(r: Receiver) {
    && r.lastWrited == (if r.nbWrited == 0 then -1 else (r.nbWrited - 1) % 256)
    && (forall i :: 0 <= i < |r.buf| ==> Offset(r.lastWrited, r.buf[i].seqnum) < MAX_WINDOW)
    && (forall i, j :: 0 <= i < j < |r.buf| ==> r.buf[i].seqnum != r.buf[j].seqnum)
  }

  lemma SoundBounds(r: Receiver)
    requires Sound(r)
    ensures -1 <= r.lastWrited < 256
  {
  }

  /** Soundness looks at the buffer and at what was written. */
  lemma SoundIgnores(r: Receiver, s: Receiver)
    requires s.buf == r.buf && s.lastWrited == r.lastWrited && s.nbWrited == r.nbWrited
    ensures Sound(r) <==> Sound(s)
  {
  }

  lemma InWindowIsAhead(lastWrited: int, seqnum: nat)
    requires -1 <= lastWrited < 256 && seqnum < 256
    ensures InWindow(lastWrited, seqnum) <==>
      Offset(lastWrited, seqnum) < 30 || (Offset(lastWrited, seqnum) == 30 && seqnum < lastWrited)
  {
  }

  /** Distinct numbers below `n` are at most `n` many. */
  lemma {:induction false} Pigeonhole(s: seq<int>, n: nat)
    requires forall i :: 0 <= i < |s| ==> 0 <= s[i] < n
    requires forall i, j :: 0 <= i < j < |s| ==> s[i] != s[j]
    ensures |s| <= n
  {
    if n == 0 {
      assert s == [];
    } else if n - 1 in s {
      var k :| 0 <= k < |s| && s[k] == n - 1;
      var t := RemoveAt(s, k);
      forall i | 0 <= i < |t|
        ensures t[i] == (if i < k then s[i] else s[i + 1]) && t[i] < n - 1
      {
        assert s[if i < k then i else i + 1] != s[k];
      }
      Pigeonhole(t, n - 1);
    } else {
      Pigeonhole(s, n - 1);
    }
  }

  /** The window that is advertised never leaves the range of pkt_set_window. */
  lemma BufferFitsWindow(r: Receiver)
    requires Sound(r)
    ensures |r.buf| <= MAX_WINDOW
  {
    var s := seq(|r.buf|, i requires 0 <= i < |r.buf| => Offset(r.lastWrited, r.buf[i].seqnum));
    forall i, j | 0 <= i < j < |s|
      ensures s[i] != s[j]
    {
      assert r.buf[i].seqnum != r.buf[j].seqnum;
    }
    Pigeonhole(s, MAX_WINDOW);
  }

  lemma InsertKeepsDistinct(buf: seq<Pkt>, k: nat, p: Pkt)
    requires k <= |buf| && p.seqnum !in Nums(buf)
    requires forall i, j :: 0 <= i < j < |buf| ==> buf[i].seqnum != buf[j].seqnum
    ensures var t := InsertAt(buf, k, p);
      && (forall i :: 0 <= i < |t| ==> t[i] == if i < k then buf[i] else if i == k then p else buf[i - 1])
      && (forall i, j :: 0 <= i < j < |t| ==> t[i].seqnum != t[j].seqnum)
  {
    assert forall i :: 0 <= i < |buf| ==> Nums(buf)[i] != p.seqnum;
  }

  lemma EnqueueKeepsSound(r: Receiver, p: Pkt)
    requires Sound(r) && p.seqnum !in Nums(r.buf) && InWindow(r.lastWrited, p.seqnum)
    ensures Sound(Enqueued(r, p))
  {
    hide Place, Offset, InWindow;
    InWindowIsAhead(r.lastWrited, p.seqnum);
    var k := Place(Nums(r.buf), p.seqnum);
    var t := InsertAt(r.buf, k, p);
    InsertKeepsDistinct(r.buf, k, p);
    forall i | 0 <= i < |t|
      ensures Offset(r.lastWrited, t[i].seqnum) < MAX_WINDOW
    {
      assert t[i] == if i < k then r.buf[i] else if i == k then p else r.buf[i - 1];
    }
  }

  /** When the expected number was written, every other one is one step nearer. */
  lemma OneNearer(lastWrited: int, seqnum: nat)
    requires -1 <= lastWrited < 256 && seqnum < 256 && seqnum != Successor(lastWrited)
    ensures Offset(Successor(lastWrited), seqnum) == Offset(lastWrited, seqnum) - 1
  {
  }

  lemma NextLast(n: nat)
    ensures Successor(if n == 0 then -1 else (n - 1) % 256) == n % 256
  {
  }

  lemma WriteKeepsSound(r: Receiver)
    requires Sound(r) && HeadDue(r)
    ensures Sound(WriteHead(r))
  {
    hide Offset, Successor;
    var r' := WriteHead(r);
    NextLast(r.nbWrited);
    forall i | 0 <= i < |r'.buf|
      ensures Offset(r'.lastWrited, r'.buf[i].seqnum) < MAX_WINDOW
    {
      assert r'.buf[i] == r.buf[i + 1] && r.buf[0].seqnum != r.buf[i + 1].seqnum;
      OneNearer(r.lastWrited, r.buf[i + 1].seqnum);
    }
  }

  lemma HeadIsGone(r: Receiver)
    requires r.buf != []
    ensures WriteHead(r).buf == r.buf[1..]
  {
  }

  lemma {:induction false} DrainKeepsSound(r: Receiver, writable: nat)
    requires Sound(r)
    ensures Sound(Drain(r, writable))
    decreases |r.buf|
  {
    hide Sound, WriteHead;
    if HeadDue(r) && writable > 0 {
      WriteKeepsSound(r);
      assert |WriteHead(r).buf| < |r.buf| by {
        HeadIsGone(r);
      }
      DrainKeepsSound(WriteHead(r), writable - 1);
    }
  }

  /** The writes touch nothing but what was written and the buffer. */
  lemma {:induction false} DrainLeavesTheRest(r: Receiver, writable: nat)
    ensures var d := Drain(r, writable);
      d == r.(lastWrited := d.lastWrited, nbWrited := d.nbWrited, buf := d.buf, out := d.out)
    decreases |r.buf|
  {
    if HeadDue(r) && writable > 0 {
      DrainLeavesTheRest(WriteHead(r), writable - 1);
    }
  }

  lemma AbsorbKeepsSound(r: Receiver, st: Status, p: Pkt, env: Surroundings)
    requires Sound(r)
    ensures Sound(Absorb(r, st, p, env))
  {
    hide Drain, Place, InWindow;
    if Judge(r, st, p).Data? {
      var counted := r.(accumulated := r.accumulated + 1);
      EnqueueKeepsSound(counted, p);
      DrainKeepsSound(Enqueued(counted, p).(timeLastData := env.now), env.writable);
    }
  }

  // ---------- One datagram ----------

  /** What is put on the wire after a datagram with this verdict, and what that records. */
  function Acknowledge(s: Receiver, v: Verdict, p: Pkt, env: Surroundings): (Receiver, Reply)
    requires Sound(s)
  {
    BufferFitsWindow(s);
    if v.Truncated? then
      (s, if env.sendOk then Reply(PTYPE_NACK, p.seqnum, Advertised(s), s.timeLastData) else NoReply)
    else if !AckDue(s, v, env.late) then (s, NoReply)
    else if env.sendOk then
      (s.(accumulated := 0, lastAcked := s.Expected()),
       Reply(PTYPE_ACK, s.Expected(), Advertised(s), s.timeLastData))
    else (s.(accumulated := 0), NoReply)
  }

  lemma AcknowledgeIs(s: Receiver, v: Verdict, p: Pkt, env: Surroundings)
    requires Sound(s)
    ensures var t := Acknowledge(s, v, p, env).0;
      t == s.(accumulated := t.accumulated, lastAcked := t.lastAcked) && Sound(t)
  {
  }

  /** The receiver after one datagram, and what it put on the wire. */
  function OnDatagram(r: Receiver, st: Status, p: Pkt, env: Surroundings): (res: (Receiver, Reply))
    requires Sound(r)
    ensures Sound(res.0)
  {
    AbsorbKeepsSound(r, st, p, env);
    Acknowledge(Absorb(r, st, p, env), Judge(r, st, p), p, env)
  }

  lemma OnDatagramIs(r: Receiver, st: Status, p: Pkt, env: Surroundings)
    requires Sound(r)
    ensures Sound(Absorb(r, st, p, env))
    ensures OnDatagram(r, st, p, env) == Acknowledge(Absorb(r, st, p, env), Judge(r, st, p), p, env)
  {
    AbsorbKeepsSound(r, st, p, env);
  }

  /** What pkt_new left in the packet never shows: a datagram that is too short or too long for
      pkt_decode to clear the packet is refused. */
  lemma RefusedIgnoresPacket(r: Receiver, d: seq<byte>, len: int, prior: Pkt, env: Surroundings)
    requires Sound(r) && Covers(d, len)
    ensures var (st, p) := Decode(d, len, prior);
      var (st', p') := Decode(d, len, ZERO);
      OnDatagram(r, st, p, env) == OnDatagram(r, st', p', env)
  {
  }
}
