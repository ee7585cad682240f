/** What the receiver writes, when its acknowledgement names the lowest missing chunk, and the
    one arrival that stops a transfer for good. */
module ReceiverTheorems {
  import opened Crc32
  import opened Wire
  import opened RingSpec
  import opened ReceiverSpec

  // ---------- write_buffer_to_file writes the maximal run ----------

  function Concat(ps: seq<Pkt>): seq<byte> {
    if ps == [] then [] else ps[0].Data() + Concat(ps[1..])
  }

  /** The first `k` buffered packets continue the numbering. */
  ghost predicate IsRun(expected: int, s: seq<Pkt>, k: nat)
    requires k <= |s|
  {
    forall i :: 0 <= i < k ==> s[i].seqnum == (expected + i) % 256
  }

  lemma ConcatStep(s: seq<Pkt>, k: nat)
    requires k < |s|
    ensures Concat(s[..k + 1]) == s[0].Data() + Concat(s[1..][..k])
    ensures s[1..][k..] == s[k + 1..]
  {
    assert s[..k + 1][1..] == s[1..][..k];
  }

  lemma WriteIs(r: Receiver)
    requires r.buf != []
    ensures var w := WriteHead(r);
      && w.buf == r.buf[1..] && w.nbWrited == r.nbWrited + 1 && w.out == r.out + r.buf[0].Data()
      && w == r.(lastWrited := w.lastWrited, nbWrited := w.nbWrited, buf := w.buf, out := w.out)
  {
  }

  lemma ConcatNone(s: seq<Pkt>)
    ensures Concat(s[..0]) == [] && s[0..] == s
  {
  }

  /** What the writes take from the buffer. */
  lemma {:induction false} DrainCounts(r: Receiver, writable: nat)
    ensures var d := Drain(r, writable);
      && |d.buf| <= |r.buf| && var k := |r.buf| - |d.buf|;
      && k <= writable && d.nbWrited == r.nbWrited + k
      && d.buf == r.buf[k..] && d.out == r.out + Concat(r.buf[..k])
    decreases |r.buf|
  {
    hide Concat, WriteHead, Pkt.Data;
    if HeadDue(r) && writable > 0 {
      WriteIs(r);
      DrainCounts(WriteHead(r), writable - 1);
      ConcatStep(r.buf, |r.buf| - |Drain(r, writable).buf| - 1);
    } else {
      ConcatNone(r.buf);
    }
  }

  lemma RunStep(e: int, s: seq<Pkt>, k: nat)
    requires 0 <= e < 256 && k < |s| && s[0].seqnum == e && IsRun((e + 1) % 256, s[1..], k)
    ensures IsRun(e, s, k + 1) && ((e + 1) % 256 + k) % 256 == (e + k + 1) % 256
  {
  }

  lemma {:induction false} DrainStops(r: Receiver, writable: nat)
    ensures !HeadDue(Drain(r, writable)) || |r.buf| - |Drain(r, writable).buf| == writable
    decreases |r.buf|
  {
    if HeadDue(r) && writable > 0 {
      DrainStops(WriteHead(r), writable - 1);
    }
  }

  lemma NoRun(e: int, s: seq<Pkt>)
    ensures IsRun(e, s, 0)
  {
  }

  lemma {:induction false} DrainIsRun(r: Receiver, writable: nat)
    ensures |Drain(r, writable).buf| <= |r.buf|
    ensures var k := |r.buf| - |Drain(r, writable).buf|;
      IsRun(r.Expected(), r.buf, k) && Drain(r, writable).Expected() == (r.Expected() + k) % 256
    decreases |r.buf|
  {
    hide IsRun;
    if HeadDue(r) && writable > 0 {
      DrainIsRun(WriteHead(r), writable - 1);
      RunStep(r.Expected(), r.buf, |r.buf| - |Drain(r, writable).buf| - 1);
    } else {
      NoRun(r.Expected(), r.buf);
    }
  }

  /** Exactly the packets at the head that continue the numbering are written, in order, unless
      a write fails; then as many as could be written. */
  lemma DrainWritesMaximalRun(r: Receiver, writable: nat)
    ensures var d := Drain(r, writable);
      && |d.buf| <= |r.buf| && var k := |r.buf| - |d.buf|;
      && d.buf == r.buf[k..] && d.out == r.out + Concat(r.buf[..k])
      && IsRun(r.Expected(), r.buf, k) && d.Expected() == (r.Expected() + k) % 256
      && (k == |r.buf| || k == writable || r.buf[k].seqnum != d.Expected())
  {
    hide Drain, IsRun, Concat;
    DrainCounts(r, writable);
    DrainIsRun(r, writable);
    DrainStops(r, writable);
  }

  // ---------- Order in the buffer ----------

  /** The buffered packets stand in the order in which they have to be written. */
  ghost predicate Ordered(r: Receiver) {
    -1 <= r.lastWrited < 256 &&
    forall i, j :: 0 <= i < j < |r.buf| ==>
      Offset(r.lastWrited, r.buf[i].seqnum) < Offset(r.lastWrited, r.buf[j].seqnum)
  }

  /** The packet at `i` stands in front of one that has to be written before it. */
  ghost predicate InvertedAt(r: Receiver, i: nat, j: nat) {
    -1 <= r.lastWrited < 256 && i < j < |r.buf| &&
    Offset(r.lastWrited, r.buf[i].seqnum) > Offset(r.lastWrited, r.buf[j].seqnum)
  }

  lemma OffsetIsAhead(r: Receiver, seqnum: nat)
    requires -1 <= r.lastWrited < 256 && seqnum < 256
    ensures Offset(r.lastWrited, seqnum) == Ahead(r.Expected(), seqnum)
  {
  }

  lemma OrderedIsSerial(r: Receiver)
    requires Sound(r)
    ensures Ordered(r) <==> InSerialOrder(r.Expected(), Nums(r.buf))
  {
    forall i | 0 <= i < |r.buf|
      ensures Ahead(r.Expected(), Nums(r.buf)[i]) == Offset(r.lastWrited, r.buf[i].seqnum)
    {
      OffsetIsAhead(r, r.buf[i].seqnum);
    }
  }

  lemma NumsInsert(s: seq<Pkt>, k: nat, p: Pkt)
    requires k <= |s|
    ensures Nums(InsertAt(s, k, p)) == InsertAt(Nums(s), k, p.seqnum)
  {
  }

  lemma WriteKeepsOrder(r: Receiver)
    requires Sound(r) && Ordered(r) && HeadDue(r)
    ensures Ordered(WriteHead(r))
  {
    var r' := WriteHead(r);
    forall i | 0 <= i < |r'.buf|
      ensures Offset(r'.lastWrited, r'.buf[i].seqnum) == Offset(r.lastWrited, r.buf[i + 1].seqnum) - 1
    {
      assert r.buf[0].seqnum != r.buf[i + 1].seqnum;
      OneNearer(r.lastWrited, r.buf[i + 1].seqnum);
    }
  }

  lemma {:induction false} DrainKeepsOrder(r: Receiver, writable: nat)
    requires Sound(r) && Ordered(r)
    ensures Ordered(Drain(r, writable))
    decreases |r.buf|
  {
    hide Sound, Ordered;
    if HeadDue(r) && writable > 0 {
      WriteKeepsSound(r);
      WriteKeepsOrder(r);
      DrainKeepsOrder(WriteHead(r), writable - 1);
    }
  }

  lemma OrderedGap(d: Receiver)
    requires Sound(d) && Ordered(d) && !HeadDue(d)
    ensures d.Expected() !in Nums(d.buf)
  {
  }

  /** In an ordered buffer the run starts at the head, so when the writes succeed the number
      expected next is absent. */
  lemma OrderedDrainLeavesGap(r: Receiver, writable: nat)
    requires Sound(r) && Ordered(r) && writable > |r.buf|
    ensures Drain(r, writable).Expected() !in Nums(Drain(r, writable).buf)
  {
    hide Sound, Ordered, Drain;
    DrainKeepsSound(r, writable);
    DrainKeepsOrder(r, writable);
    DrainWritesMaximalRun(r, writable);
    OrderedGap(Drain(r, writable));
  }

  // ---------- The arrival that overtakes ----------

  lemma OrderedIgnores(r: Receiver, s: Receiver)
    requires s.buf == r.buf && s.lastWrited == r.lastWrited
    ensures Ordered(r) <==> Ordered(s)
  {
  }

  /** A stored packet keeps the buffer ordered exactly when it does not overtake. */
  lemma EnqueueKeepsOrderIff(r: Receiver, p: Pkt)
    requires Sound(r) && Ordered(r) && p.seqnum !in Nums(r.buf) && InWindow(r.lastWrited, p.seqnum)
    ensures Sound(Enqueued(r, p))
    ensures Ordered(Enqueued(r, p)) <==> !Overtakes(Nums(r.buf), p.seqnum)
  {
    hide Sound, Ordered, Place;
    SoundBounds(r);
    EnqueueKeepsSound(r, p);
    OrderedIsSerial(r);
    OrderedIsSerial(Enqueued(r, p));
    NumsInsert(r.buf, Place(Nums(r.buf), p.seqnum), p);
    InWindowIsAhead(r.lastWrited, p.seqnum);
    OffsetIsAhead(r, p.seqnum);
    EnqueueKeepsSerialOrderIff(r.Expected(), Nums(r.buf), p.seqnum);
  }

  /** What a datagram does to the state apart from the acknowledgement. */
  lemma DatagramState(r: Receiver, st: Status, p: Pkt, env: Surroundings)
    requires Sound(r)
    ensures var (r', reply), s := OnDatagram(r, st, p, env), Absorb(r, st, p, env);
      && r' == s.(accumulated := r'.accumulated, lastAcked := r'.lastAcked)
      && (reply.Reply? && reply.ptype == PTYPE_ACK ==> reply.seqnum == r'.lastAcked == r'.Expected())
  {
    hide Drain, Sound, Place, InWindow;
  }

  /** The state in which the writes of a DATA packet start. */
  function Stored(r: Receiver, p: Pkt, env: Surroundings): Receiver {
    Enqueued(r.(accumulated := r.accumulated + 1), p).(timeLastData := env.now)
  }

  /** A DATA packet leaves the written state of Drain, any other datagram leaves it alone. */
  lemma DatagramDrains(r: Receiver, st: Status, p: Pkt, env: Surroundings)
    requires Sound(r)
    ensures var r' := OnDatagram(r, st, p, env).0;
      var d := if Judge(r, st, p).Data? then Drain(Stored(r, p, env), env.writable) else r;
      r'.buf == d.buf && r'.lastWrited == d.lastWrited && r'.nbWrited == d.nbWrited && r'.out == d.out
  {
    hide OnDatagram, Drain, Enqueued;
    DatagramState(r, st, p, env);
  }

  /** As long as no arrival overtakes, the buffer stays ordered and, when the writes succeed, the
      acknowledgement names the lowest chunk that is missing. */
  lemma AckNamesLowestMissing(r: Receiver, st: Status, p: Pkt, env: Surroundings)
    requires Sound(r) && Ordered(r) && r.Expected() !in Nums(r.buf)
    requires Judge(r, st, p).Data? ==> !Overtakes(Nums(r.buf), p.seqnum)
    requires env.writable > MAX_WINDOW
    ensures var (r', reply) := OnDatagram(r, st, p, env);
      && Ordered(r') && r'.Expected() !in Nums(r'.buf)
      && (reply.Reply? && reply.ptype == PTYPE_ACK ==> reply.seqnum == r'.Expected())
  {
    hide OnDatagram, Drain, Sound, Place, InWindow;
    DatagramState(r, st, p, env);
    DatagramDrains(r, st, p, env);
    if Judge(r, st, p).Data? {
      var s := Stored(r, p, env);
      EnqueueKeepsOrderIff(r, p);
      BufferFitsWindow(Enqueued(r, p));
      SoundIgnores(Enqueued(r, p), s);
      OrderedIgnores(Enqueued(r, p), s);
      DrainKeepsOrder(s, env.writable);
      OrderedDrainLeavesGap(s, env.writable);
    }
  }

  /** The number after the last one that can be reached past an inversion. */
  function Barrier(r: Receiver, j: nat): int
    requires -1 <= r.lastWrited < 256 && j < |r.buf|
  {
    r.nbWrited + Offset(r.lastWrited, r.buf[j].seqnum)
  }

  lemma WriteKeepsInversion(r: Receiver, i: nat, j: nat)
    requires Sound(r) && InvertedAt(r, i, j) && HeadDue(r)
    ensures i > 0 && InvertedAt(WriteHead(r), i - 1, j - 1)
    ensures Barrier(WriteHead(r), j - 1) == Barrier(r, j)
  {
    assert i > 0;
    assert r.buf[0].seqnum != r.buf[i].seqnum && r.buf[0].seqnum != r.buf[j].seqnum;
    OneNearer(r.lastWrited, r.buf[i].seqnum);
    OneNearer(r.lastWrited, r.buf[j].seqnum);
  }

  lemma {:induction false} DrainKeepsInversion(r: Receiver, writable: nat, i: nat, j: nat)
    returns (i': nat, j': nat)
    requires Sound(r) && InvertedAt(r, i, j)
    ensures InvertedAt(Drain(r, writable), i', j')
    ensures Barrier(Drain(r, writable), j') == Barrier(r, j)
    decreases |r.buf|
  {
    i', j' := i, j;
    hide Sound;
    if HeadDue(r) && writable > 0 {
      WriteKeepsSound(r);
      WriteKeepsInversion(r, i, j);
      i', j' := DrainKeepsInversion(WriteHead(r), writable - 1, i - 1, j - 1);
    }
  }

  lemma EnqueueKeepsInversion(r: Receiver, p: Pkt, i: nat, j: nat) returns (i': nat, j': nat)
    requires InvertedAt(r, i, j)
    ensures InvertedAt(Enqueued(r, p), i', j') && Barrier(Enqueued(r, p), j') == Barrier(r, j)
  {
    hide Place;
    var k := Place(Nums(r.buf), p.seqnum);
    i', j' := if i < k then i else i + 1, if j < k then j else j + 1;
    assert Enqueued(r, p).buf[i'] == r.buf[i] && Enqueued(r, p).buf[j'] == r.buf[j];
  }

  /** An inversion is permanent: no datagram removes it, and its barrier stays where it is. */
  lemma InversionIsPermanent(r: Receiver, st: Status, p: Pkt, env: Surroundings, i: nat, j: nat)
    returns (i': nat, j': nat)
    requires Sound(r) && InvertedAt(r, i, j)
    ensures var r' := OnDatagram(r, st, p, env).0;
      InvertedAt(r', i', j') && Barrier(r', j') == Barrier(r, j)
  {
    i', j' := i, j;
    hide OnDatagram, Drain, Place, Sound, InWindow;
    DatagramDrains(r, st, p, env);
    if Judge(r, st, p).Data? {
      EnqueueKeepsSound(r, p);
      i', j' := EnqueueKeepsInversion(r, p, i, j);
      var s := Stored(r, p, env);
      assert Sound(s) by {
        SoundIgnores(Enqueued(r, p), s);
      }
      i', j' := DrainKeepsInversion(s, env.writable, i', j');
    }
  }

  /** A datagram as the decoder saw it, with its surroundings. */
  datatype Arrival = Arrival(st: Status, pkt: Pkt, env: Surroundings)

  function After(r: Receiver, arrivals: seq<Arrival>): (r': Receiver)
    requires Sound(r)
    ensures Sound(r')
    decreases |arrivals|
  {
    if arrivals == [] then r
    else After(OnDatagram(r, arrivals[0].st, arrivals[0].pkt, arrivals[0].env).0, arrivals[1..])
  }

  /** Once inverted, the receiver never gets past the barrier, whatever arrives. */
  lemma {:induction false} InvertedNeverCompletes(r: Receiver, arrivals: seq<Arrival>, i: nat, j: nat)
    requires Sound(r) && InvertedAt(r, i, j)
    ensures After(r, arrivals).nbWrited <= Barrier(r, j)
    decreases |arrivals|
  {
    hide OnDatagram, Sound;
    if arrivals != [] {
      var a := arrivals[0];
      var i', j' := InversionIsPermanent(r, a.st, a.pkt, a.env, i, j);
      InvertedNeverCompletes(OnDatagram(r, a.st, a.pkt, a.env).0, arrivals[1..], i', j');
    }
  }

  /** The packet that overtakes stands in front of the head it overtook. */
  lemma OvertakingInverts(r: Receiver, p: Pkt)
    requires Sound(r) && p.seqnum !in Nums(r.buf) && InWindow(r.lastWrited, p.seqnum)
    requires Overtakes(Nums(r.buf), p.seqnum)
    ensures InvertedAt(Enqueued(r, p), 0, 1) && Enqueued(r, p).buf[1] == r.buf[0]
  {
    hide WalkBack;
    var s, q := Nums(r.buf), p.seqnum;
    OvertakerGoesFirst(s, q, |s| - 1);
    assert s[1] < 50 && q < s[1] && s[|s| - 1] < 50 && s[0] == r.buf[0].seqnum;
    assert Place(s, q) == 0;
    assert Enqueued(r, p).buf == [p] + r.buf;
    InWindowIsAhead(r.lastWrited, q);
  }

  /** Nothing that is written or stored with it hides the inversion. */
  lemma OvertakingDisorders(r: Receiver, p: Pkt, env: Surroundings) returns (i: nat, j: nat)
    requires Sound(r) && Judge(r, PKT_OK, p).Data? && Overtakes(Nums(r.buf), p.seqnum)
    ensures var r' := OnDatagram(r, PKT_OK, p, env).0;
      InvertedAt(r', i, j) && Barrier(r', j) == Barrier(r, 0) && !Ordered(r')
  {
    hide OnDatagram, Drain, Place, InWindow;
    EnqueueKeepsSound(r, p);
    OvertakingInverts(r, p);
    var s := Stored(r, p, env);
    SoundIgnores(Enqueued(r, p), s);
    i, j := DrainKeepsInversion(s, env.writable, 0, 1);
    DatagramDrains(r, PKT_OK, p, env);
  }

  /** So an overtaking arrival ends all hope: the packet that was at the head, though it is in
      the buffer, is never written. */
  lemma OvertakingIsFatal(r: Receiver, p: Pkt, env: Surroundings, arrivals: seq<Arrival>)
    requires Sound(r) && Judge(r, PKT_OK, p).Data? && Overtakes(Nums(r.buf), p.seqnum)
    ensures var r' := OnDatagram(r, PKT_OK, p, env).0;
      After(r', arrivals).nbWrited <= Barrier(r, 0)
  {
    hide OnDatagram, Judge, Overtakes, After, Ordered, InvertedAt, Sound;
    var i, j := OvertakingDisorders(r, p, env);
    InvertedNeverCompletes(OnDatagram(r, PKT_OK, p, env).0, arrivals, i, j);
  }

  // ---------- One datagram at a time ----------

  /** A DATA packet with a payload and this number. */
  ghost predicate IsChunk(p: Pkt, seqnum: SeqNum) {
    p.ptype == PTYPE_DATA && p.tr == 0 && p.length > 0 && p.seqnum == seqnum
  }

  lemma ExpectedIs(r: Receiver)
    requires Sound(r)
    ensures r.Expected() == r.nbWrited % 256
  {
  }

  lemma DrainNothing(r: Receiver, writable: nat)
    requires !HeadDue(r) || writable == 0
    ensures Drain(r, writable) == r
  {
  }

  lemma DrainHead(r: Receiver, writable: nat)
    requires HeadDue(r) && writable > 0
    ensures Drain(r, writable) == Drain(WriteHead(r), writable - 1)
  {
  }

  lemma EnqueueAlone(r: Receiver, p: Pkt)
    requires r.buf == []
    ensures Enqueued(r, p) == r.(buf := [p]) && Nums(r.buf) == []
  {
  }

  lemma SingleIsDue(r: Receiver)
    requires |r.buf| == 1 && r.buf[0].seqnum == r.Expected()
    ensures HeadDue(r) && WriteHead(r).buf == [] && !HeadDue(WriteHead(r))
  {
  }

  /** The next chunk is written at once and, when an acknowledgement is due, acknowledged. */
  lemma NextIsWritten(r: Receiver, p: Pkt, env: Surroundings)
    requires Sound(r) && r.buf == [] && IsChunk(p, r.nbWrited % 256)
    requires env.writable > 0 && env.late && env.sendOk
    ensures var (r', reply) := OnDatagram(r, PKT_OK, p, env);
      && r'.buf == [] && r'.nbWrited == r.nbWrited + 1 && r'.out == r.out + p.Data()
      && r'.lastackToSend == r.lastackToSend
      && reply.Reply? && reply.ptype == PTYPE_ACK && reply.seqnum == r'.nbWrited % 256 && reply.window == ToByte(31)
  {
    hide Place, ToByte, Sound, Drain, HeadDue, Pkt.Data, InsertAt;
    SoundBounds(r);
    ExpectedIs(r);
    EnqueueAlone(r, p);
    InWindowIsAhead(r.lastWrited, p.seqnum);
    var s := Stored(r, p, env);
    SingleIsDue(s);
    DrainHead(s, env.writable);
    DrainNothing(WriteHead(s), env.writable - 1);
    assert Absorb(r, PKT_OK, p, env) == WriteHead(s);
  }

  /** Only an EOF changes what the loop waits for. */
  lemma DataLeavesEof(r: Receiver, p: Pkt, env: Surroundings)
    requires Sound(r) && p.length > 0
    ensures OnDatagram(r, PKT_OK, p, env).0.lastackToSend == r.lastackToSend
  {
    hide Drain, Sound, Place, InWindow;
    var s := Stored(r, p, env);
    DrainLeavesTheRest(s, env.writable);
  }

  /** The EOF that arrives when everything was written ends the loop. */
  lemma EofIsTaken(r: Receiver, p: Pkt, env: Surroundings)
    requires Sound(r) && r.buf == [] && env.sendOk
    requires p.ptype == PTYPE_DATA && p.tr == 0 && p.length == 0 && p.seqnum == r.nbWrited % 256
    ensures var (r', reply) := OnDatagram(r, PKT_OK, p, env);
      && r'.Done() && r'.nbWrited == r.nbWrited
      && reply.Reply? && reply.ptype == PTYPE_ACK && reply.seqnum == r.nbWrited % 256 && reply.window == ToByte(31)
  {
    hide ToByte, Sound;
    SoundBounds(r);
    ExpectedIs(r);
    InWindowIsAhead(r.lastWrited, p.seqnum);
    assert Nums(r.buf) == [];
  }

  // ---------- It happens ----------

  /** A packet that is stored behind a head that cannot be written just waits in the buffer. */
  lemma Waits(r: Receiver, p: Pkt, env: Surroundings)
    requires Sound(r) && Judge(r, PKT_OK, p).Data? && (env.writable == 0 || !HeadDue(Enqueued(r, p)))
    ensures var r' := OnDatagram(r, PKT_OK, p, env).0;
      r'.buf == Enqueued(r, p).buf && r'.lastWrited == r.lastWrited && r'.nbWrited == r.nbWrited && r'.out == r.out
  {
    hide OnDatagram, Place, InWindow, Sound, WriteHead;
    DrainNothing(Stored(r, p, env), env.writable);
    DatagramDrains(r, PKT_OK, p, env);
  }

  /** A chunk from before the wrap that cannot be written, and one from behind it. */
  lemma WaitsBehind(r: Receiver, h: Pkt, x: Pkt, env: Surroundings)
    requires Sound(r) && r.buf == [h] && (env.writable == 0 || h.seqnum != r.Expected())
    requires h.seqnum > 205 && x.seqnum < 50 && IsChunk(x, x.seqnum) && InWindow(r.lastWrited, x.seqnum)
    ensures var r' := OnDatagram(r, PKT_OK, x, env).0;
      r'.buf == [h, x] && r'.lastWrited == r.lastWrited && r'.nbWrited == r.nbWrited
  {
    hide OnDatagram, Sound, InWindow;
    assert Nums(r.buf) == [h.seqnum] && Place([h.seqnum], x.seqnum) == 1;
    assert Enqueued(r, x).buf == [h, x];
    Waits(r, x, env);
  }

  /** Three chunks that arrive in this order, the last two from behind the wrap, when the chunk in
      front of them is missing or cannot be written: the buffer is out of order and blocks the first
      of them. */
  lemma OvertakingHappens(r: Receiver, h: Pkt, x: Pkt, q: Pkt, env: Surroundings) returns (i: nat, j: nat)
    requires Sound(r) && r.buf == [] && (env.writable == 0 || h.seqnum != r.Expected())
    requires IsChunk(h, h.seqnum) && IsChunk(x, x.seqnum) && IsChunk(q, q.seqnum)
    requires h.seqnum > 205 && q.seqnum < x.seqnum < 50
    requires InWindow(r.lastWrited, h.seqnum) && InWindow(r.lastWrited, x.seqnum) && InWindow(r.lastWrited, q.seqnum)
    ensures var r1 := OnDatagram(r, PKT_OK, h, env).0;
      var r2 := OnDatagram(r1, PKT_OK, x, env).0;
      var r3 := OnDatagram(r2, PKT_OK, q, env).0;
      InvertedAt(r3, i, j) && Barrier(r3, j) == r.nbWrited + Offset(r.lastWrited, h.seqnum) && !Ordered(r3)
  {
    hide OnDatagram, Sound, InWindow, Place, Ordered, InvertedAt, Offset;
    SoundBounds(r);
    EnqueueAlone(r, h);
    Waits(r, h, env);
    var r1 := OnDatagram(r, PKT_OK, h, env).0;
    WaitsBehind(r1, h, x, env);
    var r2 := OnDatagram(r1, PKT_OK, x, env).0;
    assert Nums(r2.buf) == [h.seqnum, x.seqnum];
    i, j := OvertakingDisorders(r2, q, env);
  }

  // ---------- A chunk that is too old ----------

  /** Packets that arrive intact one after the other. */
  function Arriving(ps: seq<Pkt>, env: Surroundings): (arrivals: seq<Arrival>)
    ensures |arrivals| == |ps|
  {
    if ps == [] then [] else [Arrival(PKT_OK, ps[0], env)] + Arriving(ps[1..], env)
  }

  ghost predicate AreChunks(ps: seq<Pkt>, n: nat) {
    forall i :: 0 <= i < |ps| ==> IsChunk(ps[i], (n + i) % 256)
  }

  lemma SecondIsAhead(r: Receiver)
    requires Ordered(r) && |r.buf| == 2
    ensures Offset(r.lastWrited, r.buf[1].seqnum) > 0
  {
    assert Offset(r.lastWrited, r.buf[0].seqnum) < Offset(r.lastWrited, r.buf[1].seqnum);
  }

  /** The next chunk goes in front of one that was stored ahead of it. */
  lemma NextGoesFirst(r: Receiver, stale: Pkt, p: Pkt)
    requires Sound(r) && r.buf == [stale] && p.seqnum == r.Expected() && stale.seqnum != p.seqnum
    requires InWindow(r.lastWrited, p.seqnum)
    ensures Enqueued(r, p).buf == [p, stale]
  {
    hide Place, InWindow;
    assert Nums(r.buf) == [stale.seqnum];
    EnqueueKeepsOrderIff(r, p);
    SecondIsAhead(Enqueued(r, p));
    var k := Place(Nums(r.buf), p.seqnum);
    assert Enqueued(r, p).buf[k] == p;
    assert Enqueued(r, p).buf == InsertAt([stale], 0, p);
  }

  /** What the writes make of the next chunk and one stored ahead of it. */
  lemma PairDrains(s: Receiver, p: Pkt, stale: Pkt, writable: nat)
    requires s.buf == [p, stale] && p.seqnum == s.Expected() && writable >= 2
    ensures var d := Drain(s, writable);
      if stale.seqnum == Successor(p.seqnum)
      then d.buf == [] && d.nbWrited == s.nbWrited + 2 && d.out == s.out + p.Data() + stale.Data()
      else d.buf == [stale] && d.nbWrited == s.nbWrited + 1 && d.out == s.out + p.Data()
  {
    hide Drain, Pkt.Data;
    DrainHead(s, writable);
    var t := WriteHead(s);
    assert t.buf == [stale];
    if HeadDue(t) {
      DrainHead(t, writable - 1);
      DrainNothing(WriteHead(t), writable - 2);
    } else {
      DrainNothing(t, writable - 1);
    }
  }

  /** A stored packet is written as soon as the chunk in front of its number was. */
  lemma NextPassesStale(r: Receiver, stale: Pkt, p: Pkt, env: Surroundings)
    requires Sound(r) && r.buf == [stale] && IsChunk(p, r.nbWrited % 256) && stale.seqnum != p.seqnum
    requires env.writable >= 2
    ensures var r' := OnDatagram(r, PKT_OK, p, env).0;
      if stale.seqnum == (r.nbWrited + 1) % 256
      then r'.buf == [] && r'.nbWrited == r.nbWrited + 2 && r'.out == r.out + p.Data() + stale.Data()
      else r'.buf == [stale] && r'.nbWrited == r.nbWrited + 1 && r'.out == r.out + p.Data()
  {
    hide OnDatagram, Place, Sound, Drain, HeadDue, WriteHead, Pkt.Data, InsertAt;
    SoundBounds(r);
    ExpectedIs(r);
    InWindowIsAhead(r.lastWrited, p.seqnum);
    assert Nums(r.buf) == [stale.seqnum];
    NextGoesFirst(r, stale, p);
    PairDrains(Stored(r, p, env), p, stale, env.writable);
    DatagramDrains(r, PKT_OK, p, env);
  }

  lemma ChunksTail(next: seq<Pkt>, n: nat)
    requires next != [] && AreChunks(next, n)
    ensures IsChunk(next[0], n % 256) && AreChunks(next[1..], n + 1)
  {
    forall i | 0 <= i < |next| - 1
      ensures IsChunk(next[1..][i], (n + 1 + i) % 256)
    {
      assert next[1..][i] == next[i + 1];
    }
  }

  lemma AfterFirst(r: Receiver, ps: seq<Pkt>, env: Surroundings)
    requires Sound(r) && ps != []
    ensures After(r, Arriving(ps, env)) == After(OnDatagram(r, PKT_OK, ps[0], env).0, Arriving(ps[1..], env))
    ensures Concat(ps) == ps[0].Data() + Concat(ps[1..])
  {
    hide OnDatagram, Sound, Pkt.Data;
    assert Arriving(ps, env)[1..] == Arriving(ps[1..], env);
  }

  lemma AfterNone(r: Receiver, env: Surroundings)
    requires Sound(r)
    ensures After(r, Arriving([], env)) == r && Concat([]) == []
  {
  }

  lemma {:induction false} StaleIsWritten(r: Receiver, stale: Pkt, next: seq<Pkt>, env: Surroundings)
    requires Sound(r) && r.buf == [stale] && AreChunks(next, r.nbWrited) && 1 <= |next| <= 30
    requires stale.seqnum == (r.nbWrited + |next|) % 256 && env.writable >= 2
    ensures var r' := After(r, Arriving(next, env));
      r'.nbWrited == r.nbWrited + |next| + 1 && r'.out == r.out + Concat(next) + stale.Data()
    decreases |next|
  {
    hide OnDatagram, Sound, Pkt.Data, AreChunks, After, Arriving, Concat;
    var r' := OnDatagram(r, PKT_OK, next[0], env).0;
    ChunksTail(next, r.nbWrited);
    NextPassesStale(r, stale, next[0], env);
    AfterFirst(r, next, env);
    if |next| == 1 {
      assert next[1..] == [];
      AfterNone(r', env);
      assert Concat(next) == next[0].Data();
    } else {
      StaleIsWritten(r', stale, next[1..], env);
      assert r.out + (next[0].Data() + Concat(next[1..])) == r.out + next[0].Data() + Concat(next[1..]);
    }
  }

  lemma StaleOffset(r: Receiver, a: nat)
    requires Sound(r) && r.nbWrited - a == 226
    ensures Offset(r.lastWrited, a % 256) == 30 && a % 256 != r.Expected()
  {
  }

  /** Why a chunk may not be 226 chunks old: where the numbers in between wrapped, chunk `a` is
      stored, and after the next 30 chunks its bytes are written in the place of chunk `a` + 256. */
  lemma TooOldIsWrittenAsNew(r: Receiver, a: nat, stale: Pkt, next: seq<Pkt>, env: Surroundings)
    requires Sound(r) && r.buf == [] && r.nbWrited - a == 226 && a % 256 < r.lastWrited
    requires IsChunk(stale, a % 256) && AreChunks(next, r.nbWrited) && |next| == 30 && env.writable >= 2
    ensures var r' := After(OnDatagram(r, PKT_OK, stale, env).0, Arriving(next, env));
      r'.nbWrited == a + 257 && r'.out == r.out + Concat(next) + stale.Data()
  {
    hide OnDatagram, Sound, Pkt.Data, Place, After, Concat;
    SoundBounds(r);
    ExpectedIs(r);
    StaleOffset(r, a);
    InWindowIsAhead(r.lastWrited, a % 256);
    EnqueueAlone(r, stale);
    Waits(r, stale, env);
    StaleIsWritten(OnDatagram(r, PKT_OK, stale, env).0, stale, next, env);
  }
}
