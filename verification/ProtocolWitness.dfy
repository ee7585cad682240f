/** Runs that can be taken, and with them the other half of what holds of all runs: when a transfer
    can end, when the buffer can get out of order, when a lookup fails, and why packets may not
    outlive the numbers. */
module ProtocolWitness {
  import opened Crc32
  import opened Wire
  import opened ReceiverSpec
  import opened ReceiverTheorems
  import opened SenderSpec
  import opened Protocol
  import opened ProtocolInvariant
  import opened ProtocolRuns
  import opened ProtocolTheorems

  // ---------- A lookup fails ----------

  lemma WrittenIs(file: seq<seq<byte>>, w: World)
    requires Inv(file, w)
    ensures w.r.nbWrited <= |file| && w.r.out == Joined(file[..w.r.nbWrited])
  {
    hide Joined, Carries, Encodable;
  }

  lemma JoinedOne(file: seq<seq<byte>>)
    requires file != []
    ensures Joined(file[..1]) == file[0]
  {
    assert file[..1][..0] == [] && Joined([]) + file[0] == file[0];
  }

  lemma InvLookUp(file: seq<seq<byte>>, w: World, index: nat)
    requires Inv(file, w) && w.base - index <= LIFETIME && index == w.base + |w.s.buf|
    ensures !CanLookUp(w.s, index % 256)
  {
    hide Carries;
    LookUpByIndex(file, w, index);
  }

  /** Four steps into a transfer whose first chunk can be encoded, the chunk is written and the
      sender holds an acknowledgement whose number its buffer does not hold: unless it reads on
      before it sends again, it follows a null pointer. */
  lemma LookUpCanFail(file: seq<seq<byte>>) returns (w: World)
    requires Readable(file) && file != [] && Crc(file[0]) != 0
    ensures Reaches(file, START, 4, w) && w.r.nbWrited == 1 && w.r.out == file[0]
    ensures !w.s.Done() && w.s.ackReceived == 1 && !CanLookUp(w.s, w.s.ackReceived)
  {
    hide Inv, Reaches, OpensWindow, Sound, Crc, CanLookUp, Joined;
    InvHoldsAtStart(file);
    QuietReceiver(file, START);
    var w1, m := ReadAndSend(file, START);
    var w2, a := DeliverNext(file, w1, m);
    ReachesOn(file, START, 2, w1, 1, w2);
    w := Hear(file, w2, a);
    ReachesOn(file, START, 3, w2, 1, w);
    InvLookUp(file, w, 1);
    WrittenIs(file, w);
    JoinedOne(file);
  }

  // ---------- A transfer ends ----------

  /** Both ends came to their normal end, and the file was written. */
  ghost predicate Ends(file: seq<seq<byte>>, steps: seq<Step>)
    requires Readable(file)
  {
    Legal(file, START, steps) &&
    var w := Run(file, START, steps); w.s.eofAcked && w.r.Done() && w.r.out == Joined(file)
  }

  /** Once everything was written, the EOF ends both loops within five steps. */
  lemma QuietEnds(file: seq<seq<byte>>, w: World) returns (w': World)
    requires Readable(file) && Quiet(file, w) && w.cursor == |file|
    ensures Reaches(file, w, 4, w') && Inv(file, w') && w'.s.eofAcked && w'.r.Done()
  {
    hide Inv, Reaches, OpensWindow, Sound, AllSent, Receiver.Done, Took, OnDatagram;
    QuietReceiver(file, w);
    var w1, m := ReadAndSend(file, w);
    var w2, a := DeliverEof(file, w1, m);
    ReachesOn(file, w, 2, w1, 1, w2);
    InvSender(file, w2);
    w' := Hear(file, w2, a);
    ReachesOn(file, w, 3, w2, 1, w');
  }

  lemma EveryChunkLetsEnd(file: seq<seq<byte>>) returns (steps: seq<Step>)
    requires Readable(file) && forall i :: 0 <= i < |file| ==> Crc(file[i]) != 0
    ensures |steps| == 4 * |file| + 4 && Ends(file, steps)
  {
    hide Inv, Quiet, Legal, Run, Crc, Joined, Receiver.Done;
    var w := GoThrough(file, |file|);
    var w' := QuietEnds(file, w);
    ReachesOn(file, START, 4 * |file|, w, 4, w');
    steps :| |steps| == 4 * |file| + 4 && Legal(file, START, steps) && Run(file, START, steps) == w';
    SenderEndIsTruthful(file, steps);
  }

  /** A transfer can come to its normal end if and only if pkt_encode refuses none of its chunks. */
  lemma TransferCanCompleteIff(file: seq<seq<byte>>)
    requires Readable(file)
    ensures (exists steps :: Ends(file, steps)) <==> (forall i :: 0 <= i < |file| ==> Crc(file[i]) != 0)
  {
    hide Legal, Run, Crc, Joined, Receiver.Done;
    if steps :| Ends(file, steps) {
      forall i | 0 <= i < |file|
        ensures Crc(file[i]) != 0
      {
        if Crc(file[i]) == 0 {
          NothingPastUnencodable(file, steps, i);
        }
      }
    }
    if forall i :: 0 <= i < |file| ==> Crc(file[i]) != 0 {
      var steps := EveryChunkLetsEnd(file);
    }
  }

  // ---------- The buffer gets out of order ----------

  /** The next `k` chunks are read and, unless pkt_encode refuses them, sent. */
  lemma {:induction false} SendAhead(file: seq<seq<byte>>, w: World, k: nat) returns (w': World)
    requires Readable(file) && Inv(file, w) && !w.s.Done() && !EofRead(w.s) && AllSent(w.s)
    requires |w.s.buf| + k <= w.s.window && w.cursor + k <= |file|
    ensures Reaches(file, w, 2 * k, w') && Inv(file, w')
    ensures w' == w.(s := w'.s, cursor := w.cursor + k, forward := w'.forward) && w.forward <= w'.forward
    ensures forall a :: w.cursor <= a < w.cursor + k && Encodable(file, a) ==> UnderWay(w'.forward, a)
    ensures !w'.s.Done() && !EofRead(w'.s) && AllSent(w'.s)
    ensures |w'.s.buf| == |w.s.buf| + k && w'.s.window == w.s.window
    decreases k
  {
    hide Inv, Reaches, AllSent, Encodable;
    if k == 0 {
      w' := w;
      ReachesItself(file, w);
    } else {
      var v, m := ReadAndSend(file, w);
      w' := SendAhead(file, v, k - 1);
      ReachesOn(file, w, 2, v, 2 * (k - 1), w');
      assert Encodable(file, w.cursor) ==> m in w'.forward && m.index == w.cursor;
    }
  }

  /** No write succeeds; needed only when chunk `h` itself is the next to be written. */
  const BLOCKED := Surroundings(0, true, 0, true)

  /** The chunk arrives, in turn or not. */
  lemma DeliverChunk(file: seq<seq<byte>>, w: World, a: nat, env: Surroundings) returns (w': World, q: Pkt)
    requires Readable(file) && Inv(file, w) && UnderWay(w.forward, a) && w.r.lastackToSend == -2
    requires w.r.nbWrited - a <= LIFETIME && a < |file|
    ensures Reaches(file, w, 1, w') && Inv(file, w') && w'.r.lastackToSend == -2
    ensures w'.forward == w.forward && w'.cursor == w.cursor
    ensures Sound(w.r) && IsChunk(q, a % 256) && w'.r == OnDatagram(w.r, PKT_OK, q, env).0
  {
    hide Inv, Reaches, OnDatagram, Sound, Carries, OpensWindow, ToByte;
    NotDone(file, w);
    var m :| m in w.forward && m.index == a;
    w', q := Deliver(file, w, m, env);
    ChunkIs(file, a, q);
    DataLeavesEof(w.r, q, env);
  }

  lemma AreEncodable(file: seq<seq<byte>>, n: nat)
    requires n <= |file| && forall a :: 0 <= a < n ==> Encodable(file, a)
    ensures forall i :: 0 <= i < n ==> Crc(file[i]) != 0
  {
    forall i | 0 <= i < n
      ensures Crc(file[i]) != 0
    {
      assert Encodable(file, i);
    }
  }

  lemma InForward(m: Datagram, forward: set<Datagram>)
    ensures m in forward ==> UnderWay(forward, m.index)
  {
  }

  /** With `n` chunks written, the sender's window can move to chunk `n` and be filled up to `x`. */
  lemma FillWindow(file: seq<seq<byte>>, n: nat, x: nat) returns (w: World)
    requires Readable(file) && 0 < n < x <= n + 30 && x < |file|
    requires forall a :: 0 <= a < n ==> Encodable(file, a)
    ensures Reaches(file, START, 2 * n + 2 * x + 3, w) && Inv(file, w)
    ensures Sound(w.r) && w.r.buf == [] && w.r.nbWrited == n && w.r.lastackToSend == -2 && w.cursor == x + 1
    ensures forall a :: n <= a <= x && Encodable(file, a) ==> UnderWay(w.forward, a)
  {
    hide Inv, Reaches, AllSent, OpensWindow, Crc, Sound, UnderWay;
    var w0 := GoThrough(file, n) by {
      AreEncodable(file, n);
    }
    QuietReceiver(file, w0);
    var w1, m := ReadAndSend(file, w0);
    ReachesOn(file, START, 4 * n, w0, 2, w1);
    assert AckUnderWay(w0.back, n - 1);
    var b :| b in w1.back && b.index == n && OpensWindow(b);
    InvSender(file, w1);
    var w2 := HearOne(file, w1, b);
    ReachesOn(file, START, 4 * n + 2, w1, 1, w2);
    w := SendAhead(file, w2, x - n);
    ReachesOn(file, START, 4 * n + 3, w2, 2 * (x - n), w);
    assert Encodable(file, n) ==> UnderWay(w.forward, n) by {
      InForward(m, w.forward);
    }
  }

  lemma LastIs(r: Receiver)
    requires Sound(r) && r.nbWrited > 0
    ensures r.lastWrited == (r.nbWrited - 1) % 256
  {
  }

  /** The numbers on the two sides of a wrap. */
  lemma NumbersAcross(n: nat, h: nat, q: nat, x: nat)
    requires n <= h < x - x % 256 <= q < x <= n + 30
    ensures h % 256 > 205 && q % 256 < x % 256 < 50 && (0 < n ==> (n - 1) % 256 > 205)
  {
    var k := x / 256;
    ModUnique(h, k - 1, h - 256 * k + 256);
    ModUnique(q, k, q - 256 * k);
    if 0 < n {
      ModUnique(n - 1, k - 1, n - 1 - 256 * k + 256);
    }
  }

  lemma ChunkInWindow(r: Receiver, a: nat)
    requires Sound(r) && 0 < r.nbWrited <= a <= r.nbWrited + 30
    requires a == r.nbWrited + 30 ==> a % 256 < r.lastWrited
    ensures InWindow(r.lastWrited, a % 256) && r.nbWrited + Offset(r.lastWrited, a % 256) == a
  {
    hide Offset, Sound;
    LastIs(r);
    OffsetIsDistance(r.nbWrited, a);
    InWindowIsAhead(r.lastWrited, a % 256);
  }

  /** The three chunks are in the receiver's window. */
  lemma ThreeInWindow(r: Receiver, n: nat, h: nat, q: nat, x: nat)
    requires Sound(r) && r.nbWrited == n && 0 < n
    requires n <= h < x - x % 256 <= q < x <= n + 30
    ensures h % 256 > 205 && q % 256 < x % 256 < 50 && -1 <= r.lastWrited < 256
    ensures InWindow(r.lastWrited, h % 256) && InWindow(r.lastWrited, x % 256) && InWindow(r.lastWrited, q % 256)
    ensures r.nbWrited + Offset(r.lastWrited, h % 256) == h
  {
    hide Offset, Sound, InWindow;
    LastIs(r);
    NumbersAcross(n, h, q, x);
    ChunkInWindow(r, h);
    ChunkInWindow(r, x);
    ChunkInWindow(r, q);
  }

  /** Where chunks may overtake each other, a run of sender, link and receiver leads to a buffer that
      is out of order and blocks chunk `h`. */
  lemma OrderCanBeLost(file: seq<seq<byte>>, n: nat, h: nat, q: nat, x: nat) returns (w: World, i: nat, j: nat)
    requires Readable(file) && MayOvertake(file, n, h, q, x)
    ensures Reaches(file, START, 2 * n + 2 * x + 6, w) && Inv(file, w)
    ensures !Ordered(w.r) && InvertedAt(w.r, i, j) && Barrier(w.r, j) == h
  {
    hide Inv, Reaches, UnderWay, OnDatagram, Sound, InvertedAt, Ordered, InWindow, Offset, Encodable;
    var w1 := FillWindow(file, n, x);
    ThreeInWindow(w1.r, n, h, q, x);
    ExpectedIs(w1.r);
    var env := if n < h then PROMPT else BLOCKED;
    var w2, hp := DeliverChunk(file, w1, h, env);
    InvSender(file, w2);
    var w3, xp := DeliverChunk(file, w2, x, env);
    InvSender(file, w3);
    var qp;
    w, qp := DeliverChunk(file, w3, q, env);
    ReachesOn(file, START, 2 * n + 2 * x + 3, w1, 1, w2);
    ReachesOn(file, START, 2 * n + 2 * x + 4, w2, 1, w3);
    ReachesOn(file, START, 2 * n + 2 * x + 5, w3, 1, w);
    if n < h && n % 256 == h % 256 {
      SameResidue(n, h);
    }
    i, j := OvertakingHappens(w1.r, hp, xp, qp, env);
  }

  lemma SomeRunLosesOrder(file: seq<seq<byte>>) returns (steps: seq<Step>)
    requires Readable(file) && CanOvertake(file)
    ensures Legal(file, START, steps) && !Ordered(Run(file, START, steps).r)
  {
    hide Legal, Run, Ordered, Inv, InvertedAt, MayOvertake;
    var n: nat, h: nat, q: nat, x: nat :| MayOvertake(file, n, h, q, x);
    var w, i, j := OrderCanBeLost(file, n, h, q, x);
    steps :| |steps| == 2 * n + 2 * x + 6 && Legal(file, START, steps) && Run(file, START, steps) == w;
  }

  /** So all runs keep the receiver's buffer in writing order if and only if nothing in the file can
      overtake. */
  lemma OrderIsKeptIff(file: seq<seq<byte>>)
    requires Readable(file)
    ensures (forall steps :: Legal(file, START, steps) ==> Ordered(Run(file, START, steps).r)) <==> !CanOvertake(file)
  {
    hide Legal, Run, Ordered, CanOvertake;
    if CanOvertake(file) {
      var lost := SomeRunLosesOrder(file);
      assert Legal(file, START, lost) && !Ordered(Run(file, START, lost).r);
    } else {
      forall steps | Legal(file, START, steps)
        ensures Ordered(Run(file, START, steps).r)
      {
        OrderIsKept(file, steps);
      }
    }
  }

  lemma BehindBarrier(r: Receiver, i: nat, j: nat)
    requires InvertedAt(r, i, j)
    ensures r.nbWrited <= Barrier(r, j)
  {
  }

  lemma StepKeepsBarrier(file: seq<seq<byte>>, w: World, step: Step, i: nat, j: nat) returns (i': nat, j': nat)
    requires Readable(file) && Inv(file, w) && Enabled(w, step) && Runnable(w) && InvertedAt(w.r, i, j)
    ensures var w' := Apply(file, w, step); InvertedAt(w'.r, i', j') && Barrier(w'.r, j') == Barrier(w.r, j)
  {
    hide Inv, OnDatagram, Decode, Sound, InvertedAt, Barrier, OnAck, OnRead, Altered;
    i', j' := i, j;
    if step.DeliverData? {
      var t := step.transit;
      var (st, p) := Decode(t.buffer, |t.Arrived()|, ZERO);
      i', j' := InversionIsPermanent(w.r, st, p, step.env, i, j);
    }
  }

  lemma {:induction false} RunKeepsBarrier(file: seq<seq<byte>>, w: World, steps: seq<Step>, i: nat, j: nat)
    requires Readable(file) && Inv(file, w) && InvertedAt(w.r, i, j) && Legal(file, w, steps)
    ensures Run(file, w, steps).r.nbWrited <= Barrier(w.r, j)
    decreases |steps|
  {
    hide Inv, Enabled, Apply, Runnable, Barrier, InvertedAt;
    if steps == [] {
      BehindBarrier(w.r, i, j);
    } else {
      StepKeepsInv(file, w, steps[0]);
      var i', j' := StepKeepsBarrier(file, w, steps[0], i, j);
      RunKeepsBarrier(file, Apply(file, w, steps[0]), steps[1..], i', j');
    }
  }

  /** And then the transfer is stuck for good: the receiver holds chunk `h`, and no run from there
      writes it. */
  lemma TransfersCanBeStuck(file: seq<seq<byte>>, n: nat, h: nat, q: nat, x: nat) returns (w: World)
    requires Readable(file) && MayOvertake(file, n, h, q, x)
    ensures Reaches(file, START, 2 * n + 2 * x + 6, w)
    ensures forall more :: Legal(file, w, more) ==> Run(file, w, more).r.nbWrited <= h
  {
    hide Inv, Legal, Run, Ordered, InvertedAt, Barrier, Reaches, MayOvertake;
    var i, j;
    w, i, j := OrderCanBeLost(file, n, h, q, x);
    forall more | Legal(file, w, more)
      ensures Run(file, w, more).r.nbWrited <= h
    {
      RunKeepsBarrier(file, w, more, i, j);
    }
  }

  // ---------- The lifetime is needed ----------

  /** The packets carry the chunks of the file from `n` on. */
  ghost predicate AreFrom(file: seq<seq<byte>>, n: nat, ps: seq<Pkt>) {
    n + |ps| <= |file| && forall i :: 0 <= i < |ps| ==> Carries(file, n + i, ps[i])
  }

  lemma ConcatHead(ps: seq<Pkt>)
    requires ps != []
    ensures Concat(ps) == ps[0].Data() + Concat(ps[1..])
  {
  }

  lemma {:induction false} ConcatIsJoined(file: seq<seq<byte>>, n: nat, ps: seq<Pkt>)
    requires AreFrom(file, n, ps)
    ensures Joined(file[..n]) + Concat(ps) == Joined(file[..n + |ps|])
    decreases |ps|
  {
    hide Carries, Pkt.Data, Joined, Concat;
    if ps == [] {
      ConcatNone(ps);
      assert ps[..0] == ps;
    } else {
      HeadCarries(file, n, ps[0]);
      JoinedNext(file, n);
      assert forall i :: 0 <= i < |ps| - 1 ==> ps[1..][i] == ps[i + 1];
      ConcatIsJoined(file, n + 1, ps[1..]);
      ConcatHead(ps);
    }
  }

  lemma FromAreChunks(file: seq<seq<byte>>, n: nat, ps: seq<Pkt>)
    requires Readable(file) && AreFrom(file, n, ps)
    ensures AreChunks(ps, n)
  {
    hide Carries;
    forall i | 0 <= i < |ps|
      ensures IsChunk(ps[i], (n + i) % 256)
    {
      ChunkIs(file, n + i, ps[i]);
    }
  }

  lemma InvForward(file: seq<seq<byte>>, w: World, m: Datagram)
    requires Inv(file, w) && m in w.forward
    ensures IsData(file, m)
  {
    hide IsData;
  }

  /** Without the lifetime the output is no longer the beginning of the input: a legal run leads to
      a state with 226 chunks written in which chunk 0 may still arrive.  If it does, unaltered,
      then after the next 30 chunks the bytes of chunk 0 are written in the place of chunk 256. */
  lemma LifetimeIsNeeded(file: seq<seq<byte>>, next: seq<Pkt>) returns (w: World, m: Datagram, p: Pkt)
    requires Readable(file) && |file| >= 256 && forall i :: 0 <= i < 226 ==> Crc(file[i]) != 0
    requires |next| == 30 && AreFrom(file, 226, next)
    ensures Reaches(file, START, 904, w) && Sound(w.r) && w.r.nbWrited == 226 == LIFETIME + 1
    ensures m in w.forward && m.index == 0
    ensures Clean(m).Possible() && Covers(Clean(m).buffer, |Clean(m).Arrived()|)
    ensures Decode(Clean(m).buffer, |Clean(m).Arrived()|, ZERO) == (PKT_OK, p)
    ensures var r := After(OnDatagram(w.r, PKT_OK, p, PROMPT).0, Arriving(next, PROMPT));
      r.nbWrited == 257 && r.out == Joined(file[..256]) + file[0]
  {
    hide Inv, Reaches, Crc, OpensWindow, OnDatagram, Sound, After, Carries, Joined, Concat, Decode, AreChunks, IsData;
    w := GoThrough(file, 226);
    assert UnderWay(w.forward, 0);
    m :| m in w.forward && m.index == 0;
    QuietReceiver(file, w);
    InvForward(file, w, m);
    CleanFits(m);
    ArrivesAsSent(file, Clean(m));
    p := Decode(Clean(m).buffer, |Clean(m).Arrived()|, ZERO).1;
    ChunkIs(file, 0, p);
    FromAreChunks(file, 226, next);
    LastIs(w.r);
    TooOldIsWrittenAsNew(w.r, 0, p, next, PROMPT);
    WrittenIs(file, w);
    ConcatIsJoined(file, 226, next);
  }

  lemma InvTooOld(file: seq<seq<byte>>, w: World, index: nat, p: Pkt)
    requires Inv(file, w) && w.base - index == LIFETIME + 1 && |w.s.buf| == MAX_WINDOW && EofRead(w.s)
    requires p.ptype == PTYPE_ACK && p.seqnum == index % 256
    ensures OnAck(w.s, PKT_OK, p).eofAcked
  {
    hide SenderInv, OnAck;
    AckLifetimeIsTight(file, w, index, p);
  }

  /** Nor is the end truthful without it: a legal run leads to a state in which 29 chunks are still
      to be written and the sender takes the EOF for acknowledged if an ACK that is 226 chunks old
      arrives. */
  lemma AckLifetimeIsNeeded(file: seq<seq<byte>>) returns (w: World, m: Datagram, p: Pkt)
    requires Readable(file) && |file| >= 257 && forall i :: 0 <= i < |file| ==> Crc(file[i]) != 0
    ensures Reaches(file, START, 4 * (|file| - 29) + 60, w) && w.r.nbWrited == |file| - 29
    ensures m in w.back && w.base - m.index == LIFETIME + 1
    ensures Clean(m).Possible() && Covers(Clean(m).buffer, |Clean(m).Arrived()|)
    ensures Decode(Clean(m).buffer, |Clean(m).Arrived()|, ZERO) == (PKT_OK, p)
    ensures !w.s.Done() && OnAck(w.s, PKT_OK, p).eofAcked
  {
    hide Inv, Reaches, Crc, OpensWindow, AllSent, Decode, Val, OnAck;
    var n := |file| - 29;
    var v := GoThrough(file, n);
    assert AckUnderWay(v.back, |file| - 257);
    m :| m in v.back && m.index == |file| - 256 && OpensWindow(m);
    var u := SendAhead(file, v, 29);
    ReachesOn(file, START, 4 * n, v, 58, u);
    var eof;
    w, eof := ReadAndSend(file, u);
    ReachesOn(file, START, 4 * n + 58, u, 2, w);
    InvSender(file, w);
    OpenAckArrives(m);
    p := Decode(Clean(m).buffer, |Clean(m).Arrived()|, ZERO).1;
    InvTooOld(file, w, m.index, p);
  }
}
