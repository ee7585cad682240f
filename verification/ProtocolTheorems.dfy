/** What holds of every run of sender, link and receiver, however datagrams are lost, repeated,
    reordered, cut or corrupted, as long as none outlives the sequence numbers. */
module ProtocolTheorems {
  import opened Crc32
  import opened Wire
  import opened RingSpec
  import opened ReceiverSpec
  import opened ReceiverTheorems
  import opened SenderSpec
  import opened Protocol
  import opened ProtocolInvariant

  /** The output is always the beginning of the input: the first nb_writed chunks, whole, in
      order, once each. */
  lemma OutputIsPrefix(file: seq<seq<byte>>, steps: seq<Step>)
    requires Readable(file) && Legal(file, START, steps)
    ensures var w := Run(file, START, steps);
      w.r.nbWrited <= w.cursor <= |file| && w.r.out == Joined(file[..w.r.nbWrited])
  {
    hide Legal, Run, SenderInv, LinkInv, EndInv;
    InvHoldsAtStart(file);
    RunKeepsInv(file, START, steps);
  }

  /** When the sender's loop ends because the EOF was acknowledged, the whole input was written. */
  lemma SenderEndIsTruthful(file: seq<seq<byte>>, steps: seq<Step>)
    requires Readable(file) && Legal(file, START, steps)
    ensures Run(file, START, steps).s.eofAcked ==> Run(file, START, steps).r.out == Joined(file)
  {
    hide Legal, Run, SenderInv, LinkInv;
    InvHoldsAtStart(file);
    RunKeepsInv(file, START, steps);
    assert file[..|file|] == file;
  }

  /** When the receiver's loop ends because the last acknowledgement it sent names the EOF, the
      whole input was written, also when the EOF came early, when numbers wrapped, and when calls
      of send failed. */
  lemma ReceiverEndIsTruthful(file: seq<seq<byte>>, steps: seq<Step>)
    requires Readable(file) && Legal(file, START, steps)
    ensures Run(file, START, steps).r.Done() ==> Run(file, START, steps).r.out == Joined(file)
  {
    hide Legal, Run, SenderInv, LinkInv;
    InvHoldsAtStart(file);
    RunKeepsInv(file, START, steps);
    var w := Run(file, START, steps);
    if w.r.Done() {
      SameResidue(|file|, w.acked);
    }
    assert file[..|file|] == file;
  }

  /** The sender's buffer is always the window of at most 31 consecutive chunks behind what was
      dropped, and only written chunks were dropped. */
  lemma SenderDropsOnlyWritten(file: seq<seq<byte>>, steps: seq<Step>)
    requires Readable(file) && Legal(file, START, steps)
    ensures var w := Run(file, START, steps);
      && w.base <= w.r.nbWrited && |w.s.buf| <= MAX_WINDOW
      && w.base + |w.s.buf| == w.cursor + (if EofRead(w.s) then 1 else 0)
      && (forall i :: 0 <= i < |w.s.buf| && w.base + i < |file| ==> w.s.buf[i].Data() == file[w.base + i])
  {
    hide Legal, Run, LinkInv, EndInv;
    InvHoldsAtStart(file);
    RunKeepsInv(file, START, steps);
  }

  lemma AckOnTheWire(m: Datagram)
    requires IsAck(m)
    ensures |m.bytes| == 10 && TypeOf(m.bytes[0]) == PTYPE_ACK
  {
  }

  /** No NACK is ever sent, so the sender never has one to answer: what the link truncates fails
      its checksum instead. */
  lemma NoNackIsEverSent(file: seq<seq<byte>>, steps: seq<Step>)
    requires Readable(file) && Legal(file, START, steps)
    ensures var w := Run(file, START, steps);
      w.s.pktTr == -1 && forall m :: m in w.back ==> |m.bytes| == 10 && TypeOf(m.bytes[0]) == PTYPE_ACK
  {
    hide Legal, Run, EndInv, IsAck;
    InvHoldsAtStart(file);
    RunKeepsInv(file, START, steps);
    var w := Run(file, START, steps);
    forall m | m in w.back
      ensures |m.bytes| == 10 && TypeOf(m.bytes[0]) == PTYPE_ACK
    {
      AckOnTheWire(m);
    }
  }

  /** A chunk that pkt_encode refuses is a barrier: neither it nor anything behind it is written. */
  lemma NothingPastUnencodable(file: seq<seq<byte>>, steps: seq<Step>, a: nat)
    requires Readable(file) && Legal(file, START, steps) && a < |file| && Crc(file[a]) == 0
    ensures var w := Run(file, START, steps); w.r.nbWrited <= a && !w.s.eofAcked && !w.r.Done()
  {
    hide Legal, Run, SenderInv, LinkInv, Joined;
    InvHoldsAtStart(file);
    RunKeepsInv(file, START, steps);
    var w := Run(file, START, steps);
    assert !Encodable(file, a);
    if w.r.Done() {
      SameResidue(|file|, w.acked);
    }
  }

  // ---------- The lookup behind an ACK ----------

  /** The number at the head of the sender's buffer, from the counter and the size alone. */
  function Oldest(s: Sender): SeqNum {
    (s.seqnum + (if s.lastAckToReceive != -1 then 1 else 0) - |s.buf|) % 256
  }

  lemma AheadIsDistance(b: nat, x: nat)
    requires b <= x < b + 256
    ensures Ahead(b % 256, x % 256) == x - b
  {
    ModUnique(x, if x % 256 >= b % 256 then b / 256 else b / 256 + 1, x % 256);
  }

  lemma OldestIsBase(file: seq<seq<byte>>, w: World)
    requires SenderInv(file, w)
    ensures Oldest(w.s) == w.base % 256
  {
    hide Carries;
    var e := if w.s.lastAckToReceive != -1 then 1 else 0;
    var x := w.s.seqnum + e - |w.s.buf|;
    ModUnique(x, w.base / 256 - w.cursor / 256, w.base % 256);
  }

  /** A number is found exactly when it is less than the buffer's size ahead of the oldest. */
  lemma LookUpIsWindow(file: seq<seq<byte>>, w: World, q: SeqNum)
    requires SenderInv(file, w)
    ensures CanLookUp(w.s, q) <==> Ahead(Oldest(w.s), q) < |w.s.buf|
  {
    hide Carries, Oldest, Ahead;
    OldestIsBase(file, w);
    var d := Ahead(w.base % 256, q);
    NumberAhead(w.base, q);
    if d < |w.s.buf| {
      NumbersAre(file, w, d);
    }
    forall i | 0 <= i < |w.s.buf| && Nums(w.s.buf)[i] == q
      ensures d == i
    {
      NumbersAre(file, w, i);
      AheadIsDistance(w.base, w.base + i);
    }
  }

  /** In every reachable state, whether the lookup behind a pending ACK finds a packet can be told
      from the counter, the size of the buffer and the number: it fails exactly for a number that
      is not in the window.  So it fails exactly for an ACK that names a chunk dropped since, or
      everything that was read. */
  lemma LookUpFindsIff(file: seq<seq<byte>>, steps: seq<Step>)
    requires Readable(file) && Legal(file, START, steps)
    ensures var w := Run(file, START, steps); w.s.ackReceived != -1 ==>
      && 0 <= w.s.ackReceived < 256
      && (CanLookUp(w.s, w.s.ackReceived) <==> Ahead(Oldest(w.s), w.s.ackReceived) < |w.s.buf|)
      && (!CanLookUp(w.s, w.s.ackReceived) <==> w.heard < w.base || w.heard == w.base + |w.s.buf|)
  {
    hide Legal, Run, LinkInv, EndInv, CanLookUp, Oldest, Carries, Ahead, ContentInv;
    InvHoldsAtStart(file);
    RunKeepsInv(file, START, steps);
    var w := Run(file, START, steps);
    if w.s.ackReceived != -1 {
      ContentIsSound(file, w.cursor, w.r);
      LookUpIsWindow(file, w, w.s.ackReceived);
      LookUpByIndex(file, w, w.heard);
    }
  }

  // ---------- Limits ----------

  /** One chunk older than the lifetime allows and the receiver may take it for a new one: it
      does exactly when the numbers in between wrapped. */
  lemma LifetimeIsTight(r: Receiver, a: nat)
    requires r.lastWrited == (r.nbWrited - 1) % 256 && r.nbWrited - a == LIFETIME + 1
    ensures InWindow(r.lastWrited, a % 256) <==> a % 256 < r.lastWrited
  {
  }

  lemma FindAt(s: seq<nat>, q: nat, k: nat)
    requires k < |s| && s[k] == q && forall i :: 0 <= i < k ==> s[i] != q
    ensures Find(s, q) == k
  {
  }

  /** 256 chunks on, the number is the same. */
  lemma OnceAround(index: nat, b: nat, i: nat)
    requires b == index + 226 && i < 31
    ensures (b + i) % 256 == index % 256 <==> i == 30
  {
    ModUnique(index + 256, index / 256 + 1, index % 256);
    if (b + i) % 256 == index % 256 {
      SameResidue(b + i, index + 256);
    }
  }

  /** An ACK one chunk older shows the number of the last packet of a full window. */
  lemma TooOldAcks(file: seq<seq<byte>>, w: World, index: nat)
    requires SenderInv(file, w) && w.base - index == LIFETIME + 1
    ensures Acked(w.s, index % 256) == if |w.s.buf| == MAX_WINDOW then 30 else 0
  {
    hide Carries, Find;
    var q, ns := index % 256, Nums(w.s.buf);
    forall i | 0 <= i < |w.s.buf|
      ensures ns[i] == q <==> i == 30
    {
      NumbersAre(file, w, i);
      OnceAround(index, w.base, i);
    }
    if |w.s.buf| == MAX_WINDOW {
      FindAt(ns, q, 30);
    }
  }

  lemma TooOldIsPlausible(file: seq<seq<byte>>, w: World, index: nat)
    requires SenderInv(file, w) && w.base - index == LIFETIME + 1 && |w.s.buf| == MAX_WINDOW
    ensures Plausible(w.s, index % 256)
    ensures EofRead(w.s) ==> index % 256 == w.s.lastAckToReceive
  {
    hide Carries;
  }

  /** So it drops the 30 packets in front of that one, written or not, exactly when the window is
      full; and if the last packet is the EOF, the transfer counts as complete. */
  lemma AckLifetimeIsTight(file: seq<seq<byte>>, w: World, index: nat, p: Pkt)
    requires SenderInv(file, w) && w.base - index == LIFETIME + 1
    requires p.ptype == PTYPE_ACK && p.seqnum == index % 256
    ensures var s := OnAck(w.s, PKT_OK, p);
      && (|s.buf| < |w.s.buf| <==> |w.s.buf| == MAX_WINDOW)
      && (|w.s.buf| == MAX_WINDOW ==> s.buf == w.s.buf[30..] && (EofRead(w.s) ==> s.eofAcked))
  {
    hide SenderInv, Plausible, Acked, Val;
    TooOldAcks(file, w, index);
    if |w.s.buf| == MAX_WINDOW {
      TooOldIsPlausible(file, w, index);
    }
  }

  // ---------- Order in the receiver's buffer ----------

  /** With the first `n` chunks written, chunk `h` from in front of a wrap and chunks `q` and `x` from
      behind it may be on their way at once. */
  ghost predicate MayOvertake(file: seq<seq<byte>>, n: nat, h: nat, q: nat, x: nat) {
    && n <= h < x - x % 256 <= q < x <= n + 30 && x < |file|
    && Encodable(file, h) && Encodable(file, q) && Encodable(file, x)
    && (forall a :: 0 <= a < n ==> Encodable(file, a))
  }

  ghost predicate CanOvertake(file: seq<seq<byte>>) {
    exists n, h, q, x :: MayOvertake(file, n, h, q, x)
  }

  /** For a file without chunks that pkt_encode refuses that is a matter of length. */
  lemma CanOvertakeIff(file: seq<seq<byte>>)
    requires forall a :: 0 <= a < |file| ==> Encodable(file, a)
    ensures CanOvertake(file) <==> |file| >= 258
  {
    hide Encodable;
    if |file| >= 258 {
      assert MayOvertake(file, 254, 255, 256, 257);
    }
  }

  /** The positions on the two sides of a wrap. */
  lemma AcrossTheWrap(n: nat, h: nat, q: nat, x: nat)
    requires n <= h < x <= n + 30 && n <= q <= n + 30
    requires h % 256 > 205 && q % 256 < x % 256 < 50
    ensures h < x - x % 256 <= q < x
  {
  }

  /** An arrival that overtakes is one of these. */
  lemma OvertakingIs(file: seq<seq<byte>>, cursor: nat, r: Receiver, a: nat, p: Pkt)
    requires ContentInv(file, cursor, r) && Ordered(r) && Carries(file, a, p) && Encodable(file, a)
    requires InWindow(r.lastWrited, p.seqnum) && r.nbWrited - a <= LIFETIME && a <= r.nbWrited + 30
    requires Overtakes(Nums(r.buf), p.seqnum)
    ensures CanOvertake(file)
  {
    hide Carries, Encodable, Offset, Joined;
    var s, t := r.buf[0], r.buf[1];
    var h, x := IndexOf(r, s.seqnum), IndexOf(r, t.seqnum);
    CarriesNumber(file, h, s);
    CarriesNumber(file, x, t);
    CarriesNumber(file, a, p);
    InWindowIsAhead(r.lastWrited, p.seqnum);
    NumberTellsIndex(r, a);
    assert Nums(r.buf)[0] == s.seqnum && Nums(r.buf)[1] == t.seqnum;
    assert Offset(r.lastWrited, s.seqnum) < Offset(r.lastWrited, t.seqnum);
    AcrossTheWrap(r.nbWrited, h, a, x);
    assert MayOvertake(file, r.nbWrited, h, a, x);
  }

  lemma DatagramKeepsOrder(
      file: seq<seq<byte>>, cursor: nat, r: Receiver, a: nat, st: Status, p: Pkt, env: Surroundings)
    requires ContentInv(file, cursor, r) && Sound(r) && Ordered(r) && !CanOvertake(file)
    requires (st == PKT_OK && p.ptype == PTYPE_DATA) ==>
      Carries(file, a, p) && Encodable(file, a) && r.nbWrited - a <= LIFETIME && a <= r.nbWrited + 30
    ensures Ordered(OnDatagram(r, st, p, env).0)
  {
    hide OnDatagram, Drain, Carries, Encodable, Place, InWindow, Overtakes, Ordered, ContentInv, CanOvertake;
    DatagramDrains(r, st, p, env);
    if !Judge(r, st, p).Data? {
      OrderedIgnores(r, OnDatagram(r, st, p, env).0);
    } else {
      if Overtakes(Nums(r.buf), p.seqnum) {
        OvertakingIs(file, cursor, r, a, p);
      }
      EnqueueKeepsOrderIff(r, p);
      var s := Stored(r, p, env);
      SoundIgnores(Enqueued(r, p), s);
      OrderedIgnores(Enqueued(r, p), s);
      DrainKeepsOrder(s, env.writable);
      OrderedIgnores(Drain(s, env.writable), OnDatagram(r, st, p, env).0);
    }
  }

  lemma StepKeepsOrder(file: seq<seq<byte>>, w: World, step: Step)
    requires Readable(file) && !CanOvertake(file) && Inv(file, w) && Ordered(w.r)
    requires Enabled(w, step) && Runnable(w)
    ensures Ordered(Apply(file, w, step).r)
  {
    hide Ordered, OnDatagram, Decode, ContentInv, SenderInv, PendingInv, IsData, IsAck, EndInv, OnAck, OnRead, Altered;
    hide CanOvertake, Carries, Encodable;
    if step.DeliverData? {
      var t, env := step.transit, step.env;
      var (st, p) := Decode(t.buffer, |t.Arrived()|, ZERO);
      ArrivesAsSent(file, t);
      SentIsInWindow(file, w, t.msg);
      DatagramKeepsOrder(file, w.cursor, w.r, t.msg.index, st, p, env);
    }
  }

  lemma {:induction false} RunKeepsOrder(file: seq<seq<byte>>, w: World, steps: seq<Step>)
    requires Readable(file) && !CanOvertake(file) && Inv(file, w) && Ordered(w.r) && Legal(file, w, steps)
    ensures Ordered(Run(file, w, steps).r)
    decreases |steps|
  {
    hide Enabled, Ordered, Apply, Inv, CanOvertake;
    if steps != [] {
      StepKeepsInv(file, w, steps[0]);
      StepKeepsOrder(file, w, steps[0]);
      RunKeepsOrder(file, Apply(file, w, steps[0]), steps[1..]);
    }
  }

  /** A file in which nothing can overtake keeps the receiver's buffer in the order in which it has to
      be written, in every reachable state. */
  lemma OrderIsKept(file: seq<seq<byte>>, steps: seq<Step>)
    requires Readable(file) && !CanOvertake(file) && Legal(file, START, steps)
    ensures Ordered(Run(file, START, steps).r)
  {
    hide Legal, Run, Inv, CanOvertake;
    InvHoldsAtStart(file);
    RunKeepsOrder(file, START, steps);
  }

  /** In particular every file of at most 257 chunks does. */
  lemma ShortFilesStayOrdered(file: seq<seq<byte>>, steps: seq<Step>)
    requires Readable(file) && |file| <= 257 && Legal(file, START, steps)
    ensures Ordered(Run(file, START, steps).r)
  {
    hide Legal, Run, Ordered, Encodable;
    OrderIsKept(file, steps);
  }
}
