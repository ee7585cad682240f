/** What one datagram does to the receiver and what it answers, in terms of the datagram and of the
    state alone: which packets are stored, written, dropped and acknowledged, and how. */
module ReceiverLaws {
  import opened Wire
  import opened RingSpec
  import opened ReceiverSpec
  import opened ReceiverTheorems

  /** A DATA packet that the receiver does not hold and that lies 1 to 30 ahead of the last one
      written, or 31 ahead across the wrap. */
  ghost predicate New(r: Receiver, st: Status, p: Pkt)
    requires -1 <= r.lastWrited < 256
  {
    && st == PKT_OK && p.ptype == PTYPE_DATA && p.seqnum !in Nums(r.buf)
    && var ahead := Offset(r.lastWrited, p.seqnum);
      ahead < 30 || (ahead == 30 && p.seqnum < r.lastWrited)
  }

  /** A chunk that has to be stored. */
  ghost predicate NewChunk(r: Receiver, st: Status, p: Pkt)
    requires -1 <= r.lastWrited < 256
  {
    New(r, st, p) && p.tr != 1 && p.length > 0
  }

  /** The end of the file. */
  ghost predicate NewEof(r: Receiver, st: Status, p: Pkt)
    requires -1 <= r.lastWrited < 256
  {
    New(r, st, p) && p.tr != 1 && p.length == 0
  }

  /** A truncated packet, to be asked for again. */
  ghost predicate NewTruncated(r: Receiver, st: Status, p: Pkt)
    requires -1 <= r.lastWrited < 256
  {
    New(r, st, p) && p.tr == 1
  }

  lemma VerdictIs(r: Receiver, st: Status, p: Pkt)
    requires Sound(r)
    ensures -1 <= r.lastWrited < 256
    ensures Judge(r, st, p).Data? <==> NewChunk(r, st, p)
    ensures Judge(r, st, p).Eof? <==> NewEof(r, st, p)
    ensures Judge(r, st, p).Truncated? <==> NewTruncated(r, st, p)
    ensures Judge(r, st, p).Refused? <==> st != PKT_OK || p.ptype != PTYPE_DATA
    ensures Judge(r, st, p).Duplicate? <==> st == PKT_OK && p.ptype == PTYPE_DATA && p.seqnum in Nums(r.buf)
  {
    SoundBounds(r);
    InWindowIsAhead(r.lastWrited, p.seqnum);
  }

  // ---------- Storing ----------

  lemma CutItems(s: seq<Pkt>, k: nat)
    requires k <= |s|
    ensures multiset(s[..k] + s[k..]) == multiset(s)
  {
    assert s == s[..k] + s[k..];
  }

  lemma SumMod(n: nat, i: nat)
    ensures (n % 256 + i) % 256 == (n + i) % 256
  {
  }

  /** The chunks were written one after the other from `n` on, the last of them because no more were
      due or could be written. */
  ghost predicate WrittenFrom(n: nat, written: seq<Pkt>, rest: seq<Pkt>, writable: nat) {
    && (forall i :: 0 <= i < |written| ==> written[i].seqnum == (n + i) % 256)
    && |written| <= writable
    && (|written| == writable || rest == [] || rest[0].seqnum != (n + |written|) % 256)
  }

  lemma RunNumbers(n: nat, s: seq<Pkt>, k: nat)
    requires k <= |s| && IsRun(n % 256, s, k)
    ensures forall i :: 0 <= i < k ==> s[..k][i].seqnum == (n + i) % 256
  {
    forall i | 0 <= i < k
      ensures s[..k][i].seqnum == (n + i) % 256
    {
      SumMod(n, i);
    }
  }

  lemma DrainSplits(s: Receiver, writable: nat) returns (written: seq<Pkt>)
    requires Sound(s)
    ensures var d := Drain(s, writable);
      && multiset(written + d.buf) == multiset(s.buf) && WrittenFrom(s.nbWrited, written, d.buf, writable)
      && d.out == s.out + Concat(written) && d.nbWrited == s.nbWrited + |written|
  {
    hide Drain, Sound, Concat, Pkt.Data, IsRun, Receiver.Expected;
    DrainCounts(s, writable);
    DrainWritesMaximalRun(s, writable);
    ExpectedIs(s);
    var d := Drain(s, writable);
    var k := |s.buf| - |d.buf|;
    written := s.buf[..k];
    CutItems(s.buf, k);
    SumMod(s.nbWrited, k);
    RunNumbers(s.nbWrited, s.buf, k);
  }

  /** A new chunk is never lost: it and what was buffered before are afterwards either written or
      buffered, each exactly once. */
  lemma ChunkIsKept(r: Receiver, p: Pkt, env: Surroundings) returns (written: seq<Pkt>)
    requires Sound(r) && -1 <= r.lastWrited < 256 && NewChunk(r, PKT_OK, p)
    ensures var r' := OnDatagram(r, PKT_OK, p, env).0;
      && multiset(written + r'.buf) == multiset(r.buf + [p])
      && WrittenFrom(r.nbWrited, written, r'.buf, env.writable)
      && r'.out == r.out + Concat(written) && r'.nbWrited == r.nbWrited + |written|
  {
    hide OnDatagram, Drain, Place, InWindow, Sound, Concat, Offset, WrittenFrom, InsertAt;
    VerdictIs(r, PKT_OK, p);
    EnqueueKeepsSound(r, p);
    var s := Stored(r, p, env);
    SoundIgnores(Enqueued(r, p), s);
    written := DrainSplits(s, env.writable);
    DatagramDrains(r, PKT_OK, p, env);
    InsertedItems(r.buf, Place(Nums(r.buf), p.seqnum), p);
  }

  /** Nothing else is ever stored or written. */
  lemma OthersAreDropped(r: Receiver, st: Status, p: Pkt, env: Surroundings)
    requires Sound(r) && -1 <= r.lastWrited < 256 && !NewChunk(r, st, p)
    ensures var r' := OnDatagram(r, st, p, env).0;
      && r'.buf == r.buf && r'.out == r.out && r'.nbWrited == r.nbWrited && r'.lastWrited == r.lastWrited
      && r'.timeLastData == r.timeLastData
  {
    hide Drain, Place, InWindow, Sound, Offset;
    VerdictIs(r, st, p);
  }

  /** What ends the transfer is the last EOF that was new, however early it came. */
  lemma EofIsNoted(r: Receiver, st: Status, p: Pkt, env: Surroundings)
    requires Sound(r) && -1 <= r.lastWrited < 256
    ensures OnDatagram(r, st, p, env).0.lastackToSend == if NewEof(r, st, p) then p.seqnum else r.lastackToSend
    ensures NewChunk(r, st, p) ==> OnDatagram(r, st, p, env).0.timeLastData == env.now
  {
    hide Drain, Place, InWindow, Sound, Offset;
    VerdictIs(r, st, p);
    DrainLeavesTheRest(Stored(r, p, env), env.writable);
  }

  /** The chunk that is due never overtakes. */
  lemma ExpectedOvertakesNothing(r: Receiver, p: Pkt)
    requires Sound(r) && p.seqnum == r.Expected()
    ensures !Overtakes(Nums(r.buf), p.seqnum)
  {
    SoundBounds(r);
    if |r.buf| >= 2 {
      assert Offset(r.lastWrited, r.buf[0].seqnum) < MAX_WINDOW;
      assert Nums(r.buf)[0] == r.buf[0].seqnum && Nums(r.buf)[1] == r.buf[1].seqnum;
    }
  }

  lemma StillThere(r: Receiver, p: Pkt, buf: seq<Pkt>)
    requires multiset([] + buf) == multiset(r.buf + [p])
    ensures p.seqnum in Nums(buf)
  {
    assert p in multiset(r.buf + [p]) && [] + buf == buf;
    assert p in buf;
    var i :| 0 <= i < |buf| && buf[i] == p;
    assert Nums(buf)[i] == p.seqnum;
  }

  /** The expected chunk makes progress: where the buffer is in order and writes succeed, it is written
      together with everything that waited for it, and the buffer stays in order. */
  lemma ExpectedMakesProgress(r: Receiver, p: Pkt, env: Surroundings)
    requires Sound(r) && Ordered(r) && -1 <= r.lastWrited < 256 && env.writable > MAX_WINDOW
    requires NewChunk(r, PKT_OK, p) && p.seqnum == r.nbWrited % 256
    ensures var r' := OnDatagram(r, PKT_OK, p, env).0;
      r'.nbWrited > r.nbWrited && Ordered(r') && r'.nbWrited % 256 !in Nums(r'.buf)
  {
    hide OnDatagram, Drain, Place, InWindow, Sound, Concat, Offset, InsertAt, Nums, Overtakes, Ordered;
    VerdictIs(r, PKT_OK, p);
    ExpectedIs(r);
    ExpectedOvertakesNothing(r, p);
    EnqueueKeepsOrderIff(r, p);
    BufferFitsWindow(Enqueued(r, p));
    var s := Stored(r, p, env);
    SoundIgnores(Enqueued(r, p), s);
    OrderedIgnores(Enqueued(r, p), s);
    DrainKeepsOrder(s, env.writable);
    OrderedDrainLeavesGap(s, env.writable);
    DrainKeepsSound(s, env.writable);
    var r' := OnDatagram(r, PKT_OK, p, env).0;
    DatagramDrains(r, PKT_OK, p, env);
    OrderedIgnores(Drain(s, env.writable), r');
    ExpectedIs(r');
    var written := ChunkIsKept(r, p, env);
    if written == [] {
      StillThere(r, p, r'.buf);
    }
  }

  // ---------- Answering ----------

  /** An acknowledgement falls due: after some time, with the seventh datagram since the last one,
      for a datagram that was refused, a chunk that is buffered already, an EOF, and as long as only
      one chunk was written.  A truncated packet is asked for again instead. */
  ghost predicate Due(r: Receiver, st: Status, p: Pkt, env: Surroundings, nbWrited: nat)
    requires -1 <= r.lastWrited < 256
  {
    !NewTruncated(r, st, p) &&
    (env.late || r.accumulated >= 6 || st != PKT_OK || p.ptype != PTYPE_DATA || p.seqnum in Nums(r.buf) ||
     NewEof(r, st, p) || nbWrited == 1)
  }

  /** When the receiver answers, what the answer says and what the receiver remembers of it.  The window
      it grants is what the buffer leaves of 31, the time stamp that of the last chunk stored. */
  lemma AnswerIs(r: Receiver, st: Status, p: Pkt, env: Surroundings)
    requires Sound(r) && -1 <= r.lastWrited < 256
    ensures var (r', reply) := OnDatagram(r, st, p, env);
      var truncated, due := NewTruncated(r, st, p), Due(r, st, p, env, r'.nbWrited);
      && (reply.Reply? <==> env.sendOk && (truncated || due))
      && (reply.Reply? ==>
        && reply.ptype == (if truncated then PTYPE_NACK else PTYPE_ACK)
        && reply.seqnum == (if truncated then p.seqnum else r'.nbWrited % 256)
        && Val(reply.window) + |r'.buf| == 31 && reply.timestamp == r'.timeLastData)
      && r'.lastAcked == (if reply.Reply? && !truncated then r'.nbWrited % 256 else r.lastAcked)
      && r'.accumulated == (if due then 0 else r.accumulated + 1)
  {
    hide Drain, Place, InWindow, Sound, Offset, ToByte, Val;
    VerdictIs(r, st, p);
    DrainLeavesTheRest(Stored(r, p, env), env.writable);
    AbsorbKeepsSound(r, st, p, env);
    ExpectedIs(Absorb(r, st, p, env));
  }

  /** Datagrams, one after the other, none of which is answered. */
  ghost predicate Unanswered(r: Receiver, arrivals: seq<Arrival>)
    requires Sound(r)
    decreases |arrivals|
  {
    arrivals == [] ||
    (var a := arrivals[0];
     var (r', reply) := OnDatagram(r, a.st, a.pkt, a.env);
     a.env.sendOk && reply.NoReply? && Unanswered(r', arrivals[1..]))
  }

  /** As long as it can send, the receiver leaves at most six datagrams in a row unanswered. */
  lemma {:induction false} SilenceIsShort(r: Receiver, arrivals: seq<Arrival>)
    requires Sound(r) && arrivals != [] && Unanswered(r, arrivals)
    ensures r.accumulated + |arrivals| <= 6
    decreases |arrivals|
  {
    hide OnDatagram, Sound, New;
    SoundBounds(r);
    var a := arrivals[0];
    AnswerIs(r, a.st, a.pkt, a.env);
    if |arrivals| > 1 {
      SilenceIsShort(OnDatagram(r, a.st, a.pkt, a.env).0, arrivals[1..]);
    }
  }
}
