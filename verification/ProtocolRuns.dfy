/** Runs of the transition system, put together step by step: how a chunk gets through. */
module ProtocolRuns {
  import opened Crc32
  import opened Wire
  import opened WireTheorems
  import opened ReceiverSpec
  import opened ReceiverTheorems
  import opened SenderSpec
  import opened Protocol
  import opened ProtocolInvariant

  /** Some run of `n` steps leads from `w` to `w'`. */
  ghost predicate Reaches(file: seq<seq<byte>>, w: World, n: nat, w': World)
    requires Readable(file)
  {
    exists steps :: |steps| == n && Legal(file, w, steps) && Run(file, w, steps) == w'
  }

  lemma ReachesItself(file: seq<seq<byte>>, w: World)
    requires Readable(file)
    ensures Reaches(file, w, 0, w)
  {
    var none: seq<Step> := [];
    assert |none| == 0 && Legal(file, w, none) && Run(file, w, none) == w;
  }

  lemma StepReaches(file: seq<seq<byte>>, w: World, step: Step)
    requires Readable(file) && Runnable(w) && Enabled(w, step)
    ensures Reaches(file, w, 1, Apply(file, w, step))
  {
    hide Enabled, Apply, Runnable;
    var steps := [step];
    assert steps[1..] == [];
    assert |steps| == 1 && Legal(file, w, steps) && Run(file, w, steps) == Apply(file, w, step);
  }

  lemma {:induction false} LegalAppend(file: seq<seq<byte>>, w: World, s: seq<Step>, t: seq<Step>)
    requires Readable(file) && Legal(file, w, s) && Legal(file, Run(file, w, s), t)
    ensures Legal(file, w, s + t) && Run(file, w, s + t) == Run(file, Run(file, w, s), t)
    decreases |s|
  {
    hide Apply, Enabled, Runnable;
    if s == [] {
      assert s + t == t;
    } else {
      LegalAppend(file, Apply(file, w, s[0]), s[1..], t);
      assert (s + t)[0] == s[0] && (s + t)[1..] == s[1..] + t;
    }
  }

  lemma ReachesOn(file: seq<seq<byte>>, a: World, m: nat, b: World, n: nat, c: World)
    requires Readable(file) && Reaches(file, a, m, b) && Reaches(file, b, n, c)
    ensures Reaches(file, a, m + n, c)
  {
    hide Legal, Run;
    var s :| |s| == m && Legal(file, a, s) && Run(file, a, s) == b;
    var t :| |t| == n && Legal(file, b, t) && Run(file, b, t) == c;
    LegalAppend(file, a, s, t);
    assert |s + t| == m + n && Legal(file, a, s + t) && Run(file, a, s + t) == c;
  }

  // ---------- The sender reads and sends ----------

  /** Everything in the buffer was sent at least once. */
  ghost predicate AllSent(s: Sender) {
    forall i :: 0 <= i < |s.buf| ==> s.buf[i].timestamp != 0
  }

  lemma ReadOne(file: seq<seq<byte>>, w: World) returns (w': World)
    requires Readable(file) && Inv(file, w) && !w.s.Done() && !EofRead(w.s) && !Full(w.s)
    ensures Reaches(file, w, 1, w') && Inv(file, w')
    ensures w' == w.(s := w'.s, cursor := w'.cursor)
    ensures w'.s == w.s.(buf := w'.s.buf, seqnum := w'.s.seqnum, nbSended := w'.s.nbSended,
                         lastAckToReceive := w'.s.lastAckToReceive)
    ensures |w'.s.buf| == |w.s.buf| + 1 && w'.s.buf[..|w.s.buf|] == w.s.buf && w'.s.buf[|w.s.buf|].timestamp == 0
    ensures if w.cursor < |file| then w'.cursor == w.cursor + 1 && !EofRead(w'.s)
            else w'.cursor == w.cursor && EofRead(w'.s)
  {
    hide Carries, PendingInv, ReceiverInv, LinkInv, EndInv, OnRead;
    InvRunnable(file, w);
    StepReaches(file, w, Read(ZERO));
    StepKeepsInv(file, w, Read(ZERO));
    ReadStepIs(file, w, ZERO);
    w' := Apply(file, w, Read(ZERO));
  }

  lemma EncodableIsSent(file: seq<seq<byte>>, a: nat, p: Pkt)
    requires Readable(file) && Carries(file, a, p) && Encodable(file, a)
    ensures EncodeStatus(p) == PKT_OK
  {
  }

  lemma SendUnsentIs(s: Sender, n: nat)
    requires |s.buf| == n + 1 && s.buf[n].timestamp == 0
    requires forall i :: 0 <= i < n ==> s.buf[i].timestamp != 0
    ensures FirstUnsent(s.buf) == n
    ensures var p := s.buf[n].(timestamp := 1);
      && SendUnsent(s, 1) == (s.(buf := s.buf[n := p]), if EncodeStatus(p) == PKT_OK then Some(Encoding(p)) else None)
      && AllSent(s.(buf := s.buf[n := p]))
  {
    hide Encoding, EncodeStatus;
  }

  lemma TailEncodes(file: seq<seq<byte>>, w: World, n: nat)
    requires Readable(file) && Inv(file, w) && n < |w.s.buf| && Encodable(file, w.base + n)
    ensures var p := w.s.buf[n].(timestamp := 1);
      EncodeStatus(p) == PKT_OK && Encodes(file, Datagram(w.base + n, Encoding(p)), p)
  {
    hide Carries, Encoding, EncodeStatus, Encodable, PendingInv, ReceiverInv, LinkInv, EndInv;
    StampKeepsCarries(file, w.base + n, w.s.buf[n], 1);
    EncodableIsSent(file, w.base + n, w.s.buf[n].(timestamp := 1));
  }

  /** The packet at the tail is the first that was never sent; it is put on the wire unless
      pkt_encode refuses it. */
  lemma SendLast(file: seq<seq<byte>>, w: World, n: nat) returns (w': World, m: Datagram)
    requires Readable(file) && Inv(file, w) && !w.s.Done()
    requires |w.s.buf| == n + 1 && w.s.buf[n].timestamp == 0
    requires forall i :: 0 <= i < n ==> w.s.buf[i].timestamp != 0
    ensures Reaches(file, w, 1, w') && Inv(file, w')
    ensures w' == w.(s := w'.s, forward := w'.forward) && w.forward <= w'.forward
    ensures Encodable(file, w.base + n) ==> m in w'.forward && m.index == w.base + n
    ensures w'.s == w.s.(buf := w'.s.buf) && |w'.s.buf| == n + 1 && AllSent(w'.s)
  {
    hide Inv, Encoding, EncodeStatus, Encodes, Encodable, Runnable, SendUnsent, FirstUnsent, AllSent, Reaches;
    InvRunnable(file, w);
    if Encodable(file, w.base + n) {
      TailEncodes(file, w, n);
    }
    SendUnsentIs(w.s, n);
    StepReaches(file, w, FirstSend(1));
    StepKeepsInv(file, w, FirstSend(1));
    m := Datagram(w.base + n, Encoding(w.s.buf[n].(timestamp := 1)));
    w' := Apply(file, w, FirstSend(1));
  }

  lemma InvSender(file: seq<seq<byte>>, w: World)
    requires Inv(file, w)
    ensures w.base + |w.s.buf| == w.cursor + (if EofRead(w.s) then 1 else 0)
    ensures w.base <= w.acked <= w.r.nbWrited <= w.cursor <= |file|
    ensures w.s.nbSended == w.cursor && (EofRead(w.s) ==> w.s.lastAckToReceive == |file| % 256)
  {
    hide Carries, PendingInv, LinkInv, EndInv;
  }

  /** The next chunk, or the EOF, is read and sent. */
  lemma ReadAndSend(file: seq<seq<byte>>, w: World) returns (w': World, m: Datagram)
    requires Readable(file) && Inv(file, w) && !w.s.Done() && !EofRead(w.s) && !Full(w.s) && AllSent(w.s)
    ensures Reaches(file, w, 2, w') && Inv(file, w')
    ensures w' == w.(s := w'.s, cursor := w'.cursor, forward := w'.forward) && w.forward <= w'.forward
    ensures Encodable(file, w.cursor) ==> m in w'.forward && m.index == w.cursor
    ensures w'.s == w.s.(buf := w'.s.buf, seqnum := w'.s.seqnum, nbSended := w'.s.nbSended,
                         lastAckToReceive := w'.s.lastAckToReceive)
    ensures |w'.s.buf| == |w.s.buf| + 1 && AllSent(w'.s)
    ensures if w.cursor < |file| then w'.cursor == w.cursor + 1 && !EofRead(w'.s)
            else w'.cursor == w.cursor && EofRead(w'.s)
  {
    hide Inv, Reaches, Encodable;
    InvSender(file, w);
    var v := ReadOne(file, w);
    w', m := SendLast(file, v, |w.s.buf|);
    ReachesOn(file, w, 1, v, 1, w');
  }

  // ---------- A datagram arrives unaltered ----------

  /** Delivered unaltered into a cleared buffer. */
  function Clean(m: Datagram): Transit {
    Transit(m, Intact, m.bytes + seq(MAX_PKT_SIZE, _ => 0))
  }

  lemma CleanFits(m: Datagram)
    ensures Clean(m).Possible() && Clean(m).Fits() && Clean(m).Arrived() == m.bytes
  {
  }

  /** Everything succeeds, and an acknowledgement is due. */
  const PROMPT := Surroundings(0, true, 31, true)

  /** An acknowledgement that opens the whole window. */
  ghost predicate OpensWindow(m: Datagram) {
    exists reply :: Acknowledges(m, reply) && reply.window == ToByte(31)
  }

  /** The receiver got `q`, and its acknowledgement, if it sent one that opens the window, is on
      its way. */
  ghost predicate Took(w: World, q: Pkt, env: Surroundings, w': World)
    requires Sound(w.r)
  {
    var (r, reply) := OnDatagram(w.r, PKT_OK, q, env);
    && w' == w.(r := r, acked := w'.acked, back := w'.back) && w.back <= w'.back
    && (reply.Reply? && reply.ptype == PTYPE_ACK && reply.seqnum == r.nbWrited % 256 && reply.window == ToByte(31)
        ==> exists a :: a in w'.back && a.index == r.nbWrited && OpensWindow(a))
  }

  lemma InvSound(file: seq<seq<byte>>, w: World)
    requires Inv(file, w)
    ensures Sound(w.r)
  {
    hide Sound;
  }

  lemma Deliver(file: seq<seq<byte>>, w: World, m: Datagram, env: Surroundings) returns (w': World, q: Pkt)
    requires Readable(file) && Inv(file, w) && m in w.forward && !w.r.Done()
    requires w.r.nbWrited - m.index <= LIFETIME
    ensures Reaches(file, w, 1, w') && Inv(file, w')
    ensures Carries(file, m.index, q) && Encodable(file, m.index) && Sound(w.r) && Took(w, q, env, w')
  {
    hide Carries, Encoding, Decode, OnDatagram, Sound, IsData, Altered, Reaches, SenderInv, PendingInv, EndInv;
    hide ToByte, Receiver.Done;
    InvRunnable(file, w);
    InvSound(file, w);
    CleanFits(m);
    var step := DeliverData(Clean(m), env);
    StepReaches(file, w, step);
    StepKeepsInv(file, w, step);
    ArrivesAsSent(file, Clean(m));
    q := Decode(Clean(m).buffer, |Clean(m).Arrived()|, ZERO).1;
    w' := Apply(file, w, step);
    var (r, reply) := OnDatagram(w.r, PKT_OK, q, env);
    if reply.Reply? && reply.ptype == PTYPE_ACK && reply.seqnum == r.nbWrited % 256 && reply.window == ToByte(31) {
      var a := Datagram(r.nbWrited, Encoding(reply.Packet()));
      WindowByte(ToByte(31));
      assert Acknowledges(a, reply);
      assert a in w'.back && OpensWindow(a);
    }
  }

  lemma OpenAckArrives(m: Datagram)
    requires OpensWindow(m)
    ensures Clean(m).Possible() && Covers(Clean(m).buffer, |Clean(m).Arrived()|)
    ensures var (st, q) := Decode(Clean(m).buffer, |Clean(m).Arrived()|, ZERO);
      st == PKT_OK && q.ptype == PTYPE_ACK && q.seqnum == m.index % 256 && Val(q.window) == 31
  {
    hide Decode, Encoding, EncodeStatus, Sendable;
    CleanFits(m);
    var reply :| Acknowledges(m, reply) && reply.window == ToByte(31);
    AckIsSendable(m, reply);
    DecodeUndoesEncode(reply.Packet(), Clean(m).buffer, |Clean(m).Arrived()|, ZERO);
  }

  /** What an acknowledgement for chunk `index` that opens the window makes of the sender. */
  ghost predicate Heeded(s: Sender, k: nat, q: SeqNum, t: Sender)
    requires k <= |s.buf|
  {
    var settled := k > 0 || s.lastAckToReceive != -1;
    t == s.(window := 31, buf := s.buf[k..], ackReceived := if settled then -1 else q,
            eofAcked := s.eofAcked || (settled && q == s.lastAckToReceive))
  }

  lemma OnAckHeeds(s: Sender, p: Pkt)
    requires p.ptype == PTYPE_ACK && Plausible(s, p.seqnum) && Val(p.window) == 31
    ensures Heeded(s, Acked(s, p.seqnum), p.seqnum, OnAck(s, PKT_OK, p))
  {
    hide Acked, Val;
  }

  lemma Hear(file: seq<seq<byte>>, w: World, m: Datagram) returns (w': World)
    requires Readable(file) && Inv(file, w) && m in w.back && OpensWindow(m) && !w.s.Done()
    requires Plausible(w.s, m.index % 256) && w.base - m.index <= LIFETIME
    ensures Reaches(file, w, 1, w') && Inv(file, w')
    ensures m.index <= w.base + |w.s.buf|
    ensures var k := if w.base <= m.index < w.base + |w.s.buf| then m.index - w.base else 0;
      && w' == w.(s := w'.s, base := w.base + k, heard := m.index, granted := 31)
      && Heeded(w.s, k, m.index % 256, w'.s)
  {
    hide Carries, Encoding, Decode, IsData, IsAck, Altered, OpensWindow, Reaches, ContentInv, EndInv, Acked, OnAck;
    hide Plausible, Val;
    InvRunnable(file, w);
    CleanFits(m);
    var step := DeliverAck(Clean(m));
    StepReaches(file, w, step);
    StepKeepsInv(file, w, step);
    OpenAckArrives(m);
    var q := Decode(Clean(m).buffer, |Clean(m).Arrived()|, ZERO).1;
    ContentIsSound(file, w.cursor, w.r);
    AckedIs(file, w, m.index);
    OnAckHeeds(w.s, q);
    w' := Apply(file, w, step);
  }

  // ---------- One more chunk ----------

  /** Chunk `a` may still arrive. */
  ghost predicate UnderWay(forward: set<Datagram>, a: nat) {
    exists m :: m in forward && m.index == a
  }

  /** The acknowledgement that was sent after chunk `a` was written may still arrive. */
  ghost predicate AckUnderWay(back: set<Datagram>, a: nat) {
    exists m :: m in back && m.index == a + 1 && OpensWindow(m)
  }

  /** Everything that was read was sent, written and acknowledged; the packet of the last chunk is
      still in the buffer, and whatever was sent may still arrive. */
  ghost predicate Quiet(file: seq<seq<byte>>, w: World) {
    && Inv(file, w) && w.r.nbWrited == w.cursor && w.r.lastackToSend == -2
    && !EofRead(w.s) && !w.s.Done() && AllSent(w.s)
    && |w.s.buf| == (if w.cursor == 0 then 0 else 1) && w.s.window == (if w.cursor == 0 then 1 else 31)
    && (forall a :: 0 <= a < w.cursor ==> UnderWay(w.forward, a))
    && (forall a :: 0 <= a < w.cursor ==> AckUnderWay(w.back, a))
  }

  lemma StartIsQuiet(file: seq<seq<byte>>)
    requires Readable(file)
    ensures Quiet(file, START)
  {
    InvHoldsAtStart(file);
  }

  lemma NotDone(file: seq<seq<byte>>, w: World)
    requires Inv(file, w) && w.r.lastackToSend == -2
    ensures !w.r.Done()
  {
    hide ContentInv;
  }

  lemma BufferedIsAhead(file: seq<seq<byte>>, w: World)
    requires Inv(file, w)
    ensures w.r.buf != [] ==> w.r.nbWrited < w.cursor
  {
    hide Carries, Encodable;
    if w.r.buf != [] {
      assert IndexOf(w.r, w.r.buf[0].seqnum) < w.cursor;
    }
  }

  lemma QuietReceiver(file: seq<seq<byte>>, w: World)
    requires Inv(file, w) && w.r.nbWrited == w.cursor && w.r.lastackToSend == -2
    ensures Sound(w.r) && w.r.buf == [] && !w.r.Done()
  {
    hide Carries, Encodable;
    if w.r.buf != [] {
      BufferedIsAhead(file, w);
    }
  }

  lemma ChunkIs(file: seq<seq<byte>>, a: nat, q: Pkt)
    requires Readable(file) && Carries(file, a, q)
    ensures a < |file| ==> IsChunk(q, a % 256) && q.Data() == file[a]
    ensures a == |file| ==> q.ptype == PTYPE_DATA && q.tr == 0 && q.length == 0 && q.seqnum == a % 256
  {
  }

  /** A chunk that has reached the receiver before any other that is missing. */
  lemma DeliverNext(file: seq<seq<byte>>, w: World, m: Datagram) returns (w': World, a: Datagram)
    requires Readable(file) && Inv(file, w) && Sound(w.r) && w.r.buf == [] && w.r.lastackToSend == -2 && !w.r.Done()
    requires m in w.forward && m.index == w.r.nbWrited < |file|
    ensures Reaches(file, w, 1, w') && Inv(file, w')
    ensures w' == w.(r := w'.r, acked := w'.acked, back := w'.back) && w.back <= w'.back
    ensures w'.r.nbWrited == w.r.nbWrited + 1 && w'.r.lastackToSend == -2
    ensures a in w'.back && a.index == w'.r.nbWrited && OpensWindow(a)
  {
    hide Inv, Reaches, OnDatagram, Sound, Carries, Receiver.Done, OpensWindow, ToByte;
    var q;
    w', q := Deliver(file, w, m, PROMPT);
    ChunkIs(file, m.index, q);
    NextIsWritten(w.r, q, PROMPT);
    a :| a in w'.back && a.index == w'.r.nbWrited && OpensWindow(a);
  }

  /** The EOF, which has reached the receiver after everything else. */
  lemma DeliverEof(file: seq<seq<byte>>, w: World, m: Datagram) returns (w': World, a: Datagram)
    requires Readable(file) && Inv(file, w) && Sound(w.r) && w.r.buf == [] && !w.r.Done()
    requires m in w.forward && m.index == w.r.nbWrited == |file|
    ensures Reaches(file, w, 1, w') && Inv(file, w')
    ensures w' == w.(r := w'.r, acked := w'.acked, back := w'.back) && w'.r.Done()
    ensures a in w'.back && a.index == |file| && OpensWindow(a)
  {
    hide Inv, Reaches, OnDatagram, Sound, Carries, Receiver.Done, OpensWindow, ToByte;
    var q;
    w', q := Deliver(file, w, m, PROMPT);
    ChunkIs(file, m.index, q);
    EofIsTaken(w.r, q, PROMPT);
    a :| a in w'.back && a.index == w'.r.nbWrited && OpensWindow(a);
  }

  /** The acknowledgement that leaves one packet in the buffer: of the first chunk itself, or else
      of the chunk before the last. */
  lemma HearOne(file: seq<seq<byte>>, w: World, m: Datagram) returns (w': World)
    requires Readable(file) && Inv(file, w) && m in w.back && OpensWindow(m)
    requires !EofRead(w.s) && !w.s.Done() && AllSent(w.s) && w.cursor > 0
    requires |w.s.buf| == (if w.cursor == 1 then 1 else 2) && m.index == (if w.cursor == 1 then 1 else w.cursor - 1)
    ensures Reaches(file, w, 1, w') && Inv(file, w')
    ensures w' == w.(s := w'.s, base := w'.base, heard := w'.heard, granted := 31)
    ensures !EofRead(w'.s) && !w'.s.Done() && AllSent(w'.s) && |w'.s.buf| == 1 && w'.s.window == 31
  {
    hide Inv, Reaches, OpensWindow;
    InvSender(file, w);
    w' := Hear(file, w, m);
  }

  lemma OneMore(file: seq<seq<byte>>, w: World) returns (w': World)
    requires Readable(file) && Quiet(file, w) && w.cursor < |file| && Crc(file[w.cursor]) != 0
    ensures Reaches(file, w, 4, w') && Quiet(file, w') && w'.cursor == w.cursor + 1
  {
    hide Inv, Reaches, OpensWindow, Sound, AllSent, Receiver.Done, Crc;
    QuietReceiver(file, w);
    var w1, m := ReadAndSend(file, w);
    var w2, a := DeliverNext(file, w1, m);
    ReachesOn(file, w, 2, w1, 1, w2);
    var b := a;
    if w.cursor > 0 {
      assert AckUnderWay(w.back, w.cursor - 1);
      b :| b in w.back && b.index == w.cursor && OpensWindow(b);
    }
    w' := HearOne(file, w2, b);
    assert m in w'.forward && a in w'.back;
    forall c | 0 <= c < w'.cursor
      ensures UnderWay(w'.forward, c) && AckUnderWay(w'.back, c)
    {
      assert c < w.cursor ==> UnderWay(w.forward, c) && AckUnderWay(w.back, c);
    }
    ReachesOn(file, w, 3, w2, 1, w');
  }

  /** The first `n` chunks go through. */
  lemma {:induction false} GoThrough(file: seq<seq<byte>>, n: nat) returns (w: World)
    requires Readable(file) && n <= |file| && forall i :: 0 <= i < n ==> Crc(file[i]) != 0
    ensures Reaches(file, START, 4 * n, w) && Quiet(file, w) && w.cursor == n
  {
    hide Reaches, Quiet, Crc;
    if n == 0 {
      w := START;
      StartIsQuiet(file);
      ReachesItself(file, START);
    } else {
      var v := GoThrough(file, n - 1);
      w := OneMore(file, v);
      ReachesOn(file, START, 4 * (n - 1), v, 4, w);
    }
  }
}
