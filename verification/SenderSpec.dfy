/** The sender of src/sender.c as functions on its globals, the locals of its loop and its
    buffer: one function for each step of the loop. */
module SenderSpec {
  import opened Crc32
  import opened Wire
  import opened RingSpec
  import opened ReceiverSpec

  const RTO: bv32 := 2

  datatype Sender = Sender(
    window: nat, seqnum: SeqNum, nbSended: nat, lastAckToReceive: int, buf: seq<Pkt>,
    pktTr: int, ackReceived: int, eofAcked: bool, eofTimeouts: nat, gaveUp: bool)
  {
    /** The loop has ended, acknowledged or not. */
    predicate Done() {
      eofAcked || gaveUp
    }
  }

  const INITIAL_SENDER := Sender(1, 0, 0, -1, [], -1, -1, false, 0, false)

  /** What read makes of the input file. */
  datatype Input = ReadError | Chunk(data: seq<byte>) | EndOfFile

  // ---------- Reading ----------

  /** The packet read_file builds from a packet with `prior` content. */
  function ReadPkt(s: Sender, input: Input, prior: Pkt): Pkt
    requires s.window <= MAX_WINDOW
    requires input.Chunk? ==> |input.data| <= MAX_PAYLOAD_SIZE
  {
    var p := prior.(ptype := PTYPE_DATA, tr := 0, window := ToByte(s.window), timestamp := 0, seqnum := s.seqnum);
    if input.Chunk? then p.(length := |input.data|, payload := Some(input.data)) else p.(length := 0)
  }

  function Append(s: Sender, p: Pkt): Sender {
    s.(buf := InsertAt(s.buf, Place(Nums(s.buf), p.seqnum), p))
  }

  /** The counters after read_file. */
  function Counted(s: Sender, input: Input): Sender {
    if input.Chunk? then s.(seqnum := Successor(s.seqnum), nbSended := s.nbSended + 1) else s
  }

  /** read_file does not read. */
  predicate Full(s: Sender) {
    |s.buf| >= s.window
  }

  /** The read step: nothing is read while the buffer fills the window; what is read after the
      end of the file was seen is dropped. */
  function OnRead(s: Sender, input: Input, prior: Pkt): Sender
    requires s.window <= MAX_WINDOW
    requires input.Chunk? ==> 0 < |input.data| <= MAX_PAYLOAD_SIZE
  {
    if Full(s) || input.ReadError? then s else
    var p, t := ReadPkt(s, input, prior), Counted(s, input);
    if s.lastAckToReceive != -1 then t
    else if input.Chunk? then Append(t, p)
    else Append(t.(lastAckToReceive := s.seqnum), p)
  }

  // ---------- Sending ----------

  /** send_pkt of the buffered packet at `k`: it is stamped, and put on the wire unless
      pkt_encode refuses it. */
  function SendAt(s: Sender, k: nat, now: bv32): (Sender, Option<seq<byte>>)
    requires k < |s.buf|
  {
    var p := s.buf[k].(timestamp := now);
    (s.(buf := s.buf[k := p]), if EncodeStatus(p) == PKT_OK then Some(Encoding(p)) else None)
  }

  /** A pending number that the buffer does not hold makes the loop follow a null pointer. */
  predicate CanLookUp(s: Sender, number: int) {
    number == -1 || number in Nums(s.buf)
  }

  /** The resend that a received ACK asks for. */
  function ResendAcked(s: Sender, now: bv32): (Sender, Option<seq<byte>>)
    requires CanLookUp(s, s.ackReceived)
  {
    if s.ackReceived == -1 then (s, None) else
    var (t, bytes) := SendAt(s, Find(Nums(s.buf), s.ackReceived), now);
    (t.(ackReceived := -1), bytes)
  }

  /** The resend that a received NACK asks for. */
  function ResendTruncated(s: Sender, now: bv32): (Sender, Option<seq<byte>>)
    requires CanLookUp(s, s.pktTr)
  {
    if s.pktTr == -1 then (s, None) else
    var (t, bytes) := SendAt(s, Find(Nums(s.buf), s.pktTr), now);
    (t.(pktTr := -1), bytes)
  }

  /** 32-bit modular, as in the code. */
  predicate TimedOut(t: bv32, now: bv32) {
    now - t > RTO
  }

  /** A timestamp of 0 means never sent. */
  predicate Overdue(p: Pkt, now: bv32) {
    p.timestamp != 0 && TimedOut(p.timestamp, now)
  }

  /** The stamp of an overdue packet that is not resent now. */
  function Sooner(now: bv32): bv32 {
    now - RTO / 2
  }

  /** The first overdue packet, or the number of packets, when the clock reads `scan(i)` at packet
      `i`. */
  function FirstOverdue(buf: seq<Pkt>, scan: nat -> bv32): (k: nat)
    ensures k <= |buf|
    ensures forall i :: 0 <= i < k ==> !Overdue(buf[i], scan(i))
    ensures k < |buf| ==> Overdue(buf[k], scan(k))
  {
    if buf == [] then 0 else
    var n := |buf| - 1;
    var k := FirstOverdue(buf[..n], scan);
    if k < n || Overdue(buf[n], scan(n)) then k else n + 1
  }

  /** look_for_timedout_packet restamps what is overdue: the first with the current time, the
      others so that they fall due again sooner. */
  function Scanned(buf: seq<Pkt>, scan: nat -> bv32): (t: seq<Pkt>)
    ensures |t| == |buf|
  {
    var k := FirstOverdue(buf, scan);
    seq(|buf|, i requires 0 <= i < |buf| =>
      if !Overdue(buf[i], scan(i)) then buf[i]
      else buf[i].(timestamp := if i == k then scan(i) else Sooner(scan(i))))
  }

  /** A resend after a time-out; the fourth of the EOF ends the loop instead. */
  function ResendLate(s: Sender, k: nat, now: bv32): (Sender, Option<seq<byte>>)
    requires k < |s.buf|
  {
    var eof := s.buf[k].seqnum == s.lastAckToReceive;
    var t := s.(eofTimeouts := if eof then s.eofTimeouts + 1 else s.eofTimeouts);
    if eof && t.eofTimeouts == 4 then (t.(gaveUp := true), None) else SendAt(t, k, now)
  }

  /** The time-out step: the first packet that timed out is sent again. */
  function ResendTimedOut(s: Sender, scan: nat -> bv32, now: bv32): (Sender, Option<seq<byte>>) {
    var k, t := FirstOverdue(s.buf, scan), s.(buf := Scanned(s.buf, scan));
    if k == |s.buf| then (t, None) else ResendLate(t, k, now)
  }

  /** The first packet never sent, or the number of packets. */
  function FirstUnsent(buf: seq<Pkt>): (k: nat)
    ensures k <= |buf|
    ensures forall i :: 0 <= i < k ==> buf[i].timestamp != 0
    ensures k < |buf| ==> buf[k].timestamp == 0
  {
    if buf == [] then 0 else if buf[0].timestamp == 0 then 0 else 1 + FirstUnsent(buf[1..])
  }

  function SendUnsent(s: Sender, now: bv32): (Sender, Option<seq<byte>>) {
    var k := FirstUnsent(s.buf);
    if k == |s.buf| then (s, None) else SendAt(s, k, now)
  }

  // ---------- Receiving ----------

  /** The numbers the loop takes an acknowledgement for.  The code's `nb_sended+1 % MAX_SEQNUM`
      is nb_sended + 1. */
  predicate Plausible(s: Sender, seqnum: SeqNum) {
    seqnum <= s.nbSended + 1 && (s.lastAckToReceive != -1 ==> seqnum <= s.lastAckToReceive)
  }

  /** How many packets a cumulative acknowledgement drops. */
  function Acked(s: Sender, seqnum: SeqNum): (k: nat)
    ensures k <= |s.buf|
  {
    if seqnum in Nums(s.buf) then Find(Nums(s.buf), seqnum) else 0
  }

  /** What a plausible cumulative acknowledgement changes. */
  function Cumulative(s: Sender, seqnum: SeqNum, window: bv8): Sender {
    var k := Acked(s, seqnum);
    var t := s.(window := Val(window), ackReceived := seqnum, buf := s.buf[k..]);
    if k > 0 || s.lastAckToReceive != -1 then
      t.(ackReceived := -1, eofAcked := s.eofAcked || seqnum == s.lastAckToReceive)
    else t
  }

  function OnAck(s: Sender, st: Status, p: Pkt): Sender {
    if st != PKT_OK || p.ptype == PTYPE_DATA || !Plausible(s, p.seqnum) then s
    else if p.ptype == PTYPE_NACK then s.(pktTr := p.seqnum)
    else Cumulative(s, p.seqnum, p.window)
  }

  lemma AckedIgnores(s: Sender, t: Sender, seqnum: SeqNum)
    requires s.buf == t.buf
    ensures Acked(s, seqnum) == Acked(t, seqnum)
  {
  }

  /** What pkt_new left in the packet never shows. */
  lemma RefusedIgnoresPacket(s: Sender, d: seq<byte>, len: int, prior: Pkt)
    requires Covers(d, len)
    ensures var (st, p), (st', p') := Decode(d, len, prior), Decode(d, len, ZERO);
      OnAck(s, st, p) == OnAck(s, st', p')
  {
  }

  // ---------- The time-out scan ----------

  lemma NotOverdueNow(p: Pkt, now: bv32)
    ensures !Overdue(p.(timestamp := now), now) && !Overdue(p.(timestamp := Sooner(now)), now)
  {
  }

  /** After the scan no packet is overdue at the time at which it was looked at, and only the
      timestamps of overdue packets changed. */
  lemma ScanSettles(buf: seq<Pkt>, scan: nat -> bv32)
    ensures forall i :: 0 <= i < |buf| ==> !Overdue(Scanned(buf, scan)[i], scan(i))
    ensures forall i :: 0 <= i < |buf| ==>
      Scanned(buf, scan)[i] == buf[i].(timestamp := Scanned(buf, scan)[i].timestamp)
    ensures forall i :: 0 <= i < |buf| && !Overdue(buf[i], scan(i)) ==> Scanned(buf, scan)[i] == buf[i]
  {
    forall i | 0 <= i < |buf|
      ensures !Overdue(Scanned(buf, scan)[i], scan(i))
    {
      NotOverdueNow(buf[i], scan(i));
    }
  }

  /** A packet that was sent stays marked as sent unless the clock reads 0 at the first that is
      overdue, or 1 at a later one. */
  lemma ScanKeepsSentIff(buf: seq<Pkt>, scan: nat -> bv32)
    ensures (forall i :: 0 <= i < |buf| && buf[i].timestamp != 0 ==> Scanned(buf, scan)[i].timestamp != 0) <==>
      (forall i :: 0 <= i < |buf| && Overdue(buf[i], scan(i)) ==>
        scan(i) != if i == FirstOverdue(buf, scan) then 0 else 1)
  {
    var t := Scanned(buf, scan);
    forall i | 0 <= i < |buf| && Overdue(buf[i], scan(i))
      ensures t[i].timestamp != 0 <==> scan(i) != if i == FirstOverdue(buf, scan) then 0 else 1
    {
    }
  }
}
