/** src/sender.c: the globals, the locals of the event loop and the buffer as an object whose
    methods are the steps of the loop, proved against the functions of SenderSpec. */
module Senders {
  import opened Crc32
  import opened Wire
  import opened RingSpec
  import R = ReceiverSpec
  import S = SenderSpec
  import opened Packets
  import opened Rings

  /** What read_file puts into the buffer. */
  ghost predicate Ready(p: Pkt) {
    p.Fits() && p.ptype == PTYPE_DATA && p.tr == 0 && p.length <= MAX_PAYLOAD_SIZE
  }

  lemma ReadyFits(p: Pkt)
    requires Ready(p)
    ensures Packet.Room(p) <= MAX_PKT_SIZE
    ensures p.payload.Some? ==> p.length <= |p.payload.value|
    ensures EncodeStatus(p) == PKT_OK ==> |Encoding(p)| <= MAX_PKT_SIZE
  {
  }

  ghost predicate AllReady(vs: seq<Pkt>) {
    forall i :: 0 <= i < |vs| ==> Ready(vs[i])
  }

  lemma ReadyInsert(vs: seq<Pkt>, k: nat, p: Pkt)
    requires AllReady(vs) && k <= |vs| && Ready(p)
    ensures AllReady(InsertAt(vs, k, p))
  {
  }

  lemma FieldsOf(pkt: Packet)
    ensures pkt.View().seqnum == pkt.seqnum && pkt.View().length == pkt.length
  {
  }

  lemma AckFields(pkt: Packet)
    ensures pkt.View().seqnum == pkt.seqnum && pkt.View().ptype == pkt.ptype && pkt.View().window == pkt.window
  {
  }

  lemma DecodedWindow(d: seq<byte>, len: int, prior: Pkt)
    requires Covers(d, len)
    ensures Wire.Decode(d, len, prior).0 == PKT_OK ==> Wire.Decode(d, len, prior).1.window <= 31
  {
  }

  lemma ViewAt(ps: seq<Packet>, i: nat)
    requires i < |ps|
    ensures Views(ps)[i] == ps[i].View()
    ensures Views(ps)[i := Views(ps)[i]] == Views(ps)
  {
  }

  lemma ScannedReady(vs: seq<Pkt>, scan: nat -> bv32)
    requires AllReady(vs)
    ensures AllReady(S.Scanned(vs, scan))
  {
  }

  lemma UnsentIs(ps: seq<Packet>, k: nat)
    requires k <= |ps| && forall i :: 0 <= i < k ==> ps[i].timestamp != 0
    requires k < |ps| ==> ps[k].timestamp == 0
    ensures k == S.FirstUnsent(Views(ps))
  {
    hide S.FirstUnsent;
    assert forall i :: 0 <= i < |ps| ==> Views(ps)[i].timestamp == ps[i].timestamp;
  }

  lemma DropKeeps(ps: seq<Packet>, k: nat)
    requires k <= |ps| && Distinct(ps) && AllReady(Views(ps))
    ensures Distinct(ps[k..]) && AllReady(Views(ps)[k..])
  {
  }

  /** Changing the timestamp of one of several different packets. */
  method StampOne(p: Packet, ghost ps: seq<Packet>, ghost k: nat, now: bv32)
    requires Distinct(ps) && k < |ps| && ps[k] == p
    modifies p`timestamp
    ensures Views(ps) == old(Views(ps))[k := old(p.View()).(timestamp := now)]
  {
    var st := p.SetTimestamp(now);
  }

  /** One packet of the time-out scan. */
  method ScanOne(p: Packet, ghost ps: seq<Packet>, ghost i: nat, now: bv32, found: bool) returns (hit: bool)
    requires Distinct(ps) && i < |ps| && ps[i] == p
    modifies p`timestamp
    ensures hit == S.Overdue(old(Views(ps))[i], now)
    ensures Views(ps) == old(Views(ps))[i :=
      if hit then old(Views(ps))[i].(timestamp := if found then S.Sooner(now) else now) else old(Views(ps))[i]]
  {
    hide Views, Distinct, Pkt.Data, S.Sooner, S.Overdue, Packet.View;
    ViewAt(ps, i);
    hit := S.Overdue(p.View(), now);
    if hit {
      StampOne(p, ps, i, if found then S.Sooner(now) else now);
    }
  }

  /** `new` up to position `i`, `old` from there on. */
  ghost function Mixed<T>(done: seq<T>, todo: seq<T>, i: nat): (m: seq<T>)
    requires i <= |done| == |todo|
    ensures |m| == |done|
  {
    done[..i] + todo[i..]
  }

  lemma MixedStep<T>(done: seq<T>, todo: seq<T>, i: nat)
    requires i < |done| == |todo|
    ensures Mixed(done, todo, i)[i] == todo[i]
    ensures Mixed(done, todo, i)[i := done[i]] == Mixed(done, todo, i + 1)
  {
  }

  lemma MixedEnds<T>(done: seq<T>, todo: seq<T>)
    requires |done| == |todo|
    ensures Mixed(done, todo, 0) == todo && Mixed(done, todo, |done|) == done
  {
  }

  /** What the scan does to the packet at `i`. */
  lemma ScannedAt(vs: seq<Pkt>, scan: nat -> bv32, i: nat)
    requires i < |vs|
    ensures var k, now := S.FirstOverdue(vs, scan), scan(i);
      && S.Scanned(vs, scan)[i] == (if S.Overdue(vs[i], now)
           then vs[i].(timestamp := if k < i then S.Sooner(now) else now) else vs[i])
      && (k < i + 1 <==> k < i || S.Overdue(vs[i], now))
  {
  }

  /** One round of the time-out scan of `vs`; `first` is the packet to return so far. */
  method ScanNext(p: Packet, ghost ps: seq<Packet>, ghost vs: seq<Pkt>, i: nat, scan: nat -> bv32,
                  found: bool, first: Packet?)
    returns (found': bool, first': Packet?)
    requires Distinct(ps) && i < |ps| == |vs| && ps[i] == p
    requires Views(ps) == Mixed(S.Scanned(vs, scan), vs, i)
    requires var k := S.FirstOverdue(vs, scan); found == (k < i) && first == if k < i then ps[k] else null
    modifies p`timestamp
    ensures Views(ps) == Mixed(S.Scanned(vs, scan), vs, i + 1)
    ensures var k := S.FirstOverdue(vs, scan); found' == (k < i + 1) && first' == if k < i + 1 then ps[k] else null
  {
    hide Views, Distinct, Mixed, Packet.View, Pkt.Data, S.Scanned, S.FirstOverdue, S.Overdue;
    MixedStep(S.Scanned(vs, scan), vs, i);
    ScannedAt(vs, scan, i);
    var hit := ScanOne(p, ps, i, scan(i), found);
    found', first' := found, first;
    if hit && !found {
      first' := p;
      found' := true;
    }
  }

  /** look_for_timedout_packet: the first overdue packet, and every overdue packet restamped.  The
      clock is read anew, as `scan(i)`, for each packet. */
  method LookForTimedOut(buffer: Ring, ghost ps: seq<Packet>, scan: nat -> bv32) returns (p: Packet?)
    requires buffer.Valid() && ps == buffer.Pkts() && Distinct(ps)
    modifies ps`timestamp
    ensures Views(ps) == S.Scanned(old(Views(ps)), scan)
    ensures var k := S.FirstOverdue(old(Views(ps)), scan); p == if k < |ps| then ps[k] else null
  {
    hide Linked, Follows, Views, PktsOf, Distinct, Mixed, Pkt.Data, Packet.View;
    hide S.Scanned, S.FirstOverdue, S.Overdue;
    ghost var vs := Views(ps);
    ghost var goal, k := S.Scanned(vs, scan), S.FirstOverdue(vs, scan);
    p := null;
    MixedEnds(goal, vs);
    if buffer.size == 0 {
      return;
    }
    var cur := buffer.first;
    var found := false;
    for i := 0 to buffer.size
      invariant cur == buffer.nodes[if i == buffer.size then 0 else i]
      invariant Views(ps) == Mixed(goal, vs, i)
      invariant found == (k < i) && p == if k < i then ps[k] else null
    {
      buffer.NextAt(i);
      found, p := ScanNext(cur.pkt, ps, vs, i, scan, found, p);
      cur := cur.next;
    }
  }

  /** A stamp on packets that are ready to send. */
  method Stamp(p: Packet, ghost ps: seq<Packet>, ghost k: nat, now: bv32)
    requires Distinct(ps) && k < |ps| && ps[k] == p && AllReady(Views(ps))
    modifies p`timestamp
    ensures Views(ps) == old(Views(ps))[k := old(p.View()).(timestamp := now)]
    ensures AllReady(Views(ps))
  {
    StampOne(p, ps, k, now);
  }

  class Sender {
    var window: nat
    var seqnum: SeqNum
    var nbSended: nat
    var lastAckToReceive: int
    var pktTr: int
    var ackReceived: int
    var eofAcked: bool
    var eofTimeouts: nat
    var gaveUp: bool
    const buffer: Ring

    ghost function State(): S.Sender
      reads this, buffer, buffer.Pkts()
    {
      S.Sender(window, seqnum, nbSended, lastAckToReceive, Views(buffer.Pkts()),
               pktTr, ackReceived, eofAcked, eofTimeouts, gaveUp)
    }

    ghost predicate Valid()
      reads this, buffer, buffer.nodes, buffer.Pkts()
    {
      buffer.Valid() && window <= R.MAX_WINDOW && -1 <= pktTr < 256 && -1 <= ackReceived < 256 &&
      Distinct(buffer.Pkts()) && AllReady(Views(buffer.Pkts()))
    }

    constructor ()
      ensures Valid() && State() == S.INITIAL_SENDER
      ensures fresh(buffer) && buffer.nodes == []
    {
      window, seqnum, nbSended, lastAckToReceive, pktTr, ackReceived := 1, 0, 0, -1, -1, -1;
      eofAcked, eofTimeouts, gaveUp := false, 0, false;
      buffer := new Ring();
    }

    // ---------- Reading ----------

    /** The packet of read_file; `prior` is what the allocation held. */
    method BuildPacket(input: S.Input) returns (p: Packet, ghost prior: Pkt)
      requires window <= R.MAX_WINDOW && !input.ReadError?
      requires input.Chunk? ==> 0 < |input.data| <= MAX_PAYLOAD_SIZE
      ensures fresh(p) && p.View() == S.ReadPkt(State(), input, prior) && Ready(p.View())
    {
      hide ToByte, Val;
      TypeBytes();
      WindowByte(ToByte(window));
      p := new Packet();
      prior := p.View();
      var err := p.SetType(1);
      err := p.SetTr(0);
      err := p.SetWindow(ToByte(window));
      err := p.SetTimestamp(0);
      err := p.SetSeqnum(seqnum);
      if input.EndOfFile? {
        err := p.SetLength(0);
      } else {
        err := p.SetPayload(input.data);
      }
    }

    /** buffer_enqueue of a packet that is new to the buffer. */
    method Append(p: Packet, ghost s: S.Sender, ghost pv: Pkt)
      requires Valid() && p !in buffer.Pkts() && pv == p.View() && Ready(pv) && s == State()
      modifies buffer, buffer.nodes
      ensures Valid() && State() == S.Append(s, pv)
      ensures forall i :: 0 <= i < |buffer.nodes| ==> buffer.nodes[i] in old(buffer.nodes) || fresh(buffer.nodes[i])
    {
      hide Linked, Follows, Views, PktsOf, Numbers, Place, Ready, Packet.View, Distinct, InsertAt;
      ghost var ps := buffer.Pkts();
      ghost var k := Place(Numbers(ps), p.seqnum);
      NumbersAreNums(ps);
      DistinctInsert(ps, k, p);
      ReadyInsert(Views(ps), k, pv);
      PacketNumber(p);
      buffer.Enqueue(p);
    }

    /** What read_file does to the counters. */
    method Count(input: S.Input)
      modifies this`seqnum, this`nbSended
      ensures if input.Chunk? then seqnum == R.Successor(old(seqnum)) && nbSended == old(nbSended) + 1
              else seqnum == old(seqnum) && nbSended == old(nbSended)
    {
      if input.Chunk? {
        seqnum := R.Successor(seqnum);
        nbSended := nbSended + 1;
      }
    }

    /** read_file; `prior` is what the allocation held. */
    method ReadFile(input: S.Input, ghost s: S.Sender) returns (p: Packet?, ghost prior: Pkt)
      requires Valid() && s == State()
      requires input.Chunk? ==> 0 < |input.data| <= MAX_PAYLOAD_SIZE
      modifies this`seqnum, this`nbSended
      ensures Valid()
      ensures p == null <==> S.Full(s) || input.ReadError?
      ensures p == null ==> State() == s
      ensures p != null ==> fresh(p) && State() == S.Counted(s, input)
      ensures p != null ==> p.View() == S.ReadPkt(s, input, prior) && Ready(p.View())
    {
      hide Linked, Follows, Views, PktsOf, Numbers, Ready, Distinct, AllReady, R.Successor, S.ReadPkt, Packet.View;
      prior := ZERO;
      if buffer.size >= window || input.ReadError? {
        return null, prior;
      }
      p, prior := BuildPacket(input);
      Count(input);
    }

    /** The read step of the loop; `prior` is what the allocation held. */
    method ReadStep(input: S.Input) returns (ghost prior: Pkt)
      requires Valid()
      requires input.Chunk? ==> 0 < |input.data| <= MAX_PAYLOAD_SIZE
      modifies this`seqnum, this`nbSended, this`lastAckToReceive, buffer, buffer.nodes
      ensures Valid() && State() == S.OnRead(old(State()), input, prior)
      ensures forall i :: 0 <= i < |buffer.nodes| ==> buffer.nodes[i] in old(buffer.nodes) || fresh(buffer.nodes[i])
    {
      hide Linked, Follows, Views, PktsOf, Numbers, Place, Ready, Distinct, InsertAt, AllReady, S.Append, R.Successor;
      hide Packet.View;
      var p;
      ghost var s := State();
      p, prior := ReadFile(input, s);
      if p != null && lastAckToReceive == -1 {
        FieldsOf(p);
        ghost var pv := p.View();
        if p.length == 0 && p.seqnum == seqnum {
          lastAckToReceive := seqnum;
        }
        Append(p, State(), pv);
      }
    }

    // ---------- Sending ----------

    /** pkt_encode into the loop's buffer. */
    method EncodePacket(p: Packet) returns (bytes: Option<seq<byte>>)
      requires Ready(p.View())
      ensures bytes == if EncodeStatus(p.View()) == PKT_OK then Some(Encoding(p.View())) else None
    {
      hide Encoding, EncodeStatus, Packet.Room;
      ReadyFits(p.View());
      var buf := new byte[MAX_PKT_SIZE];
      var st, len := p.Encode(buf, 0);
      if st != PKT_OK {
        return None;
      }
      return Some(buf[..len]);
    }

    /** The time stamp that send_pkt sets. */
    method StampAt(p: Packet, ghost k: nat, ghost s: S.Sender, now: bv32)
      requires Valid() && k < |buffer.Pkts()| && p == buffer.Pkts()[k] && s == State()
      modifies p`timestamp
      ensures Valid() && State() == s.(buf := s.buf[k := s.buf[k].(timestamp := now)])
      ensures Ready(p.View()) && p.View() == s.buf[k].(timestamp := now)
    {
      hide Linked, Follows, PktsOf, Ready, Distinct, Pkt.Data;
      Stamp(p, buffer.Pkts(), k, now);
      assert Ready(Views(buffer.Pkts())[k]);
    }

    /** send_pkt of the buffered packet at position `k`; `bytes` is what is handed to send. */
    method SendPkt(p: Packet, ghost k: nat, ghost s: S.Sender, now: bv32) returns (bytes: Option<seq<byte>>)
      requires Valid() && k < |buffer.Pkts()| && p == buffer.Pkts()[k] && s == State()
      modifies p`timestamp
      ensures Valid() && (State(), bytes) == S.SendAt(s, k, now)
    {
      hide Linked, Follows, Views, PktsOf, Ready, AllReady, Distinct, Encoding, EncodeStatus, Pkt.Data, Packet.View;
      StampAt(p, k, s, now);
      bytes := EncodePacket(p);
    }

    /** The lookup of a pending number; nothing when the buffer does not hold it. */
    method LookUp(number: int, ghost s: S.Sender) returns (p: Packet?, ghost k: nat)
      requires Valid() && s == State() && 0 <= number < 256
      ensures k == Find(Nums(s.buf), number)
      ensures p == if k < |buffer.Pkts()| then buffer.Pkts()[k] else null
      ensures p != null <==> S.CanLookUp(s, number)
    {
      hide Linked, Follows, Views, PktsOf, Ready, AllReady, Distinct, Pkt.Data, Packet.View, Numbers, Find;
      NumbersAreNums(buffer.Pkts());
      k := Find(Nums(s.buf), number);
      p := buffer.GetPkt(number);
    }

    /** The resend of a numbered packet.  `alive` is false when the lookup finds nothing: the code
        then follows a null pointer. */
    method Resend(number: int, ghost s: S.Sender, now: bv32) returns (alive: bool, bytes: Option<seq<byte>>)
      requires Valid() && s == State() && 0 <= number < 256
      modifies buffer.Pkts()`timestamp
      ensures Valid() && alive == S.CanLookUp(s, number)
      ensures alive ==> (State(), bytes) == S.SendAt(s, Find(Nums(s.buf), number), now)
      ensures !alive ==> State() == s && bytes == None
    {
      hide Linked, Follows, Views, PktsOf, Ready, AllReady, Distinct, Nums, S.SendAt, Pkt.Data, Packet.View;
      var p;
      ghost var k;
      p, k := LookUp(number, s);
      if p == null {
        return false, None;
      }
      bytes := SendPkt(p, k, s, now);
      alive := true;
    }

    method ClearAckReceived()
      requires Valid()
      modifies this`ackReceived
      ensures Valid() && State() == old(State()).(ackReceived := -1)
    {
      hide Linked, Follows, Views, PktsOf, Ready, AllReady, Distinct, Pkt.Data, Packet.View;
      ackReceived := -1;
    }

    method ClearPktTr()
      requires Valid()
      modifies this`pktTr
      ensures Valid() && State() == old(State()).(pktTr := -1)
    {
      hide Linked, Follows, Views, PktsOf, Ready, AllReady, Distinct, Pkt.Data, Packet.View;
      pktTr := -1;
    }

    /** The resend that a received ACK asks for. */
    method ResendAcked(ghost s: S.Sender, now: bv32) returns (alive: bool, bytes: Option<seq<byte>>)
      requires Valid() && s == State()
      modifies this`ackReceived, buffer.Pkts()`timestamp
      ensures Valid() && alive == S.CanLookUp(s, s.ackReceived)
      ensures if alive then (State(), bytes) == S.ResendAcked(s, now) else State() == s && bytes == None
    {
      hide Linked, Follows, Views, PktsOf, Ready, AllReady, Distinct, Nums, Find, S.SendAt, Pkt.Data, Packet.View;
      hide Encoding, EncodeStatus;
      if ackReceived == -1 {
        return true, None;
      }
      alive, bytes := Resend(ackReceived, s, now);
      if alive {
        ClearAckReceived();
      }
    }

    /** The resend that a received NACK asks for. */
    method ResendTruncated(ghost s: S.Sender, now: bv32) returns (alive: bool, bytes: Option<seq<byte>>)
      requires Valid() && s == State()
      modifies this`pktTr, buffer.Pkts()`timestamp
      ensures Valid() && alive == S.CanLookUp(s, s.pktTr)
      ensures if alive then (State(), bytes) == S.ResendTruncated(s, now) else State() == s && bytes == None
    {
      hide Linked, Follows, Views, PktsOf, Ready, AllReady, Distinct, Nums, Find, S.SendAt, Pkt.Data, Packet.View;
      hide Encoding, EncodeStatus;
      if pktTr == -1 {
        return true, None;
      }
      alive, bytes := Resend(pktTr, s, now);
      if alive {
        ClearPktTr();
      }
    }

    /** look_for_timedout_packet on the sender's buffer. */
    method Scan(ghost s: S.Sender, scan: nat -> bv32) returns (p: Packet?)
      requires Valid() && s == State()
      modifies buffer.Pkts()`timestamp
      ensures Valid() && State() == s.(buf := S.Scanned(s.buf, scan))
      ensures var k := S.FirstOverdue(s.buf, scan);
        p == if k < |buffer.Pkts()| then buffer.Pkts()[k] else null
    {
      hide Linked, Follows, Views, PktsOf, Ready, AllReady, Distinct, Pkt.Data, Packet.View;
      hide S.Scanned, S.FirstOverdue, S.Overdue;
      ScannedReady(s.buf, scan);
      p := LookForTimedOut(buffer, buffer.Pkts(), scan);
    }

    /** The time-outs of the EOF packet: the fourth ends the loop. */
    method CountTimeout(number: SeqNum, ghost s: S.Sender) returns (enough: bool)
      requires Valid() && s == State()
      modifies this`eofTimeouts, this`gaveUp
      ensures enough <==> number == s.lastAckToReceive && s.eofTimeouts + 1 == 4
      ensures Valid()
      ensures State() == s.(gaveUp := s.gaveUp || enough,
        eofTimeouts := if number == s.lastAckToReceive then s.eofTimeouts + 1 else s.eofTimeouts)
    {
      hide Linked, Follows, Views, PktsOf, Ready, AllReady, Distinct, Pkt.Data, Packet.View;
      enough := false;
      if number == lastAckToReceive {
        eofTimeouts := eofTimeouts + 1;
        if eofTimeouts == 4 {
          enough, gaveUp := true, true;
        }
      }
    }

    /** The resend of a packet that timed out. */
    method ResendLate(p: Packet, ghost k: nat, ghost s: S.Sender, now: bv32) returns (bytes: Option<seq<byte>>)
      requires Valid() && k < |buffer.Pkts()| && p == buffer.Pkts()[k] && s == State()
      modifies this`eofTimeouts, this`gaveUp, p`timestamp
      ensures Valid() && (State(), bytes) == S.ResendLate(s, k, now)
    {
      hide Linked, Follows, Views, PktsOf, Ready, AllReady, Distinct, Pkt.Data, Packet.View, S.SendAt;
      ViewAt(buffer.Pkts(), k);
      FieldsOf(p);
      var enough := CountTimeout(p.seqnum, s);
      if enough {
        return None;
      }
      bytes := SendPkt(p, k, State(), now);
    }

    /** The time-out step. */
    method ResendTimedOut(ghost s: S.Sender, scan: nat -> bv32, now: bv32) returns (bytes: Option<seq<byte>>)
      requires Valid() && s == State()
      modifies this`eofTimeouts, this`gaveUp, buffer.Pkts()`timestamp
      ensures Valid() && (State(), bytes) == S.ResendTimedOut(s, scan, now)
    {
      hide Linked, Follows, Views, PktsOf, Ready, AllReady, Distinct, Pkt.Data, Packet.View;
      hide S.Scanned, S.FirstOverdue, S.ResendLate;
      var p := Scan(s, scan);
      if p == null {
        return None;
      }
      bytes := ResendLate(p, S.FirstOverdue(s.buf, scan), State(), now);
    }

    /** The first packet that was never sent. */
    method SendUnsent(ghost s: S.Sender, now: bv32) returns (bytes: Option<seq<byte>>)
      requires Valid() && s == State()
      modifies buffer.Pkts()`timestamp
      ensures Valid() && (State(), bytes) == S.SendUnsent(s, now)
    {
      hide Linked, Follows, Views, PktsOf, Ready, AllReady, Distinct, Pkt.Data, Packet.View, S.SendAt, S.FirstUnsent;
      var p;
      ghost var k;
      p, k := buffer.LookForUnsent();
      UnsentIs(buffer.Pkts(), k);
      if p == null {
        return None;
      }
      bytes := SendPkt(p, k, s, now);
    }

    // ---------- Receiving ----------

    /** The window and the number of a plausible ACK. */
    method NoteAck(number: SeqNum, w: bv8, ghost s: S.Sender)
      requires Valid() && s == State() && Val(w) <= R.MAX_WINDOW
      modifies this`window, this`ackReceived
      ensures Valid() && State() == s.(window := Val(w), ackReceived := number)
    {
      hide Linked, Follows, Views, PktsOf, Ready, AllReady, Distinct, Pkt.Data, Packet.View;
      window := Val(w);
      ackReceived := number;
    }

    /** buffer_remove_acked on the sender's buffer. */
    method DropAcked(number: SeqNum, ghost s: S.Sender) returns (removed: nat)
      requires Valid() && s == State()
      modifies buffer, buffer.nodes
      ensures removed == S.Acked(s, number)
      ensures Valid() && State() == s.(buf := s.buf[removed..])
      ensures exists k :: 0 <= k <= |old(buffer.nodes)| && buffer.nodes == old(buffer.nodes)[k..]
    {
      hide Linked, Follows, Views, PktsOf, Ready, AllReady, Distinct, Pkt.Data, Packet.View, Nums, Find, Numbers;
      ghost var ns := buffer.nodes;
      NumbersAreNums(buffer.Pkts());
      removed := buffer.RemoveAcked(number);
      PktsDrop(ns, removed);
      ViewsDrop(PktsOf(ns), removed);
      DropKeeps(PktsOf(ns), removed);
    }

    /** When the acknowledgement dropped something, or the EOF was already read, no resend is due;
        and the number of the EOF ends the loop. */
    method Settle(number: SeqNum, removed: nat, ghost s: S.Sender)
      requires Valid() && s == State()
      modifies this`ackReceived, this`eofAcked
      ensures Valid()
      ensures State() == if removed > 0 || s.lastAckToReceive != -1
        then s.(ackReceived := -1, eofAcked := s.eofAcked || number == s.lastAckToReceive) else s
    {
      hide Linked, Follows, Views, PktsOf, Ready, AllReady, Distinct, Pkt.Data, Packet.View;
      if removed > 0 || lastAckToReceive != -1 {
        ackReceived := -1;
        if number == lastAckToReceive {
          eofAcked := true;
        }
      }
    }

    method NoteNack(number: SeqNum, ghost s: S.Sender)
      requires Valid() && s == State()
      modifies this`pktTr
      ensures Valid() && State() == s.(pktTr := number)
    {
      hide Linked, Follows, Views, PktsOf, Ready, AllReady, Distinct, Pkt.Data, Packet.View;
      pktTr := number;
    }

    /** A plausible ACK. */
    method TakeCumulative(number: SeqNum, w: bv8, ghost s: S.Sender)
      requires Valid() && s == State() && w <= 31
      modifies this`window, this`ackReceived, this`eofAcked, buffer, buffer.nodes
      ensures Valid() && State() == S.Cumulative(s, number, w)
    {
      hide Linked, Follows, Views, PktsOf, Ready, AllReady, Distinct, Pkt.Data, Packet.View, Nums, Find, S.Acked, Val;
      WindowByte(w);
      NoteAck(number, w, s);
      S.AckedIgnores(s, State(), number);
      var removed := DropAcked(number, State());
      Settle(number, removed, State());
    }

    /** What the loop does with a decoded acknowledgement. */
    method TakeAck(pkt: Packet, ghost p: Pkt, st: Status, ghost s: S.Sender)
      requires Valid() && s == State() && p == pkt.View() && (st == PKT_OK ==> p.window <= 31)
      modifies this`window, this`ackReceived, this`eofAcked, this`pktTr, buffer, buffer.nodes
      ensures Valid() && State() == S.OnAck(s, st, p)
    {
      hide Linked, Follows, Views, PktsOf, Ready, AllReady, Distinct, Pkt.Data, Packet.View, S.Cumulative;
      AckFields(pkt);
      if st != PKT_OK || pkt.ptype == PTYPE_DATA {
        return;
      }
      var number := pkt.seqnum;
      if number > nbSended + 1 || (lastAckToReceive != -1 && number > lastAckToReceive) {
        return;
      }
      if pkt.ptype == PTYPE_NACK {
        NoteNack(number, s);
      } else {
        TakeCumulative(number, pkt.window, s);
      }
    }

    /** The step of the loop that reads an acknowledgement of `len` bytes. */
    method OnAck(data: array<byte>, len: int)
      requires Valid() && Covers(data[..], len)
      modifies this, buffer, buffer.nodes
      ensures Valid()
      ensures var (st, p) := Wire.Decode(old(data[..]), len, ZERO);
        State() == S.OnAck(old(State()), st, p)
    {
      hide Linked, Follows, Views, PktsOf, Ready, AllReady, Distinct, Pkt.Data, Packet.View, S.OnAck, Wire.Decode;
      var pkt := new Packet();
      ghost var s := State();
      DecodedWindow(data[..], len, pkt.View());
      S.RefusedIgnoresPacket(s, data[..], len, pkt.View());
      var st := pkt.Decode(data, len);
      TakeAck(pkt, pkt.View(), st, s);
    }
  }
}
