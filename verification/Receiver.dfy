/** src/receiver.c: the globals and the buffer as an object whose methods change them step by
    step, proved against the functions of ReceiverSpec. */
module Receivers {
  import opened Crc32
  import opened Wire
  import opened RingSpec
  import R = ReceiverSpec
  import opened Packets
  import opened Rings

  const ACK_SIZE := 10

  class Receiver {
    var lastWrited: int
    var nbWrited: nat
    var lastAcked: int
    var lastackToSend: int
    var timeLastData: bv32
    var accumulated: nat
    const buffer: Ring
    /** What was written to the output file. */
    var out: seq<byte>
    /** What was handed to the socket. */
    var sent: seq<seq<byte>>

    ghost function State(): R.Receiver
      reads this, buffer, buffer.Pkts()
    {
      R.Receiver(lastWrited, nbWrited, lastAcked, lastackToSend, timeLastData,
                 Views(buffer.Pkts()), accumulated, out)
    }

    ghost predicate Valid()
      reads this, buffer, buffer.nodes, buffer.Pkts()
    {
      buffer.Valid() && R.Sound(State())
    }

    constructor ()
      ensures Valid() && State() == R.INITIAL && sent == []
      ensures fresh(buffer) && buffer.nodes == []
    {
      lastWrited, nbWrited, lastAcked, lastackToSend, timeLastData := -1, 0, 0, -2, 0;
      accumulated, out, sent := 0, [], [];
      buffer := new Ring();
    }

    /** is_in_window */
    method IsInWindow(seqnum: SeqNum) returns (b: bool)
      ensures b == R.InWindow(lastWrited, seqnum)
    {
      if seqnum == lastWrited {
        return false;
      }
      if seqnum < lastWrited {
        return seqnum + 256 - lastWrited <= R.MAX_WINDOW;
      }
      return seqnum - lastWrited < R.MAX_WINDOW;
    }

    /** write of one payload to the output file. */
    method Write(pkt: Packet)
      modifies this`out, this`lastWrited
      ensures out == old(out) + pkt.View().Data() && lastWrited == pkt.seqnum
    {
      out := out + pkt.View().Data();
      lastWrited := pkt.seqnum;
    }

    /** One round of write_buffer_to_file: `next` is the node the loop looks at afterwards.  When
        the last node was taken out that is the removed node itself. */
    method WriteOne(current: Node, ghost r: R.Receiver) returns (next: Node?)
      requires buffer.Valid() && buffer.size > 0 && current == buffer.first && r == State()
      modifies this`out, this`lastWrited, this`nbWrited, buffer, buffer.nodes
      ensures buffer.Valid() && buffer.nodes == old(buffer.nodes)[1..]
      ensures Views(buffer.Pkts()) == r.buf[1..]
      ensures lastWrited == current.pkt.seqnum && nbWrited == r.nbWrited + 1
      ensures out == r.out + current.pkt.View().Data()
      ensures if buffer.size > 0 then next == buffer.first
              else next != null && next.pkt.seqnum == lastWrited
    {
      hide Linked, Distinct, Views, PktsOf, Follows, Pkt.Data, Packet.View;
      buffer.HeadNext();
      Write(current.pkt);
      next := current.next;
      var pkt := buffer.TakeHead();
      nbWrited := nbWrited + 1;
    }

    /** One round, as ReceiverSpec sees it. */
    method WriteRound(current: Node) returns (next: Node?)
      requires buffer.Valid() && buffer.size > 0 && current == buffer.first
      modifies this`out, this`lastWrited, this`nbWrited, buffer, buffer.nodes
      ensures buffer.Valid() && buffer.nodes == old(buffer.nodes)[1..]
      ensures State() == R.WriteHead(old(State())) && 0 <= lastWrited < 256
      ensures if buffer.size > 0 then next == buffer.first
              else next != null && next.pkt.seqnum == lastWrited
    {
      hide Linked, Distinct, Views, PktsOf, Pkt.Data;
      buffer.HeadNext();
      next := WriteOne(current, State());
    }

    lemma HeadIsDue()
      requires buffer.Valid()
      ensures R.HeadDue(State()) <==> buffer.size > 0 && buffer.first.pkt.seqnum == R.Successor(lastWrited)
    {
    }

    /** write_buffer_to_file, when `writable` calls of write succeed before one fails. */
    method WriteBufferToFile(writable: nat)
      requires buffer.Valid() && -1 <= lastWrited < 256
      modifies this`out, this`lastWrited, this`nbWrited, buffer, buffer.nodes
      ensures buffer.Valid() && State() == R.Drain(old(State()), writable)
      ensures exists k :: 0 <= k <= |old(buffer.nodes)| && buffer.nodes == old(buffer.nodes)[k..]
    {
      hide Linked, Distinct, Follows, Views, PktsOf, Numbers, Packet.View, Pkt.Data;
      hide R.WriteHead, R.HeadDue, R.Successor;
      var current := buffer.first;
      var left := writable;
      ghost var taken: nat := 0;
      ghost var ns, goal := buffer.nodes, R.Drain(State(), writable);
      while current != null && current.pkt.seqnum == R.Successor(lastWrited)
        invariant buffer.Valid() && -1 <= lastWrited < 256
        invariant taken <= |ns| && buffer.nodes == ns[taken..]
        invariant if buffer.size > 0 then current == buffer.first
                  else current == null || current.pkt.seqnum == lastWrited
        invariant R.Drain(State(), left) == goal
        decreases buffer.size
      {
        R.SuccessorDiffers(lastWrited);
        HeadIsDue();
        if left == 0 {
          return;
        }
        current := WriteRound(current);
        left, taken := left - 1, taken + 1;
      }
      HeadIsDue();
    }

    /** The packet of send_ack. */
    method BuildAck(seqnum: SeqNum, ptype: bv8, wind: nat) returns (ack: Packet)
      requires (ptype == PTYPE_ACK || ptype == PTYPE_NACK) && wind <= R.MAX_WINDOW
      ensures fresh(ack) && ack.ptype == ptype && ack.seqnum == seqnum && ack.tr == 0
      ensures ack.window == ToByte(wind) && ack.timestamp == timeLastData
      ensures ack.length == 0 && ack.payload == Some([])
    {
      hide ToByte, Val;
      TypeBytes();
      WindowByte(ToByte(wind));
      ack := new Packet();
      var st := ack.SetType(if ptype == PTYPE_ACK then 2 else 3);
      st := ack.SetSeqnum(seqnum);
      st := ack.SetTr(0);
      st := ack.SetWindow(ToByte(wind));
      st := ack.SetTimestamp(timeLastData);
      st := ack.SetPayload([]);
    }

    /** The bytes of send_ack.  pkt_encode never refuses an ACK or a NACK. */
    method EncodeAck(seqnum: SeqNum, ptype: bv8, wind: nat) returns (bytes: seq<byte>)
      requires (ptype == PTYPE_ACK || ptype == PTYPE_NACK) && wind <= R.MAX_WINDOW
      ensures bytes == Encoding(R.Reply(ptype, seqnum, ToByte(wind), timeLastData).Packet())
    {
      hide ToByte, Val, Header, Sealed;
      var ack := BuildAck(seqnum, ptype, wind);
      var buf := new byte[ACK_SIZE];
      R.ShortEncoding(ack.View(), R.Reply(ptype, seqnum, ToByte(wind), timeLastData).Packet());
      var st, len := ack.Encode(buf, 0);
      assert st == PKT_OK;
      bytes := buf[..len];
    }

    /** send_ack; only send can fail. */
    method SendAck(seqnum: SeqNum, ptype: bv8, wind: nat, sendOk: bool)
      requires (ptype == PTYPE_ACK || ptype == PTYPE_NACK) && wind <= R.MAX_WINDOW
      modifies this`sent, this`lastAcked
      ensures sent == old(sent) +
        R.Wired(if sendOk then R.Reply(ptype, seqnum, ToByte(wind), timeLastData) else R.NoReply)
      ensures lastAcked == if sendOk && ptype == PTYPE_ACK then seqnum else old(lastAcked)
    {
      var bytes := EncodeAck(seqnum, ptype, wind);
      if !sendOk {
        return;
      }
      sent := sent + [bytes];
      if ptype == PTYPE_ACK {
        lastAcked := seqnum;
      }
    }

    /** buffer_enqueue of a packet to be kept, and the time stamp. */
    method Keep(pkt: Packet, ghost p: Pkt, now: bv32)
      requires buffer.Valid() && p == pkt.View()
      modifies this`timeLastData, buffer, buffer.nodes
      ensures buffer.Valid() && State() == R.Enqueued(old(State()), p).(timeLastData := now)
      ensures forall i :: 0 <= i < |buffer.nodes| ==> buffer.nodes[i] in old(buffer.nodes) || fresh(buffer.nodes[i])
    {
      hide Linked, Distinct, Follows, Views, PktsOf, Numbers, Place, InsertAt, Packet.View;
      NumbersAreNums(buffer.Pkts());
      PacketNumber(pkt);
      buffer.Enqueue(pkt);
      timeLastData := now;
    }

    /** The part of the receive loop that takes a decoded DATA packet into the buffer. */
    method Store(pkt: Packet, ghost p: Pkt, env: R.Surroundings)
      requires buffer.Valid() && -1 <= lastWrited < 256 && p == pkt.View()
      modifies this`out, this`lastWrited, this`nbWrited, this`timeLastData, buffer, buffer.nodes
      ensures buffer.Valid() && State() == R.Store(old(State()), p, env)
      ensures forall i :: 0 <= i < |buffer.nodes| ==> buffer.nodes[i] in old(buffer.nodes) || fresh(buffer.nodes[i])
    {
      hide Linked, Distinct, Follows, Views, PktsOf, R.Drain, R.Enqueued, Packet.View;
      Keep(pkt, p, env.now);
      WriteBufferToFile(env.writable);
    }

    /** How the receive loop takes a decoded datagram. */
    method Judge(pkt: Packet, st: Status) returns (v: R.Verdict)
      requires Valid()
      ensures v == R.Judge(State(), st, pkt.View())
    {
      hide Linked, Distinct, Follows, PktsOf, R.InWindow, R.Sound, Pkt.Data;
      if st != PKT_OK || pkt.ptype != PTYPE_DATA {
        return R.Refused;
      }
      NumbersAreNums(buffer.Pkts());
      var found := buffer.Contains(pkt.seqnum);
      if found {
        return R.Duplicate;
      }
      var inWindow := IsInWindow(pkt.seqnum);
      if !inWindow {
        return R.Outside;
      }
      if pkt.tr == 1 {
        return R.Truncated;
      }
      return if pkt.length == 0 then R.Eof else R.Data;
    }

    /** What an EOF or a DATA packet changes. */
    method Take(pkt: Packet, ghost p: Pkt, v: R.Verdict, ghost r: R.Receiver, env: R.Surroundings)
      requires buffer.Valid() && -1 <= lastWrited < 256 && p == pkt.View() && r == State()
      modifies this`out, this`lastWrited, this`nbWrited, this`timeLastData, this`lastackToSend
      modifies buffer, buffer.nodes
      ensures buffer.Valid()
      ensures State() == if v.Eof? then r.(lastackToSend := p.seqnum) else if v.Data? then R.Store(r, p, env) else r
      ensures forall i :: 0 <= i < |buffer.nodes| ==> buffer.nodes[i] in old(buffer.nodes) || fresh(buffer.nodes[i])
    {
      hide Linked, Distinct, Follows, Views, PktsOf, R.Store, Packet.View;
      if v.Eof? {
        PacketNumber(pkt);
        lastackToSend := pkt.seqnum;
      } else if v.Data? {
        Store(pkt, p, env);
      }
    }

    method Count(ghost r: R.Receiver)
      requires Valid() && r == State()
      modifies this`accumulated
      ensures Valid() && State() == r.(accumulated := r.accumulated + 1)
    {
      hide Linked, Distinct, Follows, Views, PktsOf, Packet.View, Pkt.Data;
      accumulated := accumulated + 1;
    }

    /** The receive loop between decoding a datagram and considering the acknowledgement. */
    method Absorb(pkt: Packet, ghost p: Pkt, st: Status, ghost r: R.Receiver, env: R.Surroundings)
      returns (v: R.Verdict)
      requires Valid() && p == pkt.View() && r == State()
      modifies this`out, this`lastWrited, this`nbWrited, this`timeLastData, this`accumulated, this`lastackToSend
      modifies buffer, buffer.nodes
      ensures buffer.Valid() && State() == R.Absorb(r, st, p, env) && v == R.Judge(r, st, p)
      ensures forall i :: 0 <= i < |buffer.nodes| ==> buffer.nodes[i] in old(buffer.nodes) || fresh(buffer.nodes[i])
    {
      hide Linked, Distinct, Follows, Views, PktsOf, R.Judge, R.Absorb, R.Store, R.Sound, Packet.View, Pkt.Data;
      R.AbsorbIs(r, st, p, env);
      R.SoundBounds(r);
      v := Judge(pkt, st);
      Count(r);
      Take(pkt, p, v, State(), env);
    }

    /** The end of a round of the receive loop, in terms of the fields it changes. */
    method Answer(ghost r: R.Receiver, v: R.Verdict, ghost p: Pkt, number: SeqNum, env: R.Surroundings)
      requires buffer.Valid() && r == State() && R.Sound(r) && number == p.seqnum
      modifies this`sent, this`lastAcked, this`accumulated
      ensures var (r', reply) := R.Acknowledge(r, v, p, env);
        accumulated == r'.accumulated && lastAcked == r'.lastAcked && sent == old(sent) + R.Wired(reply)
    {
      hide Linked, Distinct, Follows, Views, PktsOf, R.Sound, R.Successor, R.Offset, ToByte, Encoding;
      hide R.Reply.Packet, Packet.View, Pkt.Data;
      R.BufferFitsWindow(r);
      if v.Truncated? {
        SendAck(number, PTYPE_NACK, R.MAX_WINDOW - buffer.size, env.sendOk);
        return;
      }
      var bypass := v.Refused? || v.Duplicate? || v.Eof?;
      if env.late || accumulated >= R.MAX_WINDOW / 4 || bypass || nbWrited == 1 {
        SendAck(R.Successor(lastWrited), PTYPE_ACK, R.MAX_WINDOW - buffer.size, env.sendOk);
        accumulated := 0;
      }
    }

    /** The end of a round of the receive loop: a NACK for a truncated packet, otherwise an ACK
        when one is due. */
    method Acknowledge(ghost r: R.Receiver, v: R.Verdict, ghost p: Pkt, number: SeqNum, env: R.Surroundings)
      requires buffer.Valid() && r == State() && R.Sound(r) && number == p.seqnum
      modifies this`sent, this`lastAcked, this`accumulated
      ensures State() == R.Acknowledge(r, v, p, env).0 && R.Sound(State())
      ensures sent == old(sent) + R.Wired(R.Acknowledge(r, v, p, env).1)
    {
      hide Linked, Distinct, Follows, Views, PktsOf, R.Sound, R.Acknowledge, R.Wired, Packet.View, Pkt.Data;
      R.AcknowledgeIs(r, v, p, env);
      Answer(r, v, p, number, env);
    }

    /** One round of the receive loop on a decoded datagram. */
    method OnPacket(pkt: Packet, ghost p: Pkt, st: Status, env: R.Surroundings)
      requires Valid() && p == pkt.View()
      modifies this, buffer, buffer.nodes
      ensures Valid()
      ensures State() == R.OnDatagram(old(State()), st, p, env).0
      ensures sent == old(sent) + R.Wired(R.OnDatagram(old(State()), st, p, env).1)
      ensures forall i :: 0 <= i < |buffer.nodes| ==> buffer.nodes[i] in old(buffer.nodes) || fresh(buffer.nodes[i])
    {
      hide Linked, Distinct, Follows, Views, PktsOf, R.Sound, R.Absorb, R.Judge, R.Acknowledge, R.Wired, R.OnDatagram;
      hide Packet.View, Pkt.Data;
      PacketNumber(pkt);
      R.OnDatagramIs(State(), st, p, env);
      var number := pkt.seqnum;
      var v := Absorb(pkt, p, st, State(), env);
      Acknowledge(State(), v, p, number, env);
    }

    /** One round of the receive loop on the `len` bytes that read left in the buffer. */
    method OnDatagram(data: array<byte>, len: int, env: R.Surroundings)
      requires Valid() && Covers(data[..], len)
      modifies this, buffer, buffer.nodes
      ensures Valid()
      ensures var (st, p) := Wire.Decode(old(data[..]), len, ZERO);
        State() == R.OnDatagram(old(State()), st, p, env).0 &&
        sent == old(sent) + R.Wired(R.OnDatagram(old(State()), st, p, env).1)
      ensures forall i :: 0 <= i < |buffer.nodes| ==> buffer.nodes[i] in old(buffer.nodes) || fresh(buffer.nodes[i])
    {
      hide Linked, Distinct, Follows, Views, PktsOf, Wire.Decode, R.Sound, R.OnDatagram, R.Wired, Packet.View;
      var pkt := new Packet();
      R.RefusedIgnoresPacket(State(), data[..], len, pkt.View(), env);
      var st := pkt.Decode(data, len);
      OnPacket(pkt, pkt.View(), st, env);
    }
  }
}
