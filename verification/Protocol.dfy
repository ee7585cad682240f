/** Sender, link and receiver together as a transition system.  Datagrams carry the absolute
    index of the chunk they were made from (for an ACK: the index it names), which no program
    sees; the programs see bytes only, the numbers in them modulo 256. */
module Protocol {
  import opened Crc32
  import opened Wire
  import opened RingSpec
  import opened ReceiverSpec
  import opened SenderSpec

  datatype Datagram = Datagram(index: nat, bytes: seq<byte>)

  /** `cursor` chunks were read, the sender's buffer starts at chunk `base`, `acked` is the index
      named by the last ACK that was sent, `heard` the one named by the last ACK taken in and `granted`
      the window it granted.  What was sent stays in `forward` or `back` for good: the link may deliver
      it never, late, or more than once. */
  datatype World = World(
    s: Sender, r: Receiver, cursor: nat, base: nat, acked: nat, heard: nat, granted: nat,
    forward: set<Datagram>, back: set<Datagram>)

  const START := World(INITIAL_SENDER, INITIAL, 0, 0, 0, 0, 1, {}, {})

  /** What the link does to one datagram on its way into a receive buffer: `buffer` holds the
      altered bytes followed by whatever was there before.  What pkt_decode reads behind the end of
      a buffer that is too short is not modelled. */
  datatype Transit = Transit(msg: Datagram, alteration: Alteration, buffer: seq<byte>)
  {
    predicate Possible() {
      CanAlter(msg.bytes, alteration)
    }

    function Arrived(): seq<byte>
      requires Possible()
    {
      Altered(msg.bytes, alteration)
    }

    ghost predicate Fits()
      requires Possible()
    {
      Covers(buffer, |Arrived()|) && Arrived() <= buffer
    }
  }

  /** One step of one of the parties, with everything it does not decide itself. */
  datatype Step =
    | Read(prior: Pkt)
    | ReadFails
    | AnswerAck(now: bv32)
    | AnswerNack(now: bv32)
    | TimeOut(scan: nat -> bv32, now: bv32)
    | FirstSend(now: bv32)
    | DeliverData(transit: Transit, env: Surroundings)
    | DeliverAck(transit: Transit)

  /** The input as read delivers it: 1 to 512 bytes a call, then end of file for good. */
  ghost predicate Readable(file: seq<seq<byte>>) {
    forall i :: 0 <= i < |file| ==> 0 < |file[i]| <= MAX_PAYLOAD_SIZE
  }

  function NextInput(file: seq<seq<byte>>, cursor: nat): Input {
    if cursor < |file| then Chunk(file[cursor]) else EndOfFile
  }

  /** A packet may not outlive the numbers: 256 of them, a window of 31. */
  const LIFETIME := 225

  /** What a step needs: its party still runs, a lookup finds something, a datagram was sent and,
      when it arrives unaltered, it is not too old. */
  ghost predicate Enabled(w: World, step: Step) {
    match step
    case Read(_) => !w.s.Done()
    case ReadFails => !w.s.Done()
    case AnswerAck(_) => !w.s.Done() && CanLookUp(w.s, w.s.ackReceived)
    case AnswerNack(_) => !w.s.Done() && CanLookUp(w.s, w.s.pktTr)
    case TimeOut(_, _) => !w.s.Done()
    case FirstSend(_) => !w.s.Done()
    case DeliverData(t, _) =>
      !w.r.Done() && t.msg in w.forward && t.Possible() && t.Fits() &&
      (t.alteration.Intact? ==> w.r.nbWrited - t.msg.index <= LIFETIME)
    case DeliverAck(t) =>
      !w.s.Done() && t.msg in w.back && t.Possible() && t.Fits() &&
      (t.alteration.Intact? ==> w.base - t.msg.index <= LIFETIME)
  }

  /** Where the buffer holds a pending number. */
  function Position(s: Sender, number: int): nat {
    if number < 0 then 0 else Find(Nums(s.buf), number)
  }

  /** The sender's new state, and the datagram it sent for the packet at position `k`. */
  function Sent(w: World, k: nat, res: (Sender, Option<seq<byte>>)): World {
    w.(s := res.0,
       forward := if res.1.Some? then w.forward + {Datagram(w.base + k, res.1.value)} else w.forward)
  }

  function Received(w: World, t: Transit, env: Surroundings): World
    requires Sound(w.r) && t.Possible() && Covers(t.buffer, |t.Arrived()|)
  {
    var (st, p) := Decode(t.buffer, |t.Arrived()|, ZERO);
    var (r, reply) := OnDatagram(w.r, st, p, env);
    w.(r := r,
       acked := if reply.Reply? && reply.ptype == PTYPE_ACK then r.nbWrited else w.acked,
       back := if reply.Reply? then w.back + {Datagram(r.nbWrited, Encoding(reply.Packet()))} else w.back)
  }

  function Heard(w: World, t: Transit): World
    requires t.Possible() && Covers(t.buffer, |t.Arrived()|)
  {
    var (st, p) := Decode(t.buffer, |t.Arrived()|, ZERO);
    var s, taken := OnAck(w.s, st, p), st == PKT_OK && p.ptype == PTYPE_ACK && Plausible(w.s, p.seqnum);
    w.(s := s,
       base := if |s.buf| <= |w.s.buf| then w.base + |w.s.buf| - |s.buf| else w.base,
       heard := if taken then t.msg.index else w.heard,
       granted := if taken then Val(p.window) else w.granted)
  }

  ghost predicate Runnable(w: World) {
    Sound(w.r) && w.s.window <= MAX_WINDOW
  }

  function Apply(file: seq<seq<byte>>, w: World, step: Step): World
    requires Readable(file) && Runnable(w) && Enabled(w, step)
  {
    match step
    case Read(prior) =>
      w.(s := OnRead(w.s, NextInput(file, w.cursor), prior),
         cursor := if !Full(w.s) && w.cursor < |file| then w.cursor + 1 else w.cursor)
    case ReadFails => w.(s := OnRead(w.s, ReadError, ZERO))
    case AnswerAck(now) => Sent(w, Position(w.s, w.s.ackReceived), ResendAcked(w.s, now))
    case AnswerNack(now) => Sent(w, Position(w.s, w.s.pktTr), ResendTruncated(w.s, now))
    case TimeOut(scan, now) => Sent(w, FirstOverdue(w.s.buf, scan), ResendTimedOut(w.s, scan, now))
    case FirstSend(now) => Sent(w, FirstUnsent(w.s.buf), SendUnsent(w.s, now))
    case DeliverData(t, env) => Received(w, t, env)
    case DeliverAck(t) => Heard(w, t)
  }

  /** Steps that can be taken one after the other from `w`. */
  ghost predicate Legal(file: seq<seq<byte>>, w: World, steps: seq<Step>)
    requires Readable(file)
    decreases |steps|
  {
    steps == [] ||
    (Runnable(w) && Enabled(w, steps[0]) && Legal(file, Apply(file, w, steps[0]), steps[1..]))
  }

  ghost function Run(file: seq<seq<byte>>, w: World, steps: seq<Step>): World
    requires Readable(file) && Legal(file, w, steps)
    decreases |steps|
  {
    if steps == [] then w else Run(file, Apply(file, w, steps[0]), steps[1..])
  }
}
