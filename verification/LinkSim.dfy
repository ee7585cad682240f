/** The link simulator of link_simulator/link_sim.c: what it does to one datagram, and the delivery
    of those it holds back.  The clock, the random rolls and the results of sendto are inputs. */
module LinkSim {
  import opened Crc32
  import opened Wire
  import opened MinQueues

  const MIN_PKT_LEN := 10
  const MIN_PKT_PDATA_LEN := 12
  const MILLION := 1_000_000

  /** struct timeval.  Nothing keeps `usec` below a million. */
  datatype Timeval = Timeval(sec: int, usec: int)
  {
    function Micros(): int { sec * MILLION + usec }

    predicate Normal() { 0 <= usec < MILLION }
  }

  datatype Datagram = Datagram(direction: int, data: seq<byte>)

  /** struct pkt_slot: a datagram to send after `ts`. */
  datatype Slot = Slot(ts: Timeval, packet: Datagram)

  /** timeval_cmp: left > right. */
  predicate TimevalCmp(left: Timeval, right: Timeval) {
    if left.sec == right.sec then left.usec > right.usec else left.sec > right.sec
  }

  /** pkt_slot_cmp: a > b. */
  predicate PktSlotCmp(a: Slot, b: Slot) {
    TimevalCmp(a.ts, b.ts)
  }

  lemma PktSlotCmpIsStrictWeakOrder()
    ensures StrictWeakOrder(PktSlotCmp)
  {
  }

  // ---------- When a slot is due ----------

  /** The expiration date that simulate_link gives a packet delayed by `delay` milliseconds. */
  function Expiry(clock: Timeval, delay: nat): Timeval {
    Timeval(clock.sec + delay / 1000, clock.usec + (delay % 1000) * 1000)
  }

  /** On normalised clocks the comparison is the one of real times exactly when the expiration
      date is normalised too. */
  lemma DueOnTimeIff(ts: Timeval)
    requires ts.usec >= 0
    ensures (forall clock: Timeval :: clock.Normal() ==> (TimevalCmp(clock, ts) <==> clock.Micros() > ts.Micros()))
       <==> ts.Normal()
  {
    if !ts.Normal() {
      var next := Timeval(ts.sec + 1, 0);
      assert next.Normal() && TimevalCmp(next, ts) && next.Micros() <= ts.Micros();
    }
  }

  /** A packet is never held past the delay asked for, and is let go less than a second early. */
  lemma DueEarlyByLessThanASecond(start: Timeval, delay: nat, clock: Timeval)
    requires start.Normal() && clock.Normal()
    ensures Expiry(start, delay).Micros() == start.Micros() + delay * 1000
    ensures clock.Micros() > start.Micros() + delay * 1000 ==> TimevalCmp(clock, Expiry(start, delay))
    ensures TimevalCmp(clock, Expiry(start, delay)) ==> clock.Micros() > start.Micros() + delay * 1000 - MILLION
  {
  }

  /** A delay is kept by every clock exactly when its milliseconds do not carry into the seconds. */
  lemma DelayIsKeptIff(start: Timeval, delay: nat)
    requires start.Normal()
    ensures (forall clock: Timeval :: clock.Normal() && TimevalCmp(clock, Expiry(start, delay)) ==>
               clock.Micros() > start.Micros() + delay * 1000)
       <==> start.usec + (delay % 1000) * 1000 < MILLION
  {
    DueEarlyByLessThanASecond(start, delay, start);
    var ts := Expiry(start, delay);
    if !ts.Normal() {
      var next := Timeval(ts.sec + 1, 0);
      assert next.Normal() && TimevalCmp(next, ts) && next.Micros() <= ts.Micros();
    }
  }

  /** Two packets under the same delay fall due in the order in which they came. */
  lemma EqualDelaysKeepOrder(first: Timeval, second: Timeval, delay: nat, clock: Timeval)
    requires !TimevalCmp(first, second) && TimevalCmp(clock, Expiry(second, delay))
    ensures TimevalCmp(clock, Expiry(first, delay)) && !TimevalCmp(Expiry(first, delay), Expiry(second, delay))
  {
  }

  // ---------- Delivery ----------

  datatype SendResult = Sent | TryAgain | Failed

  function Packets(slots: seq<Slot>): (packets: seq<Datagram>)
    ensures |packets| == |slots| && forall i :: 0 <= i < |slots| ==> packets[i] == slots[i].packet
  {
    seq(|slots|, i requires 0 <= i < |slots| => slots[i].packet)
  }

  ghost predicate NoneDue(clock: Timeval, slots: seq<Slot>) {
    forall i :: 0 <= i < |slots| ==> !TimevalCmp(clock, slots[i].ts)
  }

  ghost predicate AllDue(clock: Timeval, slots: seq<Slot>) {
    forall i :: 0 <= i < |slots| ==> TimevalCmp(clock, slots[i].ts)
  }

  lemma NoneDueBehind(clock: Timeval, slots: seq<Slot>)
    requires slots != [] ==> !TimevalCmp(clock, slots[0].ts) && forall x :: x in slots ==> !PktSlotCmp(slots[0], x)
    ensures NoneDue(clock, slots)
  {
    forall i | 0 <= i < |slots|
      ensures !TimevalCmp(clock, slots[i].ts)
    {
      assert slots[i] in slots;
    }
  }

  lemma SomeDue(clock: Timeval, slots: seq<Slot>)
    requires slots != [] && TimevalCmp(clock, slots[0].ts)
    ensures !NoneDue(clock, slots)
  {
  }

  ghost predicate AllSent(sends: nat -> SendResult, n: nat) {
    forall k: nat :: k < n ==> sends(k).Sent?
  }

  /** What deliver_delayed_pkt's loop keeps. */
  ghost predicate Progress(
    clock: Timeval, sends: nat -> SendResult, before: seq<Slot>, delivered: seq<Slot>, rest: seq<Slot>)
  {
    PoppedSoFar(PktSlotCmp, before, delivered, rest) && AllDue(clock, delivered) && AllSent(sends, |delivered|)
  }

  lemma ProgressStarts(clock: Timeval, sends: nat -> SendResult, slots: seq<Slot>)
    ensures Progress(clock, sends, slots, [], slots) && Packets([]) == []
  {
  }

  lemma ProgressGoesOn(
      clock: Timeval, sends: nat -> SendResult, before: seq<Slot>, delivered: seq<Slot>, rest: seq<Slot>,
      rest': seq<Slot>)
    requires Progress(clock, sends, before, delivered, rest) && rest != []
    requires TimevalCmp(clock, rest[0].ts) && sends(|delivered|).Sent? && SameItems(rest' + [rest[0]], rest)
    requires forall x :: x in rest ==> !PktSlotCmp(rest[0], x)
    ensures Progress(clock, sends, before, delivered + [rest[0]], rest')
    ensures Packets(delivered + [rest[0]]) == Packets(delivered) + [rest[0].packet]
  {
    PoppedOne(PktSlotCmp, before, delivered, rest, rest');
  }

  /** When nothing due is left, exactly what was due has gone: each slot as often as it was queued. */
  lemma DeliveredIsWhatWasDue(clock: Timeval, before: seq<Slot>, delivered: seq<Slot>, rest: seq<Slot>, x: Slot)
    requires PoppedSoFar(PktSlotCmp, before, delivered, rest) && AllDue(clock, delivered) && NoneDue(clock, rest)
    ensures multiset(delivered)[x] == if TimevalCmp(clock, x.ts) then multiset(before)[x] else 0
  {
  }

  // ---------- The link ----------

  /** The rates in percent, and whether packets are delayed at all. */
  datatype Rates = Rates(loss: nat, cut: nat, err: nat, delays: bool)

  /** The values of rand: percentages, an index and a delay in milliseconds. */
  datatype Rolls = Rolls(loss: nat, cut: nat, err: nat, index: nat, delay: nat)

  /** What loss, cutting and corruption make of a datagram: None when it is dropped. */
  function Outcome(link: Rates, rolls: Rolls, len: nat): Option<Alteration>
    requires len > 0
  {
    if link.loss > 0 && rolls.loss < link.loss then None
    else if link.cut > 0 && rolls.cut < link.cut && len > MIN_PKT_PDATA_LEN then Some(Cut)
    else if link.err > 0 && rolls.err < link.err then Some(Invert(rolls.index % len))
    else Some(Intact)
  }

  /** Every alteration the link makes is one that is possible for the datagram. */
  lemma OutcomeIsPossible(link: Rates, rolls: Rolls, bytes: seq<byte>)
    requires bytes != []
    ensures var a := Outcome(link, rolls, |bytes|); a.Some? ==> CanAlter(bytes, a.value)
  {
  }

  // ---------- What a rate means ----------

  /** RAND_PERCENT: a number from 0 to 100. */
  const PERCENTS := 101

  lemma {:induction false} CountBelow(rolls: set<nat>, n: nat)
    requires forall r: nat :: r in rolls <==> r < n
    ensures |rolls| == n
  {
    if n > 0 {
      CountBelow(rolls - {n - 1}, n - 1);
    } else {
      assert rolls == {};
    }
  }

  function Capped(rate: nat): nat {
    if rate < PERCENTS then rate else PERCENTS
  }

  /** Of the 101 percentages as many lose a datagram as the rate says: 101 from rate 101 on. */
  lemma LossRate(link: Rates, rolls: Rolls, len: nat)
    requires len > 0
    ensures |set r: nat | r < PERCENTS && Outcome(link, rolls.(loss := r), len).None?| == Capped(link.loss)
  {
    CountBelow((set r: nat | r < PERCENTS && Outcome(link, rolls.(loss := r), len).None?), Capped(link.loss));
  }

  /** Of those that survive as many are cut as the rate says, when they are longer than a header. */
  lemma CutRate(link: Rates, rolls: Rolls, len: nat)
    requires len > 0 && Outcome(link, rolls, len).Some?
    ensures |set r: nat | r < PERCENTS && Outcome(link, rolls.(cut := r), len) == Some(Cut)|
         == if len > MIN_PKT_PDATA_LEN then Capped(link.cut) else 0
  {
    CountBelow((set r: nat | r < PERCENTS && Outcome(link, rolls.(cut := r), len) == Some(Cut)),
      if len > MIN_PKT_PDATA_LEN then Capped(link.cut) else 0);
  }

  /** Of those neither lost nor cut as many have a byte inverted as the rate says. */
  lemma ErrRate(link: Rates, rolls: Rolls, len: nat)
    requires len > 0 && Outcome(link, rolls, len).Some? && Outcome(link, rolls, len) != Some(Cut)
    ensures |set r: nat | r < PERCENTS && Outcome(link, rolls.(err := r), len) != Some(Intact)| == Capped(link.err)
    ensures forall r: nat :: Outcome(link, rolls.(err := r), len) in {Some(Intact), Some(Invert(rolls.index % len))}
  {
    CountBelow((set r: nat | r < PERCENTS && Outcome(link, rolls.(err := r), len) != Some(Intact)), Capped(link.err));
  }

  lemma InvertsAt(link: Rates, rolls: Rolls, len: nat, index: nat)
    requires len > 0 && Outcome(link, rolls, len).Some? && Outcome(link, rolls, len).value.Invert?
    ensures Outcome(link, rolls.(index := index), len) == Some(Invert(index % len))
  {
  }

  /** Every position can be the one that is inverted: by the indices congruent to it. */
  lemma EveryByteCanBeInverted(link: Rates, rolls: Rolls, len: nat, i: nat)
    requires i < len && Outcome(link, rolls, len).Some? && Outcome(link, rolls, len).value.Invert?
    ensures Outcome(link, rolls.(index := i), len) == Some(Invert(i))
    ensures forall index: nat :: Outcome(link, rolls.(index := index), len) == Some(Invert(i)) <==> index % len == i
  {
    hide Outcome;
    forall index: nat
      ensures Outcome(link, rolls.(index := index), len) == Some(Invert(index % len))
    {
      InvertsAt(link, rolls, len, index);
    }
  }

  /** Raising a rate saves nothing that was lost, cut or corrupted before, and cuts or corrupts nothing
      by another roll. */
  lemma HigherRates(link: Rates, more: Rates, rolls: Rolls, len: nat)
    requires len > 0 && link.loss <= more.loss && link.cut <= more.cut && link.err <= more.err
    ensures Outcome(link, rolls, len).None? ==> Outcome(more, rolls, len).None?
    ensures Outcome(more, rolls, len) == Some(Intact) ==> Outcome(link, rolls, len) == Some(Intact)
    ensures Outcome(link, rolls, len) == Some(Cut) ==> Outcome(more, rolls, len) in {None, Some(Cut)}
  {
  }

  /** What the link hands on in place of `bytes` when it loses nothing. */
  ghost predicate PassedOn(link: Rates, rolls: Rolls, bytes: seq<byte>, out: seq<byte>) {
    if rolls.cut < link.cut && |bytes| > 12 then
      |out| == 12 && out[0] == bytes[0] | 0x20 && forall i :: 1 <= i < 12 ==> out[i] == bytes[i]
    else
      |out| == |bytes| && forall i :: 0 <= i < |bytes| ==>
        out[i] == if rolls.err < link.err && rolls.index % |bytes| == i then 255 - bytes[i] else bytes[i]
  }

  lemma SurvivorIs(link: Rates, rolls: Rolls, bytes: seq<byte>)
    requires bytes != []
    ensures Outcome(link, rolls, |bytes|).None? <==> rolls.loss < link.loss
    ensures Outcome(link, rolls, |bytes|).Some? ==>
      PassedOn(link, rolls, bytes, Altered(bytes, Outcome(link, rolls, |bytes|).value))
  {
  }

  class Link {
    const rates: Rates
    const queue: MinQueue<Slot>
    var lastClock: Timeval
    /** What write_out has handed to the network so far. */
    var sent: seq<Datagram>

    ghost predicate Valid()
      reads this, queue, queue.e
    {
      queue.Valid() && queue.cmp == PktSlotCmp
    }

    ghost function Waiting(): seq<Slot>
      reads queue, queue.e
      requires queue.size <= queue.e.Length
    {
      queue.e[..queue.size]
    }

    constructor (rates: Rates, clock: Timeval)
      ensures Valid() && this.rates == rates && lastClock == clock && sent == [] && Waiting() == []
      ensures fresh(queue) && fresh(queue.e)
    {
      PktSlotCmpIsStrictWeakOrder();
      this.rates, lastClock, sent := rates, clock, [];
      queue := new MinQueue(PktSlotCmp);
    }

    /** write_out: `result` is what sendto makes of it. */
    method WriteOut(packet: Datagram, result: SendResult) returns (ok: bool)
      modifies this`sent
      ensures ok == result.Sent?
      ensures sent == if ok then old(sent) + [packet] else old(sent)
    {
      ok := result.Sent?;
      if ok {
        sent := sent + [packet];
      }
    }

    /** One round of deliver_delayed_pkt's loop: `packet` is the one at the root. */
    method DeliverTop(packet: Datagram, result: SendResult) returns (written: bool)
      requires Valid() && queue.size > 0
      modifies this`sent, queue`size, queue.e
      ensures Valid() && written == result.Sent?
      ensures if written then queue.size == old(queue.size) - 1 && sent == old(sent) + [packet] &&
                              SameItems(Waiting() + [old(queue.e[0])], old(Waiting()))
              else queue.size == old(queue.size) && sent == old(sent) && Waiting() == old(Waiting())
    {
      written := WriteOut(packet, result);
      if written {
        var _ := queue.Pop();
      }
    }

    /** deliver_delayed_pkt: sends what is due in order until nothing is, or until a send fails;
        `sends(k)` is the result of its k-th send. */
    method DeliverDelayed(sends: nat -> SendResult) returns (ok: bool, delivered: seq<Slot>)
      requires Valid()
      modifies this`sent, queue`size, queue.e
      ensures Valid() && PoppedSoFar(PktSlotCmp, old(Waiting()), delivered, Waiting())
      ensures AllDue(lastClock, delivered) && AllSent(sends, |delivered|)
      ensures sent == old(sent) + Packets(delivered)
      ensures NoneDue(lastClock, Waiting()) || !sends(|delivered|).Sent?
      ensures ok <==> NoneDue(lastClock, Waiting()) || sends(|delivered|).TryAgain?
    {
      hide PoppedSoFar, AllDue, AllSent, SameItems, StrictWeakOrder, Heap, NoneDue, PktSlotCmp, Packets;
      delivered := [];
      ProgressStarts(lastClock, sends, Waiting());
      var p := queue.Peek();
      while p.Some? && TimevalCmp(lastClock, p.value.ts)
        invariant Valid() && queue.e == old(queue.e)
        invariant Progress(lastClock, sends, old(Waiting()), delivered, Waiting())
        invariant sent == old(sent) + Packets(delivered)
        invariant p == if queue.size == 0 then None else Some(queue.e[0])
        invariant p.Some? ==> forall x :: x in Waiting() ==> !PktSlotCmp(p.value, x)
        decreases queue.size
      {
        ghost var before := Waiting();
        var written := DeliverTop(p.value.packet, sends(|delivered|));
        if !written {
          SomeDue(lastClock, Waiting());
          return sends(|delivered|).TryAgain?, delivered;
        }
        ProgressGoesOn(lastClock, sends, old(Waiting()), delivered, before, Waiting());
        delivered := delivered + [p.value];
        p := queue.Peek();
      }
      NoneDueBehind(lastClock, Waiting());
      return true, delivered;
    }

    /** The first half of simulate_link: loss, truncation or corruption of `buf[..length]`, which
        leaves `len` bytes; 0 when the datagram is dropped. */
    method Alter(buf: array<byte>, length: nat, rolls: Rolls) returns (len: nat)
      requires MIN_PKT_LEN <= length <= buf.Length
      modifies buf
      ensures len <= buf.Length && (len == 0 <==> Outcome(rates, rolls, length).None?)
      ensures len > 0 ==> buf[..len] == Altered(old(buf[..length]), Outcome(rates, rolls, length).value)
    {
      if rates.loss > 0 && rolls.loss < rates.loss {
        return 0;
      }
      len := length;
      if rates.cut > 0 && rolls.cut < rates.cut && len > MIN_PKT_PDATA_LEN {
        len := MIN_PKT_PDATA_LEN;
        buf[0] := buf[0] | 0x20;
        assert buf[..len] == Altered(old(buf[..length]), Cut);
      } else if rates.err > 0 && rolls.err < rates.err {
        var idx := rolls.index % len;
        buf[idx] := !buf[idx];
      }
    }

    /** simulate_link on a datagram in `buf[..len]`, with `result` for the send when nothing is
        delayed. */
    method SimulateLink(buf: array<byte>, length: nat, direction: int, rolls: Rolls, result: SendResult)
      returns (ok: bool)
      requires Valid() && MIN_PKT_LEN <= length <= buf.Length
      requires buf as object != queue.e as object  // arrays of two types
      modifies this`sent, queue`size, queue`e, queue.e, buf
      ensures Valid()
      ensures rolls.loss < rates.loss ==> ok && sent == old(sent) && Waiting() == old(Waiting())
      ensures rolls.loss >= rates.loss && !rates.delays && result.Sent? ==>
        exists out :: PassedOn(rates, rolls, old(buf[..length]), out) && sent == old(sent) + [Datagram(direction, out)]
      ensures rolls.loss >= rates.loss && rates.delays ==>
        exists out :: PassedOn(rates, rolls, old(buf[..length]), out) &&
          SameItems(Waiting(), old(Waiting()) + [Slot(Expiry(lastClock, rolls.delay), Datagram(direction, out))])
      ensures match Outcome(rates, rolls, length)
              case None => ok && sent == old(sent) && Waiting() == old(Waiting())
              case Some(a) =>
                var packet := Datagram(direction, Altered(old(buf[..length]), a));
                if rates.delays then
                  ok && sent == old(sent) &&
                  SameItems(Waiting(), old(Waiting()) + [Slot(Expiry(lastClock, rolls.delay), packet)])
                else
                  ok == result.Sent? && sent == (if ok then old(sent) + [packet] else old(sent)) &&
                  Waiting() == old(Waiting())
    {
      SurvivorIs(rates, rolls, buf[..length]);
      var len := Alter(buf, length, rolls);
      if len == 0 {
        return true;
      }
      var packet := Datagram(direction, buf[..len]);
      if rates.delays {
        var _ := queue.Push(Slot(Expiry(lastClock, rolls.delay), packet));
        return true;
      } else {
        ok := WriteOut(packet, result);
      }
    }
  }
}
