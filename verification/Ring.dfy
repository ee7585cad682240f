/** The circular doubly linked list of src/buffer/buffer.c on the heap.  Every operation works
    on any contents, in order or not, and is proved against the sequence operations of RingSpec. */
module Rings {
  import opened Wire
  import opened RingSpec
  import opened Packets

  /** The values of a sequence of packets. */
  ghost function Views(ps: seq<Packet>): (vs: seq<Pkt>)
    reads ps
    ensures |vs| == |ps| && forall i :: 0 <= i < |ps| ==> vs[i] == ps[i].View()
  {
    seq(|ps|, i requires 0 <= i < |ps| reads ps => ps[i].View())
  }

  /** The sequence numbers of a sequence of packets. */
  ghost function Numbers(ps: seq<Packet>): (ns: seq<nat>)
    reads ps
    ensures |ns| == |ps| && forall i :: 0 <= i < |ps| ==> ns[i] == ps[i].seqnum
  {
    seq(|ps|, i requires 0 <= i < |ps| reads ps => ps[i].seqnum)
  }

  lemma NumbersAreNums(ps: seq<Packet>)
    ensures Numbers(ps) == Nums(Views(ps))
  {
  }

  class Node {
    var next: Node?
    var prev: Node?
    const pkt: Packet

    constructor (p: Packet)
      ensures pkt == p
    {
      next, prev, pkt := null, null, p;
    }
  }

  /** The packets that a sequence of nodes holds. */
  ghost function PktsOf(ns: seq<Node>): (ps: seq<Packet>)
    ensures |ps| == |ns| && forall i :: 0 <= i < |ns| ==> ps[i] == ns[i].pkt
  {
    seq(|ns|, i requires 0 <= i < |ns| => ns[i].pkt)
  }

  function Succ(i: nat, n: nat): nat { if i + 1 == n then 0 else i + 1 }

  function Pred(i: nat, n: nat): int { if i == 0 then n - 1 else i - 1 }

  /** Node `i` is followed, and node `Succ(i)` preceded, by its neighbour on the circle. */
  ghost predicate Follows(ns: seq<Node>, i: nat)
    requires i < |ns|
    reads ns
  {
    ns[i].next == ns[Succ(i, |ns|)] && ns[Succ(i, |ns|)].prev == ns[i]
  }

  /** Next and prev go round the circle and are each other's inverse. */
  ghost predicate Linked(ns: seq<Node>)
    reads ns
  {
    forall i :: 0 <= i < |ns| ==> Follows(ns, i)
  }

  ghost predicate Distinct<T>(s: seq<T>) {
    forall i, j :: 0 <= i < j < |s| ==> s[i] != s[j]
  }

  lemma DistinctInsert<T>(s: seq<T>, k: nat, x: T)
    requires Distinct(s) && x !in s && k <= |s|
    ensures Distinct(InsertAt(s, k, x))
  {
  }

  lemma DistinctRemove<T>(s: seq<T>, k: nat)
    requires Distinct(s) && k < |s|
    ensures Distinct(RemoveAt(s, k))
    ensures s[k] !in RemoveAt(s, k)
  {
  }

  /** Which elements come to stand at the ends. */
  lemma EndsInsert<T>(s: seq<T>, i: nat, x: T)
    requires Distinct(s) && i < |s|
    ensures InsertAt(s, 0, x)[0] == x && InsertAt(s, 0, x)[|s|] == s[|s| - 1]
    ensures InsertAt(s, i + 1, x)[0] == s[0]
    ensures InsertAt(s, i + 1, x)[|s|] == if s[i] == s[|s| - 1] then x else s[|s| - 1]
  {
  }

  lemma EndsRemove<T>(s: seq<T>, k: nat)
    requires Distinct(s) && k < |s| && |s| >= 2
    ensures RemoveAt(s, k)[0] == if s[k] == s[0] then s[1] else s[0]
    ensures RemoveAt(s, k)[|s| - 2] == if s[k] == s[|s| - 1] then s[|s| - 2] else s[|s| - 1]
    ensures s[k] == s[0] ==> k == 0 && s[k] != s[|s| - 1]
    ensures s[k] == s[|s| - 1] ==> k == |s| - 1
  {
  }

  lemma PktsDrop(ns: seq<Node>, k: nat)
    requires k <= |ns|
    ensures PktsOf(ns[k..]) == PktsOf(ns)[k..]
  {
  }

  lemma ViewsDrop(ps: seq<Packet>, k: nat)
    requires k <= |ps|
    ensures Views(ps[k..]) == Views(ps)[k..]
  {
  }

  lemma NumbersDrop(ps: seq<Packet>, k: nat)
    requires k <= |ps|
    ensures Numbers(ps[k..]) == Numbers(ps)[k..]
  {
  }

  lemma ViewsInsert(ps: seq<Packet>, k: nat, p: Packet)
    requires k <= |ps|
    ensures Views(InsertAt(ps, k, p)) == InsertAt(Views(ps), k, p.View())
  {
  }

  lemma HeadIsFound(ns: seq<Node>)
    requires ns != []
    ensures Find(Numbers(PktsOf(ns)), ns[0].pkt.seqnum) == 0
    ensures RemoveAt(ns, 0) == ns[1..]
  {
  }

  lemma PktsInsert(ns: seq<Node>, k: nat, n: Node)
    requires k <= |ns|
    ensures PktsOf(InsertAt(ns, k, n)) == InsertAt(PktsOf(ns), k, n.pkt)
  {
  }

  /** Once `n` stands between node `i` and its successor, the longer circle is linked. */
  lemma LinkedInsert(ns: seq<Node>, i: nat, n: Node, k: nat)
    requires i < |ns| && (k == i + 1 || (k == 0 && i == |ns| - 1))
    requires forall j :: 0 <= j < |ns| && j != i ==> Follows(ns, j)
    requires ns[i].next == n && n.prev == ns[i]
    requires n.next == ns[Succ(i, |ns|)] && ns[Succ(i, |ns|)].prev == n
    ensures Linked(InsertAt(ns, k, n))
  {
    var t := InsertAt(ns, k, n);
    assert forall j :: 0 <= j < |t| ==> t[j] == if j < k then ns[j] else if j == k then n else ns[j - 1];
    forall j | 0 <= j < |t|
      ensures Follows(t, j)
    {
      if j == k {
      } else {
        var o := if j < k then j else j - 1;
        assert o != i ==> Follows(ns, o);
      }
    }
  }

  /** Once node `k` is bridged, the shorter circle is linked. */
  lemma LinkedRemove(ns: seq<Node>, k: nat)
    requires k < |ns| && |ns| >= 2
    requires forall j :: 0 <= j < |ns| && j != k && Succ(j, |ns|) != k ==> Follows(ns, j)
    requires var p, s := ns[Pred(k, |ns|)], ns[Succ(k, |ns|)]; p.next == s && s.prev == p
    ensures Linked(RemoveAt(ns, k))
  {
    var t := RemoveAt(ns, k);
    assert forall j :: 0 <= j < |t| ==> t[j] == if j < k then ns[j] else ns[j + 1];
    forall j | 0 <= j < |t|
      ensures Follows(t, j)
    {
      var o := if j < k then j else j + 1;
      assert o != k && (Succ(o, |ns|) != k ==> Follows(ns, o));
    }
  }

  class Ring {
    var first: Node?
    var last: Node?
    var size: nat
    ghost var nodes: seq<Node>

    ghost function Pkts(): (ps: seq<Packet>)
      reads this
      ensures |ps| == |nodes|
    {
      PktsOf(nodes)
    }

    ghost predicate Valid()
      reads this, nodes
    {
      size == |nodes| &&
      (if size == 0 then first == null && last == null
       else first == nodes[0] && last == nodes[size - 1]) &&
      Distinct(nodes) && Linked(nodes)
    }

    /** buffer_init */
    constructor ()
      ensures Valid() && Pkts() == [] && nodes == []
    {
      first, last, size, nodes := null, null, 0, [];
    }

    /** The node behind the head, which is the head itself in a circle of one. */
    lemma HeadNext()
      requires Valid() && size > 0
      ensures first.next == nodes[if size == 1 then 0 else 1]
      ensures Views(Pkts())[0] == first.pkt.View()
    {
      assert Follows(nodes, 0);
    }

    lemma NextAt(i: nat)
      requires Valid() && i < size
      ensures nodes[i].next == nodes[if i + 1 == size then 0 else i + 1]
      ensures nodes[i].pkt == Pkts()[i]
    {
      assert Follows(nodes, i);
    }

    // ---------- buffer_enqueue ----------

    /** The walk from the head, for a tail that has wrapped. */
    method WalkFromHead(q: SeqNum) returns (current: Node, before: bool, ghost i: nat)
      requires Valid() && size > 0 && TailWrapped(Numbers(Pkts()), q)
      ensures i < size && current == nodes[i]
      ensures before ==> i == 0
      ensures Place(Numbers(Pkts()), q) == if before then 0 else i + 1
    {
      ghost var s := Numbers(Pkts());
      current, before, i := first, false, 0;
      if q < current.pkt.seqnum || (q > current.pkt.seqnum && current.pkt.seqnum < 50) {
        before := true;
      }
      assert Follows(nodes, 0);
      while q > current.next.pkt.seqnum && !before && !(current.next.pkt.seqnum < 50 && q > 205)
        invariant i < size && current == nodes[i] && Follows(nodes, i)
        invariant if before then i == 0 else s[i] >= 50
        invariant !before ==> WalkOn(s, q, i) == WalkOn(s, q, 0)
        decreases size - i
      {
        assert s[size - 1] < 50 && i + 1 < size && Follows(nodes, i + 1);
        current, i := current.next, i + 1;
      }
    }

    /** The walk back from the tail. */
    method WalkFromTail(q: SeqNum) returns (current: Node, before: bool, ghost i: nat)
      requires Valid() && size > 0 && !TailWrapped(Numbers(Pkts()), q)
      ensures i < size && current == nodes[i]
      ensures before ==> i == 0
      ensures Place(Numbers(Pkts()), q) == if before then 0 else i + 1
    {
      ghost var s := Numbers(Pkts());
      current, before, i := last, false, size - 1;
      while q < current.pkt.seqnum && !(current.pkt.seqnum > 205 && q < 50)
        invariant i < size && current == nodes[i] && !before
        invariant i == 0 ==> size == 1
        invariant WalkBack(s, q, i) == WalkBack(s, q, size - 1)
        decreases i
      {
        assert Follows(nodes, Pred(i, size));
        current := current.prev;
        if current == first {
          i := 0;
          if q < first.pkt.seqnum {
            before := true;
          }
          break;
        }
        i := i - 1;
      }
    }

    /** Hangs `n` between node `i` and its successor; as position `k` that is behind node `i`, or
        in front of the head when node `i` is the tail. */
    method Splice(n: Node, prev: Node, next: Node, ghost i: nat, ghost k: nat)
      requires Valid() && n !in nodes && i < size
      requires prev == nodes[i] && next == nodes[Succ(i, size)]
      requires k == i + 1 || (k == 0 && i == size - 1)
      modifies nodes, n
      ensures Linked(InsertAt(nodes, k, n))
    {
      ghost var ns, m := nodes, size;
      assert Follows(ns, i);
      n.prev := prev;
      n.next := next;
      next.prev := n;
      prev.next := n;
      forall j | 0 <= j < m && j != i
        ensures Follows(ns, j)
      {
        assert old(Follows(ns, j));
      }
      LinkedInsert(ns, i, n, k);
    }

    /** Hangs `n` in front of the head. */
    method LinkBefore(n: Node, current: Node)
      requires Valid() && n !in nodes && size > 0 && current == nodes[0]
      modifies this, nodes, n
      ensures Valid() && nodes == InsertAt(old(nodes), 0, n)
    {
      assert Follows(nodes, size - 1);
      hide Linked, Distinct, InsertAt;
      EndsInsert(nodes, 0, n);
      DistinctInsert(nodes, 0, n);
      Splice(n, current.prev, current, size - 1, 0);
      first := n;
      size := size + 1;
      nodes := InsertAt(nodes, 0, n);
    }

    /** Hangs `n` behind `current`. */
    method LinkAfter(n: Node, current: Node, ghost i: nat)
      requires Valid() && n !in nodes && i < size && current == nodes[i]
      modifies this, nodes, n
      ensures Valid() && nodes == InsertAt(old(nodes), i + 1, n)
    {
      assert Follows(nodes, i);
      hide Linked, Distinct, InsertAt;
      EndsInsert(nodes, i, n);
      DistinctInsert(nodes, i + 1, n);
      Splice(n, current, current.next, i, i + 1);
      if current == last {
        last := n;
      }
      size := size + 1;
      nodes := InsertAt(nodes, i + 1, n);
    }

    /** The node behind or in front of which a packet numbered `q` goes. */
    method FindPlace(q: SeqNum) returns (current: Node, before: bool, ghost i: nat)
      requires Valid() && size > 0
      ensures i < size && current == nodes[i]
      ensures before ==> i == 0
      ensures Place(Numbers(Pkts()), q) == if before then 0 else i + 1
    {
      if last.pkt.seqnum < 50 && q > 205 {
        current, before, i := WalkFromHead(q);
      } else {
        current, before, i := WalkFromTail(q);
      }
    }

    /** The circle of one. */
    method EnqueueFirst(p: Packet)
      requires Valid() && size == 0
      modifies this
      ensures Valid() && Pkts() == InsertAt(old(Pkts()), Place(old(Numbers(Pkts())), p.seqnum), p)
      ensures forall i :: 0 <= i < |nodes| ==> fresh(nodes[i])
    {
      var n := new Node(p);
      n.next, n.prev := n, n;
      first, last := n, n;
      size, nodes := 1, [n];
    }

    /** A circle that already holds packets. */
    method EnqueueMore(p: Packet)
      requires Valid() && size > 0
      modifies this, nodes
      ensures Valid() && Pkts() == InsertAt(old(Pkts()), Place(old(Numbers(Pkts())), p.seqnum), p)
      ensures forall i :: 0 <= i < |nodes| ==> nodes[i] in old(nodes) || fresh(nodes[i])
    {
      hide Place, Linked, Distinct, Follows, InsertAt, PktsOf, Numbers;
      var current, before;
      ghost var i;
      current, before, i := FindPlace(p.seqnum);
      ghost var k := if before then 0 else i + 1;
      var n := new Node(p);
      Members(nodes, k, n);
      PktsInsert(nodes, k, n);
      if before {
        LinkBefore(n, current);
      } else {
        LinkAfter(n, current, i);
      }
    }

    method Enqueue(p: Packet)
      requires Valid()
      modifies this, nodes
      ensures Valid()
      ensures Pkts() == InsertAt(old(Pkts()), Place(old(Numbers(Pkts())), p.seqnum), p)
      ensures Views(Pkts()) == InsertAt(old(Views(Pkts())), Place(old(Numbers(Pkts())), p.seqnum), p.View())
      ensures forall i :: 0 <= i < |nodes| ==> nodes[i] in old(nodes) || fresh(nodes[i])
    {
      hide Place, Linked, Distinct, Follows, InsertAt, PktsOf, Numbers;
      ghost var ps := InsertAt(Pkts(), Place(Numbers(Pkts()), p.seqnum), p);
      ViewsInsert(Pkts(), Place(Numbers(Pkts()), p.seqnum), p);
      if size == 0 {
        EnqueueFirst(p);
      } else {
        EnqueueMore(p);
      }
      assert Views(ps) == old(Views(ps));
    }

    // ---------- Lookups ----------

    /** is_in_buffer */
    method Contains(q: SeqNum) returns (found: bool)
      requires Valid()
      ensures found <==> q in Numbers(Pkts())
    {
      if size == 0 {
        return false;
      }
      var current := first;
      for i := 0 to size
        invariant current == nodes[if i == size then 0 else i]
        invariant q !in Numbers(Pkts())[..i]
      {
        if current.pkt.seqnum == q {
          assert Numbers(Pkts())[i] == q;
          return true;
        }
        assert Follows(nodes, i);
        current := current.next;
      }
      assert Numbers(Pkts())[..size] == Numbers(Pkts());
      return false;
    }

    /** The first node that holds `q`, as buffer_get_pkt and buffer_remove look for it. */
    method Seek(q: SeqNum) returns (current: Node?)
      requires Valid() && size > 0
      ensures var k := Find(Numbers(Pkts()), q);
        current == if k < size then nodes[k] else null
    {
      ghost var s, i := Numbers(Pkts()), 0;
      current := first;
      while current.pkt.seqnum != q
        invariant i < size && current == nodes[i]
        invariant i <= Find(s, q)
        decreases size - i
      {
        assert Follows(nodes, i) && s[i] != q;
        current := current.next;
        if current == first {
          return null;
        }
        i := i + 1;
      }
    }

    /** buffer_get_pkt */
    method GetPkt(q: SeqNum) returns (p: Packet?)
      requires Valid()
      ensures var k := Find(Numbers(Pkts()), q);
        p == if k < size then Pkts()[k] else null
    {
      if size == 0 {
        return null;
      }
      var node := Seek(q);
      if node == null {
        return null;
      }
      return node.pkt;
    }

    /** look_for_unsended_packet: the first packet whose timestamp is still 0. */
    method LookForUnsent() returns (p: Packet?, ghost k: nat)
      requires Valid()
      ensures k <= size && forall i :: 0 <= i < k ==> Pkts()[i].timestamp != 0
      ensures p == if k < size then Pkts()[k] else null
      ensures k < size ==> Pkts()[k].timestamp == 0
      ensures p == null <==> forall i :: 0 <= i < size ==> Pkts()[i].timestamp != 0
    {
      if size == 0 {
        return null, 0;
      }
      var current := first;
      for i := 0 to size
        invariant current == nodes[if i == size then 0 else i]
        invariant forall j :: 0 <= j < i ==> Pkts()[j].timestamp != 0
      {
        if current.pkt.timestamp == 0 {
          return current.pkt, i;
        }
        assert Follows(nodes, i);
        current := current.next;
      }
      return null, size;
    }

    // ---------- Removals ----------

    /** Joins the neighbours of the node at position `k`. */
    method Bridge(node: Node, ghost k: nat)
      requires Valid() && size >= 2 && k < size && node == nodes[k]
      modifies nodes
      ensures Linked(RemoveAt(nodes, k))
      ensures node.next == nodes[Succ(k, size)] && node.prev == nodes[Pred(k, size)]
    {
      ghost var ns, m := nodes, size;
      assert Follows(ns, k) && Follows(ns, Pred(k, m));
      node.prev.next := node.next;
      node.next.prev := node.prev;
      forall j | 0 <= j < m && j != k && Succ(j, m) != k
        ensures Follows(ns, j)
      {
        assert old(Follows(ns, j));
      }
      LinkedRemove(ns, k);
    }

    /** Takes the node at position `k` out of a circle of at least two. */
    method Unlink(node: Node, ghost k: nat)
      requires Valid() && size >= 2 && k < size && node == nodes[k]
      modifies this, nodes
      ensures Valid() && nodes == RemoveAt(old(nodes), k)
    {
      hide Linked, Distinct, RemoveAt;
      EndsRemove(nodes, k);
      DistinctRemove(nodes, k);
      Bridge(node, k);
      if node == first {
        first := first.next;
      } else if node == last {
        last := last.prev;
      }
      size := size - 1;
      nodes := RemoveAt(nodes, k);
    }

    /** Takes out the node at position `k`, in any circle.  What the code then writes into the
        freed node is not modelled. */
    method Drop(node: Node, ghost k: nat)
      requires Valid() && k < size && node == nodes[k]
      modifies this, nodes
      ensures Valid() && nodes == RemoveAt(old(nodes), k)
    {
      if size <= 1 {
        first, last, size, nodes := null, null, 0, [];
      } else {
        Unlink(node, k);
      }
    }

    /** buffer_remove_first */
    method RemoveFirst() returns (p: Packet?)
      requires Valid()
      modifies this, nodes
      ensures Valid()
      ensures old(size) == 0 ==> p == null && nodes == old(nodes)
      ensures old(size) > 0 ==> p == old(Pkts())[0] && nodes == old(nodes)[1..]
    {
      if size == 0 {
        return null;
      }
      p := first.pkt;
      Drop(first, 0);
    }

    /** buffer_remove: the first packet numbered `q`, or nothing. */
    method Remove(q: SeqNum) returns (p: Packet?)
      requires Valid()
      modifies this, nodes
      ensures Valid()
      ensures var k := Find(old(Numbers(Pkts())), q);
        if k < |old(nodes)| then p == old(Pkts())[k] && nodes == RemoveAt(old(nodes), k)
        else p == null && nodes == old(nodes)
    {
      if first == null {
        return null;
      }
      ghost var k := Find(Numbers(Pkts()), q);
      var node := Seek(q);
      if node == null {
        return null;
      }
      p := node.pkt;
      Drop(node, k);
    }

    /** buffer_remove called with the number of the head, which finds the head. */
    method RemoveHead() returns (p: Packet)
      requires Valid() && size > 0
      modifies this, nodes
      ensures Valid() && p == old(Pkts())[0] && nodes == old(nodes)[1..]
    {
      hide Linked, Distinct, Follows, RemoveAt, Find;
      HeadIsFound(nodes);
      p := Remove(first.pkt.seqnum);
    }

    /** The same, for a caller that looks at the contents. */
    method TakeHead() returns (p: Packet)
      requires Valid() && size > 0
      modifies this, nodes
      ensures Valid() && p == old(Pkts())[0] && nodes == old(nodes)[1..]
      ensures Views(Pkts()) == old(Views(Pkts()))[1..]
    {
      hide Linked, Distinct, Follows, PktsOf, Views;
      PktsDrop(nodes, 1);
      ViewsDrop(Pkts(), 1);
      p := RemoveHead();
    }

    /** The same, for a caller that looks at the numbers. */
    method DropHead(ghost s: seq<nat>)
      requires Valid() && size > 0 && s == Numbers(Pkts())
      modifies this, nodes
      ensures Valid() && nodes == old(nodes)[1..] && Numbers(Pkts()) == s[1..]
    {
      hide Linked, Distinct, Follows, PktsOf, Numbers;
      PktsDrop(nodes, 1);
      NumbersDrop(Pkts(), 1);
      var p := RemoveHead();
    }

    lemma HeadNumber()
      requires Valid() && size > 0
      ensures first.pkt.seqnum == Numbers(Pkts())[0]
    {
    }

    /** The loop of buffer_remove_acked. */
    method DropUntil(q: SeqNum) returns (count: nat)
      requires Valid() && Find(Numbers(Pkts()), q) < size
      modifies this, nodes
      ensures Valid()
      ensures count == Find(old(Numbers(Pkts())), q) && nodes == old(nodes)[count..]
    {
      hide Linked, Distinct, Follows, Views, PktsOf, Numbers, Find;
      count := 0;
      ghost var ns, s := nodes, Numbers(Pkts());
      ghost var k := Find(s, q);
      HeadNumber();
      while q != first.pkt.seqnum
        invariant Valid() && size > 0 && count <= k < |ns| == |s|
        invariant nodes == ns[count..] && Numbers(Pkts()) == s[count..] && first.pkt.seqnum == s[count]
        decreases size
      {
        DropHead(s[count..]);
        count := count + 1;
        HeadNumber();
      }
    }

    /** buffer_remove_acked: drops what is in front of the packet numbered `q`; nothing when no
        packet has that number. */
    method RemoveAcked(q: SeqNum) returns (count: nat)
      requires Valid()
      modifies this, nodes
      ensures Valid()
      ensures count == if q in old(Numbers(Pkts())) then Find(old(Numbers(Pkts())), q) else 0
      ensures count <= |old(nodes)| && nodes == old(nodes)[count..]
    {
      hide Linked, Distinct, Follows, Views, PktsOf, Numbers;
      count := 0;
      if size == 0 {
        return;
      }
      var found := Contains(q);
      if !found {
        return;
      }
      count := DropUntil(q);
    }
  }
}
