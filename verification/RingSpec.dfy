/** src/buffer/buffer.c on sequences: where buffer_enqueue puts a packet and which one a
    sequence number finds, for any contents, and when that is the order buffer.h promises. */
module RingSpec {

  function InsertAt<T>(s: seq<T>, k: nat, x: T): (t: seq<T>)
    requires k <= |s|
    ensures |t| == |s| + 1
  {
    s[..k] + [x] + s[k..]
  }

  function RemoveAt<T>(s: seq<T>, k: nat): (t: seq<T>)
    requires k < |s|
    ensures |t| == |s| - 1
  {
    s[..k] + s[k + 1..]
  }

  lemma Members<T>(s: seq<T>, k: nat, x: T)
    requires k <= |s|
    ensures forall y :: y in InsertAt(s, k, x) ==> y == x || y in s
    ensures k < |s| ==> forall y :: y in RemoveAt(s, k) ==> y in s
  {
  }

  lemma InsertedItems<T>(s: seq<T>, k: nat, x: T)
    requires k <= |s|
    ensures multiset(InsertAt(s, k, x)) == multiset(s + [x])
  {
    assert s == s[..k] + s[k..];
  }

  /** The first position that holds `q`, or the length of `s`. */
  function Find(s: seq<nat>, q: nat): (k: nat)
    ensures k <= |s|
    ensures forall i :: 0 <= i < k ==> s[i] != q
    ensures k < |s| ==> s[k] == q
    ensures k < |s| <==> q in s
  {
    if s == [] then 0 else if s[0] == q then 0 else 1 + Find(s[1..], q)
  }

  // ---------- buffer_enqueue ----------

  /** The walk back from the tail goes past `x`. */
  predicate GoesBefore(q: nat, x: nat) {
    q < x && !(x > 205 && q < 50)
  }

  /** The walk from the head, taken when the tail has wrapped and `q` has not, goes past `x`. */
  predicate GoesBeyond(q: nat, x: nat) {
    q > x && !(x < 50 && q > 205)
  }

  /** The walk back with `current` at position `i`.  It stops at the head, where only the bare
      numbers are compared. */
  function WalkBack(s: seq<nat>, q: nat, i: nat): (k: nat)
    requires i < |s| && (i == 0 ==> |s| == 1)
    ensures k <= |s|
  {
    if !GoesBefore(q, s[i]) then i + 1
    else if i <= 1 then (if q < s[0] then 0 else 1)
    else WalkBack(s, q, i - 1)
  }

  /** The walk from the head with `current` at position `i`. */
  function WalkOn(s: seq<nat>, q: nat, i: nat): (k: nat)
    requires i < |s|
    ensures k <= |s|
    decreases |s| - i
  {
    if i + 1 < |s| && GoesBeyond(q, s[i + 1]) then WalkOn(s, q, i + 1) else i + 1
  }

  /** `q` goes in front of the head when the tail has wrapped. */
  predicate BeforeHead(q: nat, head: nat) {
    q < head || (q > head && head < 50)
  }

  predicate TailWrapped(s: seq<nat>, q: nat)
    requires s != []
  {
    s[|s| - 1] < 50 && q > 205
  }

  /** The position buffer_enqueue gives a packet numbered `q` in a ring numbered `s`. */
  function Place(s: seq<nat>, q: nat): (k: nat)
    ensures k <= |s|
  {
    if s == [] then 0
    else if TailWrapped(s, q) then (if BeforeHead(q, s[0]) then 0 else WalkOn(s, q, 0))
    else WalkBack(s, q, |s| - 1)
  }

  lemma {:induction false} WalkBackStops(s: seq<nat>, q: nat, i: nat)
    requires |s| >= 2 && 1 <= i < |s|
    ensures var k := WalkBack(s, q, i);
      && (forall j :: 1 <= j <= i && k <= j ==> q < s[j] && (s[j] <= 205 || q >= 50))
      && (if k >= 2 then k <= i + 1 && !(q < s[k - 1] && (s[k - 1] <= 205 || q >= 50)) else k == 0 <==> q < s[0])
    decreases i
  {
    if GoesBefore(q, s[i]) && i > 1 {
      WalkBackStops(s, q, i - 1);
    }
  }

  lemma {:induction false} WalkOnStops(s: seq<nat>, q: nat, i: nat)
    requires i < |s| && q > 205
    ensures var k := WalkOn(s, q, i);
      && i < k && (forall j :: i < j < k ==> q > s[j] >= 50)
      && (k < |s| ==> !(q > s[k] >= 50))
    decreases |s| - i
  {
    if i + 1 < |s| && GoesBeyond(q, s[i + 1]) {
      WalkOnStops(s, q, i + 1);
    }
  }

  /** Where a packet goes, in terms of its neighbours there and whatever the ring holds: in front of
      everything that the walk passes and behind what stops it, the head by its bare number. */
  lemma PlaceIs(s: seq<nat>, q: nat)
    requires s != []
    ensures var k, n := Place(s, q), |s|;
      if s[n - 1] < 50 && q > 205 then
        && (k == 0 <==> q < s[0] || s[0] < 50)
        && (forall j :: 1 <= j < k ==> q > s[j] >= 50)
        && (0 < k < n ==> !(q > s[k] >= 50))
      else if n == 1 then k == 0 <==> q < s[0] && (s[0] <= 205 || q >= 50)
      else
        && (forall j :: 1 <= j < n && k <= j ==> q < s[j] && (s[j] <= 205 || q >= 50))
        && (if k >= 2 then !(q < s[k - 1] && (s[k - 1] <= 205 || q >= 50)) else k == 0 <==> q < s[0])
  {
    if TailWrapped(s, q) {
      if !BeforeHead(q, s[0]) {
        WalkOnStops(s, q, 0);
      }
    } else if |s| >= 2 {
      WalkBackStops(s, q, |s| - 1);
    }
  }

  // ---------- Serial order ----------

  /** How far `x` lies ahead of `b` on the circle of 256 numbers. */
  function Ahead(b: nat, x: nat): (d: int)
    requires b < 256 && x < 256
    ensures 0 <= d < 256
  {
    if x >= b then x - b else x - b + 256
  }

  /** All numbers lie within 31 consecutive ones that start at `b`. */
  ghost predicate Within(b: nat, s: seq<nat>) {
    b < 256 && forall i :: 0 <= i < |s| ==> s[i] < 256 && Ahead(b, s[i]) < 31
  }

  ghost predicate InSerialOrder(b: nat, s: seq<nat>) {
    Within(b, s) && forall i, j :: 0 <= i < j < |s| ==> Ahead(b, s[i]) < Ahead(b, s[j])
  }

  /** The one shape that buffer_enqueue misplaces: the head has not wrapped, everything behind
      it has, and the new number has wrapped too but precedes everything behind the head. */
  predicate Overtakes(s: seq<nat>, q: nat) {
    |s| >= 2 && s[0] > 205 && forall i :: 1 <= i < |s| ==> s[i] < 50 && q < s[i]
  }

  /** Inside such a window the walk back compares in serial order unless the new number is
      before the wrap and `x` is behind it. */
  lemma GoesBeforeIsSerial(b: nat, q: nat, x: nat)
    requires b < 256 && q < 256 && x < 256 && q != x && Ahead(b, q) < 31 && Ahead(b, x) < 31
    requires !(x < 50 && q > 205)
    ensures GoesBefore(q, x) <==> Ahead(b, q) < Ahead(b, x)
  {
  }

  lemma GoesBeyondIsSerial(b: nat, q: nat, x: nat)
    requires b < 256 && q < 256 && x < 256 && q != x && Ahead(b, q) < 31 && Ahead(b, x) < 31
    requires q > 205
    ensures GoesBeyond(q, x) <==> Ahead(b, q) > Ahead(b, x)
    ensures BeforeHead(q, x) <==> Ahead(b, q) < Ahead(b, x)
  {
  }

  /** `k` is the position of `q` in serial order. */
  ghost predicate IsSerialPlace(b: nat, s: seq<nat>, q: nat, k: nat)
    requires Within(b, s) && q < 256
  {
    k <= |s| &&
    (forall i :: 0 <= i < k ==> Ahead(b, s[i]) < Ahead(b, q)) &&
    (forall i :: k <= i < |s| ==> Ahead(b, q) < Ahead(b, s[i]))
  }

  lemma SerialPlaceSorts(b: nat, s: seq<nat>, q: nat, k: nat)
    requires InSerialOrder(b, s) && q < 256 && Ahead(b, q) < 31 && k <= |s|
    ensures InSerialOrder(b, InsertAt(s, k, q)) <==> IsSerialPlace(b, s, q, k)
  {
    var t := InsertAt(s, k, q);
    assert forall i :: 0 <= i < k ==> t[i] == s[i];
    assert forall i :: k <= i < |s| ==> t[i + 1] == s[i];
    assert t[k] == q;
    if InSerialOrder(b, t) {
      forall i | k <= i < |s|
        ensures Ahead(b, q) < Ahead(b, s[i])
      {
        assert Ahead(b, t[k]) < Ahead(b, t[i + 1]);
      }
    }
  }

  lemma {:induction false} WalkOnIsSerial(b: nat, s: seq<nat>, q: nat, i: nat)
    requires InSerialOrder(b, s) && q < 256 && Ahead(b, q) < 31 && q !in s && q > 205
    requires i < |s| && Ahead(b, s[i]) < Ahead(b, q)
    ensures IsSerialPlace(b, s, q, WalkOn(s, q, i))
    decreases |s| - i
  {
    if i + 1 < |s| {
      GoesBeyondIsSerial(b, q, s[i + 1]);
      if GoesBeyond(q, s[i + 1]) {
        WalkOnIsSerial(b, s, q, i + 1);
      }
    }
  }

  /** Neither walk back nor head has gone past the wrap where the tail has not. */
  lemma PassesIsSerial(b: nat, s: seq<nat>, q: nat, j: nat)
    requires InSerialOrder(b, s) && q < 256 && Ahead(b, q) < 31 && q !in s
    requires s != [] && !TailWrapped(s, q) && j < |s|
    ensures if q < s[j] && (s[j] <= 205 || q >= 50) then Ahead(b, q) < Ahead(b, s[j])
            else Ahead(b, s[j]) < Ahead(b, q)
    ensures s[0] > 205 && q < 50 && Ahead(b, q) < Ahead(b, s[j]) ==> j > 0 && q < s[j] < 50
  {
    assert j < |s| - 1 ==> Ahead(b, s[j]) < Ahead(b, s[|s| - 1]);
    GoesBeforeIsSerial(b, q, s[j]);
  }

  lemma WalkBackIsSerial(b: nat, s: seq<nat>, q: nat, i: nat)
    requires InSerialOrder(b, s) && q < 256 && Ahead(b, q) < 31 && q !in s
    requires s != [] && !TailWrapped(s, q)
    requires i < |s| && (i == 0 ==> |s| == 1)
    requires forall j :: i < j < |s| ==> Ahead(b, q) < Ahead(b, s[j])
    ensures IsSerialPlace(b, s, q, WalkBack(s, q, i)) <==>
      !(Overtakes(s, q) && forall j :: 1 <= j <= i ==> q < s[j])
  {
    hide Ahead, TailWrapped;
    forall j | 0 <= j < |s|
      ensures if q < s[j] && (s[j] <= 205 || q >= 50) then Ahead(b, q) < Ahead(b, s[j])
              else Ahead(b, s[j]) < Ahead(b, q)
      ensures s[0] > 205 && q < 50 && Ahead(b, q) < Ahead(b, s[j]) ==> j > 0 && q < s[j] < 50
    {
      PassesIsSerial(b, s, q, j);
    }
    if |s| >= 2 {
      WalkBackStops(s, q, i);
    }
  }

  /** The packet that overtakes becomes the head. */
  lemma {:induction false} OvertakerGoesFirst(s: seq<nat>, q: nat, i: nat)
    requires Overtakes(s, q) && 1 <= i < |s|
    ensures WalkBack(s, q, i) == 0
    decreases i
  {
    if i > 1 {
      OvertakerGoesFirst(s, q, i - 1);
    }
  }

  /** buffer.h promises that buffer_enqueue respects the order of the numbers.  It does exactly
      when the new packet does not overtake what is behind a head that has not wrapped. */
  lemma EnqueueKeepsSerialOrderIff(b: nat, s: seq<nat>, q: nat)
    requires InSerialOrder(b, s) && q < 256 && Ahead(b, q) < 31 && q !in s
    ensures InSerialOrder(b, InsertAt(s, Place(s, q), q)) <==> !Overtakes(s, q)
  {
    SerialPlaceSorts(b, s, q, Place(s, q));
    if s == [] {
    } else if TailWrapped(s, q) {
      GoesBeyondIsSerial(b, q, s[0]);
      if Ahead(b, s[0]) < Ahead(b, q) {
        WalkOnIsSerial(b, s, q, 0);
      }
    } else {
      WalkBackIsSerial(b, s, q, |s| - 1);
    }
  }
}
