/** The admission counters of the receiver (receiver.c lines 164 and 241-258):
    InNDIS, the number of descriptors indicated to NDIS and not yet returned, and
    InNDISMax, its high-water mark. Each interlocked operation and the
    compare-and-swap retry loop on the mark are one sequential step. */
module Admission {

  /** IN_NDIS_MAX (line 53): above this many descriptors in NDIS, indications are
      made with NDIS_RECEIVE_FLAGS_RESOURCES. */
  const IN_NDIS_MAX: int := 1024

  function Max(a: int, b: int): (r: int)
    ensures (r == a || r == b) && a <= r && b <= r
  {
    if a < b then b else a
  }

  /** The largest of a sequence of counts, 0 when there are none. */
  function MaxOf(s: seq<int>): (r: int)
  {
    if s == [] then 0 else Max(MaxOf(s[..|s| - 1]), s[|s| - 1])
  }

  /** MaxOf bounds every element and, when positive, is one of them. */
  lemma {:induction false} MaxOfBounds(s: seq<int>)
    ensures forall i :: 0 <= i < |s| ==> s[i] <= MaxOf(s)
    ensures MaxOf(s) == 0 || MaxOf(s) in s
    decreases |s|
  {
    if s != [] {
      var init := s[..|s| - 1];
      MaxOfBounds(init);
      assert forall i :: 0 <= i < |init| ==> s[i] == init[i];
      assert MaxOf(init) in init ==> MaxOf(init) in s;
    }
  }

  datatype Counters = Counters(inNdis: int, inNdisMax: int)

  /** The increment step of __ReceiverPushPacket (lines 241-250):
      InterlockedIncrement of InNDIS, then the mark raised to the new count if the
      count is above it. A forced push also decrements the count again through
      line 164; PushOps gives the whole counter side of a push. */
  function Admit(c: Counters): (r: Counters)
    ensures r.inNdis == c.inNdis + 1
    ensures c.inNdisMax <= r.inNdisMax && r.inNdis <= r.inNdisMax
    ensures r.inNdisMax == c.inNdisMax || r.inNdisMax == r.inNdis
  {
    var n := c.inNdis + 1;
    Counters(n, if n <= c.inNdisMax then c.inNdisMax else n)
  }

  /** Whether an indication made when InNDIS has become `n` carries
      NDIS_RECEIVE_FLAGS_RESOURCES (lines 243-245). */
  predicate Forced(n: int): (r: bool)
    ensures r <==> n >= 1025
  {
    n > IN_NDIS_MAX
  }

  /** InterlockedDecrement of InNDIS when a descriptor comes back (line 164). */
  function Retire(c: Counters): (r: Counters)
    ensures r.inNdis == c.inNdis - 1 && r.inNdisMax == c.inNdisMax
  {
    c.(inNdis := c.inNdis - 1)
  }

  /** A counter step: Push is the increment at line 241, Return the decrement at
      line 164. */
  datatype CounterOp = Push | Return

  /** The counter steps of one __ReceiverPushPacket that makes InNDIS `n`: the
      increment, followed by the decrement of the immediate return (lines
      266-267) when the indication is forced. */
  function PushOps(n: int): (ops: seq<CounterOp>)
    ensures |ops| == (if Forced(n) then 2 else 1) && ops[0] == Push
    ensures Forced(n) ==> ops[1] == Return
  {
    if Forced(n) then [Push, Return] else [Push]
  }

  /** The counters after a run of pushes and returns. */
  function Run(c: Counters, ops: seq<CounterOp>): (r: Counters)
  {
    if ops == [] then c
    else
      var before := Run(c, ops[..|ops| - 1]);
      if ops[|ops| - 1] == Push then Admit(before) else Retire(before)
  }

  /** The InNDIS value each push of the run produced, in order. */
  function Observed(c: Counters, ops: seq<CounterOp>): (r: seq<int>)
  {
    if ops == [] then []
    else Observed(c, ops[..|ops| - 1]) + (if ops[|ops| - 1] == Push then [Run(c, ops).inNdis] else [])
  }

  /** The high-water mark is the largest count any push has produced (or where
      it started). */
  lemma {:induction false} MarkIsMaxObserved(c: Counters, ops: seq<CounterOp>)
    requires 0 <= c.inNdisMax
    ensures Run(c, ops).inNdisMax == Max(c.inNdisMax, MaxOf(Observed(c, ops)))
    decreases |ops|
  {
    if ops != [] {
      var init := ops[..|ops| - 1];
      MarkIsMaxObserved(c, init);
      var before := Run(c, init);
      var obs := Observed(c, init);
      if ops[|ops| - 1] == Push {
        var n := before.inNdis + 1;
        assert Observed(c, ops) == obs + [n];
        assert (obs + [n])[..|obs|] == obs;
      } else {
        assert Observed(c, ops) == obs + [];
        assert obs + [] == obs;
      }
    }
  }

  /** The high-water mark never goes down along a run. */
  lemma {:induction false} MarkMonotone(c: Counters, ops: seq<CounterOp>, k: nat)
    requires k <= |ops|
    ensures Run(c, ops[..k]).inNdisMax <= Run(c, ops).inNdisMax
    decreases |ops|
  {
    if k < |ops| {
      var init := ops[..|ops| - 1];
      assert init[..k] == ops[..k];
      MarkMonotone(c, init, k);
    } else {
      assert ops[..k] == ops;
    }
  }

  function Pushes(k: nat): (ops: seq<CounterOp>)
  {
    seq(k, _ => Push)
  }

  /** k increments and no decrements from zeroed counters: the i-th increment
      (from 1) makes InNDIS i, and the count and the mark both end at k. Beyond
      k = 1024 a driver push also decrements, so this is the driver's run only up
      to 1024 pushes. */
  lemma {:induction false} PushesWithoutReturns(k: nat)
    ensures Run(Counters(0, 0), Pushes(k)) == Counters(k, k)
    ensures |Observed(Counters(0, 0), Pushes(k))| == k
    ensures forall i :: 0 <= i < k ==> Observed(Counters(0, 0), Pushes(k))[i] == i + 1
  {
    if k > 0 {
      PushesWithoutReturns(k - 1);
      assert Pushes(k)[..k - 1] == Pushes(k - 1);
    }
  }

  /** With no decrements, the first increment that makes a push forced is the
      1025th, and the mark then stands at 1025. */
  lemma FirstForcedPush()
    ensures |Observed(Counters(0, 0), Pushes(1025))| == 1025 &&
            forall i :: 0 <= i < 1025 ==> (Forced(Observed(Counters(0, 0), Pushes(1025))[i]) <==> i == 1024)
    ensures Run(Counters(0, 0), Pushes(1025)).inNdisMax == 1025
  {
    PushesWithoutReturns(1025);
  }
}
