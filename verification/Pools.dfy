/** The pool of byte buffers, used by one goroutine: size classes, a histogram of calls, and its calibration. */
module Pools {
  import opened Sums
  import opened Calibration
  import opened ByteBuffers
  import Converter

  /** `k >> i`. */
  function Shifted(k: nat, i: nat): nat {
    if i == 0 then k else Shifted(k / 2, i - 1)
  }

  lemma {:induction false} ShiftedOnce(k: nat, i: nat)
    ensures Shifted(k, i + 1) == Shifted(k, i) / 2
    decreases i
  {
    if i > 0 {
      ShiftedOnce(k / 2, i - 1);
    }
  }

  lemma {:induction false} ShiftedAway(k: nat, i: nat)
    ensures Shifted(k, i) == 0 <==> k < Converter.Pow2(i)
    decreases i
  {
    if i > 0 {
      ShiftedAway(k / 2, i - 1);
    }
  }

  lemma ClassIs(n: nat, i: nat)
    requires i > 0 ==> ClassSize(i - 1) < n
    requires n <= ClassSize(i)
    ensures ClassOf(n) == if i < STEPS then i else STEPS - 1
  {
    var r := ClassOf(n);
    if r < i - 1 {
      ClassSizeGrows(r, i - 1);
    }
  }

  /** `index`: the bits of the size beyond the first class, counted. */
  method Index(n: nat) returns (idx: nat)
    ensures idx == ClassOf(n)
  {
    hide ClassOf;
    var m := (n - 1) / 64;
    ghost var k: nat := if n > 0 then m else 0;
    idx := 0;
    while m > 0
      invariant n > 0 ==> m == Shifted(k, idx)
      invariant n == 0 ==> m < 0 && idx == 0
      invariant idx > 0 ==> Converter.Pow2(idx - 1) <= k
    {
      ShiftedAway(k, idx);
      ShiftedOnce(k, idx);
      m := m / 2;
      idx := idx + 1;
    }
    ShiftedAway(k, idx);
    ClassIs(n, idx);
    if idx >= STEPS {
      idx := STEPS - 1;
    }
  }

  /** `sort.Sort` with the order of `callSizes`; where classes of equally many calls go is not specified. */
  method Sort(a: array<CallSize>)
    modifies a
    ensures Descending(a[..])
    ensures multiset(a[..]) == multiset(old(a[..]))
  {
    var i := 0;
    while i < a.Length
      invariant i <= a.Length && Descending(a[..i])
      invariant multiset(a[..]) == multiset(old(a[..]))
    {
      Sink(a, i);
      i := i + 1;
    }
    assert a[..a.Length] == a[..];
  }

  predicate SortedBut(s: seq<CallSize>, i: nat, j: nat)
    requires i < |s|
  {
    forall p, q :: 0 <= p < q <= i && q != j ==> s[p].calls >= s[q].calls
  }

  function Swapped(s: seq<CallSize>, j: nat): seq<CallSize>
    requires 0 < j < |s|
  {
    s[j := s[j - 1]][j - 1 := s[j]]
  }

  lemma SwapKeeps(s: seq<CallSize>, i: nat, j: nat)
    requires 0 < j <= i < |s| && SortedBut(s, i, j) && s[j].calls > s[j - 1].calls
    ensures SortedBut(Swapped(s, j), i, j - 1) && multiset(Swapped(s, j)) == multiset(s)
  {}

  /** Moves an element behind a sorted front to its place. */
  method Sink(a: array<CallSize>, i: nat)
    requires i < a.Length && Descending(a[..i])
    modifies a
    ensures Descending(a[..i + 1])
    ensures multiset(a[..]) == multiset(old(a[..]))
  {
    var j: nat := i;
    assert SortedBut(a[..], i, j) by {
      assert forall p :: 0 <= p < i ==> a[..i][p] == a[p];
    }
    while j > 0 && a[j].calls > a[j - 1].calls
      invariant j <= i && SortedBut(a[..], i, j)
      invariant multiset(a[..]) == multiset(old(a[..]))
    {
      ghost var s := a[..];
      SwapKeeps(s, i, j);
      a[j], a[j - 1] := a[j - 1], a[j];
      assert a[..] == Swapped(s, j);
      j := j - 1;
    }
    Settled(a[..], i, j);
  }

  lemma Settled(s: seq<CallSize>, i: nat, j: nat)
    requires j <= i < |s| && SortedBut(s, i, j) && (j == 0 || s[j].calls <= s[j - 1].calls)
    ensures Descending(s[..i + 1])
  {
    forall p | 0 <= p < j ensures s[p].calls >= s[j].calls {
      assert p == j - 1 || s[p].calls >= s[j - 1].calls;
    }
  }

  /** One call of `AddUint64` on the histogram. */
  function Counted(counts: seq<nat>, i: nat): seq<nat>
    requires i < |counts|
  {
    counts[i := counts[i] + 1]
  }

  function Zeros(n: nat): seq<nat> {
    seq(n, i => 0)
  }

  /** What the pool publishes: nothing yet, or the result of one calibration. */
  ghost predicate Published(defaultSize: nat, maxSize: nat) {
    || (defaultSize == 0 && maxSize == 0)
    || exists counts: seq<nat> :: |counts| == STEPS && Calibrated(counts, defaultSize, maxSize)
  }

  lemma CalibrationIsPublished(counts: seq<nat>, defaultSize: nat, maxSize: nat)
    requires |counts| == STEPS && Calibrated(counts, defaultSize, maxSize)
    ensures Published(defaultSize, maxSize)
  {}

  /** What one call for a buffer of some size does to the histogram and to the published sizes. */
  ghost predicate CallCounted(counts: seq<nat>, n: nat, counts': seq<nat>,
                              defaultSize: nat, maxSize: nat, defaultSize': nat, maxSize': nat)
  {
    && |counts| == STEPS
    && var counted := Counted(counts, ClassOf(n));
       if counted[ClassOf(n)] <= 42000 then
         counts' == counted && defaultSize' == defaultSize && maxSize' == maxSize
       else
         counts' == Zeros(STEPS) && Calibrated(counted, defaultSize', maxSize')
  }

  class Pool {
    const calls: array<nat>
    var calibrating: bool
    var defaultSize: nat
    var maxSize: nat
    var pool: set<ByteBuffer>

    /** Between calls, no class has more than 42000 calls, and the buffers in the pool are empty. */
    ghost predicate Valid()
      reads this, calls, pool
    {
      && calls.Length == STEPS && !calibrating
      && (forall i :: 0 <= i < STEPS ==> calls[i] <= 42000)
      && (forall b :: b in pool ==> b.len == 0)
      && Published(defaultSize, maxSize)
    }

    constructor ()
      ensures Valid() && fresh(calls) && pool == {} && defaultSize == 0 && maxSize == 0
    {
      calls := new nat[STEPS](_ => 0);
      calibrating, defaultSize, maxSize, pool := false, 0, 0, {};
    }

    /** A buffer of the pool, or a new one of the default size; the pool may forget buffers, or keep them back. */
    method Get() returns (b: ByteBuffer)
      requires Valid()
      modifies this`pool
      ensures Valid() && b.Valid() && b.Contents() == [] && b !in pool
      ensures if b in old(pool) then pool == old(pool) - {b}
              else fresh(b) && b.data.Length == defaultSize && pool == old(pool)
    {
      var hit: bool := *;
      if hit && pool != {} {
        b :| b in pool;
        pool := pool - {b};
      } else {
        b := new ByteBuffer(defaultSize);
      }
    }

    /** Returns a buffer: its size is counted, and it is kept, emptied, unless it is too large. */
    method Put(b: ByteBuffer)
      requires Valid() && b.Valid() && b !in pool
      modifies this, calls, b`len
      ensures Valid() && b.data == old(b.data)
      ensures CallCounted(old(calls[..]), old(b.len), calls[..], old(defaultSize), old(maxSize), defaultSize, maxSize)
      ensures pool == old(pool) + if maxSize == 0 || b.data.Length <= maxSize then {b} else {}
      ensures b.len == if b in pool then 0 else old(b.len)
    {
      CountCall(b.len);
      if maxSize == 0 || b.data.Length <= maxSize {
        b.Reset();
        pool := pool + {b};
      }
    }

    /** Counts a call for a buffer of some size; the call over the threshold calibrates. */
    method CountCall(n: nat)
      requires Valid()
      modifies this`calibrating, this`defaultSize, this`maxSize, calls
      ensures Valid()
      ensures CallCounted(old(calls[..]), n, calls[..], old(defaultSize), old(maxSize), defaultSize, maxSize)
    {
      hide Calibrated, ClassOf, Published;
      var idx := Index(n);
      calls[idx] := calls[idx] + 1;
      ghost var counted := calls[..];
      assert counted == Counted(old(calls[..]), idx);
      if calls[idx] > THRESHOLD {
        Calibrate();
        CalibrationIsPublished(counted, defaultSize, maxSize);
        assert forall i :: 0 <= i < STEPS ==> calls[i] == calls[..][i];
      }
    }

    /**
     * Takes the histogram, and publishes the sizes that the scan of the sorted classes comes to. Does nothing
     * while another calibration is under way.
     */
    method Calibrate()
      requires calls.Length == STEPS
      modifies this`calibrating, this`defaultSize, this`maxSize, calls
      ensures calibrating == old(calibrating)
      ensures old(calibrating) ==>
        calls[..] == old(calls[..]) && defaultSize == old(defaultSize) && maxSize == old(maxSize)
      ensures !old(calibrating) ==>
        calls[..] == Zeros(STEPS) && Calibrated(old(calls[..]), defaultSize, maxSize)
    {
      if calibrating {
        return;
      }
      calibrating := true;
      var a, callsSum := TakeCalls();
      ghost var counts := old(calls[..]);
      Sort(a);
      SumReordered(CallsOf, a[..], Classes(counts));
      defaultSize, maxSize := Scan(a, callsSum, counts);
      calibrating := false;
    }

    /** The greedy scan of the sorted classes. */
    method Scan(a: array<CallSize>, callsSum: nat, ghost counts: seq<nat>) returns (newDefault: nat, newMax: nat)
      requires a.Length == STEPS && Descending(a[..]) && callsSum == Total(a[..])
      requires multiset(a[..]) == multiset(Classes(counts))
      ensures Calibrated(counts, newDefault, newMax)
    {
      hide Sum, Calibrated;
      ghost var s := a[..];
      newDefault := a[0].size;
      newMax := newDefault;
      var maxSum, sum := 95 * callsSum / 100, 0;
      FrontTotal(s, 0);
      var i := 0;
      while i < STEPS && sum <= maxSum
        invariant i <= STEPS && sum == Total(s[..i])
        invariant i > 0 ==> Total(s[..i - 1]) <= maxSum && IsLargest(newMax, s[..i])
        invariant i == 0 ==> newMax == newDefault
      {
        FrontTotal(s, i + 1);
        LargestSoFar(s, i, newMax);
        sum := sum + a[i].calls;
        if a[i].size > newMax {
          newMax := a[i].size;
        }
        i := i + 1;
      }
      ScanCalibrates(counts, s, i, newMax);
    }

    /** Swaps every counter for zero. */
    method TakeCalls() returns (a: array<CallSize>, callsSum: nat)
      requires calls.Length == STEPS
      modifies calls
      ensures fresh(a) && a[..] == Classes(old(calls[..])) && calls[..] == Zeros(STEPS)
      ensures callsSum == Total(a[..])
    {
      a := new CallSize[STEPS](_ => CallSize(0, 0));
      callsSum := 0;
      ghost var counts := calls[..];
      var i := 0;
      while i < STEPS
        invariant i <= STEPS && calls[i..] == counts[i..]
        invariant forall k :: 0 <= k < i ==> calls[k] == 0 && a[k] == CallSize(counts[k], ClassSize(k))
        invariant callsSum == Total(a[..i])
      {
        assert calls[i] == counts[i..][0];
        var n := calls[i];
        calls[i] := 0;
        callsSum := callsSum + n;
        a[i] := CallSize(n, ClassSize(i));
        assert a[..i + 1][..i] == a[..i];
        i := i + 1;
      }
      assert a[..STEPS] == a[..];
    }
  }

  predicate IsLargest(size: nat, a: seq<CallSize>) {
    size in Sizes(a) && forall s :: s in Sizes(a) ==> s <= size
  }

  lemma FrontTotal(a: seq<CallSize>, n: nat)
    requires n <= |a|
    ensures Total(a[..n]) == if n == 0 then 0 else Total(a[..n - 1]) + a[n - 1].calls
  {
    if n > 0 {
      assert a[..n][..n - 1] == a[..n - 1];
    }
  }

  lemma LargestSoFar(a: seq<CallSize>, i: nat, size: nat)
    requires i < |a| && if i == 0 then size == a[0].size else IsLargest(size, a[..i])
    ensures IsLargest(if a[i].size > size then a[i].size else size, a[..i + 1])
  {
    var front := a[..i + 1];
    assert front == a[..i] + [a[i]];
    assert front[i] in front;
    forall s | s in Sizes(front) ensures s == a[i].size || s in Sizes(a[..i]) {
      var e :| e in front && e.size == s;
      assert e == a[i] || e in a[..i];
    }
    forall e | e in a[..i] ensures e.size in Sizes(front) {
      assert e in front;
    }
  }
}
