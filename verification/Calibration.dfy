/** What a calibration of the buffer pool promises: the classes it keeps are the fewest that cover 95 % of the calls. */
module Calibration {
  import opened Sums
  import Converter
  import Permutations

  const STEPS := 20
  const THRESHOLD := 42000

  /** The largest buffer of a class: a cache line of 64 bytes, doubled with every class. */
  function ClassSize(i: nat): nat {
    64 * Converter.Pow2(i)
  }

  lemma {:induction false} ClassSizeGrows(i: nat, j: nat)
    requires i < j
    ensures ClassSize(i) < ClassSize(j)
    decreases j
  {
    if i < j - 1 {
      ClassSizeGrows(i, j - 1);
    }
  }

  /** The least class that fits, or the last one. */
  function ClassOf(n: nat): (i: nat)
    ensures i < STEPS
    ensures i < STEPS - 1 ==> n <= ClassSize(i)
    ensures forall j :: 0 <= j < i ==> ClassSize(j) < n
  {
    ClassFrom(n, 0)
  }

  function ClassFrom(n: nat, i: nat): (r: nat)
    requires i < STEPS && forall j :: 0 <= j < i ==> ClassSize(j) < n
    ensures i <= r < STEPS
    ensures r < STEPS - 1 ==> n <= ClassSize(r)
    ensures forall j :: 0 <= j < r ==> ClassSize(j) < n
    decreases STEPS - i
  {
    if i == STEPS - 1 || n <= ClassSize(i) then i else ClassFrom(n, i + 1)
  }

  /** The classes in numbers: 20 of them, up to 64, 128, 256 and so on to 32 MiB. */
  lemma ClassesInNumbers(n: nat)
    ensures STEPS == 20 && ClassSize(0) == 64 && ClassSize(19) == 33554432
    ensures forall i: nat :: ClassSize(i + 1) == 2 * ClassSize(i)
    ensures n <= 64 ==> ClassOf(n) == 0
    ensures 64 < n <= 128 ==> ClassOf(n) == 1
    ensures 128 < n <= 256 ==> ClassOf(n) == 2
    ensures n > 16777216 ==> ClassOf(n) == 19
  {
    LargestClass();
    var i := ClassOf(n);
    if i > 0 {
      ClassSizeGrows(0, i);
      if i > 1 {
        ClassSizeGrows(1, i);
      }
      if i > 2 {
        ClassSizeGrows(2, i);
      }
    }
    if i < 18 {
      ClassSizeGrows(i, 18);
    }
  }

  lemma LargestClass()
    ensures ClassSize(18) == 16777216 && ClassSize(19) == 33554432
  {
    assert Converter.Pow2(4) == 16;
    assert Converter.Pow2(8) == 256;
    assert Converter.Pow2(12) == 4096;
    assert Converter.Pow2(16) == 65536;
  }

  // -------------------------------------------------------------------------------- the histogram

  datatype CallSize = CallSize(calls: nat, size: nat)

  function Classes(counts: seq<nat>): (r: seq<CallSize>)
    ensures |r| == |counts|
    ensures forall i :: 0 <= i < |r| ==> r[i] == CallSize(counts[i], ClassSize(i))
  {
    seq(|counts|, i requires 0 <= i < |counts| => CallSize(counts[i], ClassSize(i)))
  }

  function CallsOf(e: CallSize): nat {
    e.calls
  }

  function SizeOf(e: CallSize): nat {
    e.size
  }

  function One(e: CallSize): nat {
    1
  }

  ghost function CallsIn(sizes: set<nat>): CallSize -> nat {
    (e: CallSize) => if e.size in sizes then e.calls else 0
  }

  ghost function OneIn(sizes: set<nat>): CallSize -> nat {
    (e: CallSize) => if e.size in sizes then 1 else 0
  }

  /** All calls, those of some sizes, and the number of classes of these sizes. */
  function Total(classes: seq<CallSize>): nat {
    Sum(CallsOf, classes)
  }

  ghost function Calls(classes: seq<CallSize>, sizes: set<nat>): nat {
    Sum(CallsIn(sizes), classes)
  }

  ghost function Number(classes: seq<CallSize>, sizes: set<nat>): nat {
    Sum(OneIn(sizes), classes)
  }

  /** `uint64(float64(total) * 0.95)`. */
  function Percentile(total: nat): nat {
    95 * total / 100
  }

  function Sizes(classes: seq<CallSize>): set<nat> {
    set e | e in classes :: e.size
  }

  /**
   * The default size is that of a most called class. The scanned sizes are all if there were no calls, and else
   * have more than 95 % of the calls, which no smaller number of classes has. The maximal size is their maximum.
   */
  ghost predicate IsGreedy(classes: seq<CallSize>, scanned: set<nat>, defaultSize: nat, maxSize: nat) {
    && defaultSize in scanned && maxSize in scanned && scanned <= Sizes(classes)
    && (forall size :: size in scanned ==> size <= maxSize)
    && (exists e :: e in classes && e.size == defaultSize && forall e' :: e' in classes ==> e'.calls <= e.calls)
    && (if Total(classes) == 0 then scanned == Sizes(classes)
        else IsFewest(classes, scanned))
  }

  ghost predicate IsFewest(classes: seq<CallSize>, scanned: set<nat>) {
    && Calls(classes, scanned) > 95 * Total(classes) / 100
    && forall sizes :: Calls(classes, sizes) > 95 * Total(classes) / 100 ==>
         Number(classes, scanned) <= Number(classes, sizes)
  }

  ghost predicate Calibrated(counts: seq<nat>, defaultSize: nat, maxSize: nat) {
    exists scanned :: IsGreedy(Classes(counts), scanned, defaultSize, maxSize)
  }

  // -------------------------------------------------------------------------- the exchange argument

  predicate Descending(a: seq<CallSize>) {
    forall i, j :: 0 <= i < j < |a| ==> a[i].calls >= a[j].calls
  }

  /** However the classes are chosen, the same number of classes from the front has at least their calls. */
  lemma {:induction false} FrontIsBest(a: seq<CallSize>, sizes: set<nat>)
    requires Descending(a)
    ensures Number(a, sizes) <= |a| && Calls(a, sizes) <= Total(a[..Number(a, sizes)])
  {
    if a != [] {
      var n := |a| - 1;
      FrontIsBest(a[..n], sizes);
      var k := Number(a[..n], sizes);
      assert a[..n][..k] == a[..k];
      if a[n].size in sizes {
        assert Total(a[..k + 1]) == Total(a[..k]) + a[k].calls by {
          assert a[..k + 1][..k] == a[..k];
        }
      }
    }
  }

  lemma {:induction false} LongerFront(a: seq<CallSize>, k: nat, n: nat)
    requires k <= n <= |a|
    ensures Total(a[..k]) <= Total(a[..n])
    decreases n
  {
    if k < n {
      LongerFront(a, k, n - 1);
      assert a[..n][..n - 1] == a[..n - 1];
    }
  }

  /** Sums that agree up to some point, and have nothing after it. */
  lemma {:induction false} OnlyFront(f: CallSize -> nat, g: CallSize -> nat, a: seq<CallSize>, n: nat)
    requires n <= |a|
    requires forall i :: 0 <= i < |a| ==> f(a[i]) == if i < n then g(a[i]) else 0
    ensures Sum(f, a) == Sum(g, a[..n])
    decreases |a|
  {
    if a != [] {
      var last := |a| - 1;
      if n == |a| {
        assert a[..n] == a && a[..last][..last] == a[..last];
        OnlyFront(f, g, a[..last], last);
      } else {
        assert a[..last][..n] == a[..n];
        OnlyFront(f, g, a[..last], n);
      }
    }
  }

  lemma {:induction false} SumOfOnes(a: seq<CallSize>)
    ensures Sum(One, a) == |a|
  {
    if a != [] {
      SumOfOnes(a[..|a| - 1]);
    }
  }

  ghost predicate DistinctSizes(a: seq<CallSize>) {
    forall i, j :: 0 <= i < j < |a| ==> a[i].size != a[j].size
  }

  /** A front of sorted classes that is no longer than needed is a smallest choice. */
  lemma FrontIsFewest(a: seq<CallSize>, n: nat)
    requires Descending(a) && DistinctSizes(a) && 0 < n <= |a|
    requires Total(a[..n - 1]) <= Percentile(Total(a)) < Total(a[..n])
    ensures IsFewest(a, Sizes(a[..n]))
  {
    var front := Sizes(a[..n]);
    forall i | 0 <= i < |a| ensures a[i].size in front <==> i < n {
      if i < n {
        assert a[..n][i] in a[..n];
      }
    }
    OnlyFront(CallsIn(front), CallsOf, a, n);
    OnlyFront(OneIn(front), One, a, n);
    SumOfOnes(a[..n]);
    forall sizes | Calls(a, sizes) > Percentile(Total(a)) ensures n <= Number(a, sizes) {
      FrontIsBest(a, sizes);
      if Number(a, sizes) < n {
        LongerFront(a, Number(a, sizes), n - 1);
      }
    }
  }

  // ------------------------------------------------------------------------- sorting changes nothing

  lemma {:induction false} SumReordered(f: CallSize -> nat, a: seq<CallSize>, b: seq<CallSize>)
    requires multiset(a) == multiset(b)
    ensures Sum(f, a) == Sum(f, b)
    decreases |a|
  {
    if a == [] {
      assert |multiset(b)| == 0;
    } else {
      var i := Permutations.Removal(a, b);
      SumReordered(f, a[1..], b[..i] + b[i + 1..]);
      assert a == [a[0]] + a[1..] && b == b[..i] + ([b[i]] + b[i + 1..]);
      SumConcat(f, [a[0]], a[1..]);
      SumConcat(f, b[..i], [b[i]] + b[i + 1..]);
      SumConcat(f, [b[i]], b[i + 1..]);
      SumConcat(f, b[..i], b[i + 1..]);
    }
  }

  lemma SizesReordered(a: seq<CallSize>, b: seq<CallSize>)
    requires multiset(a) == multiset(b)
    ensures Sizes(a) == Sizes(b)
    ensures forall e :: e in a <==> e in b
  {
    forall e ensures e in a <==> e in b {
      assert e in multiset(a) <==> e in multiset(b);
    }
  }

  lemma FewestReordered(a: seq<CallSize>, b: seq<CallSize>, scanned: set<nat>)
    requires multiset(a) == multiset(b) && IsFewest(a, scanned)
    ensures IsFewest(b, scanned)
  {
    forall sizes ensures Calls(a, sizes) == Calls(b, sizes) && Number(a, sizes) == Number(b, sizes) {
      SumReordered(CallsIn(sizes), a, b);
      SumReordered(OneIn(sizes), a, b);
    }
    SumReordered(CallsOf, a, b);
  }

  lemma Repeated(s: seq<nat>, i: nat, j: nat)
    requires i < j < |s| && s[i] == s[j]
    ensures multiset(s)[s[i]] >= 2
  {
    assert s == s[..j] + s[j..];
    assert s[..j][i] == s[i] && s[j..][0] == s[i];
  }

  /** No two classes of the sorted histogram have the same size. */
  lemma SortedIsDistinct(counts: seq<nat>, a: seq<CallSize>)
    requires multiset(a) == multiset(Classes(counts))
    ensures DistinctSizes(a)
  {
    var sizes, sorted := Permutations.Map(SizeOf, Classes(counts)), Permutations.Map(SizeOf, a);
    Permutations.MapReordered(SizeOf, a, Classes(counts));
    forall i, j | 0 <= i < j < |sizes| ensures sizes[i] != sizes[j] {
      ClassSizeGrows(i, j);
    }
    forall i, j | 0 <= i < j < |a| ensures a[i].size != a[j].size {
      if a[i].size == a[j].size {
        Repeated(sorted, i, j);
        Permutations.DistinctOnce(sizes, a[i].size);
      }
    }
  }

  /** What the scan of the sorted histogram finds is a calibration. */
  lemma ScanCalibrates(counts: seq<nat>, a: seq<CallSize>, n: nat, maxSize: nat)
    requires multiset(a) == multiset(Classes(counts)) && Descending(a) && 0 < n <= |a|
    requires Total(a[..n - 1]) <= Percentile(Total(a))
    requires n == |a| || Total(a[..n]) > Percentile(Total(a))
    requires maxSize in Sizes(a[..n]) && forall size :: size in Sizes(a[..n]) ==> size <= maxSize
    ensures Calibrated(counts, a[0].size, maxSize)
  {
    var classes, scanned := Classes(counts), Sizes(a[..n]);
    SizesReordered(a, classes);
    SumReordered(CallsOf, a, classes);
    assert a[..n][0] in a[..n] && a[..n] <= a;
    assert a[0] in classes && forall e' :: e' in classes ==> e'.calls <= a[0].calls;
    assert a[..|a|] == a;
    LongerFront(a, n, |a|);
    if Total(a) == 0 {
      assert a[..n] == a;
    } else {
      assert n == |a| ==> a[..n] == a;
      SortedIsDistinct(counts, a);
      FrontIsFewest(a, n);
      FewestReordered(a, classes, scanned);
    }
    assert IsGreedy(classes, scanned, a[0].size, maxSize);
  }

  // --------------------------------------------------------------------------------- consequences

  lemma {:induction false} MoreSizesMoreCalls(a: seq<CallSize>, sizes: set<nat>, more: set<nat>)
    requires sizes <= more
    ensures Calls(a, sizes) <= Calls(a, more)
  {
    if a != [] {
      MoreSizesMoreCalls(a[..|a| - 1], sizes, more);
    }
  }

  function UpTo(classes: seq<CallSize>, maxSize: nat): set<nat> {
    set e | e in classes && e.size <= maxSize :: e.size
  }

  /** After a calibration, more than 95 % of its calls, or all, were for buffers of at most the maximal size. */
  lemma MaxSizeCovers(counts: seq<nat>, defaultSize: nat, maxSize: nat)
    requires Calibrated(counts, defaultSize, maxSize)
    ensures defaultSize <= maxSize
    ensures Total(Classes(counts)) > 0 ==>
      Calls(Classes(counts), UpTo(Classes(counts), maxSize)) > 95 * Total(Classes(counts)) / 100
    ensures exists i, j :: 0 <= i <= j < |counts| && defaultSize == ClassSize(i) && maxSize == ClassSize(j)
  {
    var classes := Classes(counts);
    var scanned :| IsGreedy(classes, scanned, defaultSize, maxSize);
    assert scanned <= UpTo(classes, maxSize);
    MoreSizesMoreCalls(classes, scanned, UpTo(classes, maxSize));
    var i :| 0 <= i < |classes| && classes[i].size == defaultSize;
    var j :| 0 <= j < |classes| && classes[j].size == maxSize;
    if j < i {
      ClassSizeGrows(j, i);
    }
    assert 0 <= i <= j < |counts| && defaultSize == ClassSize(i) && maxSize == ClassSize(j);
  }
}
