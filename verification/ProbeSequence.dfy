// The quadratic probe over groups of slots: the masked, incremental index
// agrees with the closed formula, and the first size / GroupSize indices visit
// every group exactly once.
module ProbeSequences {
  import opened Bits
  import opened MetadataGroups

  // A table size: a power of two, and at least `MaxGroupSize`.
  ghost predicate IsSize(size: nat) {
    size >= 16 && IsPow2(size)
  }

  ghost predicate IsGroupStart(index: int, size: nat) {
    0 <= index && index % GroupSize == 0 && index + GroupSize <= size
  }

  function Triangle(k: nat): nat {
    if k == 0 then 0 else Triangle(k - 1) + k
  }

  lemma {:induction false} TriangleFormula(k: nat)
    ensures 2 * Triangle(k) == k * (k + 1)
    ensures Triangle(k) == (k + k * k) / 2
  {
    if k > 0 {
      TriangleFormula(k - 1);
    }
  }

  // An odd factor contributes nothing to divisibility by a power of two.
  lemma {:induction false} OddFactor(a: nat, x: nat, k: nat, c: nat) returns (d: nat)
    requires a % 2 == 1 && a * x == Pow2(k) * c
    ensures x == Pow2(k) * d
  {
    if k == 0 {
      d := x;
    } else {
      EvenProduct(a, x, Pow2(k - 1) * c);
      d := OddFactor(a, x / 2, k - 1, c);
    }
  }

  lemma EvenProduct(a: nat, x: nat, h: nat)
    requires a % 2 == 1 && a * x == 2 * h
    ensures x % 2 == 0 && a * (x / 2) == h
  {
    var b := a / 2;
    assert a * x == 2 * (b * x) + x;
    assert x == 2 * (x / 2);
    assert a * x == 2 * (a * (x / 2));
  }

  lemma TriangleDifference(i: nat, j: nat)
    requires i < j
    ensures (j - i) * (j + i + 1) == 2 * (Triangle(j) - Triangle(i))
  {
    TriangleFormula(i);
    TriangleFormula(j);
    assert (j - i) * (j + i + 1) == (j * j + j) - (i * i + i);
  }

  // Two steps below 2^m never reach the same group.
  lemma TriangleInjective(i: nat, j: nat, m: nat, c: nat)
    requires i < j < Pow2(m)
    ensures Triangle(j) - Triangle(i) != Pow2(m) * c
  {
    hide *;
    var p := Pow2(m);
    TriangleDifference(i, j);
    Pow2Double(m);
    ProductNotMultiple(j - i, j + i + 1, m + 1, c);
    HalveProducts(Triangle(j) - Triangle(i), p, c);
  }

  lemma Pow2Double(m: nat)
    ensures Pow2(m + 1) == 2 * Pow2(m)
  {
  }

  lemma HalveProducts(d: int, p: int, c: int)
    ensures 2 * d != 2 * p * c ==> d != p * c
  {
    assert 2 * p * c == 2 * (p * c);
  }

  lemma ProductNotMultiple(lo: nat, hi: nat, k: nat, c: nat)
    requires 0 < lo < hi < Pow2(k) && lo % 2 != hi % 2
    ensures lo * hi != Pow2(k) * c
  {
    if lo * hi == Pow2(k) * c {
      if lo % 2 == 1 {
        var d := OddFactor(lo, hi, k, c);
        NoMultipleBelow(hi, Pow2(k), d);
      } else {
        assert hi * lo == lo * hi;
        var d := OddFactor(hi, lo, k, c);
        NoMultipleBelow(lo, Pow2(k), d);
      }
    }
  }

  lemma NoMultipleBelow(x: nat, p: nat, d: nat)
    requires 0 < x < p
    ensures x != p * d
  {
  }

  function GroupAt(start: nat, step: nat, groups: nat): nat
    requires groups > 0
  {
    (start + Triangle(step)) % groups
  }

  lemma GroupAtInjective(start: nat, i: nat, j: nat, m: nat)
    requires i < j < Pow2(m)
    ensures GroupAt(start, i, Pow2(m)) != GroupAt(start, j, Pow2(m))
  {
    var p := Pow2(m);
    var x, y := start + Triangle(i), start + Triangle(j);
    if x % p == y % p {
      TriangleMonotone(i, j);
      var c := SameRemainder(x, y, p);
      TriangleInjective(i, j, m, c);
    }
  }

  lemma SameRemainder(x: nat, y: nat, p: nat) returns (c: nat)
    requires p > 0 && x <= y && x % p == y % p
    ensures y - x == p * c
  {
    var d := y / p - x / p;
    assert y - x == p * d;
    if d < 0 {
      Multiple(d, p);
    }
    c := d;
  }

  lemma TriangleMonotone(i: nat, j: nat)
    requires i <= j
    ensures Triangle(i) <= Triangle(j)
  {
  }

  ghost function Visited(start: nat, steps: nat, groups: nat): (s: set<nat>)
    requires groups > 0
    ensures forall g <- s :: g < groups
  {
    if steps == 0 then {} else Visited(start, steps - 1, groups) + {GroupAt(start, steps - 1, groups)}
  }

  lemma {:induction false} VisitedWitness(start: nat, steps: nat, groups: nat, g: nat) returns (k: nat)
    requires groups > 0 && g in Visited(start, steps, groups)
    ensures k < steps && GroupAt(start, k, groups) == g
  {
    if g == GroupAt(start, steps - 1, groups) {
      k := steps - 1;
    } else {
      k := VisitedWitness(start, steps - 1, groups, g);
    }
  }

  lemma {:induction false} VisitedCount(start: nat, steps: nat, m: nat)
    requires steps <= Pow2(m)
    ensures |Visited(start, steps, Pow2(m))| == steps
  {
    if steps > 0 {
      var p, last := Pow2(m), steps - 1;
      VisitedCount(start, last, m);
      if GroupAt(start, last, p) in Visited(start, last, p) {
        var k := VisitedWitness(start, last, p, GroupAt(start, last, p));
        GroupAtInjective(start, k, last, m);
      }
    }
  }

  lemma VisitsEveryGroup(start: nat, m: nat, g: nat) returns (k: nat)
    requires g < Pow2(m)
    ensures k < Pow2(m) && GroupAt(start, k, Pow2(m)) == g
  {
    var p := Pow2(m);
    VisitedCount(start, p, m);
    SubsetOfSameSize(Visited(start, p, p), Below(p));
    k := VisitedWitness(start, p, p, g);
  }

  ghost function Below(n: nat): (s: set<nat>)
    ensures forall x: nat :: x in s <==> x < n
    ensures |s| == n
  {
    if n == 0 then {} else Below(n - 1) + {n - 1}
  }

  lemma SubsetOfSameSize(a: set<nat>, b: set<nat>)
    requires a <= b && |a| == |b|
    ensures a == b
  {
    assert |b - a| == |b| - |a|;
  }

  // -------- Probe indices: group numbers scaled to slots --------

  function GroupBits(): (b: nat)
    ensures Pow2(b) == GroupSize && b <= 4
  {
    assert Pow2(3) == 8 && Pow2(4) == 16;
    if GroupSize == 8 then 3 else 4
  }

  lemma SmallPow2(k: nat)
    ensures k < 4 ==> Pow2(k) <= 8
  {
    assert Pow2(3) == 8;
    if k < 4 {
      Pow2Monotone(k, 3);
    }
  }

  // The closed formula, scaled by the group size.
  function ProbeIndex(start: nat, step: nat, size: nat): nat
    requires size >= 16
  {
    GroupSize * GroupAt(start / GroupSize, step, size / GroupSize)
  }

  lemma SizeInGroups(size: nat) returns (m: nat)
    requires IsSize(size)
    ensures size / GroupSize == Pow2(m) && size == GroupSize * Pow2(m)
  {
    var k: nat :| size == Pow2(k);
    SmallPow2(k);
    m := k - GroupBits();
    assert Pow2(k - 3) == 2 * Pow2(k - 4);
    assert Pow2(k - 2) == 2 * Pow2(k - 3);
    assert Pow2(k - 1) == 2 * Pow2(k - 2);
  }

  lemma ProbeIndexInRange(start: nat, step: nat, size: nat)
    requires IsSize(size)
    ensures IsGroupStart(ProbeIndex(start, step, size), size)
  {
    var m := SizeInGroups(size);
    var g, n := GroupAt(start / GroupSize, step, size / GroupSize), Pow2(m);
    assert g < n;
    GroupStarts(g, n);
  }

  lemma GroupStarts(g: nat, n: nat)
    requires g < n
    ensures IsGroupStart(GroupSize * g, GroupSize * n)
  {
    hide GroupAt;
  }

  ghost predicate OnPath(start: nat, step: nat, size: nat, index: nat)
    requires size >= 16
  {
    step < size / GroupSize && ProbeIndex(start, step, size) == index
  }

  // The first size / GroupSize probe indices are a permutation of the group
  // starts: each is reached, and by one step only.
  lemma ProbeReaches(start: nat, index: nat, size: nat)
    requires IsSize(size) && IsGroupStart(index, size)
    ensures exists k: nat :: OnPath(start, k, size, index)
  {
    var m := SizeInGroups(size);
    var k := VisitsEveryGroup(start / GroupSize, m, index / GroupSize);
    assert OnPath(start, k, size, index);
  }

  lemma ProbeIndexInjective(start: nat, i: nat, j: nat, size: nat)
    requires IsSize(size) && i < j < size / GroupSize
    ensures ProbeIndex(start, i, size) != ProbeIndex(start, j, size)
  {
    var m := SizeInGroups(size);
    GroupAtInjective(start / GroupSize, i, j, m);
  }

  // The step at which the probe from `start` reaches the group at `index`.
  ghost function StepOf(start: nat, index: nat, size: nat): (k: nat)
    requires IsSize(size) && IsGroupStart(index, size)
    ensures OnPath(start, k, size, index)
  {
    ProbeReaches(start, index, size);
    var k: nat :| OnPath(start, k, size, index);
    k
  }

  lemma StepOfUnique(start: nat, k: nat, size: nat)
    requires IsSize(size) && k < size / GroupSize
    ensures IsGroupStart(ProbeIndex(start, k, size), size)
    ensures StepOf(start, ProbeIndex(start, k, size), size) == k
  {
    ProbeIndexInRange(start, k, size);
    var j := StepOf(start, ProbeIndex(start, k, size), size);
    if j < k {
      ProbeIndexInjective(start, j, k, size);
    } else if k < j {
      ProbeIndexInjective(start, k, j, size);
    }
  }

  // Doubling the size adds one high bit to the first probe index.
  lemma HomeDoubles(start: nat, size: nat)
    requires IsSize(size)
    ensures IsSize(2 * size)
    ensures || ProbeIndex(start, 0, 2 * size) == ProbeIndex(start, 0, size)
            || ProbeIndex(start, 0, 2 * size) == ProbeIndex(start, 0, size) + size
  {
    hide Pow2, IsSize;
    var m := SizeInGroups(size);
    DoubleSize(size);
    assert 2 * size / GroupSize == 2 * Pow2(m);
    ModDoubles(start / GroupSize, Pow2(m));
  }

  lemma DoubleSize(size: nat)
    requires IsSize(size)
    ensures IsSize(2 * size)
  {
    var k: nat :| size == Pow2(k);
    assert 2 * size == Pow2(k + 1);
  }

  lemma ModDoubles(x: nat, n: nat)
    requires n > 0
    ensures x % (2 * n) == x % n || x % (2 * n) == x % n + n
  {
    var q, r := x / (2 * n), x % (2 * n);
    assert x == (2 * q) * n + r;
    if r < n {
      ModUnique(x, n, 2 * q, r);
    } else {
      assert x == (2 * q + 1) * n + (r - n);
      ModUnique(x, n, 2 * q + 1, r - n);
    }
  }

  // -------- The incremental sequence --------

  // `ComputeProbeMaskFromSize`
  function ProbeMask(size: nat): nat
    requires size >= 16
  {
    AndNot(size - 1, GroupSize - 1)
  }

  lemma MaskIsGroupModulo(x: nat, size: nat)
    requires IsSize(size)
    ensures And(x, ProbeMask(size)) == GroupSize * (x / GroupSize % (size / GroupSize))
  {
    MaskIsRemainders(x, size);
    var m := SizeInGroups(size);
    ScaleModulo(x, GroupSize, Pow2(m));
  }

  lemma MaskIsRemainders(x: nat, size: nat)
    requires IsSize(size)
    ensures And(x, ProbeMask(size)) == x % size - x % GroupSize
  {
    hide And, AndNot, Low, Pow2, GroupBits;
    var k: nat :| size == Pow2(k);
    SmallPow2(k);
    assert GroupBits() <= k;
    AndNotMasks(GroupBits(), k);
    AndMask(x, GroupBits(), k);
    LowIsModulo(x, k);
    LowIsModulo(x, GroupBits());
  }

  lemma ScaleModulo(x: nat, g: nat, n: nat)
    requires g > 0 && n > 0
    ensures x % (g * n) - x % g == g * (x / g % n)
  {
    var y, low := x / g, x % g;
    var a, r := y / n, y % n;
    RegroupDigits(x, g, n, y, low, a, r);
    ModUnique(x, g * n, a, g * r + low);
  }

  lemma RegroupDigits(x: int, g: int, n: int, y: int, low: int, a: int, r: int)
    requires x == y * g + low && y == a * n + r && 0 <= low < g && 0 <= r < n
    ensures x == a * (g * n) + (g * r + low) && 0 <= g * r + low < g * n
  {
    assert y * g == a * (g * n) + g * r;
    assert g * (r + 1) <= g * n;
  }

  lemma ModAdd(x: nat, y: nat, n: nat)
    requires n > 0
    ensures (x % n + y) % n == (x + y) % n
  {
    var q, r := (x % n + y) / n, (x % n + y) % n;
    assert x + y == (x / n + q) * n + r;
    ModUnique(x + y, n, x / n + q, r);
  }

  lemma GroupAtNext(start: nat, k: nat, groups: nat)
    requires groups > 0
    ensures GroupAt(start, k + 1, groups) == (GroupAt(start, k, groups) + (k + 1)) % groups
  {
    ModAdd(start + Triangle(k), k + 1, groups);
  }

  lemma Scaled(q: nat)
    ensures GroupSize * q / GroupSize == q
  {
  }

  // One masked step of the incremental index follows the closed formula.
  lemma MaskedStep(start: nat, k: nat, size: nat)
    requires IsSize(size)
    ensures ProbeIndex(start, k + 1, size)
         == And(ProbeIndex(start, k, size) + GroupSize * (k + 1), ProbeMask(size))
  {
    hide GroupAt, ProbeMask, And;
    var n := size / GroupSize;
    var x := ProbeIndex(start, k, size) + GroupSize * (k + 1);
    var q := GroupAt(start / GroupSize, k, n) + (k + 1);
    MaskIsGroupModulo(x, size);
    assert x / GroupSize == q by {
      assert x == GroupSize * q;
      Scaled(q);
    }
    GroupAtNext(start / GroupSize, k, n);
  }

  lemma MaskedStart(start: nat, size: nat)
    requires IsSize(size)
    ensures ProbeIndex(start, 0, size) == And(start, ProbeMask(size))
  {
    MaskIsGroupModulo(start, size);
  }

  // The formula checked in debug builds starts from the masked start.
  lemma CheckedFormula(start: nat, k: nat, size: nat)
    requires IsSize(size)
    ensures ProbeIndex(start, k, size) / GroupSize
         == (And(start, ProbeMask(size)) / GroupSize + (k + k * k) / 2) % (size / GroupSize)
  {
    hide And, ProbeMask, Triangle;
    var n, y := size / GroupSize, start / GroupSize;
    MaskIsGroupModulo(start, size);
    Scaled(y % n);
    Scaled(GroupAt(y, k, n));
    TriangleFormula(k);
    ModAdd(y, Triangle(k), n);
  }

  lemma StepsFit(k: nat, size: nat)
    requires IsSize(size) && k < size / GroupSize
    ensures GroupSize * k < size && GroupSize * k / GroupSize == k
  {
    Scaled(k);
  }

  class ProbeSequence {
    var step: nat
    var mask: nat
    var p: nat
    ghost const start: nat
    ghost const size: nat
    ghost var taken: nat  // calls of `Next` so far

    ghost predicate Valid()
      reads this
    {
      && IsSize(size)
      && mask == ProbeMask(size)
      && taken < size / GroupSize
      && step == GroupSize * taken
      && p == ProbeIndex(start, taken, size)
    }

    constructor (start: nat, size: nat)
      requires IsSize(size)
      ensures Valid() && this.start == start && this.size == size && taken == 0
    {
      step := 0;
      mask := ProbeMask(size);
      p := And(start, ProbeMask(size));
      this.start := start;
      this.size := size;
      taken := 0;
      new;
      MaskedStart(start, size);
      var m := SizeInGroups(size);
    }

    method Next()
      requires Valid() && taken + 1 < size / GroupSize
      modifies this
      ensures Valid() && taken == old(taken) + 1
      ensures step < size
      ensures p / GroupSize
           == (And(start, mask) / GroupSize + (step / GroupSize + (step / GroupSize) * (step / GroupSize)) / 2)
              % (size / GroupSize)
    {
      hide GroupAt, ProbeIndex, ProbeMask, IsSize, And;
      MaskedStep(start, taken, size);
      CheckedFormula(start, taken + 1, size);
      StepsFit(taken + 1, size);
      step := step + GroupSize;
      p := And(p + step, mask);
      taken := taken + 1;
    }

    function Index(): (i: nat)
      reads this
    {
      p
    }
  }

  lemma SearchPosition(s: ProbeSequence, size: nat)
    requires s.Valid() && s.size == size
    ensures s.Index() == ProbeIndex(s.start, s.taken, size) && IsGroupStart(s.Index(), size)
  {
    ProbeIndexInRange(s.start, s.taken, size);
  }
}
