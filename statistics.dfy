/** `person_statistics_t`: running minimum, maximum and sum of ages and heights, and a count. */
module Statistics {
  import opened CTypes
  import opened People

  /** `int_min`. */
  function IntMin(a: int, b: int): (r: int)
    ensures r <= a && r <= b && (r == a || r == b)
  {
    if a < b then a else b
  }

  /** `int_max`. */
  function IntMax(a: int, b: int): (r: int)
    ensures r >= a && r >= b && (r == a || r == b)
  {
    if a > b then a else b
  }

  /** The value of the statistics struct. */
  datatype Stats = Stats(minAge: int, maxAge: int, sumAge: int,
                         minHeight: int, maxHeight: int, sumHeight: int,
                         count: int)

  /** What `person_statistics_init` sets: empty minimums at INT_MAX, empty maximums at INT_MIN. */
  const Initial := Stats(INT_MAX, INT_MIN, 0, INT_MAX, INT_MIN, 0, 0)

  /** One `person_statistics_update`, on unbounded integers. */
  function Step(s: Stats, age: int, height: int): (r: Stats)
    ensures r.minAge <= age <= r.maxAge && r.minHeight <= height <= r.maxHeight
    ensures r.minAge <= s.minAge && s.maxAge <= r.maxAge && r.minHeight <= s.minHeight && s.maxHeight <= r.maxHeight
    ensures (r.minAge == s.minAge || r.minAge == age) && (r.maxAge == s.maxAge || r.maxAge == age)
    ensures (r.minHeight == s.minHeight || r.minHeight == height) && (r.maxHeight == s.maxHeight || r.maxHeight == height)
    ensures r.sumAge - s.sumAge == age && r.sumHeight - s.sumHeight == height && r.count == s.count + 1
  {
    Stats(IntMin(s.minAge, age), IntMax(s.maxAge, age), s.sumAge + age,
          IntMin(s.minHeight, height), IntMax(s.maxHeight, height), s.sumHeight + height,
          s.count + 1)
  }

  /** The statistics after feeding `rs` in order to freshly initialised statistics. */
  function Fold(rs: seq<Record>): (s: Stats)
    ensures s.count == |rs|
  {
    if rs == [] then Initial
    else Step(Fold(rs[..|rs| - 1]), rs[|rs| - 1].age, rs[|rs| - 1].height)
  }

  /** Two updates commute. */
  lemma StepCommutes(s: Stats, a: Record, b: Record)
    ensures Step(Step(s, a.age, a.height), b.age, b.height) == Step(Step(s, b.age, b.height), a.age, a.height)
  {
  }

  function Remove(rs: seq<Record>, j: nat): (r: seq<Record>)
    requires j < |rs|
    ensures |r| == |rs| - 1
  {
    rs[..j] + rs[j + 1..]
  }

  /** Any one record can be taken to be the last one fed. */
  lemma {:induction false} FoldRemove(rs: seq<Record>, j: nat)
    requires j < |rs|
    ensures Fold(rs) == Step(Fold(Remove(rs, j)), rs[j].age, rs[j].height)
    decreases |rs|
  {
    var n := |rs|;
    if j == n - 1 {
      assert Remove(rs, j) == rs[..n - 1];
    } else {
      var p := rs[..n - 1];
      var r := Remove(rs, j);
      assert r[..|r| - 1] == Remove(p, j);
      assert r[|r| - 1] == rs[n - 1];
      FoldRemove(p, j);
      StepCommutes(Fold(Remove(p, j)), rs[j], rs[n - 1]);
    }
  }

  /** Removing one element takes exactly that element out of the multiset. */
  lemma MultisetRemove(rs: seq<Record>, j: nat)
    requires j < |rs|
    ensures multiset(rs) == multiset(Remove(rs, j)) + multiset{rs[j]}
  {
    assert rs == rs[..j] + [rs[j]] + rs[j + 1..];
  }

  lemma MultisetCancel(p: multiset<Record>, q: multiset<Record>, x: Record)
    requires p + multiset{x} == q + multiset{x}
    ensures p == q
  {
    assert p == (p + multiset{x}) - multiset{x};
    assert q == (q + multiset{x}) - multiset{x};
  }

  /** The statistics do not depend on the order the records come in. */
  lemma {:induction false} FoldPermutation(a: seq<Record>, b: seq<Record>)
    requires multiset(a) == multiset(b)
    ensures Fold(a) == Fold(b)
    decreases |a|
  {
    if a == [] {
      assert |multiset(b)| == 0;
    } else {
      var n := |a|;
      var x := a[n - 1];
      MultisetRemove(a, n - 1);
      assert Remove(a, n - 1) == a[..n - 1];
      assert x in multiset(b);
      var j :| 0 <= j < |b| && b[j] == x;
      MultisetRemove(b, j);
      MultisetCancel(multiset(a[..n - 1]), multiset(Remove(b, j)), x);
      FoldPermutation(a[..n - 1], Remove(b, j));
      FoldRemove(b, j);
    }
  }

  /** Sums and counts of a concatenation add up. */
  lemma {:induction false} FoldAppend(a: seq<Record>, b: seq<Record>)
    ensures Fold(a + b).sumAge == Fold(a).sumAge + Fold(b).sumAge
    ensures Fold(a + b).sumHeight == Fold(a).sumHeight + Fold(b).sumHeight
    decreases |b|
  {
    if b == [] {
      assert a + b == a;
    } else {
      var c := a + b;
      assert c[..|c| - 1] == a + b[..|b| - 1];
      FoldAppend(a, b[..|b| - 1]);
    }
  }

  /** The plain sums of the ages and of the heights, first record first. */
  function SumAges(rs: seq<Record>): int {
    if rs == [] then 0 else rs[0].age + SumAges(rs[1..])
  }

  function SumHeights(rs: seq<Record>): int {
    if rs == [] then 0 else rs[0].height + SumHeights(rs[1..])
  }

  /** The running sums are the sums of the records fed. */
  lemma {:induction false} FoldSums(rs: seq<Record>)
    ensures Fold(rs).sumAge == SumAges(rs) && Fold(rs).sumHeight == SumHeights(rs)
    decreases |rs|
  {
    if rs != [] {
      assert rs == [rs[0]] + rs[1..];
      FoldAppend([rs[0]], rs[1..]);
      assert [rs[0]][..0] == [];
      FoldSums(rs[1..]);
    }
  }

  /** Predicate: every age and height of `rs` is a C `int`. */
  predicate AllInt32(rs: seq<Record>) {
    forall i :: 0 <= i < |rs| ==> INT_MIN <= rs[i].age <= INT_MAX && INT_MIN <= rs[i].height <= INT_MAX
  }

  /** The minimums and maximums bound every record fed, and once one record has been fed
      they are attained: the minimum age is some record's age, and so on; so the
      minimum is at most the maximum. */
  lemma {:induction false} FoldBounds(rs: seq<Record>)
    requires AllInt32(rs)
    ensures var f := Fold(rs);
            forall i :: 0 <= i < |rs| ==>
              f.minAge <= rs[i].age <= f.maxAge && f.minHeight <= rs[i].height <= f.maxHeight
    ensures var f := Fold(rs);
            |rs| > 0 ==>
              (exists i :: 0 <= i < |rs| && f.minAge == rs[i].age) &&
              (exists i :: 0 <= i < |rs| && f.maxAge == rs[i].age) &&
              (exists i :: 0 <= i < |rs| && f.minHeight == rs[i].height) &&
              (exists i :: 0 <= i < |rs| && f.maxHeight == rs[i].height) &&
              f.minAge <= f.maxAge && f.minHeight <= f.maxHeight
    decreases |rs|
  {
    if rs != [] {
      var n := |rs|;
      var p := rs[..n - 1];
      var x := rs[n - 1];
      FoldBounds(p);
      var f', f := Fold(p), Fold(rs);
      assert forall i :: 0 <= i < n - 1 ==> rs[i] == p[i];
      if n == 1 {
        assert f.minAge == x.age && f.maxAge == x.age && f.minHeight == x.height && f.maxHeight == x.height;
      } else {
        var i0 :| 0 <= i0 < n - 1 && f'.minAge == p[i0].age;
        var i1 :| 0 <= i1 < n - 1 && f'.maxAge == p[i1].age;
        var i2 :| 0 <= i2 < n - 1 && f'.minHeight == p[i2].height;
        var i3 :| 0 <= i3 < n - 1 && f'.maxHeight == p[i3].height;
        assert f.minAge == rs[if f.minAge == x.age then n - 1 else i0].age;
        assert f.maxAge == rs[if f.maxAge == x.age then n - 1 else i1].age;
        assert f.minHeight == rs[if f.minHeight == x.height then n - 1 else i2].height;
        assert f.maxHeight == rs[if f.maxHeight == x.height then n - 1 else i3].height;
      }
    }
  }

  /** `person_statistics_t`, updated in place. */
  class PersonStatistics {
    var minAge: Int32
    var maxAge: Int32
    var sumAge: Int32
    var minHeight: Int32
    var maxHeight: Int32
    var sumHeight: Int32
    var count: Int32

    function Value(): Stats
      reads this
    {
      Stats(minAge, maxAge, sumAge, minHeight, maxHeight, sumHeight, count)
    }

    /** `person_statistics_init`. */
    constructor ()
      ensures Value() == Initial
    {
      minAge, maxAge, sumAge := INT_MAX, INT_MIN, 0;
      minHeight, maxHeight, sumHeight := INT_MAX, INT_MIN, 0;
      count := 0;
    }

    /** `person_statistics_update`. The precondition rules out the C `int` overflow of
        the sums and the count, which is undefined behaviour in C. */
    method Update(person: Person)
      requires sumAge + person.age <= INT_MAX && sumHeight + person.height <= INT_MAX
      requires sumAge + person.age >= INT_MIN && sumHeight + person.height >= INT_MIN
      requires count < INT_MAX
      modifies this
      ensures Value() == Step(old(Value()), person.age, person.height)
    {
      minAge := IntMin(minAge, person.age);
      maxAge := IntMax(maxAge, person.age);
      sumAge := sumAge + person.age;
      minHeight := IntMin(minHeight, person.height);
      maxHeight := IntMax(maxHeight, person.height);
      sumHeight := sumHeight + person.height;
      count := count + 1;
    }
  }
}
