/** The average that drops one smallest and one largest price
    (consumer/internal/logic/sol/block/price.go), over exact reals. */
module TrimmedMean {
  import opened Floats

  /** math.MaxFloat64: the sentinel the index search starts from, and the bound on every finite float. */
  function MaxFloat(): (m: real)
    ensures m > 0.0
  {
    179769313486231570814527423731704356798070567525844996598917476803157260780028538760589558632766878171540458953514382464234321326889464182768467546703537516986049910576551282076245490090389328944075868508455133942304583236903222948165808559332123347874797826204144723168738177180919299881250404026184124858368.0
  }

  function Sum(s: seq<real>): real {
    if s == [] then 0.0 else Sum(s[..|s| - 1]) + s[|s| - 1]
  }

  function Min(s: seq<real>): (m: real)
    requires s != []
    ensures m in s
    ensures forall x :: x in s ==> m <= x
  {
    var last := s[|s| - 1];
    if |s| == 1 then last
    else
      assert s == s[..|s| - 1] + [last];
      var m := Min(s[..|s| - 1]);
      if last < m then last else m
  }

  function Max(s: seq<real>): (m: real)
    requires s != []
    ensures m in s
    ensures forall x :: x in s ==> x <= m
  {
    var last := s[|s| - 1];
    if |s| == 1 then last
    else
      assert s == s[..|s| - 1] + [last];
      var m := Max(s[..|s| - 1]);
      if last > m then last else m
  }

  function Mean(sum: real, n: int): real
    requires n > 0
  {
    sum / n as real
  }

  /** The mean without one smallest and one largest entry. */
  function Trimmed(s: seq<real>): real
    requires |s| >= 3
  {
    Mean(Sum(s) - Min(s) - Max(s), |s| - 2)
  }

  function Average(s: seq<real>): real {
    if |s| == 0 then 0.0
    else if |s| == 1 then s[0]
    else if |s| == 2 then (s[0] + s[1]) / 2.0
    else Trimmed(s)
  }

  predicate AllEqual(s: seq<real>, v: real) {
    forall i :: 0 <= i < |s| ==> s[i] == v
  }

  lemma SumPush(s: seq<real>, x: real)
    ensures Sum(s + [x]) == Sum(s) + x
  {
    assert (s + [x])[..|s|] == s;
  }

  lemma {:induction false} SumOfEqual(s: seq<real>, v: real)
    requires AllEqual(s, v)
    ensures Sum(s) == Times(|s|, v)
  {
    OneMore(0, v);
    hide Times;
    if s != [] {
      SumOfEqual(s[..|s| - 1], v);
      OneMore(|s| - 1, v);
    }
  }

  // ---------- lists of prices ----------

  /** What the scan collects: infinities, and numbers no greater than the greatest float64. */
  predicate IsPrice(f: Float) {
    f.Infinite? || (f.Finite? && -MaxFloat() <= f.value <= MaxFloat())
  }

  predicate AllPrices(s: seq<Float>) {
    forall i :: 0 <= i < |s| ==> IsPrice(s[i])
  }

  type Prices = s: seq<Float> | AllPrices(s)

  lemma FiniteOrNot(f: Float)
    requires IsPrice(f)
    ensures f.Finite? || f.Infinite?
  {
  }

  predicate Less(a: Float, b: Float) {
    a.Finite? && (b.Infinite? || (b.Finite? && a.value < b.value))
  }

  /** The finite entries, in order. */
  function Finites(s: seq<Float>): seq<real> {
    if s == [] then []
    else
      var init, last := Finites(s[..|s| - 1]), s[|s| - 1];
      if last.Finite? then init + [last.value] else init
  }

  function Infinities(s: seq<Float>): nat {
    if s == [] then 0 else Infinities(s[..|s| - 1]) + (if s[|s| - 1].Infinite? then 1 else 0)
  }

  lemma {:induction false} FinitesMember(s: seq<Float>, x: real)
    ensures x in Finites(s) <==> Finite(x) in s
  {
    if s != [] {
      FinitesMember(s[..|s| - 1], x);
      assert s == s[..|s| - 1] + [s[|s| - 1]];
    }
  }

  lemma {:induction false} CountParts(s: seq<Float>)
    requires AllPrices(s)
    ensures Infinities(s) + |Finites(s)| == |s|
    ensures Infinities(s) > 0 <==> Infinite in s
  {
    if s != [] {
      CountParts(s[..|s| - 1]);
      assert IsPrice(s[|s| - 1]);
      assert s == s[..|s| - 1] + [s[|s| - 1]];
    }
  }

  /** The average: of all entries of a short list, of all but one smallest and one largest of a longer one. One infinity
      is the largest entry; what an infinity is left in is infinite. */
  function AverageOf(s: seq<Float>): Float
    requires AllPrices(s)
  {
    CountParts(s);
    if Infinities(s) == 0 then Finite(Average(Finites(s)))
    else if Infinities(s) == 1 && |s| >= 3 then Finite(WithoutMin(Finites(s)))
    else Infinite
  }

  /** The mean of all but one smallest entry. */
  function WithoutMin(fs: seq<real>): real
    requires |fs| >= 2
  {
    Mean(Sum(fs) - Min(fs), |fs| - 1)
  }

  predicate Between(fs: seq<real>, x: real) {
    fs != [] && Min(fs) <= x <= Max(fs)
  }

  /** The average is a number exactly when no infinity is left in: there is none, or one in a list long enough to be
      trimmed. It then lies between the smallest and the largest of the finite entries. */
  lemma AverageIsFiniteIff(s: seq<Float>)
    requires AllPrices(s)
    ensures AverageOf(s).Finite? <==> Infinities(s) == 0 || (Infinities(s) == 1 && |s| >= 3)
    ensures AverageOf(s).Finite? && |s| >= 3 ==> Between(Finites(s), AverageOf(s).value)
  {
    CountParts(s);
    hide Finites, Infinities, Average, WithoutMin, Between, AllPrices;
    if |s| >= 3 && Infinities(s) == 0 {
      LongAverage(Finites(s));
    } else if |s| >= 3 && Infinities(s) == 1 {
      DroppingMin(Finites(s));
    }
  }

  lemma LongAverage(fs: seq<real>)
    requires |fs| >= 3
    ensures Average(fs) == Trimmed(fs) && Between(fs, Average(fs))
  {
    hide Trimmed;
    TrimmedBetween(fs);
  }

  lemma DroppingMin(fs: seq<real>)
    requires |fs| >= 2
    ensures Between(fs, WithoutMin(fs))
  {
    hide Sum, Mean, Times;
    SumBetween(fs, Min(fs), Max(fs));
    MeanOfRest(Sum(fs), |fs|, Min(fs), Max(fs));
  }

  lemma MeanOfRest(sum: real, n: nat, lo: real, hi: real)
    requires n >= 2 && lo <= hi
    requires Times(n - 1, lo) + hi <= sum <= Times(n - 1, hi) + lo
    ensures lo <= Mean(sum - lo, n - 1) <= hi
  {
    Quotient(sum - lo, (n - 1) as real, lo, hi);
  }

  // ---------- the three passes ----------

  /** The extremes found by the first pass. */
  predicate Extremes(nums: seq<Float>, minIndex: int, maxIndex: int) {
    && -1 <= minIndex < |nums| && -1 <= maxIndex < |nums|
    && (var least := if minIndex == -1 then Finite(MaxFloat()) else nums[minIndex];
        && least.Finite? && (minIndex != -1 ==> least.value < MaxFloat())
        && forall k :: 0 <= k < |nums| ==> !Less(nums[k], least))
    && (var most := if maxIndex == -1 then Finite(-MaxFloat()) else nums[maxIndex];
        && (maxIndex != -1 ==> Less(Finite(-MaxFloat()), most))
        && forall k :: 0 <= k < |nums| ==> !Less(most, nums[k]))
  }

  /** The first pass: where the smallest and the largest entries are; an index stays at -1 only
      when no entry passes the sentinel. */
  method FindExtremes(nums: seq<Float>) returns (minIndex: int, maxIndex: int)
    requires AllPrices(nums)
    ensures Extremes(nums, minIndex, maxIndex)
  {
    var minVal, maxVal := Finite(MaxFloat()), Finite(-MaxFloat());
    minIndex, maxIndex := -1, -1;
    for i := 0 to |nums|
      invariant -1 <= minIndex < i && -1 <= maxIndex < i
      invariant minVal.Finite? && IsPrice(minVal) && IsPrice(maxVal)
      invariant forall k :: 0 <= k < i ==> !Less(nums[k], minVal) && !Less(maxVal, nums[k])
      invariant minVal == if minIndex == -1 then Finite(MaxFloat()) else nums[minIndex]
      invariant maxVal == if maxIndex == -1 then Finite(-MaxFloat()) else nums[maxIndex]
      invariant minIndex != -1 ==> minVal.value < MaxFloat()
      invariant maxIndex != -1 ==> Less(Finite(-MaxFloat()), maxVal)
    {
      var num := nums[i];
      if Less(num, minVal) {
        minVal, minIndex := num, i;
      }
      if Less(maxVal, num) {
        maxVal, maxIndex := num, i;
      }
    }
  }

  function ValueAt(nums: seq<Float>, i: int): real {
    if 0 <= i < |nums| && nums[i].Finite? then nums[i].value else 0.0
  }

  function InfinityAt(nums: seq<Float>, i: int): nat {
    if 0 <= i < |nums| && nums[i].Infinite? then 1 else 0
  }

  /** The entries at neither index. */
  function Kept(nums: seq<Float>, i: int, j: int): seq<Float> {
    if nums == [] then []
    else
      var last := |nums| - 1;
      Kept(nums[..last], i, j) + (if i == last || j == last then [] else [nums[last]])
  }

  /** How many entries are kept, how many of them are infinite, and the sum of the others. */
  lemma {:induction false} KeptParts(nums: seq<Float>, i: int, j: int)
    requires AllPrices(nums)
    ensures var kept := Kept(nums, i, j);
            && AllPrices(kept)
            && |kept| == |nums| - (if 0 <= i < |nums| then 1 else 0) - (if 0 <= j < |nums| && j != i then 1 else 0)
            && Infinities(kept) == Infinities(nums) - InfinityAt(nums, i) - (if j != i then InfinityAt(nums, j) else 0)
            && Sum(Finites(kept))
            == Sum(Finites(nums)) - ValueAt(nums, i) - (if j != i then ValueAt(nums, j) else 0.0)
  {
    hide Finites, Infinities, Sum, IsPrice;
    if nums == [] {
      assert Kept(nums, i, j) == nums;
    } else {
      var last := |nums| - 1;
      var init := nums[..last];
      KeptParts(init, i, j);
      assert IsPrice(nums[last]);
      PartsOfPush(init, nums[last]);
      assert nums == init + [nums[last]];
      if i != last && j != last {
        PartsOfPush(Kept(init, i, j), nums[last]);
      } else {
        assert Kept(nums, i, j) == Kept(init, i, j);
      }
    }
  }

  lemma PartsOfPush(s: seq<Float>, f: Float)
    requires AllPrices(s) && IsPrice(f)
    ensures AllPrices(s + [f])
    ensures Infinities(s + [f]) == Infinities(s) + (if f.Infinite? then 1 else 0)
    ensures Sum(Finites(s + [f])) == Sum(Finites(s)) + (if f.Finite? then f.value else 0.0)
  {
    assert (s + [f])[..|s|] == s;
    if f.Finite? {
      SumPush(Finites(s), f.value);
    }
  }

  /** The second pass. */
  method RemoveExtremes(nums: seq<Float>, minIndex: int, maxIndex: int) returns (filtered: seq<Float>)
    ensures filtered == Kept(nums, minIndex, maxIndex)
  {
    filtered := [];
    for i := 0 to |nums|
      invariant filtered == Kept(nums[..i], minIndex, maxIndex)
    {
      assert nums[..i + 1][..i] == nums[..i];
      if i != minIndex && i != maxIndex {
        filtered := filtered + [nums[i]];
      }
    }
    assert nums[..|nums|] == nums;
  }

  function Plus(a: Float, b: Float): Float {
    if a.Finite? && b.Finite? then Finite(a.value + b.value) else Infinite
  }

  function Over(a: Float, n: int): Float
    requires n > 0
  {
    if a.Finite? then Finite(Mean(a.value, n)) else Infinite
  }

  lemma EmptyParts()
    ensures Infinities([]) == 0 && Sum(Finites([])) == 0.0
  {
  }

  /** The third pass: an infinity among the entries makes the sum infinite. */
  method Total(nums: seq<Float>) returns (sum: Float)
    requires AllPrices(nums)
    ensures sum == if Infinities(nums) == 0 then Finite(Sum(Finites(nums))) else Infinite
  {
    hide IsPrice, Finites, Infinities, Sum;
    EmptyParts();
    sum := Finite(0.0);
    for i := 0 to |nums|
      invariant i == 0 ==> nums[..i] == []
      invariant sum == if Infinities(nums[..i]) == 0 then Finite(Sum(Finites(nums[..i]))) else Infinite
    {
      assert IsPrice(nums[i]) && AllPrices(nums[..i]);
      FiniteOrNot(nums[i]);
      PartsOfPush(nums[..i], nums[i]);
      assert nums[..i + 1] == nums[..i] + [nums[i]];
      sum := Plus(sum, nums[i]);
    }
    assert nums[..|nums|] == nums;
  }

  method RemoveMinAndMaxAndCalculateAverage(nums: seq<Float>) returns (average: Float)
    requires AllPrices(nums)
    ensures average == AverageOf(nums)
  {
    if |nums| == 0 {
      return Finite(0.0);
    }
    if |nums| == 1 {
      ShortList(nums);
      return nums[0];
    }
    if |nums| == 2 {
      ShortList(nums);
      return Over(Plus(nums[0], nums[1]), 2);
    }
    hide Kept, Finites, Infinities, Sum, Mean, AverageOf, Less, AllPrices;
    var minIndex, maxIndex := FindExtremes(nums);
    KeptParts(nums, minIndex, maxIndex);
    var filtered := RemoveExtremes(nums, minIndex, maxIndex);
    var sum := Total(filtered);
    RemovalIsTrimming(nums, minIndex, maxIndex);
    average := Over(sum, |filtered|);
  }

  lemma ShortList(nums: seq<Float>)
    requires 1 <= |nums| <= 2 && AllPrices(nums)
    ensures |nums| == 1 ==> AverageOf(nums) == nums[0]
    ensures |nums| == 2 ==> AverageOf(nums) == Over(Plus(nums[0], nums[1]), 2)
  {
    PartsOfPush([], nums[0]);
    assert [] + [nums[0]] == [nums[0]];
    assert Finites([nums[0]]) == if nums[0].Finite? then [nums[0].value] else [];
    if |nums| == 2 {
      PartsOfPush([nums[0]], nums[1]);
      assert nums == [nums[0]] + [nums[1]] && nums[..1] == [nums[0]];
      assert Finites(nums) == Finites([nums[0]]) + (if nums[1].Finite? then [nums[1].value] else []);
    } else {
      assert nums == [nums[0]];
    }
  }

  /** Removing by index trims one smallest and one largest entry, even when both indices coincide or an index was never
      set, and takes an infinity before any number. */
  lemma RemovalIsTrimming(nums: seq<Float>, minIndex: int, maxIndex: int)
    requires |nums| >= 3 && AllPrices(nums) && Extremes(nums, minIndex, maxIndex)
    ensures var kept := Kept(nums, minIndex, maxIndex);
            && |kept| > 0
            && AverageOf(nums) == Over(if Infinities(kept) == 0 then Finite(Sum(Finites(kept))) else Infinite, |kept|)
  {
    KeptParts(nums, minIndex, maxIndex);
    CountParts(nums);
    hide Kept, Finites, Infinities, AllPrices, Average, Trimmed, WithoutMin, Extremes;
    if Infinities(nums) == 0 {
      LongAverage(Finites(nums));
      NoInfinity(nums, minIndex, maxIndex);
    } else {
      MostIsInfinite(nums, minIndex, maxIndex);
      if Infinities(nums) == 1 {
        OneInfinity(nums, minIndex, maxIndex);
      }
    }
  }

  lemma MostIsInfinite(nums: seq<Float>, minIndex: int, maxIndex: int)
    requires AllPrices(nums) && Extremes(nums, minIndex, maxIndex) && Infinities(nums) > 0
    ensures maxIndex != -1 && nums[maxIndex].Infinite? && minIndex != maxIndex
  {
    CountParts(nums);
    var k :| 0 <= k < |nums| && nums[k] == Infinite;
    assert !Less(if maxIndex == -1 then Finite(-MaxFloat()) else nums[maxIndex], nums[k]);
    assert IsPrice(nums[k]);
    if maxIndex != -1 {
      assert IsPrice(nums[maxIndex]);
    }
  }

  /** The smallest finite entry is the one found, or the greatest float when all finite entries are. */
  lemma LeastIsMin(nums: seq<Float>, minIndex: int, maxIndex: int)
    requires AllPrices(nums) && Extremes(nums, minIndex, maxIndex) && Finites(nums) != []
    ensures minIndex != -1 ==> nums[minIndex] == Finite(Min(Finites(nums)))
    ensures minIndex == -1 ==> AllEqual(Finites(nums), MaxFloat()) && Min(Finites(nums)) == MaxFloat()
  {
    hide Min, Max, Finites, MaxFloat;
    var fs := Finites(nums);
    forall x | x in fs
      ensures (if minIndex == -1 then MaxFloat() else nums[minIndex].value) <= x <= MaxFloat()
    {
      FinitesMember(nums, x);
      var k :| 0 <= k < |nums| && nums[k] == Finite(x);
      assert IsPrice(nums[k]) && !Less(nums[k], if minIndex == -1 then Finite(MaxFloat()) else nums[minIndex]);
    }
    if minIndex != -1 {
      assert Finite(nums[minIndex].value) in nums;
      FinitesMember(nums, nums[minIndex].value);
    }
    assert forall i :: 0 <= i < |fs| ==> fs[i] in fs;
  }

  lemma MostIsMax(nums: seq<Float>, minIndex: int, maxIndex: int)
    requires AllPrices(nums) && Extremes(nums, minIndex, maxIndex) && Infinities(nums) == 0 && Finites(nums) != []
    ensures maxIndex != -1 ==> nums[maxIndex] == Finite(Max(Finites(nums)))
    ensures maxIndex == -1 ==> AllEqual(Finites(nums), -MaxFloat()) && Max(Finites(nums)) == -MaxFloat()
  {
    CountParts(nums);
    hide Min, Max, Finites, Infinities, MaxFloat;
    var fs := Finites(nums);
    if maxIndex != -1 {
      assert nums[maxIndex] in nums && IsPrice(nums[maxIndex]);
      assert Finite(nums[maxIndex].value) in nums;
      FinitesMember(nums, nums[maxIndex].value);
    }
    forall x | x in fs
      ensures -MaxFloat() <= x <= if maxIndex == -1 then -MaxFloat() else nums[maxIndex].value
    {
      FinitesMember(nums, x);
      var k :| 0 <= k < |nums| && nums[k] == Finite(x);
      assert IsPrice(nums[k]) && !Less(if maxIndex == -1 then Finite(-MaxFloat()) else nums[maxIndex], nums[k]);
    }
    assert forall i :: 0 <= i < |fs| ==> fs[i] in fs;
  }

  lemma OneInfinity(nums: seq<Float>, minIndex: int, maxIndex: int)
    requires |nums| >= 3 && AllPrices(nums) && Extremes(nums, minIndex, maxIndex) && Infinities(nums) == 1
    requires |Finites(nums)| == |nums| - 1
    ensures var kept := Kept(nums, minIndex, maxIndex);
            && |kept| > 0 && Infinities(kept) == 0
            && Mean(Sum(Finites(kept)), |kept|) == WithoutMin(Finites(nums))
  {
    hide Kept, Finites, Infinities, AllPrices, WithoutMin, AllEqual, Min, Max, Sum, Mean, MaxFloat, Extremes;
    MostIsInfinite(nums, minIndex, maxIndex);
    LeastIsMin(nums, minIndex, maxIndex);
    IndicesInRange(nums, minIndex, maxIndex);
    var fs, sum := Finites(nums), Sum(Finites(Kept(nums, minIndex, maxIndex)));
    if minIndex == -1 {
      InfinityRemoved(nums, maxIndex);
      WithoutMinOfEqual(fs, Finites(Kept(nums, minIndex, maxIndex)), MaxFloat());
    } else {
      InfinityAndLeastRemoved(nums, minIndex, maxIndex);
      WithoutMinIs(fs, sum);
    }
  }

  lemma IndicesInRange(nums: seq<Float>, minIndex: int, maxIndex: int)
    requires Extremes(nums, minIndex, maxIndex)
    ensures -1 <= minIndex < |nums| && -1 <= maxIndex < |nums|
  {
  }

  lemma InfinityRemoved(nums: seq<Float>, j: nat)
    requires AllPrices(nums) && Infinities(nums) == 1 && j < |nums| && nums[j].Infinite?
    ensures var kept := Kept(nums, -1, j);
            |kept| == |nums| - 1 && Infinities(kept) == 0 && Sum(Finites(kept)) == Sum(Finites(nums))
  {
    hide Kept, Finites, Infinities, AllPrices, Sum;
    KeptParts(nums, -1, j);
  }

  lemma InfinityAndLeastRemoved(nums: seq<Float>, i: nat, j: nat)
    requires AllPrices(nums) && Infinities(nums) == 1 && i < |nums| && j < |nums|
    requires nums[i].Finite? && nums[j].Infinite?
    ensures var kept := Kept(nums, i, j);
            && |kept| == |nums| - 2 && Infinities(kept) == 0
            && Sum(Finites(kept)) == Sum(Finites(nums)) - nums[i].value
  {
    hide Kept, Finites, Infinities, AllPrices, Sum;
    KeptParts(nums, i, j);
  }

  lemma WithoutMinIs(fs: seq<real>, sum: real)
    requires |fs| >= 2 && sum == Sum(fs) - Min(fs)
    ensures Mean(sum, |fs| - 1) == WithoutMin(fs)
  {
  }

  lemma WithoutMinOfEqual(fs: seq<real>, kept: seq<real>, v: real)
    requires |fs| >= 2 && AllEqual(fs, v) && Min(fs) == v && Sum(kept) == Sum(fs)
    ensures Mean(Sum(kept), |fs|) == WithoutMin(fs)
  {
    hide Sum, Mean, Times;
    SumOfEqual(fs, v);
    OneLess(Sum(fs), |fs|, v);
    MeanIs(Sum(fs), |fs|, v);
    MeanIs(Sum(fs) - v, |fs| - 1, v);
  }

  lemma OneLess(sum: real, n: nat, v: real)
    requires n > 0 && sum == Times(n, v)
    ensures sum - v == Times(n - 1, v)
  {
    hide Times;
    OneMore(n - 1, v);
  }

  lemma NoInfinity(nums: seq<Float>, minIndex: int, maxIndex: int)
    requires |nums| >= 3 && AllPrices(nums) && Extremes(nums, minIndex, maxIndex) && Infinities(nums) == 0
    requires |Finites(nums)| == |nums|
    ensures var kept := Kept(nums, minIndex, maxIndex);
            |kept| > 0 && Infinities(kept) == 0 && Mean(Sum(Finites(kept)), |kept|) == Trimmed(Finites(nums))
  {
    hide Kept, Finites, Infinities, AllPrices, Trimmed, AllEqual, Min, Max, Sum, Mean, MaxFloat, Extremes;
    if minIndex == maxIndex || minIndex == -1 || maxIndex == -1 {
      OneEntryFewer(nums, minIndex, maxIndex);
    } else {
      TwoEntriesFewer(nums, minIndex, maxIndex);
    }
  }

  lemma OneEntryFewer(nums: seq<Float>, minIndex: int, maxIndex: int)
    requires |nums| >= 3 && AllPrices(nums) && Extremes(nums, minIndex, maxIndex) && Infinities(nums) == 0
    requires |Finites(nums)| == |nums| && (minIndex == maxIndex || minIndex == -1 || maxIndex == -1)
    ensures var kept := Kept(nums, minIndex, maxIndex);
            |kept| > 0 && Infinities(kept) == 0 && Mean(Sum(Finites(kept)), |kept|) == Trimmed(Finites(nums))
  {
    hide Kept, Finites, Infinities, AllPrices, Trimmed, AllEqual, Min, Max, Sum, Mean, MaxFloat, Extremes;
    NoneInfinite(nums, minIndex, maxIndex);
    IndicesInRange(nums, minIndex, maxIndex);
    LeastIsMin(nums, minIndex, maxIndex);
    MostIsMax(nums, minIndex, maxIndex);
    var fs := Finites(nums);
    ExtremesCoincide(fs, minIndex == -1, maxIndex == -1);
    OneRemoved(nums, minIndex, maxIndex, Min(fs));
    SameMean(fs, Sum(Finites(Kept(nums, minIndex, maxIndex))), Min(fs));
  }

  lemma TwoEntriesFewer(nums: seq<Float>, minIndex: int, maxIndex: int)
    requires |nums| >= 3 && AllPrices(nums) && Extremes(nums, minIndex, maxIndex) && Infinities(nums) == 0
    requires |Finites(nums)| == |nums| && minIndex != maxIndex && minIndex != -1 && maxIndex != -1
    ensures var kept := Kept(nums, minIndex, maxIndex);
            |kept| > 0 && Infinities(kept) == 0 && Mean(Sum(Finites(kept)), |kept|) == Trimmed(Finites(nums))
  {
    hide Kept, Finites, Infinities, AllPrices, Trimmed, AllEqual, Min, Max, Sum, Mean, MaxFloat, Extremes;
    NoneInfinite(nums, minIndex, maxIndex);
    IndicesInRange(nums, minIndex, maxIndex);
    LeastIsMin(nums, minIndex, maxIndex);
    MostIsMax(nums, minIndex, maxIndex);
    TwoRemoved(nums, minIndex, maxIndex);
    TrimmedIs(Finites(nums), Sum(Finites(Kept(nums, minIndex, maxIndex))));
  }

  lemma OneRemoved(nums: seq<Float>, i: int, j: int, v: real)
    requires AllPrices(nums) && Infinities(nums) == 0 && -1 <= i < |nums| && -1 <= j < |nums|
    requires (i == j || i == -1 || j == -1) && !(i == j == -1)
    requires (i != -1 ==> nums[i] == Finite(v)) && (j != -1 ==> nums[j] == Finite(v))
    ensures var kept := Kept(nums, i, j);
            |kept| == |nums| - 1 && Infinities(kept) == 0 && Sum(Finites(kept)) == Sum(Finites(nums)) - v
  {
    hide Kept, Finites, Infinities, AllPrices, Sum;
    KeptParts(nums, i, j);
  }

  lemma TwoRemoved(nums: seq<Float>, i: int, j: int)
    requires AllPrices(nums) && Infinities(nums) == 0 && 0 <= i < |nums| && 0 <= j < |nums| && i != j
    requires nums[i].Finite? && nums[j].Finite?
    ensures var kept := Kept(nums, i, j);
            && |kept| == |nums| - 2 && Infinities(kept) == 0
            && Sum(Finites(kept)) == Sum(Finites(nums)) - nums[i].value - nums[j].value
  {
    hide Kept, Finites, Infinities, AllPrices, Sum;
    KeptParts(nums, i, j);
  }

  lemma NoneInfinite(nums: seq<Float>, minIndex: int, maxIndex: int)
    requires AllPrices(nums) && Extremes(nums, minIndex, maxIndex) && Infinities(nums) == 0
    ensures minIndex != -1 ==> nums[minIndex].Finite?
    ensures maxIndex != -1 ==> nums[maxIndex].Finite?
    ensures nums != [] ==> minIndex != -1 || maxIndex != -1
  {
    CountParts(nums);
    hide Infinities, MaxFloat;
    assert forall k :: 0 <= k < |nums| ==> nums[k] in nums;
    assert maxIndex != -1 ==> nums[maxIndex] != Infinite;
    if nums != [] {
      assert IsPrice(nums[0]);
    }
  }

  /** When the smallest entry is also the largest, or all entries sit at the sentinel, all are equal. */
  lemma ExtremesCoincide(fs: seq<real>, noMin: bool, noMax: bool)
    requires fs != []
    requires noMin ==> AllEqual(fs, MaxFloat())
    requires noMax ==> AllEqual(fs, -MaxFloat())
    requires noMin || noMax || Min(fs) == Max(fs)
    ensures Min(fs) == Max(fs) && AllEqual(fs, Min(fs))
  {
    hide MaxFloat;
    assert forall i :: 0 <= i < |fs| ==> fs[i] in fs;
  }

  lemma TrimmedIs(fs: seq<real>, sum: real)
    requires |fs| >= 3 && sum == Sum(fs) - Min(fs) - Max(fs)
    ensures Mean(sum, |fs| - 2) == Trimmed(fs)
  {
    hide Sum, Min, Max, Mean;
  }

  lemma SameMean(fs: seq<real>, sum: real, v: real)
    requires |fs| >= 3 && AllEqual(fs, v) && Min(fs) == v == Max(fs) && sum == Sum(fs) - v
    ensures Mean(sum, |fs| - 1) == Trimmed(fs)
  {
    hide Sum, Mean, Times;
    var n := |fs|;
    SumOfEqual(fs, v);
    OneLess(Sum(fs), n, v);
    OneLess(Sum(fs) - v, n - 1, v);
    MeanIs(Sum(fs) - v, n - 1, v);
    MeanIs(Sum(fs) - v - v, n - 2, v);
  }

  lemma MeanIs(sum: real, n: nat, v: real)
    requires n > 0 && sum == Times(n, v)
    ensures Mean(sum, n) == v
  {
    Cancel(n as real, v);
  }

  lemma Cancel(n: real, v: real)
    requires n > 0.0
    ensures n * v / n == v
  {
  }

  // ---------- what the trimmed mean is ----------

  /** The trimmed mean lies between the extremes. */
  lemma TrimmedBetween(s: seq<real>)
    requires |s| >= 3
    ensures Min(s) <= Trimmed(s) <= Max(s)
  {
    hide Sum, Mean;
    MeanWithin(s, Min(s), Max(s));
  }

  lemma MeanWithin(s: seq<real>, lo: real, hi: real)
    requires |s| >= 3
    requires lo in s && hi in s && forall x :: x in s ==> lo <= x <= hi
    ensures lo <= Mean(Sum(s) - lo - hi, |s| - 2) <= hi
  {
    SumBetween(s, lo, hi);
    MeanBetween(Sum(s), |s|, lo, hi);
  }

  lemma MeanBetween(sum: real, n: nat, lo: real, hi: real)
    requires n >= 3
    requires Times(n - 1, lo) + hi <= sum <= Times(n - 1, hi) + lo
    ensures lo <= Mean(sum - lo - hi, n - 2) <= hi
  {
    var m := (n - 2) as real;
    assert (n - 1) as real == m + 1.0;
    assert (m + 1.0) * lo == m * lo + lo && (m + 1.0) * hi == m * hi + hi;
    Quotient(sum - lo - hi, m, lo, hi);
  }

  lemma Quotient(x: real, n: real, lo: real, hi: real)
    requires n > 0.0 && n * lo <= x <= n * hi
    ensures lo <= x / n <= hi
  {
    Cancel(n, lo);
    Cancel(n, hi);
    DivideMono(n * lo, x, n);
    DivideMono(x, n * hi, n);
  }

  lemma DivideMono(x: real, y: real, n: real)
    requires n > 0.0 && x <= y
    ensures x / n <= y / n
  {
    assert y / n - x / n == (y - x) / n;
  }

  /** One entry is the smallest and one the largest; the others lie between. */
  lemma SumBetween(s: seq<real>, lo: real, hi: real)
    requires |s| >= 2
    requires lo in s && hi in s && forall x :: x in s ==> lo <= x <= hi
    ensures Times(|s| - 1, lo) + hi <= Sum(s) <= Times(|s| - 1, hi) + lo
  {
    var i :| 0 <= i < |s| && s[i] == lo;
    var j :| 0 <= j < |s| && s[j] == hi;
    assert forall k :: 0 <= k < |s| ==> s[k] in s;
    SumAround(s, i, lo, hi);
    SumAround(s, j, lo, hi);
  }

  lemma {:induction false} SumAround(s: seq<real>, i: nat, lo: real, hi: real)
    requires i < |s|
    requires forall k :: 0 <= k < |s| ==> lo <= s[k] <= hi
    ensures Times(|s| - 1, lo) + s[i] <= Sum(s) <= Times(|s| - 1, hi) + s[i]
  {
    hide Times;
    var last := |s| - 1;
    if i < last {
      SumAround(s[..last], i, lo, hi);
      OneMore(last - 1, lo);
      OneMore(last - 1, hi);
    } else {
      SumWithin(s[..last], lo, hi);
    }
  }

  lemma {:induction false} SumWithin(s: seq<real>, lo: real, hi: real)
    requires forall k :: 0 <= k < |s| ==> lo <= s[k] <= hi
    ensures Times(|s|, lo) <= Sum(s) <= Times(|s|, hi)
  {
    OneMore(0, lo);
    OneMore(0, hi);
    hide Times;
    if s != [] {
      SumWithin(s[..|s| - 1], lo, hi);
      OneMore(|s| - 1, lo);
      OneMore(|s| - 1, hi);
    }
  }

  function Times(n: nat, x: real): real {
    n as real * x
  }

  lemma OneMore(n: nat, x: real)
    ensures Times(n + 1, x) == Times(n, x) + x && Times(0, x) == 0.0
  {
  }

  lemma TrimmedOfPermutation(a: seq<real>, b: seq<real>)
    requires multiset(a) == multiset(b) && |a| >= 3
    ensures |b| == |a| && Trimmed(a) == Trimmed(b)
  {
    assert |multiset(a)| == |multiset(b)|;
    SumOfPermutation(a, b);
    ExtremesOfPermutation(a, b);
  }

  lemma ExtremesOfPermutation(a: seq<real>, b: seq<real>)
    requires a != [] && b != [] && multiset(a) == multiset(b)
    ensures Min(a) == Min(b) && Max(a) == Max(b)
  {
    forall x: real
      ensures x in a <==> x in b
    {
      assert x in a <==> x in multiset(a);
      assert x in b <==> x in multiset(b);
    }
  }

  lemma {:induction false} SumOfPermutation(a: seq<real>, b: seq<real>)
    requires multiset(a) == multiset(b)
    ensures Sum(a) == Sum(b)
    decreases |a|
  {
    assert |multiset(a)| == |multiset(b)|;
    if a != [] {
      var last := |a| - 1;
      var x := a[last];
      assert x in multiset(b);
      var j :| 0 <= j < |b| && b[j] == x;
      MultisetWithout(a, last);
      MultisetWithout(b, j);
      assert a[..last] + a[last + 1..] == a[..last];
      SumOfPermutation(a[..last], b[..j] + b[j + 1..]);
      SumWithout(b, j);
    }
  }

  lemma MultisetWithout(s: seq<real>, j: nat)
    requires j < |s|
    ensures multiset(s[..j] + s[j + 1..]) == multiset(s) - multiset{s[j]}
  {
    assert s == s[..j] + [s[j]] + s[j + 1..];
  }

  lemma {:induction false} SumWithout(s: seq<real>, j: nat)
    requires j < |s|
    ensures Sum(s) == Sum(s[..j] + s[j + 1..]) + s[j]
  {
    var last := |s| - 1;
    if j < last {
      SumWithout(s[..last], j);
      assert s[..last][..j] + s[..last][j + 1..] + [s[last]] == s[..j] + s[j + 1..];
      SumPush(s[..last][..j] + s[..last][j + 1..], s[last]);
    } else {
      assert s[..j] + s[j + 1..] == s[..last];
    }
  }

  lemma TrimmedIgnoresOutlier(s: seq<real>, k: nat, y: real)
    requires |s| >= 3 && k < |s| && s[k] == Max(s) <= y
    ensures Trimmed(s[k := y]) == Trimmed(s)
  {
    hide Sum, Min, Max, Mean;
    var t := s[k := y];
    SumWithout(s, k);
    SumWithout(t, k);
    assert t[..k] + t[k + 1..] == s[..k] + s[k + 1..];
    MaxMoves(s, k, y);
    MinUnmoved(s, k, y);
  }

  lemma MaxMoves(s: seq<real>, k: nat, y: real)
    requires |s| >= 3 && k < |s| && s[k] == Max(s) <= y
    ensures Max(s[k := y]) == y
  {
    var t := s[k := y];
    assert t[k] == y && y in t;
    assert Max(t) in t;
    var i :| 0 <= i < |t| && t[i] == Max(t);
    assert i == k || t[i] in s;
  }

  lemma MinUnmoved(s: seq<real>, k: nat, y: real)
    requires |s| >= 3 && k < |s| && s[k] == Max(s) <= y
    ensures Min(s[k := y]) == Min(s)
  {
    var t := s[k := y];
    var i :| 0 <= i < |s| && s[i] == Min(s);
    var o := if k == 0 then 1 else 0;
    assert s[o] in s && s[k] in s && t[o] in t;
    if i == k {
      assert t[o] == s[o] == Min(s);
    } else {
      assert t[i] == Min(s) && t[i] in t;
    }
    var j :| 0 <= j < |t| && t[j] == Min(t);
    assert j == k || t[j] in s;
  }

  lemma PositiveAverage(s: seq<real>)
    requires s != [] && forall x :: x in s ==> x > 0.0
    ensures Average(s) > 0.0
  {
    if |s| >= 3 {
      LongAverage(s);
    } else {
      assert s[0] in s && s[|s| - 1] in s;
    }
  }

  // ---------- what the average of a list of prices is ----------

  /** Positive prices average to a positive price. */
  lemma AverageOfPositive(s: Prices)
    requires s != [] && forall i :: 0 <= i < |s| ==> Positive(s[i])
    ensures Positive(AverageOf(s))
  {
    CountParts(s);
    var fs := Finites(s);
    forall x | x in fs
      ensures x > 0.0
    {
      FinitesMember(s, x);
    }
    hide Finites, Infinities, Average, WithoutMin, AllPrices;
    if Infinities(s) == 0 {
      PositiveAverage(fs);
    } else if Infinities(s) == 1 && |s| >= 3 {
      DroppingMin(fs);
    }
  }

  lemma {:induction false} PartsOfConcat(a: seq<Float>, b: seq<Float>)
    ensures Finites(a + b) == Finites(a) + Finites(b) && Infinities(a + b) == Infinities(a) + Infinities(b)
    decreases |b|
  {
    if b == [] {
      assert a + b == a;
    } else {
      var last := |b| - 1;
      PartsOfConcat(a, b[..last]);
      assert (a + b)[..|a| + last] == a + b[..last];
    }
  }

  lemma {:induction false} PartsCounted(s: seq<Float>, x: real)
    ensures multiset(Finites(s))[x] == multiset(s)[Finite(x)] && Infinities(s) == multiset(s)[Infinite]
  {
    if s != [] {
      var init := s[..|s| - 1];
      PartsCounted(init, x);
      assert s == init + [s[|s| - 1]];
    }
  }

  lemma PartsOfPermutation(a: seq<Float>, b: seq<Float>)
    requires multiset(a) == multiset(b)
    ensures multiset(Finites(a)) == multiset(Finites(b)) && Infinities(a) == Infinities(b)
  {
    PartsCounted(a, 0.0);
    PartsCounted(b, 0.0);
    forall x: real
      ensures multiset(Finites(a))[x] == multiset(Finites(b))[x]
    {
      PartsCounted(a, x);
      PartsCounted(b, x);
    }
  }

  lemma PricesOfPermutation(a: Prices, b: seq<Float>)
    requires multiset(a) == multiset(b)
    ensures AllPrices(b) && |a| == |b|
  {
    assert |multiset(a)| == |multiset(b)|;
    forall i | 0 <= i < |b|
      ensures IsPrice(b[i])
    {
      assert b[i] in multiset(b) && b[i] in multiset(a);
      assert b[i] in a;
    }
  }

  lemma SumOfFew(s: seq<real>)
    ensures |s| == 1 ==> Sum(s) == s[0]
    ensures |s| == 2 ==> Sum(s) == s[0] + s[1]
  {
    if |s| == 1 {
      assert s[..0] == [];
    } else if |s| == 2 {
      assert s[..1][..0] == [];
    }
  }

  lemma AveragesOfPermutation(a: seq<real>, b: seq<real>)
    requires multiset(a) == multiset(b)
    ensures |a| == |b| && Average(a) == Average(b) && (|a| >= 2 ==> WithoutMin(a) == WithoutMin(b))
  {
    hide Trimmed, Sum, Min, Max, Mean;
    assert |multiset(a)| == |multiset(b)|;
    SumOfPermutation(a, b);
    SumOfFew(a);
    SumOfFew(b);
    if a != [] {
      ExtremesOfPermutation(a, b);
    }
    if |a| >= 3 {
      TrimmedOfPermutation(a, b);
    }
  }

  /** The order of the prices does not matter. */
  lemma AverageOfPermutation(a: Prices, b: seq<Float>)
    requires multiset(a) == multiset(b)
    ensures AllPrices(b) && AverageOf(a) == AverageOf(b)
  {
    hide Finites, Infinities, AllPrices, Average, WithoutMin;
    PricesOfPermutation(a, b);
    PartsOfPermutation(a, b);
    CountParts(a);
    CountParts(b);
    AveragesOfPermutation(Finites(a), Finites(b));
  }

  lemma PartsOfOne(f: Float)
    ensures Finites([f]) == if f.Finite? then [f.value] else []
    ensures Infinities([f]) == if f.Infinite? then 1 else 0
  {
    assert [f][..0] == [];
  }

  lemma PartsAround(left: seq<Float>, f: Float, right: seq<Float>)
    ensures Finites(left + [f] + right) == Finites(left) + (if f.Finite? then [f.value] else []) + Finites(right)
    ensures Infinities(left + [f] + right) == Infinities(left) + (if f.Infinite? then 1 else 0) + Infinities(right)
  {
    hide Finites, Infinities;
    PartsOfConcat(left + [f], right);
    PartsOfConcat(left, [f]);
    PartsOfOne(f);
  }

  lemma NumberAt(s: Prices, k: nat)
    requires k < |s| && Infinities(s) == 0
    ensures s[k].Finite?
  {
    CountParts(s);
    assert s[k] in s && IsPrice(s[k]);
  }

  lemma ReplacedPrices(s: Prices, k: nat, y: Float)
    requires k < |s| && IsPrice(y)
    ensures AllPrices(s[..k]) && AllPrices(s[k := y])
    ensures s == s[..k] + [s[k]] + s[k + 1..] && s[k := y] == s[..k] + [y] + s[k + 1..]
  {
    hide IsPrice;
  }

  lemma CountBefore(s: Prices, k: nat)
    requires k < |s| && Infinities(s) == 0
    ensures |Finites(s)| == |s| && |Finites(s[..k])| == k && Infinities(s[..k]) == 0 == Infinities(s[k + 1..])
    ensures s[k].Finite? && Finites(s) == Finites(s[..k]) + [s[k].value] + Finites(s[k + 1..])
  {
    ReplacedPrices(s, k, s[k]);
    NumberAt(s, k);
    hide Finites, Infinities, AllPrices;
    CountParts(s);
    CountParts(s[..k]);
    PartsAround(s[..k], s[k], s[k + 1..]);
  }

  /** What the entry of a list without infinities is replaced by decides both parts of the new list. */
  lemma PartsOfReplaced(s: Prices, k: nat, y: Float)
    requires k < |s| && Infinities(s) == 0 && IsPrice(y)
    ensures var t, fs := s[k := y], Finites(s);
            && AllPrices(t) && |fs| == |s| && s[k] == Finite(fs[k])
            && (y.Finite? ==> Finites(t) == fs[k := y.value] && Infinities(t) == 0)
            && (y.Infinite? ==> Finites(t) == fs[..k] + fs[k + 1..] && Infinities(t) == 1)
  {
    hide Finites, Infinities, IsPrice, AllPrices;
    ReplacedPrices(s, k, y);
    CountBefore(s, k);
    PartsAround(s[..k], y, s[k + 1..]);
    Rejoined(Finites(s[..k]), s[k].value, Finites(s[k + 1..]), if y.Finite? then y.value else 0.0);
  }

  lemma Rejoined(left: seq<real>, x: real, right: seq<real>, y: real)
    ensures var fs := left + [x] + right;
            && fs[|left|] == x && fs[|left| := y] == left + [y] + right
            && fs[..|left|] + fs[|left| + 1..] == left + [] + right
  {
  }

  /** A wild outlier changes nothing: raising a largest price, even to an infinity, leaves the average as it was. */
  lemma AverageIgnoresOutlier(s: Prices, k: nat, y: Float)
    requires |s| >= 3 && k < |s| && (forall i :: 0 <= i < |s| ==> !Less(s[k], s[i]))
    requires IsPrice(y) && !Less(y, s[k])
    ensures AllPrices(s[k := y]) && AverageOf(s[k := y]) == AverageOf(s)
  {
    CountParts(s);
    assert IsPrice(s[k]);
    if s[k].Infinite? {
      assert y == Infinite && s[k := y] == s;
    } else {
      NoInfinityAbove(s, k);
      PartsOfReplaced(s, k, y);
      LargestFinite(s, k);
      var fs := Finites(s);
      hide Finites, Infinities, AllPrices, Trimmed, Less;
      if y.Finite? {
        TrimmedIgnoresOutlier(fs, k, y.value);
      } else {
        TrimmedIgnoresLoss(fs, k);
      }
    }
  }

  lemma NoInfinityAbove(s: Prices, k: nat)
    requires k < |s| && s[k].Finite? && forall i :: 0 <= i < |s| ==> !Less(s[k], s[i])
    ensures Infinities(s) == 0
  {
    CountParts(s);
    hide Infinities;
    assert forall i :: 0 <= i < |s| ==> s[i] != Infinite;
  }

  lemma LargestFinite(s: Prices, k: nat)
    requires k < |s| && s[k].Finite? && forall i :: 0 <= i < |s| ==> !Less(s[k], s[i])
    requires Finites(s) != []
    ensures s[k].value == Max(Finites(s))
  {
    hide Finites;
    var m := Max(Finites(s));
    FinitesMember(s, m);
    var i :| 0 <= i < |s| && s[i] == Finite(m);
    assert !Less(s[k], s[i]) && s[k] in s;
    FinitesMember(s, s[k].value);
  }

  /** Dropping a largest entry and then a smallest one trims the list. */
  lemma TrimmedIgnoresLoss(s: seq<real>, k: nat)
    requires |s| >= 3 && k < |s| && s[k] == Max(s)
    ensures WithoutMin(s[..k] + s[k + 1..]) == Trimmed(s)
  {
    hide Sum, Min, Max, Mean;
    SumWithout(s, k);
    MinWithout(s, k);
    assert Sum(s[..k] + s[k + 1..]) == Sum(s) - Max(s);
  }

  lemma MinWithout(s: seq<real>, k: nat)
    requires |s| >= 2 && k < |s| && s[k] == Max(s)
    ensures Min(s[..k] + s[k + 1..]) == Min(s)
  {
    hide Min, Max;
    var t := s[..k] + s[k + 1..];
    var i :| 0 <= i < |s| && s[i] == Min(s);
    var o := if i != k then i else if k == 0 then 1 else 0;
    assert Min(s) == s[o] by {
      assert s[o] in s;
    }
    assert t[if o < k then o else o - 1] == s[o];
    assert Min(s) in t;
    forall x | x in t
      ensures x in s
    {
      assert x in s[..k] || x in s[k + 1..];
    }
  }
}
