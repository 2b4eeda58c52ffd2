/** The in-memory aggregates over fetched rows (`src/lib/metrics.ts`):
    nearest-rank percentiles, the fixed-width price histogram, its mode bin,
    and the hourly timeseries. Prices are integers (Korean won). */
module Metrics {
  import opened Seqs
  import opened Sorting
  import opened Query

  // ---------------------------------------------------------------- bins

  /** `Math.floor(p / binSize) * binSize`: the multiple of `binSize` at or
      just below `p`. */
  function BinOf(p: int, binSize: int): (b: int)
    requires binSize > 0
    ensures b <= p < b + binSize
    ensures b % binSize == 0
  {
    MultipleMod(p / binSize, binSize);
    (p / binSize) * binSize
  }

  /** `Math.ceil(p / binSize) * binSize`: the multiple of `binSize` at or
      just above `p`. */
  function CeilTo(p: int, binSize: int): (c: int)
    requires binSize > 0
    ensures c - binSize < p <= c
    ensures c % binSize == 0
  {
    MultipleMod(-((-p) / binSize), binSize);
    -((-p) / binSize) * binSize
  }

  lemma MulAtLeast(x: int, m: int)
    requires x >= 1 && m > 0
    ensures x * m >= m
  {
  }

  lemma MulAtMost(x: int, m: int)
    requires x <= -1 && m > 0
    ensures x * m <= -m
  {
  }

  lemma MulNonPositive(x: int, m: int)
    requires x <= 0 && m > 0
    ensures x * m <= 0
  {
  }

  /** A multiple of `m` leaves no remainder. */
  lemma MultipleMod(q: int, m: int)
    requires m > 0
    ensures (q * m) % m == 0
  {
    var r := (q * m) % m;
    var d := (q * m) / m;
    assert q * m == d * m + r;
    assert (q - d) * m == r by {
      assert (q - d) * m == q * m - d * m;
    }
    if q - d >= 1 {
      MulAtLeast(q - d, m);
    } else if q - d <= -1 {
      MulAtMost(q - d, m);
    }
  }

  /** Two different multiples of `m` lie at least `m` apart. */
  lemma MultiplesApart(a: int, b: int, m: int)
    requires m > 0 && a % m == 0 && b % m == 0 && a < b
    ensures a + m <= b
  {
    var qa := a / m;
    var qb := b / m;
    assert a == qa * m && b == qb * m;
    assert b - a == (qb - qa) * m by {
      assert (qb - qa) * m == qb * m - qa * m;
    }
    if qb - qa <= 0 {
      MulNonPositive(qb - qa, m);
    } else {
      MulAtLeast(qb - qa, m);
    }
  }

  /** A multiple of `binSize` at or below `p` is at or below `BinOf(p)`, and
      one within a bin's width below `p` is `BinOf(p)` itself. */
  lemma BinOfLargest(p: int, k: int, binSize: int)
    requires binSize > 0 && k % binSize == 0 && k <= p
    ensures k <= BinOf(p, binSize)
    ensures p < k + binSize ==> k == BinOf(p, binSize)
  {
    var b := BinOf(p, binSize);
    if k > b {
      MultiplesApart(b, k, binSize);
    }
    if p < k + binSize && k < b {
      MultiplesApart(k, b, binSize);
    }
  }

  lemma BinOfMonotone(p: int, q: int, binSize: int)
    requires binSize > 0 && p <= q
    ensures BinOf(p, binSize) <= BinOf(q, binSize)
  {
    BinOfLargest(q, BinOf(p, binSize), binSize);
  }

  /** The bin of every price, in price order. */
  function BinsOf(prices: seq<int>, binSize: int): (bins: seq<int>)
    requires binSize > 0
    ensures |bins| == |prices|
    ensures forall i :: 0 <= i < |bins| ==> bins[i] == BinOf(prices[i], binSize)
  {
    if prices == [] then []
    else BinsOf(prices[..|prices| - 1], binSize) + [BinOf(prices[|prices| - 1], binSize)]
  }

  lemma BinsOfSnoc(prices: seq<int>, i: nat, binSize: int)
    requires binSize > 0 && i < |prices|
    ensures BinsOf(prices[..i + 1], binSize) == BinsOf(prices[..i], binSize) + [BinOf(prices[i], binSize)]
  {
    assert prices[..i + 1][..i] == prices[..i];
  }

  /** Number of prices falling into the bin starting at `start`. */
  function CountIn(prices: seq<int>, start: int, binSize: int): nat
    requires binSize > 0
  {
    Count(BinsOf(prices, binSize), start)
  }

  /** `Math.min(...prices)` and `Math.max(...prices)`. */
  function Min(prices: seq<int>): (m: int)
    requires prices != []
    ensures m in prices && forall i :: 0 <= i < |prices| ==> m <= prices[i]
  {
    if |prices| == 1 then prices[0]
    else
      var rest := Min(prices[1..]);
      assert forall i :: 1 <= i < |prices| ==> prices[i] == prices[1..][i - 1];
      if prices[0] <= rest then prices[0] else rest
  }

  function Max(prices: seq<int>): (m: int)
    requires prices != []
    ensures m in prices && forall i :: 0 <= i < |prices| ==> prices[i] <= m
  {
    if |prices| == 1 then prices[0]
    else
      var rest := Max(prices[1..]);
      assert forall i :: 1 <= i < |prices| ==> prices[i] == prices[1..][i - 1];
      if prices[0] >= rest then prices[0] else rest
  }

  /** `low, low + step, …` while below `high` (the seeding loop's keys). */
  function Grid(low: int, high: int, step: int): (g: seq<int>)
    requires step > 0
    ensures Increasing(g)
    ensures forall i :: 0 <= i < |g| ==> low <= g[i] < high
    decreases high - low
  {
    if low >= high then [] else [low] + Grid(low + step, high, step)
  }

  /** On a grid of multiples, membership is being a multiple in range. */
  lemma {:induction false} GridMembers(low: int, high: int, step: int, k: int)
    requires step > 0 && low % step == 0
    ensures k in Grid(low, high, step) <==> k % step == 0 && low <= k < high
    decreases high - low
  {
    if low < high {
      MultipleMod(low / step + 1, step);
      assert (low / step + 1) * step == low + step;
      GridMembers(low + step, high, step, k);
      if k % step == 0 && low < k {
        MultiplesApart(low, k, step);
      }
    }
  }

  // ----------------------------------------------------------- histogram

  datatype HistogramBin = HistogramBin(binStart: int, binEnd: int, count: nat)

  /** The histogram the code promises: one bin per multiple of `binSize`
      from the bin of the smallest price to the bin of the largest, empty
      bins included, each holding the number of prices that fall into it. */
  function Histogram(prices: seq<int>, binSize: int): (h: seq<HistogramBin>)
    requires binSize > 0
  {
    if prices == [] then [] else BinsAt(prices, HistogramStarts(prices, binSize), binSize)
  }

  /** The right bin for each of `starts`. */
  function BinsAt(prices: seq<int>, starts: seq<int>, binSize: int): (h: seq<HistogramBin>)
    requires binSize > 0
    ensures |h| == |starts|
    ensures forall i :: 0 <= i < |h| ==> h[i] == HistogramBin(starts[i], starts[i] + binSize, CountIn(prices, starts[i], binSize))
  {
    seq(|starts|, i requires 0 <= i < |starts| =>
      HistogramBin(starts[i], starts[i] + binSize, CountIn(prices, starts[i], binSize)))
  }

  /** Right bins are determined by their starts. */
  lemma FittingBinsAt(prices: seq<int>, binSize: int, bins: seq<HistogramBin>)
    requires binSize > 0
    requires forall i :: 0 <= i < |bins| ==> BinFits(bins[i], prices, binSize)
    ensures bins == BinsAt(prices, BinStarts(bins), binSize)
  {
  }

  function BinStarts(h: seq<HistogramBin>): (s: seq<int>)
    ensures |s| == |h| && forall i :: 0 <= i < |h| ==> s[i] == h[i].binStart
  {
    seq(|h|, i requires 0 <= i < |h| => h[i].binStart)
  }

  /** A bin is right for `prices` when its end and count follow from its start. */
  predicate BinFits(b: HistogramBin, prices: seq<int>, binSize: int)
    requires binSize > 0
  {
    b.binEnd == b.binStart + binSize && b.count == CountIn(prices, b.binStart, binSize)
  }

  /** The bin starts the histogram must cover. */
  predicate InRange(k: int, prices: seq<int>, binSize: int)
    requires binSize > 0 && prices != []
  {
    k % binSize == 0 && BinOf(Min(prices), binSize) <= k <= BinOf(Max(prices), binSize)
  }

  function ByStart(entries: seq<HistogramBin>): (sorted: seq<HistogramBin>)
    ensures multiset(sorted) == multiset(entries)
    ensures forall i, j :: 0 <= i < j < |sorted| ==> sorted[i].binStart <= sorted[j].binStart
  {
    var sorted := SortBy(entries, (b: HistogramBin) => b.binStart);
    assert forall i, j :: 0 <= i < j < |sorted| ==> sorted[i].binStart <= sorted[j].binStart;
    sorted
  }

  /** Sorting right bins with distinct starts keeps them right and makes the
      starts increase. */
  lemma SortedBinsIncrease(prices: seq<int>, binSize: int, entries: seq<HistogramBin>)
    requires binSize > 0
    requires forall i :: 0 <= i < |entries| ==> BinFits(entries[i], prices, binSize)
    requires forall i, j :: 0 <= i < j < |entries| ==> entries[i].binStart != entries[j].binStart
    ensures forall i :: 0 <= i < |ByStart(entries)| ==> BinFits(ByStart(entries)[i], prices, binSize)
    ensures Increasing(BinStarts(ByStart(entries)))
  {
    var sorted := ByStart(entries);
    forall i | 0 <= i < |sorted| ensures BinFits(sorted[i], prices, binSize) {
      assert sorted[i] in multiset(entries);
    }
    assert Distinct(entries);
    PermutationDistinct(entries, sorted);
    var ss := BinStarts(sorted);
    forall i, j | 0 <= i < j < |ss| ensures ss[i] < ss[j] {
      assert sorted[i] != sorted[j];
      assert BinFits(sorted[i], prices, binSize) && BinFits(sorted[j], prices, binSize);
    }
  }

  lemma SortedBinsSameStarts(entries: seq<HistogramBin>, k: int)
    ensures k in BinStarts(ByStart(entries)) <==> k in BinStarts(entries)
  {
    var sorted := ByStart(entries);
    if k in BinStarts(sorted) {
      var i :| 0 <= i < |sorted| && sorted[i].binStart == k;
      assert sorted[i] in multiset(entries);
      var j :| 0 <= j < |entries| && entries[j] == sorted[i];
      assert BinStarts(entries)[j] == k;
    }
    if k in BinStarts(entries) {
      var j :| 0 <= j < |entries| && entries[j].binStart == k;
      assert entries[j] in multiset(sorted);
      var i :| 0 <= i < |sorted| && sorted[i] == entries[j];
      assert BinStarts(sorted)[i] == k;
    }
  }

  /** The starts the histogram lists: the run of multiples of `binSize`
      from the lowest price's bin to the highest's. */
  function HistogramStarts(prices: seq<int>, binSize: int): seq<int>
    requires binSize > 0 && prices != []
  {
    Grid(BinOf(Min(prices), binSize), BinOf(Max(prices), binSize) + binSize, binSize)
  }

  lemma HistogramStartsMembers(prices: seq<int>, binSize: int, k: int)
    requires binSize > 0 && prices != []
    ensures k in HistogramStarts(prices, binSize) <==> InRange(k, prices, binSize)
  {
    var top := BinOf(Max(prices), binSize);
    GridMembers(BinOf(Min(prices), binSize), top + binSize, binSize, k);
    if k % binSize == 0 && top < k {
      MultiplesApart(top, k, binSize);
    }
  }

  lemma SortedStartsAreGrid(prices: seq<int>, binSize: int, entries: seq<HistogramBin>)
    requires binSize > 0 && prices != []
    requires forall i :: 0 <= i < |entries| ==> BinFits(entries[i], prices, binSize)
    requires forall i, j :: 0 <= i < j < |entries| ==> entries[i].binStart != entries[j].binStart
    requires forall k :: k in BinStarts(entries) <==> InRange(k, prices, binSize)
    ensures BinStarts(ByStart(entries)) == HistogramStarts(prices, binSize)
  {
    SortedBinsIncrease(prices, binSize, entries);
    var starts := HistogramStarts(prices, binSize);
    forall k ensures k in BinStarts(ByStart(entries)) <==> k in starts {
      HistogramStartsMembers(prices, binSize, k);
      SortedBinsSameStarts(entries, k);
    }
    IncreasingUnique(BinStarts(ByStart(entries)), starts);
  }

  /** Sorting any collection of right bins covering exactly the required
      starts, each once, produces the histogram. */
  lemma SortedTallyIsHistogram(prices: seq<int>, binSize: int, entries: seq<HistogramBin>)
    requires binSize > 0 && prices != []
    requires forall i :: 0 <= i < |entries| ==> BinFits(entries[i], prices, binSize)
    requires forall i, j :: 0 <= i < j < |entries| ==> entries[i].binStart != entries[j].binStart
    requires forall k :: k in BinStarts(entries) <==> InRange(k, prices, binSize)
    ensures ByStart(entries) == Histogram(prices, binSize)
  {
    var sorted := ByStart(entries);
    SortedStartsAreGrid(prices, binSize, entries);
    SortedBinsIncrease(prices, binSize, entries);
    var starts := HistogramStarts(prices, binSize);
    FittingBinsAt(prices, binSize, sorted);
  }

  /** The seeding loop: a zero count for `low, low + binSize, …` below
      `high`, keys in insertion order. */
  method SeedBins(low: int, high: int, binSize: int) returns (counts: map<int, nat>, order: seq<int>)
    requires binSize > 0 && low <= high && low % binSize == 0 && high % binSize == 0
    ensures order == Grid(low, high, binSize)
    ensures forall k :: k in counts <==> k in order
    ensures forall k :: k in counts ==> counts[k] == 0
  {
    counts := map[];
    order := [];
    var b := low;
    while b < high
      invariant low <= b <= high && b % binSize == 0
      invariant order + Grid(b, high, binSize) == Grid(low, high, binSize)
      invariant forall k :: k in counts <==> k in order
      invariant forall k :: k in counts ==> counts[k] == 0
      decreases high - b
    {
      MultiplesApart(b, high, binSize);
      GridStep(b, high, binSize);
      counts := counts[b := 0];
      order := order + [b];
      b := b + binSize;
    }
  }

  lemma GridStep(b: int, high: int, step: int)
    requires step > 0 && b < high && b % step == 0
    ensures Grid(b, high, step) == [b] + Grid(b + step, high, step)
    ensures (b + step) % step == 0
  {
    MultipleMod(b / step + 1, step);
    assert (b / step + 1) * step == b + step;
  }

  /** The counting loop: one more for the bin of each price, adding the bin
      (after all others) when the seeding did not create it. */
  method AddPrices(prices: seq<int>, binSize: int, seeded: map<int, nat>, seedOrder: seq<int>)
    returns (counts: map<int, nat>, order: seq<int>)
    requires binSize > 0 && Distinct(seedOrder)
    requires forall k :: k in seeded <==> k in seedOrder
    requires forall k :: k in seeded ==> seeded[k] == 0
    ensures Distinct(order)
    ensures forall k :: k in counts <==> k in order
    ensures forall j :: 0 <= j < |order| ==> order[j] in counts
    ensures forall k :: k in counts ==> counts[k] == CountIn(prices, k, binSize)
    ensures forall k :: k in order <==> k in seedOrder || k in BinsOf(prices, binSize)
  {
    counts := seeded;
    order := seedOrder;
    var i := 0;
    ghost var seen: seq<int> := [];
    while i < |prices|
      invariant 0 <= i <= |prices|
      invariant seen == BinsOf(prices[..i], binSize)
      invariant Distinct(order)
      invariant forall k :: k in counts <==> k in order
      invariant forall k :: k in counts ==> counts[k] == Count(seen, k)
      invariant forall k :: k in order <==> k in seedOrder || k in seen
    {
      var k := BinOf(prices[i], binSize);
      BinsOfSnoc(prices, i, binSize);
      var c := 0;
      if k in counts {
        c := counts[k];
      } else {
        DistinctSnoc(order, k);
        order := order + [k];
      }
      counts := counts[k := c + 1];
      forall x | x in counts ensures counts[x] == Count(seen + [k], x) {
        CountSnoc(seen, k, x);
      }
      seen := seen + [k];
      i := i + 1;
    }
    assert prices[..i] == prices;
  }

  /** `computeHistogram`: seed a zero count for every bin from the bin of the
      smallest price up to the ceiling of the largest, add one per price to
      its bin, then list the bins by start. The result is the histogram of
      the prices. */
  method ComputeHistogram(prices: seq<int>, binSize: int) returns (bins: seq<HistogramBin>)
    requires binSize > 0
    ensures bins == Histogram(prices, binSize)
  {
    if |prices| == 0 {
      return [];
    }
    var min := Min(prices);
    var max := Max(prices);
    var low := BinOf(min, binSize);
    var high := CeilTo(max, binSize);
    var seeded, seedOrder := SeedBins(low, high, binSize);
    var counts, order := AddPrices(prices, binSize, seeded, seedOrder);
    var entries := TallyEntries(counts, order, binSize);
    AssembledTally(prices, binSize, counts, order, entries);
    bins := ByStart(entries);
  }

  /** `Array.from(bins.entries())` turned into bins, in key insertion order. */
  function TallyEntries(counts: map<int, nat>, order: seq<int>, binSize: int): (entries: seq<HistogramBin>)
    requires forall j :: 0 <= j < |order| ==> order[j] in counts
    ensures |entries| == |order|
    ensures forall j :: 0 <= j < |order| ==> entries[j] == HistogramBin(order[j], order[j] + binSize, counts[order[j]])
  {
    seq(|order|, j requires 0 <= j < |order| => HistogramBin(order[j], order[j] + binSize, counts[order[j]]))
  }

  /** The bins built from the tally are right, have distinct starts and
      cover exactly the histogram's range. */
  lemma AssembledTally(prices: seq<int>, binSize: int, counts: map<int, nat>, order: seq<int>, entries: seq<HistogramBin>)
    requires binSize > 0 && prices != []
    requires Distinct(order)
    requires forall k :: k in counts <==> k in order
    requires forall j :: 0 <= j < |order| ==> order[j] in counts
    requires forall k :: k in counts ==> counts[k] == CountIn(prices, k, binSize)
    requires forall k :: k in order <==> k in Grid(BinOf(Min(prices), binSize), CeilTo(Max(prices), binSize), binSize) || k in BinsOf(prices, binSize)
    requires entries == TallyEntries(counts, order, binSize)
    ensures ByStart(entries) == Histogram(prices, binSize)
  {
    HistogramKeys(prices, binSize, BinOf(Min(prices), binSize), CeilTo(Max(prices), binSize), order);
    assert BinStarts(entries) == order;
    SortedTallyIsHistogram(prices, binSize, entries);
  }

  /** A key is in the seeded grid or among the bins of the prices exactly
      when it lies in the histogram's range. */
  lemma HistogramKey(prices: seq<int>, binSize: int, low: int, high: int, k: int)
    requires binSize > 0 && prices != []
    requires low == BinOf(Min(prices), binSize) && high == CeilTo(Max(prices), binSize)
    ensures k in Grid(low, high, binSize) || k in BinsOf(prices, binSize) <==> InRange(k, prices, binSize)
  {
    var top := BinOf(Max(prices), binSize);
    GridMembers(low, high, binSize, k);
    if k in Grid(low, high, binSize) && top < k {
      MultiplesApart(k, high, binSize);
      BinOfLargest(Max(prices), k, binSize);
    }
    if k in BinsOf(prices, binSize) {
      var i :| 0 <= i < |prices| && BinsOf(prices, binSize)[i] == k;
      BinOfMonotone(Min(prices), prices[i], binSize);
      BinOfMonotone(prices[i], Max(prices), binSize);
    }
    if InRange(k, prices, binSize) && !(k < high) {
      var j :| 0 <= j < |prices| && prices[j] == Max(prices);
      assert BinsOf(prices, binSize)[j] == k;
    }
  }

  /** The seeded grid together with the bins of the prices is exactly the
      run of multiples from the lowest price's bin to the highest's. */
  lemma HistogramKeys(prices: seq<int>, binSize: int, low: int, high: int, order: seq<int>)
    requires binSize > 0 && prices != []
    requires low == BinOf(Min(prices), binSize) && high == CeilTo(Max(prices), binSize)
    requires forall k :: k in order <==> k in Grid(low, high, binSize) || k in BinsOf(prices, binSize)
    ensures forall k :: k in order <==> InRange(k, prices, binSize)
  {
    forall k ensures k in order <==> InRange(k, prices, binSize) {
      HistogramKey(prices, binSize, low, high, k);
    }
  }

  /** Consecutive grid points lie one step apart; the grid starts at `low`
      and its last point is within a step of `high`. */
  lemma {:induction false} GridShape(low: int, high: int, step: int)
    requires step > 0
    ensures var g := Grid(low, high, step);
      && (low < high <==> g != [])
      && (g != [] ==> g[0] == low && high - step <= g[|g| - 1])
      && forall i :: 0 <= i < |g| - 1 ==> g[i + 1] == g[i] + step
    decreases high - low
  {
    if low < high {
      GridShape(low + step, high, step);
      var g := Grid(low, high, step);
      var rest := Grid(low + step, high, step);
      assert g == [low] + rest;
      forall i | 0 <= i < |g| - 1 ensures g[i + 1] == g[i] + step {
        if i > 0 {
          assert g[i] == rest[i - 1] && g[i + 1] == rest[i];
        }
      }
    }
  }

  /** The grid of multiples from `low` through `top`. */
  lemma GridRun(low: int, top: int, step: int)
    requires step > 0 && low % step == 0 && top % step == 0 && low <= top
    ensures var g := Grid(low, top + step, step);
      && g != []
      && (forall i :: 0 <= i < |g| ==> g[i] % step == 0)
      && (forall i :: 0 <= i < |g| - 1 ==> g[i + 1] == g[i] + step)
      && g[0] == low && g[|g| - 1] == top
  {
    var g := Grid(low, top + step, step);
    GridShape(low, top + step, step);
    forall i | 0 <= i < |g| ensures g[i] % step == 0 {
      GridMembers(low, top + step, step, g[i]);
    }
    var last := g[|g| - 1];
    assert top <= last < top + step && last % step == 0;
    if top < last {
      MultiplesApart(top, last, step);
    }
  }

  lemma HistogramStartsShape(prices: seq<int>, binSize: int)
    requires binSize > 0 && prices != []
    ensures var g := HistogramStarts(prices, binSize);
      && g != []
      && (forall i :: 0 <= i < |g| ==> g[i] % binSize == 0)
      && (forall i :: 0 <= i < |g| - 1 ==> g[i + 1] == g[i] + binSize)
      && g[0] == BinOf(Min(prices), binSize) && g[|g| - 1] == BinOf(Max(prices), binSize)
  {
    BinOfMonotone(Min(prices), Max(prices), binSize);
    GridRun(BinOf(Min(prices), binSize), BinOf(Max(prices), binSize), binSize);
  }

  /** The histogram is a gap-free run of bins of width `binSize` whose starts
      are multiples of `binSize`, from the bin of the smallest price to the
      bin of the largest; no prices, no bins. */
  lemma HistogramShape(prices: seq<int>, binSize: int)
    requires binSize > 0
    ensures var h := Histogram(prices, binSize);
      && (h == [] <==> prices == [])
      && (forall i :: 0 <= i < |h| ==> h[i].binEnd == h[i].binStart + binSize && h[i].binStart % binSize == 0)
      && (forall i :: 0 <= i < |h| - 1 ==> h[i + 1].binStart == h[i].binEnd)
      && (h != [] ==> h[0].binStart == BinOf(Min(prices), binSize) && h[|h| - 1].binStart == BinOf(Max(prices), binSize))
  {
    if prices != [] {
      HistogramStartsShape(prices, binSize);
    }
  }

  /** Every bin a price falls into is one of the histogram's starts. */
  lemma HistogramCovers(prices: seq<int>, binSize: int, x: int)
    requires binSize > 0 && x in BinsOf(prices, binSize)
    ensures exists i :: 0 <= i < |Histogram(prices, binSize)| && Histogram(prices, binSize)[i].binStart == x
  {
    var bins := BinsOf(prices, binSize);
    var j :| 0 <= j < |bins| && bins[j] == x;
    BinOfMonotone(Min(prices), prices[j], binSize);
    BinOfMonotone(prices[j], Max(prices), binSize);
    HistogramStartsMembers(prices, binSize, x);
    var g := HistogramStarts(prices, binSize);
    var i :| 0 <= i < |g| && g[i] == x;
    assert Histogram(prices, binSize)[i].binStart == x;
  }

  function BinCount(b: HistogramBin): int {
    b.count
  }

  function BinStartOf(b: HistogramBin): int {
    b.binStart
  }

  /** Bins with increasing starts, one for every entry of `bins`, each
      counting that entry's occurrences, have counts adding up to `|bins|`. */
  lemma BinCountsTotal(bins: seq<int>, h: seq<HistogramBin>)
    requires forall i :: 0 <= i < |h| ==> h[i].count == Count(bins, h[i].binStart)
    requires forall i, j :: 0 <= i < j < |h| ==> h[i].binStart < h[j].binStart
    requires forall x :: x in bins ==> exists i :: 0 <= i < |h| && h[i].binStart == x
    ensures Sum(h, BinCount) == |bins|
  {
    forall x | x in bins ensures exists i :: 0 <= i < |h| && BinStartOf(h[i]) == x {
      var i :| 0 <= i < |h| && h[i].binStart == x;
      assert BinStartOf(h[i]) == x;
    }
    TallyConserves(bins, h, BinStartOf, BinCount);
  }

  /** The bin of every price is among the histogram's bins. */
  lemma HistogramHasEveryPrice(prices: seq<int>, binSize: int, p: int)
    requires binSize > 0 && p in prices
    ensures exists i :: 0 <= i < |Histogram(prices, binSize)| && Histogram(prices, binSize)[i].binStart == BinOf(p, binSize)
  {
    var j :| 0 <= j < |prices| && prices[j] == p;
    assert BinsOf(prices, binSize)[j] == BinOf(p, binSize);
    HistogramCovers(prices, binSize, BinOf(p, binSize));
  }

  /** Each bin counts the prices whose bin starts where it starts. */
  lemma HistogramCountAt(prices: seq<int>, binSize: int, i: int)
    requires binSize > 0 && 0 <= i < |Histogram(prices, binSize)|
    ensures Histogram(prices, binSize)[i].count == Count(BinsOf(prices, binSize), Histogram(prices, binSize)[i].binStart)
  {
  }

  /** The bin counts add up to the number of prices. */
  lemma HistogramCountsTotal(prices: seq<int>, binSize: int)
    requires binSize > 0
    ensures Sum(Histogram(prices, binSize), BinCount) == |prices|
  {
    var bins := BinsOf(prices, binSize);
    if prices == [] {
      BinCountsTotal(bins, []);
    } else {
      var starts := HistogramStarts(prices, binSize);
      var h := BinsAt(prices, starts, binSize);
      assert Histogram(prices, binSize) == h;
      forall x | x in bins ensures exists i :: 0 <= i < |h| && h[i].binStart == x {
        HistogramCovers(prices, binSize, x);
      }
      BinCountsTotal(bins, h);
    }
  }

  /** Every price is counted exactly once: the bin of each price is in the
      histogram, and the counts add up to the number of prices. */
  lemma HistogramConserves(prices: seq<int>, binSize: int)
    requires binSize > 0
    ensures var h := Histogram(prices, binSize);
      && (forall p :: p in prices ==> exists i :: 0 <= i < |h| && h[i].binStart == BinOf(p, binSize))
      && Sum(h, BinCount) == |prices|
  {
    forall p | p in prices
      ensures exists i :: 0 <= i < |Histogram(prices, binSize)| && Histogram(prices, binSize)[i].binStart == BinOf(p, binSize)
    {
      HistogramHasEveryPrice(prices, binSize, p);
    }
    HistogramCountsTotal(prices, binSize);
  }

  /** A single price gives the one bin holding it. */
  lemma HistogramOfOne(p: int, binSize: int)
    requires binSize > 0
    ensures Histogram([p], binSize) == [HistogramBin(BinOf(p, binSize), BinOf(p, binSize) + binSize, 1)]
  {
    var b := BinOf(p, binSize);
    assert Min([p]) == p && Max([p]) == p;
    assert Grid(b + binSize, b + binSize, binSize) == [];
    assert HistogramStarts([p], binSize) == [b];
    assert [p][..0] == [];
    assert BinsOf([p], binSize) == [b];
    assert [b][..0] == [];
    assert Count([b], b) == 1;
  }

  /** A single price of 500000 in bins of 10000 gives the one bin
      [500000, 510000) holding it. */
  lemma HistogramSinglePrice()
    ensures Histogram([500000], 10000) == [HistogramBin(500000, 510000, 1)]
  {
    HistogramOfOne(500000, 10000);
    assert BinOf(500000, 10000) == 500000;
  }

  // ------------------------------------------------------------ mode bin

  /** `bins.reduce((best, cur) => cur.count > best.count ? cur : best)`,
      continued from `best` over `rest`. */
  function Best(best: HistogramBin, rest: seq<HistogramBin>): (b: HistogramBin)
    ensures b == best || b in rest
    ensures b.count >= best.count
    ensures forall i :: 0 <= i < |rest| ==> rest[i].count <= b.count
    decreases |rest|
  {
    if rest == [] then best
    else Best(if rest[0].count > best.count then rest[0] else best, rest[1..])
  }

  /** `computeModeBin`: null for no bins, otherwise the reduction from the first bin. */
  function ModeBin(bins: seq<HistogramBin>): (m: Option<HistogramBin>)
    ensures m.None? <==> bins == []
  {
    if bins == [] then None else Some(Best(bins[0], bins[1..]))
  }

  /** Position `k` holds the first bin of largest count. */
  ghost predicate FirstMax(bins: seq<HistogramBin>, k: int) {
    && 0 <= k < |bins|
    && (forall j :: 0 <= j < |bins| ==> bins[j].count <= bins[k].count)
    && (forall j :: 0 <= j < k ==> bins[j].count < bins[k].count)
  }

  lemma {:induction false} BestFindsFirstMax(bins: seq<HistogramBin>, i: nat, k: nat)
    requires 0 < i <= |bins| && FirstMax(bins[..i], k)
    ensures exists m :: FirstMax(bins, m) && Best(bins[k], bins[i..]) == bins[m]
    decreases |bins| - i
  {
    if i == |bins| {
      assert bins[..i] == bins;
    } else {
      var cur := bins[i];
      assert bins[i..][1..] == bins[i + 1..];
      var next := if cur.count > bins[k].count then i else k;
      assert FirstMax(bins[..i + 1], next) by {
        assert forall j :: 0 <= j < i ==> bins[..i + 1][j] == bins[..i][j];
      }
      BestFindsFirstMax(bins, i + 1, next);
    }
  }

  /** The mode bin has the largest count, and on ties it is the earliest
      such bin, because the reduction only moves on a strictly larger count. */
  lemma ModeBinIsFirstMax(bins: seq<HistogramBin>)
    requires bins != []
    ensures exists k :: FirstMax(bins, k) && ModeBin(bins) == Some(bins[k])
  {
    assert FirstMax(bins[..1], 0);
    BestFindsFirstMax(bins, 1, 0);
  }

  // --------------------------------------------------------- percentiles

  datatype Percentiles = Percentiles(p25: int, p50: int, p75: int)

  /** `Math.max(0, Math.ceil((p / 100) * n) - 1)` in exact arithmetic: the
      nearest-rank position, the smallest `idx` with `(idx + 1) / n` at
      least `p / 100`. */
  function RankIndex(p: int, n: nat): (idx: nat)
    ensures (idx + 1) * 100 >= p * n
    ensures idx > 0 ==> idx * 100 < p * n
  {
    var pn := p * n;
    var c := -((-pn) / 100);
    if c - 1 < 0 then 0 else c - 1
  }

  /** `sorted[idx] ?? 0`: the element at `idx`, or 0 past the end. */
  function ValueAt(sorted: seq<int>, idx: nat): (v: int)
    ensures idx < |sorted| ==> v == sorted[idx]
    ensures v == 0 || v in sorted
  {
    if idx < |sorted| then sorted[idx] else 0
  }

  /** The sort key of the comparator `(a, b) => a - b`: the price itself. */
  function PriceKey(x: int): int {
    x
  }

  /** `[...prices].sort((a, b) => a - b)`. */
  function Ascending(prices: seq<int>): (sorted: seq<int>)
    ensures |sorted| == |prices| && multiset(sorted) == multiset(prices)
    ensures forall i, j :: 0 <= i < j < |sorted| ==> sorted[i] <= sorted[j]
  {
    var sorted := SortBy(prices, PriceKey);
    assert forall i, j :: 0 <= i < j < |sorted| ==> sorted[i] <= sorted[j];
    sorted
  }

  /** The nearest-rank `p`-th percentile of `prices`: for a percentage
      between 0 and 100 of a non-empty list, one of its prices. */
  function NearestRank(prices: seq<int>, p: int): (v: int)
    ensures prices != [] && 0 <= p <= 100 ==> v in prices
  {
    var sorted := Ascending(prices);
    if prices != [] && 0 <= p <= 100 then
      RankIndexInRange(p, |prices|);
      assert sorted[RankIndex(p, |prices|)] in multiset(prices);
      ValueAt(sorted, RankIndex(p, |prices|))
    else ValueAt(sorted, RankIndex(p, |prices|))
  }

  /** `computePercentiles`: zeros for no prices, otherwise the nearest-rank
      value at each of the three requested percentiles. */
  function ComputePercentiles(prices: seq<int>, p25: int, p50: int, p75: int): (r: Percentiles)
    ensures prices == [] ==> r == Percentiles(0, 0, 0)
  {
    if |prices| == 0 then Percentiles(0, 0, 0)
    else Percentiles(NearestRank(prices, p25), NearestRank(prices, p50), NearestRank(prices, p75))
  }

  /** `computePercentiles(prices)` with its default percentiles 25, 50
      and 75, which come out in order. */
  function DefaultPercentiles(prices: seq<int>): (r: Percentiles)
    ensures r.p25 <= r.p50 <= r.p75
  {
    if prices == [] then ComputePercentiles(prices, 25, 50, 75)
    else
      RankIndexMonotone(25, 50, |prices|);
      RankIndexMonotone(50, 75, |prices|);
      RankIndexInRange(75, |prices|);
      ComputePercentiles(prices, 25, 50, 75)
  }

  lemma MulMonotone(p: int, q: int, n: nat)
    requires p <= q
    ensures p * n <= q * n
  {
    MulNonNegative(q - p, n);
    assert q * n - p * n == (q - p) * n;
  }

  lemma MulNonNegative(x: int, n: nat)
    requires x >= 0
    ensures x * n >= 0
  {
  }

  /** For a percentile between 0 and 100 the rank position lies inside a
      non-empty list, so the percentile is one of the prices. */
  lemma RankIndexInRange(p: int, n: nat)
    requires 0 <= p <= 100 && n > 0
    ensures RankIndex(p, n) < n
  {
    MulMonotone(p, 100, n);
  }

  lemma NearestRankIsPrice(prices: seq<int>, p: int)
    requires prices != [] && 0 <= p <= 100
    ensures NearestRank(prices, p) in prices
  {
    RankIndexInRange(p, |prices|);
    var sorted := Ascending(prices);
    assert sorted[RankIndex(p, |prices|)] in multiset(prices);
  }

  /** A higher percentile never sits at a lower position. */
  lemma RankIndexMonotone(p: int, q: int, n: nat)
    requires p <= q
    ensures RankIndex(p, n) <= RankIndex(q, n)
  {
    MulMonotone(p, q, n);
  }

  /** The default percentiles are prices of the list, in order:
      p25 <= p50 <= p75; with no prices all three are 0. */
  lemma DefaultPercentilesOrdered(prices: seq<int>)
    ensures var r := DefaultPercentiles(prices);
      && r.p25 <= r.p50 <= r.p75
      && (prices == [] ==> r == Percentiles(0, 0, 0))
      && (prices != [] ==> r.p25 in prices && r.p50 in prices && r.p75 in prices)
  {
    if prices != [] {
      var n := |prices|;
      RankIndexMonotone(25, 50, n);
      RankIndexMonotone(50, 75, n);
      RankIndexInRange(75, n);
      NearestRankIsPrice(prices, 25);
      NearestRankIsPrice(prices, 50);
      NearestRankIsPrice(prices, 75);
    }
  }

  /** In an ascending list, at least `idx + 1` elements are at or below the
      element at `idx`. */
  lemma SortedAtMost(sorted: seq<int>, idx: nat)
    requires idx < |sorted|
    requires forall i, j :: 0 <= i < j < |sorted| ==> sorted[i] <= sorted[j]
    ensures |Filter(sorted, (x: int) => x <= sorted[idx])| >= idx + 1
  {
    FilterKeepsPrefix(sorted, (x: int) => x <= sorted[idx], idx + 1);
  }

  /** In an ascending list, at most `idx` elements are strictly below the
      element at `idx`. */
  lemma SortedBelow(sorted: seq<int>, idx: nat)
    requires idx < |sorted|
    requires forall i, j :: 0 <= i < j < |sorted| ==> sorted[i] <= sorted[j]
    ensures |Filter(sorted, (x: int) => x < sorted[idx])| <= idx
  {
    FilterWithinPrefix(sorted, (x: int) => x < sorted[idx], idx);
  }

  /** The nearest-rank value `v` is characterised without sorting: at least
      `p` percent of the prices are at or below `v`, and fewer than `p`
      percent are strictly below it. */
  lemma NearestRankCharacterised(prices: seq<int>, p: int)
    requires prices != [] && 0 < p <= 100
    ensures var v := NearestRank(prices, p);
      && |Filter(prices, (x: int) => x <= v)| * 100 >= p * |prices|
      && |Filter(prices, (x: int) => x < v)| * 100 < p * |prices|
  {
    var n := |prices|;
    var sorted := Ascending(prices);
    var idx := RankIndex(p, n);
    RankIndexInRange(p, n);
    var v := sorted[idx];
    SortedAtMost(sorted, idx);
    SortedBelow(sorted, idx);
    FilterPermutation(sorted, prices, (x: int) => x <= v);
    FilterPermutation(sorted, prices, (x: int) => x < v);
    MulAtLeast(p, n);
  }

  /** Prices already in ascending order are left as they are by the sort. */
  lemma AscendingOfSorted(prices: seq<int>)
    requires forall i, j :: 0 <= i < j < |prices| ==> prices[i] <= prices[j]
    ensures Ascending(prices) == prices
  {
    assert SortedBy(prices, PriceKey);
    SortBySorted(prices, PriceKey);
  }

  /** Of four prices given in ascending order (such as 100, 200, 300 and
      400), the 25th, 50th and 75th percentiles are the first three. */
  lemma PercentilesOfFour(a: int, b: int, c: int, d: int)
    requires a <= b <= c <= d
    ensures DefaultPercentiles([a, b, c, d]) == Percentiles(a, b, c)
  {
    var prices := [a, b, c, d];
    forall i, j | 0 <= i < j < |prices| ensures prices[i] <= prices[j] {
      assert i == 0 || i == 1 || i == 2;
      assert j == 1 || j == 2 || j == 3;
    }
    AscendingOfSorted(prices);
    assert RankIndex(25, 4) == 0 && RankIndex(50, 4) == 1 && RankIndex(75, 4) == 2;
  }

  // ---------------------------------------------------------- timeseries

  datatype TimeseriesPoint = TimeseriesPoint(hour: string, avgPrice: int, medianPrice: real, count: nat)

  /** The hour key of every row, in row order; `hourKey` stands for the
      local-time formatting of `ts`. */
  function HoursOf(rows: seq<ExposureRow>, hourKey: int -> string): (hours: seq<string>)
    ensures |hours| == |rows|
    ensures forall i :: 0 <= i < |rows| ==> hours[i] == hourKey(rows[i].ts)
  {
    if rows == [] then []
    else HoursOf(rows[..|rows| - 1], hourKey) + [hourKey(rows[|rows| - 1].ts)]
  }

  /** The prices of the rows in hour `h`, in row order. */
  function PricesIn(rows: seq<ExposureRow>, hourKey: int -> string, h: string): (prices: seq<int>)
    ensures |prices| == Count(HoursOf(rows, hourKey), h)
  {
    if rows == [] then []
    else
      var last := rows[|rows| - 1];
      var init := rows[..|rows| - 1];
      CountSnoc(HoursOf(init, hourKey), hourKey(last.ts), h);
      PricesIn(init, hourKey, h) + (if hourKey(last.ts) == h then [last.priceKrw] else [])
  }

  /** The middle price of an ascending list, or the mean of the two middle
      prices when the length is even. */
  function Median(sorted: seq<int>): (m: real)
    requires sorted != []
    ensures 2.0 * m == (sorted[(|sorted| - 1) / 2] + sorted[|sorted| / 2]) as real
  {
    var mid := |sorted| / 2;
    if |sorted| % 2 == 1 then sorted[mid] as real
    else (sorted[mid - 1] + sorted[mid]) as real / 2.0
  }

  /** `Math.round(sum / n)`: the nearest integer, halves rounded up. */
  function RoundedMean(prices: seq<int>): (avg: int)
    requires prices != []
    ensures 2 * |prices| * avg - |prices| <= 2 * Sum(prices, (x: int) => x) < 2 * |prices| * avg + |prices|
  {
    (2 * Sum(prices, (x: int) => x) + |prices|) / (2 * |prices|)
  }

  function PointOf(hour: string, prices: seq<int>): (pt: TimeseriesPoint)
    requires prices != []
    ensures pt.hour == hour && pt.count == |prices|
    ensures Min(prices) <= pt.avgPrice <= Max(prices)
    ensures Min(prices) as real <= pt.medianPrice <= Max(prices) as real
  {
    RoundedMeanBetween(prices);
    MedianBetween(prices);
    TimeseriesPoint(hour, RoundedMean(prices), Median(Ascending(prices)), |prices|)
  }

  /** The hours with rows, ascending. */
  function SeriesHours(rows: seq<ExposureRow>, hourKey: int -> string): seq<string> {
    SortStrings(Dedup(HoursOf(rows, hourKey)))
  }

  /** The timeseries the code promises: one point per hour with rows, hours
      ascending, each summarising that hour's prices in row order. */
  function Timeseries(rows: seq<ExposureRow>, hourKey: int -> string): seq<TimeseriesPoint> {
    var hours := SeriesHours(rows, hourKey);
    seq(|hours|, i requires 0 <= i < |hours| =>
      HourHasRows(rows, hourKey, hours[i]);
      PointOf(hours[i], PricesIn(rows, hourKey, hours[i])))
  }

  lemma HourHasRows(rows: seq<ExposureRow>, hourKey: int -> string, h: string)
    requires h in SeriesHours(rows, hourKey)
    ensures PricesIn(rows, hourKey, h) != []
  {
    assert h in multiset(SeriesHours(rows, hourKey));
  }

  lemma PricesInSnoc(rows: seq<ExposureRow>, i: nat, hourKey: int -> string, h: string)
    requires i < |rows|
    ensures PricesIn(rows[..i + 1], hourKey, h) ==
      PricesIn(rows[..i], hourKey, h) + (if hourKey(rows[i].ts) == h then [rows[i].priceKrw] else [])
    ensures HoursOf(rows[..i + 1], hourKey) == HoursOf(rows[..i], hourKey) + [hourKey(rows[i].ts)]
  {
    assert rows[..i + 1][..i] == rows[..i];
  }

  /** `m` after pushing `x` onto the list of key `k`, the list created empty
      when `k` is new. */
  function Pushed(m: map<string, seq<int>>, k: string, x: int): (r: map<string, seq<int>>)
    ensures k in r && r[k] != [] && r[k][|r[k]| - 1] == x
    ensures forall h :: h in r <==> h in m || h == k
  {
    m[k := (if k in m then m[k] else []) + [x]]
  }

  /** The map the grouping loop has built after the rows `rows`. */
  function Grouped(rows: seq<ExposureRow>, hourKey: int -> string): map<string, seq<int>> {
    if rows == [] then map[]
    else
      var last := rows[|rows| - 1];
      Pushed(Grouped(rows[..|rows| - 1], hourKey), hourKey(last.ts), last.priceKrw)
  }

  /** One row added to the grouping keeps the map equal to the prices per
      hour of the rows seen so far. */
  lemma GroupStep(rows: seq<ExposureRow>, i: nat, hourKey: int -> string, m: map<string, seq<int>>)
    requires i < |rows|
    requires forall h :: h in m <==> h in HoursOf(rows[..i], hourKey)
    requires forall h :: h in m ==> m[h] == PricesIn(rows[..i], hourKey, h)
    ensures forall h :: h in Pushed(m, hourKey(rows[i].ts), rows[i].priceKrw) <==> h in HoursOf(rows[..i + 1], hourKey)
    ensures forall h :: h in Pushed(m, hourKey(rows[i].ts), rows[i].priceKrw) ==>
      Pushed(m, hourKey(rows[i].ts), rows[i].priceKrw)[h] == PricesIn(rows[..i + 1], hourKey, h)
  {
    var k := hourKey(rows[i].ts);
    var next := Pushed(m, k, rows[i].priceKrw);
    PricesInSnoc(rows, i, hourKey, k);
    forall h | h in next ensures next[h] == PricesIn(rows[..i + 1], hourKey, h) {
      PricesInSnoc(rows, i, hourKey, h);
      if h != k {
        ConcatEmpty(PricesIn(rows[..i], hourKey, h));
      } else if k !in m {
        assert PricesIn(rows[..i], hourKey, k) == [];
      }
    }
  }

  /** The grouping holds exactly the hours of the rows, each with the
      prices of its rows in row order. */
  lemma {:induction false} GroupedMeaning(rows: seq<ExposureRow>, hourKey: int -> string)
    ensures forall h :: h in Grouped(rows, hourKey) <==> h in HoursOf(rows, hourKey)
    ensures forall h :: h in Grouped(rows, hourKey) ==> Grouped(rows, hourKey)[h] == PricesIn(rows, hourKey, h)
  {
    if rows != [] {
      var i := |rows| - 1;
      GroupedMeaning(rows[..i], hourKey);
      GroupStep(rows, i, hourKey, Grouped(rows[..i], hourKey));
      assert rows[..i + 1] == rows;
    }
  }

  /** The grouping loop of `computeTimeseries`: push each row's price onto
      the list of its hour, creating the hour on first sight. */
  method GroupByHour(rows: seq<ExposureRow>, hourKey: int -> string)
    returns (byHour: map<string, seq<int>>, order: seq<string>)
    ensures order == Dedup(HoursOf(rows, hourKey))
    ensures forall h :: h in byHour <==> h in order
    ensures forall h :: h in byHour ==> byHour[h] == PricesIn(rows, hourKey, h)
  {
    byHour := map[];
    order := [];
    var i := 0;
    while i < |rows|
      invariant 0 <= i <= |rows|
      invariant byHour == Grouped(rows[..i], hourKey)
      invariant order == Dedup(HoursOf(rows[..i], hourKey))
    {
      var hour := hourKey(rows[i].ts);
      ghost var seen := HoursOf(rows[..i], hourKey);
      assert rows[..i + 1][..i] == rows[..i];
      assert Grouped(rows[..i + 1], hourKey) == Pushed(byHour, hour, rows[i].priceKrw);
      PricesInSnoc(rows, i, hourKey, hour);
      GroupedMeaning(rows[..i], hourKey);
      DedupSnoc(seen, hour);
      assert hour in byHour <==> hour in Dedup(seen);
      if hour !in byHour {
        order := order + [hour];
      }
      byHour := Pushed(byHour, hour, rows[i].priceKrw);
      i := i + 1;
    }
    assert rows[..i] == rows;
    GroupedMeaning(rows, hourKey);
  }

  /** One point per hour of `hours`, summarising that hour's prices in
      `byHour`. */
  function PointsFrom(hours: seq<string>, byHour: map<string, seq<int>>): (points: seq<TimeseriesPoint>)
    requires forall j :: 0 <= j < |hours| ==> hours[j] in byHour && byHour[hours[j]] != []
    ensures |points| == |hours|
    ensures forall j :: 0 <= j < |hours| ==> points[j] == PointOf(hours[j], byHour[hours[j]])
  {
    seq(|hours|, j requires 0 <= j < |hours| => PointOf(hours[j], byHour[hours[j]]))
  }

  /** Summarising the grouped prices hour by hour, in the series' hour
      order, gives the timeseries. */
  lemma PointsFromGrouping(rows: seq<ExposureRow>, hourKey: int -> string, byHour: map<string, seq<int>>)
    requires forall h :: h in byHour <==> h in HoursOf(rows, hourKey)
    requires forall h :: h in byHour ==> byHour[h] == PricesIn(rows, hourKey, h)
    ensures forall j :: 0 <= j < |SeriesHours(rows, hourKey)| ==>
      SeriesHours(rows, hourKey)[j] in byHour && byHour[SeriesHours(rows, hourKey)[j]] != []
    ensures PointsFrom(SeriesHours(rows, hourKey), byHour) == Timeseries(rows, hourKey)
  {
    var hours := SeriesHours(rows, hourKey);
    forall j | 0 <= j < |hours| ensures hours[j] in byHour && byHour[hours[j]] == PricesIn(rows, hourKey, hours[j]) != [] {
      assert hours[j] in multiset(Dedup(HoursOf(rows, hourKey)));
      HourHasRows(rows, hourKey, hours[j]);
    }
    var points := PointsFrom(hours, byHour);
    var spec := Timeseries(rows, hourKey);
    forall j | 0 <= j < |hours| ensures points[j] == spec[j] {
      HourHasRows(rows, hourKey, hours[j]);
    }
  }

  /** `computeTimeseries`: group the prices by hour, then list the hours in
      string order with the rounded mean, median and count of their prices.
      The result is the timeseries of the rows. */
  method ComputeTimeseries(rows: seq<ExposureRow>, hourKey: int -> string) returns (points: seq<TimeseriesPoint>)
    ensures points == Timeseries(rows, hourKey)
  {
    var byHour, order := GroupByHour(rows, hourKey);
    var hours := SortStrings(order);
    PointsFromGrouping(rows, hourKey, byHour);
    points := PointsFrom(hours, byHour);
  }

  /** The prices lie between `lo` and `hi`, so their sum lies between
      `lo` and `hi` times their number. */
  lemma {:induction false} SumBetween(prices: seq<int>, lo: int, hi: int)
    requires forall i :: 0 <= i < |prices| ==> lo <= prices[i] <= hi
    ensures lo * |prices| <= Sum(prices, (x: int) => x) <= hi * |prices|
  {
    if prices != [] {
      var rest := prices[1..];
      assert forall i :: 0 <= i < |rest| ==> rest[i] == prices[i + 1];
      SumBetween(rest, lo, hi);
      assert lo * |prices| == lo * |rest| + lo;
      assert hi * |prices| == hi * |rest| + hi;
    }
  }

  /** A value within half a unit of a mean of values in `[lo, hi]` lies in
      `[lo, hi]` when it is an integer. */
  lemma RoundedBetween(sum: int, n: int, avg: int, lo: int, hi: int)
    requires n > 0
    requires lo * n <= sum <= hi * n
    requires 2 * n * avg - n <= 2 * sum < 2 * n * avg + n
    ensures lo <= avg <= hi
  {
    assert 2 * n * avg == 2 * (avg * n);
    assert (avg + 1) * n == avg * n + n;
    assert (hi + 1) * n == hi * n + n;
    if avg < lo {
      MulMonotone(avg + 1, lo, n);
    }
    if avg > hi {
      MulMonotone(hi + 1, avg, n);
    }
  }

  /** The rounded mean of an hour lies between its cheapest and dearest
      price. */
  lemma RoundedMeanBetween(prices: seq<int>)
    requires prices != []
    ensures Min(prices) <= RoundedMean(prices) <= Max(prices)
  {
    SumBetween(prices, Min(prices), Max(prices));
    RoundedBetween(Sum(prices, (x: int) => x), |prices|, RoundedMean(prices), Min(prices), Max(prices));
  }

  lemma MemberBetween(prices: seq<int>, x: int)
    requires x in multiset(prices)
    ensures Min(prices) <= x <= Max(prices)
  {
    var k :| 0 <= k < |prices| && prices[k] == x;
  }

  /** The median of an hour lies between its cheapest and dearest price. */
  lemma MedianBetween(prices: seq<int>)
    requires prices != []
    ensures Min(prices) as real <= Median(Ascending(prices)) <= Max(prices) as real
  {
    var sorted := Ascending(prices);
    var mid := |sorted| / 2;
    var lo, hi := Min(prices), Max(prices);
    MemberBetween(prices, sorted[mid]);
    if |sorted| % 2 == 0 {
      MemberBetween(prices, sorted[mid - 1]);
      var a, b := sorted[mid - 1], sorted[mid];
      assert Median(sorted) == (a + b) as real / 2.0;
      assert (lo + lo) as real / 2.0 <= (a + b) as real / 2.0 <= (hi + hi) as real / 2.0;
    }
  }

  /** An odd number of prices has its middle price as median; an even
      number the mean of the two middle ones. */
  lemma MedianExample()
    ensures Median([100, 200, 300]) == 200.0
    ensures Median([100, 200]) == 150.0
  {
  }

  /** The hours of the points, in order. */
  function PointHours(points: seq<TimeseriesPoint>): (hours: seq<string>)
    ensures |hours| == |points|
    ensures forall i :: 0 <= i < |points| ==> hours[i] == points[i].hour
  {
    seq(|points|, i requires 0 <= i < |points| => points[i].hour)
  }

  lemma SeriesHoursOfTimeseries(rows: seq<ExposureRow>, hourKey: int -> string)
    ensures PointHours(Timeseries(rows, hourKey)) == SeriesHours(rows, hourKey)
  {
    var points := Timeseries(rows, hourKey);
    var hours := SeriesHours(rows, hourKey);
    assert |points| == |hours|;
    forall i | 0 <= i < |hours| ensures points[i].hour == hours[i] {
      HourHasRows(rows, hourKey, hours[i]);
    }
  }

  /** The series lists each hour that has rows exactly once, in ascending
      string order, and no other hour. */
  lemma TimeseriesHours(rows: seq<ExposureRow>, hourKey: int -> string)
    ensures |Timeseries(rows, hourKey)| == |Dedup(HoursOf(rows, hourKey))|
    ensures StrictlyAscending(PointHours(Timeseries(rows, hourKey)))
    ensures forall h :: h in PointHours(Timeseries(rows, hourKey)) <==> h in HoursOf(rows, hourKey)
  {
    var all := HoursOf(rows, hourKey);
    var hours := SeriesHours(rows, hourKey);
    SeriesHoursOfTimeseries(rows, hourKey);
    SortStringsAscending(Dedup(all));
    assert |multiset(hours)| == |multiset(Dedup(all))|;
  }

  /** A row's hour is in the series. */
  lemma RowHourInSeries(rows: seq<ExposureRow>, hourKey: int -> string, k: nat)
    requires k < |rows|
    ensures hourKey(rows[k].ts) in PointHours(Timeseries(rows, hourKey))
  {
    TimeseriesHours(rows, hourKey);
    assert HoursOf(rows, hourKey)[k] in HoursOf(rows, hourKey);
  }

  /** Every point counts the rows of its hour, at least one. */
  lemma TimeseriesCount(rows: seq<ExposureRow>, hourKey: int -> string, i: nat)
    requires i < |Timeseries(rows, hourKey)|
    ensures Timeseries(rows, hourKey)[i].count == Count(HoursOf(rows, hourKey), Timeseries(rows, hourKey)[i].hour) >= 1
  {
    var hours := SeriesHours(rows, hourKey);
    SeriesHoursOfTimeseries(rows, hourKey);
    HourHasRows(rows, hourKey, hours[i]);
  }

  function PointCount(p: TimeseriesPoint): int {
    p.count
  }

  function PointHour(p: TimeseriesPoint): string {
    p.hour
  }

  /** Points with distinct hours, one for every hour of `all`, each counting
      its hour's occurrences, have counts adding up to `|all|`. */
  lemma PointCountsTotal(all: seq<string>, points: seq<TimeseriesPoint>)
    requires forall i :: 0 <= i < |points| ==> points[i].count == Count(all, points[i].hour)
    requires StrictlyAscending(PointHours(points))
    requires forall h :: h in all ==> h in PointHours(points)
    ensures Sum(points, PointCount) == |all|
  {
    var hs := PointHours(points);
    forall i, j | 0 <= i < j < |points| ensures points[i].hour != points[j].hour {
      BelowIrreflexive(hs[i]);
    }
    forall x | x in all ensures exists i :: 0 <= i < |points| && PointHour(points[i]) == x {
      var i :| 0 <= i < |hs| && hs[i] == x;
      assert PointHour(points[i]) == x;
    }
    TallyConserves(all, points, PointHour, PointCount);
  }

  /** The counts of the points add up to the number of rows: each row is
      counted in exactly one point. */
  lemma TimeseriesCountsTotal(rows: seq<ExposureRow>, hourKey: int -> string)
    ensures Sum(Timeseries(rows, hourKey), PointCount) == |rows|
  {
    var points := Timeseries(rows, hourKey);
    var all := HoursOf(rows, hourKey);
    TimeseriesHours(rows, hourKey);
    forall i | 0 <= i < |points| ensures points[i].count == Count(all, points[i].hour) {
      TimeseriesCount(rows, hourKey, i);
    }
    PointCountsTotal(all, points);
  }

  /** Every point summarises the prices of its hour: the rounded mean and
      the median lie between the hour's cheapest and dearest price. */
  lemma TimeseriesSummaries(rows: seq<ExposureRow>, hourKey: int -> string, i: nat)
    requires i < |Timeseries(rows, hourKey)|
    ensures PricesIn(rows, hourKey, Timeseries(rows, hourKey)[i].hour) != []
    ensures Min(PricesIn(rows, hourKey, Timeseries(rows, hourKey)[i].hour)) <= Timeseries(rows, hourKey)[i].avgPrice
      <= Max(PricesIn(rows, hourKey, Timeseries(rows, hourKey)[i].hour))
    ensures Min(PricesIn(rows, hourKey, Timeseries(rows, hourKey)[i].hour)) as real <= Timeseries(rows, hourKey)[i].medianPrice
      <= Max(PricesIn(rows, hourKey, Timeseries(rows, hourKey)[i].hour)) as real
  {
    var hours := SeriesHours(rows, hourKey);
    SeriesHoursOfTimeseries(rows, hourKey);
    HourHasRows(rows, hourKey, hours[i]);
    RoundedMeanBetween(PricesIn(rows, hourKey, hours[i]));
    MedianBetween(PricesIn(rows, hourKey, hours[i]));
  }
}
