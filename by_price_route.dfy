/** `GET /api/exposures/by-price` (`app/api/exposures/by-price/route.ts`):
    the latest exposures at one exact price, bucketed by hour, with their
    distance from an optional anchor price. */
module ByPriceRoute {
  import opened Seqs
  import opened Sorting
  import opened Validators
  import opened Query
  import opened Metrics
  import opened Responses

  datatype HourBin = HourBin(hour: string, count: nat)

  /** The projection of a row listed under `events`. */
  datatype Event = Event(ts: int, channel: string, resultRank: int, searchId: string, sessionId: string)

  datatype ByPriceResponse = ByPriceResponse(
    priceKRW: int,
    total: nat,
    hourBins: seq<HourBin>,
    events: seq<Event>,
    anchorPrice: Option<int>,
    diffFromAnchor: Option<int>,
    diffPct: Option<real>)

  /** The hour bins the route promises: each hour that has rows, ascending,
      with its number of rows. `hourKey` stands for the local-time
      "yyyy-MM-dd HH:00" formatting of the start of the row's hour. */
  function HourBins(rows: seq<ExposureRow>, hourKey: int -> string): (bins: seq<HourBin>)
    ensures |bins| == |SeriesHours(rows, hourKey)|
    ensures forall i :: 0 <= i < |bins| ==> bins[i].hour == SeriesHours(rows, hourKey)[i]
  {
    var hours := SeriesHours(rows, hourKey);
    seq(|hours|, i requires 0 <= i < |hours| => HourBin(hours[i], Count(HoursOf(rows, hourKey), hours[i])))
  }

  /** The counting loop of `buildHourBins`: `map.set(key, (map.get(key) ?? 0) + 1)`
      for each row, and the key order of the Map it fills. */
  method CountByHour(rows: seq<ExposureRow>, hourKey: int -> string) returns (counts: map<string, nat>, order: seq<string>)
    ensures order == Dedup(HoursOf(rows, hourKey))
    ensures forall h :: h in counts <==> h in order
    ensures forall h :: h in counts ==> counts[h] == Count(HoursOf(rows, hourKey), h)
  {
    counts := map[];
    order := [];
    var i := 0;
    while i < |rows|
      invariant 0 <= i <= |rows|
      invariant counts == Tally(HoursOf(rows[..i], hourKey))
      invariant order == Dedup(HoursOf(rows[..i], hourKey))
    {
      ghost var seen := HoursOf(rows[..i], hourKey);
      var key := hourKey(rows[i].ts);
      PricesInSnoc(rows, i, hourKey, key);
      TallySnoc(seen, key);
      DedupSnoc(seen, key);
      TallyMeaning(seen);
      assert key in counts <==> key in Dedup(seen);
      if key !in counts {
        order := order + [key];
      }
      counts := Bump(counts, key);
      i := i + 1;
    }
    assert rows[..i] == rows;
    TallyMeaning(HoursOf(rows, hourKey));
  }

  /** `buildHourBins`: count the rows per hour key in a Map, then list the
      entries sorted by key. */
  method BuildHourBins(rows: seq<ExposureRow>, hourKey: int -> string) returns (bins: seq<HourBin>)
    ensures bins == HourBins(rows, hourKey)
  {
    var counts, order := CountByHour(rows, hourKey);
    var hours := SortStrings(order);
    forall j | 0 <= j < |hours| ensures hours[j] in counts {
      assert hours[j] in multiset(order);
    }
    bins := seq(|hours|, j requires 0 <= j < |hours| => HourBin(hours[j], counts[hours[j]]));
    ghost var spec := HourBins(rows, hourKey);
    assert |bins| == |spec|;
    forall j | 0 <= j < |bins| ensures bins[j] == spec[j] {
    }
  }

  /** The hours of the bins, in order. */
  function BinHours(bins: seq<HourBin>): (hours: seq<string>)
    ensures |hours| == |bins|
    ensures forall i :: 0 <= i < |bins| ==> hours[i] == bins[i].hour
  {
    seq(|bins|, i requires 0 <= i < |bins| => bins[i].hour)
  }

  /** The bins list each hour that has rows once, in ascending order, and
      no other hour; each bin counts the rows of its hour, at least one. */
  lemma HourBinsShape(rows: seq<ExposureRow>, hourKey: int -> string)
    ensures StrictlyAscending(BinHours(HourBins(rows, hourKey)))
    ensures forall h :: h in BinHours(HourBins(rows, hourKey)) <==> h in HoursOf(rows, hourKey)
    ensures forall i :: 0 <= i < |HourBins(rows, hourKey)| ==>
      HourBins(rows, hourKey)[i].count == Count(HoursOf(rows, hourKey), HourBins(rows, hourKey)[i].hour) >= 1
  {
    var all := HoursOf(rows, hourKey);
    var bins := HourBins(rows, hourKey);
    var hours := SeriesHours(rows, hourKey);
    SortStringsAscending(Dedup(all));
    assert BinHours(bins) == hours;
    forall i | 0 <= i < |bins| ensures bins[i].count == Count(all, bins[i].hour) >= 1 {
      assert hours[i] in multiset(hours);
    }
  }

  /** The bin counts add up to `total`: every row is in exactly one bin. */
  lemma HourBinsTotal(rows: seq<ExposureRow>, hourKey: int -> string)
    ensures Sum(HourBins(rows, hourKey), (b: HourBin) => b.count) == |rows|
  {
    var all := HoursOf(rows, hourKey);
    var bins := HourBins(rows, hourKey);
    var hs := BinHours(bins);
    HourBinsShape(rows, hourKey);
    forall i, j | 0 <= i < j < |bins| ensures bins[i].hour != bins[j].hour {
      BelowIrreflexive(hs[i]);
    }
    forall x | x in all ensures exists i :: 0 <= i < |bins| && bins[i].hour == x {
      var i :| 0 <= i < |hs| && hs[i] == x;
      assert bins[i].hour == x;
    }
    TallyConserves(all, bins, (b: HourBin) => b.hour, (b: HourBin) => b.count);
  }

  /** `rows.map((r) => ({ ts, channel, result_rank, search_id, session_id }))`. */
  function Events(rows: seq<ExposureRow>): (events: seq<Event>)
    ensures |events| == |rows|
    ensures forall i :: 0 <= i < |rows| ==>
      events[i] == Event(rows[i].ts, rows[i].channel, rows[i].resultRank, rows[i].searchId, rows[i].sessionId)
  {
    seq(|rows|, i requires 0 <= i < |rows| =>
      Event(rows[i].ts, rows[i].channel, rows[i].resultRank, rows[i].searchId, rows[i].sessionId))
  }

  /** `n / d` rounded to the nearest integer, halves away from zero, as
      `toFixed` rounds. */
  function RoundHalfAway(n: int, d: int): (r: int)
    requires d > 0
    ensures 2 * d * r - d <= 2 * n <= 2 * d * r + d
    ensures n >= 0 ==> r >= 0
    ensures n <= 0 ==> r <= 0
  {
    if n >= 0 then (2 * n + d) / (2 * d) else -((2 * -n + d) / (2 * d))
  }

  /** `Number((((price - anchor) / anchor) * 100).toFixed(2))`: the
      difference in percent of the anchor, a whole number of hundredths of a
      percent; a non-zero value has the sign of the difference, and an equal
      price gives exactly zero. */
  function DiffPct(price: int, anchor: int): (pct: real)
    requires anchor > 0
    ensures (100.0 * pct).Floor as real == 100.0 * pct
    ensures pct > 0.0 ==> price > anchor
    ensures pct < 0.0 ==> price < anchor
    ensures price == anchor ==> pct == 0.0
  {
    var r := RoundHalfAway(10000 * (price - anchor), anchor);
    assert 100.0 * (r as real / 100.0) == r as real;
    r as real / 100.0
  }

  /** The percentage is within half a hundredth of the exact percentage
      `100 * (price - anchor) / anchor`. */
  lemma DiffPctClose(price: int, anchor: int)
    requires anchor > 0
    ensures (DiffPct(price, anchor) - 0.005) * anchor as real <= 100.0 * (price - anchor) as real
    ensures 100.0 * (price - anchor) as real <= (DiffPct(price, anchor) + 0.005) * anchor as real
  {
    var n := 10000 * (price - anchor);
    var r := RoundHalfAway(n, anchor);
    var a := anchor as real;
    var x := r as real;
    var d := DiffPct(price, anchor);
    assert d == x / 100.0;
    assert 2 * anchor * r - anchor <= 2 * n <= 2 * anchor * r + anchor;
    assert (2 * anchor * r - anchor) as real == (2.0 * x - 1.0) * a;
    assert (2 * anchor * r + anchor) as real == (2.0 * x + 1.0) * a;
    assert 100.0 * (price - anchor) as real == (2 * n) as real / 200.0;
    assert (d - 0.005) * a == (2.0 * x - 1.0) * a / 200.0;
    assert (d + 0.005) * a == (2.0 * x + 1.0) * a / 200.0;
  }

  /** The input of `fetchExposuresByPrice` built from the parsed query. */
  function InputOf(q: ByPriceQuery): (input: ByPriceInput)
    ensures input.priceKRW == q.priceKRW && input.period == q.period && input.channel == q.channel
    ensures input.airline == Some(q.airline) && input.origin == Some(q.origin)
    ensures input.dest == Some(q.dest) && input.tripType == Some(q.tripType)
  {
    ByPriceInput(q.priceKRW, q.period, Some(q.airline), Some(q.origin), Some(q.dest), Some(q.tripType), q.channel)
  }

  /** The handler. A rejected query string gives 400 with the validation
      error's message, a store error 500 with the thrown error's message, or "Bad request" when
      what was thrown is not an `Error`. The body
      lists the rows fetched for the price: their number, their hour bins,
      one event per row in row order; the three anchor fields are added
      exactly when an anchor above 0 was supplied. */
  method Get(params: Params, store: Store, now: int, hourKey: int -> string, errorMessage: seq<Issue> -> string)
    returns (r: Response<ByPriceResponse>)
    ensures r.Fail? && r.status == BadRequest <==> ParseByPriceQuery(params).Failure?
    ensures r.Fail? && r.status == ServerError <==> ParseByPriceQuery(params).Success? && store.Unavailable?
    ensures r.Fail? ==> r.status == BadRequest || r.status == ServerError
    ensures r.Fail? && r.status == ServerError ==>
      r.error == if store.thrown.ErrorInstance? then store.thrown.message else "Bad request"
    ensures r.Fail? && r.status == BadRequest ==> r.error == errorMessage(ParseByPriceQuery(params).error)
    ensures r.Ok? ==> ParseByPriceQuery(params).Success? && store.Healthy?
    ensures r.Ok? ==>
      var q := ParseByPriceQuery(params).value;
      var rows := FetchExposuresByPrice(store, InputOf(q), now).value;
      && r.body.priceKRW == q.priceKRW
      && r.body.total == |rows| <= ByPriceLimit
      && r.body.hourBins == HourBins(rows, hourKey)
      && r.body.events == Events(rows)
      && (r.body.anchorPrice.Some? <==> q.anchorPrice.Some? && q.anchorPrice.value > 0)
      && (r.body.diffFromAnchor.Some? <==> r.body.anchorPrice.Some?)
      && (r.body.diffPct.Some? <==> r.body.anchorPrice.Some?)
      && (r.body.anchorPrice.Some? ==>
        && r.body.anchorPrice == q.anchorPrice
        && r.body.diffFromAnchor.value == q.priceKRW - q.anchorPrice.value
        && r.body.diffPct.value == DiffPct(q.priceKRW, q.anchorPrice.value))
  {
    var parsed := ParseByPriceQuery(params);
    if parsed.Failure? {
      r := Fail(BadRequest, errorMessage(parsed.error));
      return;
    }
    var q := parsed.value;
    var fetched := FetchExposuresByPrice(store, InputOf(q), now);
    if fetched.Failure? {
      r := Fail(ServerError, CaughtMessage(fetched.error));
      return;
    }
    var rows := fetched.value;
    var hourBins := BuildHourBins(rows, hourKey);
    var response := ByPriceResponse(q.priceKRW, |rows|, hourBins, Events(rows), None, None, None);
    if q.anchorPrice.Some? && q.anchorPrice.value > 0 {
      var anchor := q.anchorPrice.value;
      response := response.(
        anchorPrice := Some(anchor),
        diffFromAnchor := Some(q.priceKRW - anchor),
        diffPct := Some(DiffPct(q.priceKRW, anchor)));
    }
    r := Ok(response);
  }
}
