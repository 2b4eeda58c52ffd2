/** `GET /api/exposures/summary` (`app/api/exposures/summary/route.ts`):
    the totals, percentiles, anchor price and mode bin of the filtered
    exposures. */
module SummaryRoute {
  import opened Seqs
  import opened Text
  import opened Validators
  import opened Query
  import opened Metrics
  import opened Responses

  /** The mode bin is always taken from a histogram of this bin width,
      whatever `binSize` the request carries. */
  const ModeBinWidth := 50000

  datatype Summary = Summary(
    totalExposures: nat,
    uniqueSessions: nat,
    p25: int,
    p50: int,
    p75: int,
    anchorPrice: int,
    modeBin: Option<HistogramBin>)

  /** `rows.map((r) => r.session_id)`. */
  function SessionIds(rows: seq<ExposureRow>): (ids: seq<string>)
    ensures |ids| == |rows|
    ensures forall i :: 0 <= i < |rows| ==> ids[i] == rows[i].sessionId
  {
    seq(|rows|, i requires 0 <= i < |rows| => rows[i].sessionId)
  }

  /** The body built from the fetched rows. */
  function SummaryOf(rows: seq<ExposureRow>): (s: Summary)
    ensures s.totalExposures == |rows|
    ensures s.anchorPrice == s.p50
    ensures s.uniqueSessions <= s.totalExposures
    ensures rows == [] ==> s == Summary(0, 0, 0, 0, 0, 0, None)
  {
    var prices := Prices(rows);
    var pct := DefaultPercentiles(prices);
    var modeBin := ModeBin(Histogram(prices, ModeBinWidth));
    Summary(|rows|, |Dedup(SessionIds(rows))|, pct.p25, pct.p50, pct.p75, pct.p50, modeBin)
  }

  /** `new Set(rows.map((r) => r.session_id)).size`: the number of distinct
      session ids among the rows. */
  lemma UniqueSessionsCounted(rows: seq<ExposureRow>)
    ensures SummaryOf(rows).uniqueSessions == |set i | 0 <= i < |rows| :: rows[i].sessionId|
    ensures rows != [] ==> SummaryOf(rows).uniqueSessions >= 1
  {
    var ids := SessionIds(rows);
    DedupSetSize(ids);
    assert Elements(ids) == set i | 0 <= i < |rows| :: rows[i].sessionId by {
      forall x | x in Elements(ids) ensures x in set i | 0 <= i < |rows| :: rows[i].sessionId {
        var i :| 0 <= i < |ids| && ids[i] == x;
      }
    }
    if rows != [] {
      assert ids[0] in Dedup(ids);
    }
  }

  /** The anchor price is the median in the nearest-rank sense: a price of
      the rows such that at least half of the prices are at or below it and
      fewer than half are below it; and p25 <= anchor <= p75. */
  lemma AnchorIsMedian(rows: seq<ExposureRow>)
    requires rows != []
    ensures var s := SummaryOf(rows);
      && s.anchorPrice in Prices(rows)
      && 2 * |Filter(Prices(rows), (x: int) => x <= s.anchorPrice)| >= |rows|
      && 2 * |Filter(Prices(rows), (x: int) => x < s.anchorPrice)| < |rows|
      && s.p25 <= s.anchorPrice <= s.p75
  {
    var prices := Prices(rows);
    DefaultPercentilesOrdered(prices);
    NearestRankCharacterised(prices, 50);
  }

  /** The mode bin is present exactly when there are rows. It is a bin of
      width 50000 starting at a multiple of 50000, it holds the largest
      count of the histogram, at least one price, and no more than there
      are rows. */
  lemma ModeBinBounds(rows: seq<ExposureRow>)
    ensures var s := SummaryOf(rows);
      && (s.modeBin.None? <==> rows == [])
      && (s.modeBin.Some? ==>
        && s.modeBin.value.binEnd - s.modeBin.value.binStart == ModeBinWidth
        && s.modeBin.value.binStart % ModeBinWidth == 0
        && 1 <= s.modeBin.value.count <= s.totalExposures
        && forall b :: b in Histogram(Prices(rows), ModeBinWidth) ==> b.count <= s.modeBin.value.count)
  {
    var prices := Prices(rows);
    var h := Histogram(prices, ModeBinWidth);
    HistogramShape(prices, ModeBinWidth);
    if rows != [] {
      ModeBinIsFirstMax(h);
      var k :| FirstMax(h, k) && ModeBin(h) == Some(h[k]);
      assert h[k].count <= |rows| by {
        HistogramCountsTotal(prices, ModeBinWidth);
        TermAtMostSum(h, BinCount, k);
      }
      assert h[k].count >= 1 by {
        HistogramHasEveryPrice(prices, ModeBinWidth, prices[0]);
        var i :| 0 <= i < |h| && h[i].binStart == BinOf(prices[0], ModeBinWidth);
        HistogramCountAt(prices, ModeBinWidth, i);
        assert BinsOf(prices, ModeBinWidth)[0] == h[i].binStart;
      }
    }
  }

  /** The `{ error }` text of a rejected request: the issue messages joined
      by "; ", or the error's own message when that join is empty. */
  function IssuesText(issues: seq<Issue>, describe: Issue -> string, errorMessage: string): (text: string)
    ensures var joined := Join(seq(|issues|, i requires 0 <= i < |issues| => describe(issues[i])), "; ");
      && (joined != [] ==> text == joined)
      && (joined == [] ==> text == errorMessage)
    ensures issues == [] ==> text == errorMessage
    ensures issues != [] && describe(issues[0]) != [] ==>
      |describe(issues[0])| <= |text| && text[..|describe(issues[0])|] == describe(issues[0])
  {
    var joined := Join(seq(|issues|, i requires 0 <= i < |issues| => describe(issues[i])), "; ");
    if joined != [] then joined else errorMessage
  }

  /** The handler: parse the query string, fetch the rows, summarise them.
      `describe` stands for the message zod gives each issue and
      `errorMessage` for the message of the whole validation error. */
  function Get(params: Params, store: Store, now: int, describe: Issue -> string, errorMessage: seq<Issue> -> string): (r: Response<Summary>)
    ensures r.Fail? && r.status == BadRequest <==> ParseExposureQuery(params).Failure?
    ensures r.Fail? && r.status == ServerError <==> ParseExposureQuery(params).Success? && store.Unavailable?
    ensures r.Fail? ==> r.status == BadRequest || r.status == ServerError
    ensures r.Fail? && r.status == ServerError ==>
      r.error == if store.thrown.ErrorInstance? then store.thrown.message else "Bad request"
    ensures r.Fail? && r.status == BadRequest ==>
      r.error == IssuesText(ParseExposureQuery(params).error, describe, errorMessage(ParseExposureQuery(params).error))
    ensures r.Ok? ==> store.Healthy? && r.body.totalExposures <= |store.rows|
    ensures r.Ok? ==> r.body == SummaryOf(FetchFilteredExposures(store, ParseExposureQuery(params).value, now).value)
  {
    match ParseExposureQuery(params)
    case Failure(issues) => Fail(BadRequest, IssuesText(issues, describe, errorMessage(issues)))
    case Success(q) =>
      match FetchFilteredExposures(store, q, now)
      case Failure(err) => Fail(ServerError, CaughtMessage(err))
      case Success(rows) =>
        assert |multiset(rows)| <= |multiset(store.rows)| by {
          SubMultisetSize(multiset(rows), multiset(store.rows));
        }
        Ok(SummaryOf(rows))
  }
}
