/** `GET /api/exposures/price-counts`
    (`app/api/exposures/price-counts/route.ts`): how often each exact price
    was shown, most frequent first, at most 50 prices. */
module PriceCountsRoute {
  import opened Seqs
  import opened Sorting
  import opened Validators
  import opened Query
  import opened Responses

  const MaxItems := 50

  datatype PriceCount = PriceCount(priceKrw: int, count: nat)

  /** The sort key of `.sort((a, b) => b.count - a.count)`: ascending in
      the negated count is descending in the count. */
  function ByCountDescending(item: PriceCount): (k: int)
    ensures k <= 0 && -k == item.count
  {
    -(item.count as int)
  }

  /** The Map's entries in insertion order: each distinct price, in the
      order of its first row, with its number of rows. */
  function Entries(rows: seq<ExposureRow>): (entries: seq<PriceCount>)
    ensures |entries| == |Dedup(Prices(rows))|
    ensures forall i :: 0 <= i < |entries| ==>
      entries[i] == PriceCount(Dedup(Prices(rows))[i], Count(Prices(rows), Dedup(Prices(rows))[i]))
  {
    var keys := Dedup(Prices(rows));
    seq(|keys|, i requires 0 <= i < |keys| => PriceCount(keys[i], Count(Prices(rows), keys[i])))
  }

  /** The entries after the stable sort by descending count. */
  function Ranked(rows: seq<ExposureRow>): (ranked: seq<PriceCount>)
    ensures multiset(ranked) == multiset(Entries(rows))
    ensures forall i, j :: 0 <= i < j < |ranked| ==> ranked[i].count >= ranked[j].count
  {
    var ranked := SortBy(Entries(rows), ByCountDescending);
    assert forall i, j :: 0 <= i < j < |ranked| ==> ByCountDescending(ranked[i]) <= ByCountDescending(ranked[j]);
    ranked
  }

  /** The response items: the first 50 ranked entries. */
  function Items(rows: seq<ExposureRow>): (items: seq<PriceCount>)
    ensures |items| <= MaxItems
  {
    var ranked := Ranked(rows);
    if |ranked| <= MaxItems then ranked else ranked[..MaxItems]
  }

  /** The tally loop, `byPrice.set(p, (byPrice.get(p) ?? 0) + 1)` for each
      row, and the key order of the Map it fills. */
  method TallyPrices(rows: seq<ExposureRow>) returns (byPrice: map<int, nat>, order: seq<int>)
    ensures order == Dedup(Prices(rows))
    ensures forall p :: p in byPrice <==> p in order
    ensures forall p :: p in byPrice ==> byPrice[p] == Count(Prices(rows), p)
  {
    byPrice := map[];
    order := [];
    var i := 0;
    while i < |rows|
      invariant 0 <= i <= |rows|
      invariant byPrice == Tally(Prices(rows[..i]))
      invariant order == Dedup(Prices(rows[..i]))
    {
      ghost var seen := Prices(rows[..i]);
      var price := rows[i].priceKrw;
      assert Prices(rows[..i + 1]) == seen + [price];
      TallySnoc(seen, price);
      DedupSnoc(seen, price);
      TallyMeaning(seen);
      assert price in byPrice <==> price in Dedup(seen);
      if price !in byPrice {
        order := order + [price];
      }
      byPrice := Bump(byPrice, price);
      i := i + 1;
    }
    assert rows[..i] == rows;
    TallyMeaning(Prices(rows));
  }

  /** The items of the response, built as the route builds them: tally,
      list the entries, sort by descending count, keep the first 50. */
  method PriceCountItems(rows: seq<ExposureRow>) returns (items: seq<PriceCount>)
    ensures items == Items(rows)
  {
    var byPrice, order := TallyPrices(rows);
    forall i | 0 <= i < |order| ensures order[i] in byPrice {
      assert order[i] in order;
    }
    var entries := seq(|order|, i requires 0 <= i < |order| => PriceCount(order[i], byPrice[order[i]]));
    assert entries == Entries(rows);
    var ranked := SortBy(entries, ByCountDescending);
    items := if |ranked| <= MaxItems then ranked else ranked[..MaxItems];
  }

  lemma RankedEntries(rows: seq<ExposureRow>)
    ensures |Ranked(rows)| == |Entries(rows)|
    ensures forall i :: 0 <= i < |Ranked(rows)| ==> Ranked(rows)[i] in Entries(rows)
    ensures Distinct(Entries(rows))
  {
    var entries := Entries(rows);
    forall i | 0 <= i < |Ranked(rows)| ensures Ranked(rows)[i] in entries {
      assert Ranked(rows)[i] in multiset(entries);
    }
    var keys := Dedup(Prices(rows));
    forall i, j | 0 <= i < j < |entries| ensures entries[i] != entries[j] {
      assert keys[i] != keys[j];
    }
  }

  /** Every ranked entry counts exactly the rows carrying its price. */
  lemma RankedAreCounts(rows: seq<ExposureRow>)
    ensures forall i :: 0 <= i < |Ranked(rows)| ==>
      Ranked(rows)[i].count == Count(Prices(rows), Ranked(rows)[i].priceKrw) >= 1
  {
    var ranked := Ranked(rows);
    var entries := Entries(rows);
    var keys := Dedup(Prices(rows));
    RankedEntries(rows);
    forall i | 0 <= i < |ranked| ensures ranked[i].count == Count(Prices(rows), ranked[i].priceKrw) >= 1 {
      var k :| 0 <= k < |entries| && entries[k] == ranked[i];
      assert keys[k] in Prices(rows);
    }
  }

  /** No price is ranked twice. */
  lemma RankedDistinctPrices(rows: seq<ExposureRow>)
    ensures forall i, j :: 0 <= i < j < |Ranked(rows)| ==> Ranked(rows)[i].priceKrw != Ranked(rows)[j].priceKrw
  {
    var ranked := Ranked(rows);
    var entries := Entries(rows);
    var keys := Dedup(Prices(rows));
    RankedEntries(rows);
    PermutationDistinct(entries, ranked);
    forall i, j | 0 <= i < j < |ranked| ensures ranked[i].priceKrw != ranked[j].priceKrw {
      var a :| 0 <= a < |entries| && entries[a] == ranked[i];
      var b :| 0 <= b < |entries| && entries[b] == ranked[j];
      assert a != b;
      assert keys[a] != keys[b];
    }
  }

  /** Counts never increase down the ranking. */
  lemma RankedDescending(rows: seq<ExposureRow>)
    ensures forall i, j :: 0 <= i < j < |Ranked(rows)| ==> Ranked(rows)[i].count >= Ranked(rows)[j].count
  {
    var ranked := Ranked(rows);
    forall i, j | 0 <= i < j < |ranked| ensures ranked[i].count >= ranked[j].count {
      assert ByCountDescending(ranked[i]) <= ByCountDescending(ranked[j]);
    }
  }

  /** Every item counts exactly the rows carrying its price, at least one;
      no price is listed twice; and counts never increase down the list. */
  lemma ItemsAreCounts(rows: seq<ExposureRow>)
    ensures forall i :: 0 <= i < |Items(rows)| ==>
      Items(rows)[i].count == Count(Prices(rows), Items(rows)[i].priceKrw) >= 1
    ensures forall i, j :: 0 <= i < j < |Items(rows)| ==> Items(rows)[i].priceKrw != Items(rows)[j].priceKrw
    ensures forall i, j :: 0 <= i < j < |Items(rows)| ==> Items(rows)[i].count >= Items(rows)[j].count
  {
    var items := Items(rows);
    var ranked := Ranked(rows);
    RankedAreCounts(rows);
    RankedDistinctPrices(rows);
    RankedDescending(rows);
    assert |items| <= |ranked|;
    assert forall i :: 0 <= i < |items| ==> items[i] == ranked[i];
  }

  /** Every price of the rows is listed unless the list is full, and a
      price left out was shown no more often than any price listed. */
  lemma ItemsKeepMostFrequent(rows: seq<ExposureRow>, price: int)
    requires price in Prices(rows)
    requires forall i :: 0 <= i < |Items(rows)| ==> Items(rows)[i].priceKrw != price
    ensures |Items(rows)| == MaxItems
    ensures forall i :: 0 <= i < |Items(rows)| ==> Count(Prices(rows), price) <= Items(rows)[i].count
  {
    var items := Items(rows);
    var ranked := Ranked(rows);
    var entries := Entries(rows);
    var keys := Dedup(Prices(rows));
    var e := IndexOf(keys, price);
    assert entries[e] in multiset(ranked);
    var k :| 0 <= k < |ranked| && ranked[k] == entries[e];
    assert forall i :: 0 <= i < |items| ==> items[i] == ranked[i] && ranked[i].priceKrw != price;
    assert k >= |items|;
    forall i | 0 <= i < |items| ensures Count(Prices(rows), price) <= items[i].count {
      assert items[i] == ranked[i];
      assert ByCountDescending(ranked[i]) <= ByCountDescending(ranked[k]);
    }
  }

  /** Prices with equal counts are listed in the order in which they first
      appear among the rows. */
  lemma ItemsTiesInFirstAppearanceOrder(rows: seq<ExposureRow>, i: nat, j: nat)
    requires i < j < |Items(rows)|
    requires Items(rows)[i].count == Items(rows)[j].count
    ensures Items(rows)[i].priceKrw in Prices(rows) && Items(rows)[j].priceKrw in Prices(rows)
    ensures IndexOf(Prices(rows), Items(rows)[i].priceKrw) < IndexOf(Prices(rows), Items(rows)[j].priceKrw)
  {
    var items := Items(rows);
    var ranked := Ranked(rows);
    var entries := Entries(rows);
    var keys := Dedup(Prices(rows));
    RankedEntries(rows);
    assert items[i] == ranked[i] && items[j] == ranked[j];
    SortByStableOrder(entries, ByCountDescending);
    var a := IndexOf(entries, ranked[i]);
    var b := IndexOf(entries, ranked[j]);
    assert a < b;
    DedupFirstOccurrenceOrder(Prices(rows), a, b);
    assert keys[a] in Prices(rows) && keys[b] in Prices(rows);
  }

  /** No rows, no items. */
  lemma NoRowsNoItems()
    ensures Items([]) == []
  {
    assert Prices([]) == [];
  }

  /** The handler: a rejected query string gives 400 with the validation
      error's message, a store error 500 with the thrown error's message, or "Bad request" when
      what was thrown is not an `Error`. */
  function Get(params: Params, store: Store, now: int, errorMessage: seq<Issue> -> string): (r: Response<seq<PriceCount>>)
    ensures r.Fail? && r.status == BadRequest <==> ParseExposureQuery(params).Failure?
    ensures r.Fail? && r.status == ServerError <==> ParseExposureQuery(params).Success? && store.Unavailable?
    ensures r.Fail? ==> r.status == BadRequest || r.status == ServerError
    ensures r.Fail? && r.status == ServerError ==>
      r.error == if store.thrown.ErrorInstance? then store.thrown.message else "Bad request"
    ensures r.Fail? && r.status == BadRequest ==> r.error == errorMessage(ParseExposureQuery(params).error)
    ensures r.Ok? ==> |r.body| <= MaxItems
    ensures r.Ok? ==> r.body == Items(FetchFilteredExposures(store, ParseExposureQuery(params).value, now).value)
  {
    match ParseExposureQuery(params)
    case Failure(issues) => Fail(BadRequest, errorMessage(issues))
    case Success(q) =>
      match FetchFilteredExposures(store, q, now)
      case Failure(err) => Fail(ServerError, CaughtMessage(err))
      case Success(rows) => Ok(Items(rows))
  }
}
