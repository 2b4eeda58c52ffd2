/** Query semantics (`src/lib/query.ts`). The record store is a sequence of
    rows; the chained query builder is the list of constraints it
    accumulates, read as their conjunction, followed by "newest first" and,
    for the exact-price lookup, a limit of 50. */
module Query {
  import opened Seqs
  import opened Text
  import opened Sorting
  import opened Validators

  /** One row of `exposure_events`; `ts` is in milliseconds. */
  datatype ExposureRow = ExposureRow(
    id: string,
    ts: int,
    airline: string,
    origin: string,
    dest: string,
    tripType: string,
    channel: string,
    sessionId: string,
    searchId: string,
    resultRank: int,
    priceKrw: int,
    currency: string,
    isDiscounted: bool,
    departureDate: Option<string>,
    arrivalDate: Option<string>)

  /** The error value the store client hands back, which the query
      functions rethrow unchanged: an `Error` instance carrying its message,
      or some other value, such as a plain object with a `message` field. */
  datatype Thrown = ErrorInstance(message: string) | OtherValue

  /** The record store: its rows, or the error every query against it reports. */
  datatype Store = Healthy(rows: seq<ExposureRow>) | Unavailable(thrown: Thrown)

  const HourMs := 3600000
  const DayMs := 24 * HourMs
  const ByPriceLimit := 50

  /** `rows.map((r) => r.price_krw)`. */
  function Prices(rows: seq<ExposureRow>): (prices: seq<int>)
    ensures |prices| == |rows|
    ensures forall i :: 0 <= i < |rows| ==> prices[i] == rows[i].priceKrw
  {
    seq(|rows|, i requires 0 <= i < |rows| => rows[i].priceKrw)
  }

  /** `getSinceDate`: the start of the time window ending at `now`. The
      caller supplies `now`, read afresh for every query. */
  function SinceDate(period: Period, now: int): (since: int)
    ensures since < now
    ensures now - since == (if period == Week then 7 * DayMs else DayMs)
  {
    if period == Week then now - 7 * DayMs else now - 24 * HourMs
  }

  /** Every piece of a split, trimmed. */
  function TrimEach(parts: seq<string>): (r: seq<string>)
    ensures |r| == |parts|
    ensures forall i :: 0 <= i < |r| ==> r[i] == Trim(parts[i]) && Trimmed(r[i])
  {
    seq(|parts|, i requires 0 <= i < |parts| => Trim(parts[i]))
  }

  /** The non-empty strings of `xs`, in their order. */
  function NonEmptyOnly(xs: seq<string>): (r: seq<string>)
    ensures |r| <= |xs|
    ensures forall i :: 0 <= i < |r| ==> r[i] != "" && r[i] in xs
    ensures forall x :: x in xs && x != "" ==> x in r
  {
    if xs == [] then []
    else
      assert xs == [xs[0]] + xs[1..];
      (if xs[0] == "" then [] else [xs[0]]) + NonEmptyOnly(xs[1..])
  }

  /** The airline filter: split on commas, trim each piece, drop empty ones. */
  function ParseAirlines(s: string): (codes: seq<string>)
    ensures forall i :: 0 <= i < |codes| ==> codes[i] != "" && Trimmed(codes[i])
  {
    var pieces := TrimEach(Split(s, ','));
    var codes := NonEmptyOnly(pieces);
    forall i | 0 <= i < |codes| ensures Trimmed(codes[i]) {
      var j :| 0 <= j < |pieces| && pieces[j] == codes[i];
      assert Trimmed(pieces[j]);
    }
    codes
  }

  /** The codes are exactly the non-empty trimmed pieces. */
  lemma ParseAirlinesCodes(s: string)
    ensures forall x :: x in ParseAirlines(s) <==> x != "" && x in TrimEach(Split(s, ','))
  {
  }

  /** A single non-empty string is kept as it is. */
  lemma NonEmptyOnlySingle(a: string)
    requires a != ""
    ensures NonEmptyOnly([a]) == [a]
  {
    assert [a][1..] == [];
    ConcatEmpty([a]);
  }

  /** A filter without commas names the single airline it spells. */
  lemma {:induction false} NoCommaSingleCode(s: string)
    requires ',' !in s && Trim(s) != ""
    ensures ParseAirlines(s) == [Trim(s)]
  {
    SplitWithoutSeparator(s, ',');
    assert TrimEach(Split(s, ',')) == [Trim(s)];
    NonEmptyOnlySingle(Trim(s));
  }

  /** An empty or all-blank filter names no airline. */
  lemma BlankFilterHasNoCodes(s: string)
    requires ',' !in s && Trim(s) == ""
    ensures ParseAirlines(s) == []
  {
    SplitWithoutSeparator(s, ',');
    assert TrimEach(Split(s, ',')) == [""];
    assert NonEmptyOnly([""]) == [] + NonEmptyOnly([]);
  }

  lemma {:induction false} SplitWithoutSeparator(s: string, c: char)
    requires c !in s
    ensures Split(s, c) == [s]
  {
    if s != [] {
      SplitWithoutSeparator(s[1..], c);
      assert Split(s, c) == [[s[0]] + s[1..]];
      assert s == [s[0]] + s[1..];
    }
  }

  /** The string columns a constraint can name. */
  datatype Column = AirlineCol | OriginCol | DestCol | TripTypeCol | ChannelCol | DepartureDateCol | ArrivalDateCol

  /** One builder step: `.gte("ts", …)`, `.eq(col, …)`, `.in(col, …)`,
      `.gte/.lte/.eq("price_krw", …)`. */
  datatype Constraint =
    | TsAtLeast(since: int)
    | TextEq(column: Column, value: string)
    | TextIn(column: Column, values: seq<string>)
    | PriceAtLeast(bound: int)
    | PriceAtMost(bound: int)
    | PriceIs(price: int)

  function ColumnValue(r: ExposureRow, c: Column): Option<string> {
    match c
    case AirlineCol => Some(r.airline)
    case OriginCol => Some(r.origin)
    case DestCol => Some(r.dest)
    case TripTypeCol => Some(r.tripType)
    case ChannelCol => Some(r.channel)
    case DepartureDateCol => r.departureDate
    case ArrivalDateCol => r.arrivalDate
  }

  /** A NULL column matches no equality and no membership. */
  predicate Satisfies(r: ExposureRow, c: Constraint) {
    match c
    case TsAtLeast(since) => r.ts >= since
    case TextEq(col, v) => ColumnValue(r, col) == Some(v)
    case TextIn(col, vs) => ColumnValue(r, col).Some? && ColumnValue(r, col).value in vs
    case PriceAtLeast(b) => r.priceKrw >= b
    case PriceAtMost(b) => r.priceKrw <= b
    case PriceIs(p) => r.priceKrw == p
  }

  /** A row passes a chain of builder steps when it passes the first and
      then the rest. */
  predicate SatisfiesAll(r: ExposureRow, cs: seq<Constraint>) {
    cs == [] || (Satisfies(r, cs[0]) && SatisfiesAll(r, cs[1..]))
  }

  /** The chain holds exactly when every step of it holds. */
  lemma {:induction false} SatisfiesAllEvery(r: ExposureRow, cs: seq<Constraint>)
    ensures SatisfiesAll(r, cs) <==> forall i :: 0 <= i < |cs| ==> Satisfies(r, cs[i])
  {
    if cs != [] {
      SatisfiesAllEvery(r, cs[1..]);
      assert forall i :: 1 <= i < |cs| ==> cs[i] == cs[1..][i - 1];
    }
  }

  /** Adding the steps of `b` after those of `a` asks for both. */
  lemma {:induction false} SatisfiesAllConcat(r: ExposureRow, a: seq<Constraint>, b: seq<Constraint>)
    ensures SatisfiesAll(r, a + b) <==> SatisfiesAll(r, a) && SatisfiesAll(r, b)
  {
    if a != [] {
      assert (a + b)[1..] == a[1..] + b;
      SatisfiesAllConcat(r, a[1..], b);
    } else {
      assert a + b == b;
    }
  }

  /** Ten chains one after the other ask for all ten: when each chain
      means one condition, the whole means their conjunction. */
  lemma SatisfiesAllTen(r: ExposureRow, c0: seq<Constraint>, c1: seq<Constraint>, c2: seq<Constraint>,
                        c3: seq<Constraint>, c4: seq<Constraint>, c5: seq<Constraint>, c6: seq<Constraint>,
                        c7: seq<Constraint>, c8: seq<Constraint>, c9: seq<Constraint>,
                        b0: bool, b1: bool, b2: bool, b3: bool, b4: bool, b5: bool, b6: bool, b7: bool, b8: bool, b9: bool)
    requires SatisfiesAll(r, c0) == b0 && SatisfiesAll(r, c1) == b1 && SatisfiesAll(r, c2) == b2
    requires SatisfiesAll(r, c3) == b3 && SatisfiesAll(r, c4) == b4 && SatisfiesAll(r, c5) == b5
    requires SatisfiesAll(r, c6) == b6 && SatisfiesAll(r, c7) == b7 && SatisfiesAll(r, c8) == b8
    requires SatisfiesAll(r, c9) == b9
    ensures SatisfiesAll(r, c0 + c1 + c2 + c3 + c4 + c5 + c6 + c7 + c8 + c9) <==>
      (b0 && b1 && b2 && b3 && b4 && b5 && b6 && b7 && b8 && b9)
  {
    SatisfiesAllConcat(r, c0, c1);
    SatisfiesAllConcat(r, c0 + c1, c2);
    SatisfiesAllConcat(r, c0 + c1 + c2, c3);
    SatisfiesAllConcat(r, c0 + c1 + c2 + c3, c4);
    SatisfiesAllConcat(r, c0 + c1 + c2 + c3 + c4, c5);
    SatisfiesAllConcat(r, c0 + c1 + c2 + c3 + c4 + c5, c6);
    SatisfiesAllConcat(r, c0 + c1 + c2 + c3 + c4 + c5 + c6, c7);
    SatisfiesAllConcat(r, c0 + c1 + c2 + c3 + c4 + c5 + c6 + c7, c8);
    SatisfiesAllConcat(r, c0 + c1 + c2 + c3 + c4 + c5 + c6 + c7 + c8, c9);
  }

  /** Six chains one after the other ask for all six. */
  lemma SatisfiesAllSix(r: ExposureRow, c0: seq<Constraint>, c1: seq<Constraint>, c2: seq<Constraint>,
                        c3: seq<Constraint>, c4: seq<Constraint>, c5: seq<Constraint>,
                        b0: bool, b1: bool, b2: bool, b3: bool, b4: bool, b5: bool)
    requires SatisfiesAll(r, c0) == b0 && SatisfiesAll(r, c1) == b1 && SatisfiesAll(r, c2) == b2
    requires SatisfiesAll(r, c3) == b3 && SatisfiesAll(r, c4) == b4 && SatisfiesAll(r, c5) == b5
    ensures SatisfiesAll(r, c0 + c1 + c2 + c3 + c4 + c5) <==> (b0 && b1 && b2 && b3 && b4 && b5)
  {
    SatisfiesAllConcat(r, c0, c1);
    SatisfiesAllConcat(r, c0 + c1, c2);
    SatisfiesAllConcat(r, c0 + c1 + c2, c3);
    SatisfiesAllConcat(r, c0 + c1 + c2 + c3, c4);
    SatisfiesAllConcat(r, c0 + c1 + c2 + c3 + c4, c5);
  }

  /** An optional price bound adds one step when present. */
  lemma BoundMeaning(r: ExposureRow, bound: Option<int>, atLeast: bool)
    ensures SatisfiesAll(r, if bound.Some? then [if atLeast then PriceAtLeast(bound.value) else PriceAtMost(bound.value)] else [])
      <==> bound.None? || (if atLeast then bound.value <= r.priceKrw else r.priceKrw <= bound.value)
  {
    if bound.Some? {
      SatisfiesSingle(r, if atLeast then PriceAtLeast(bound.value) else PriceAtMost(bound.value));
    }
  }

  lemma SatisfiesSingle(r: ExposureRow, c: Constraint)
    ensures SatisfiesAll(r, [c]) <==> Satisfies(r, c)
  {
    assert [c][1..] == [];
  }

  /** Whether an airline filter admits an airline: no filter, or a filter
      without codes, admits everything; otherwise the airline must be one of
      the codes. */
  predicate AirlineAllowed(airline: string, filter: Option<string>) {
    filter.None? || ParseAirlines(filter.value) == [] || airline in ParseAirlines(filter.value)
  }

  /** The airline step of the builder: one code becomes `.eq`, two or more
      become `.in`, none adds nothing. */
  function AirlineConstraints(filter: Option<string>): (cs: seq<Constraint>)
    ensures |cs| <= 1
    ensures filter.Some? && |ParseAirlines(filter.value)| == 1 ==> cs == [TextEq(AirlineCol, ParseAirlines(filter.value)[0])]
    ensures filter.Some? && |ParseAirlines(filter.value)| >= 2 ==> cs == [TextIn(AirlineCol, ParseAirlines(filter.value))]
  {
    if filter.None? || filter.value == "" then
      if filter.Some? then BlankFilterHasNoCodes(filter.value); []
      else []
    else
      var codes := ParseAirlines(filter.value);
      if |codes| == 1 then [TextEq(AirlineCol, codes[0])]
      else if |codes| > 1 then [TextIn(AirlineCol, codes)]
      else []
  }

  /** The builder step for a non-empty list of codes admits exactly the
      listed airlines, whether it is written as `.eq` or as `.in`. */
  lemma CodesConstraintMeaning(r: ExposureRow, codes: seq<string>)
    requires codes != []
    ensures SatisfiesAll(r, if |codes| == 1 then [TextEq(AirlineCol, codes[0])] else [TextIn(AirlineCol, codes)])
      <==> r.airline in codes
  {
    if |codes| == 1 {
      SatisfiesSingle(r, TextEq(AirlineCol, codes[0]));
      assert codes == [codes[0]];
    } else {
      SatisfiesSingle(r, TextIn(AirlineCol, codes));
    }
  }

  /** Whichever form the airline step takes, it admits exactly the airlines
      the filter names (all of them when it names none). */
  lemma AirlineConstraintsMeaning(r: ExposureRow, filter: Option<string>)
    ensures SatisfiesAll(r, AirlineConstraints(filter)) <==> AirlineAllowed(r.airline, filter)
  {
    if filter.Some? {
      var codes := ParseAirlines(filter.value);
      if codes == [] {
        assert AirlineConstraints(filter) == [];
      } else {
        if filter.value == "" {
          BlankFilterHasNoCodes(filter.value);
          assert false;
        }
        assert AirlineConstraints(filter) ==
          if |codes| == 1 then [TextEq(AirlineCol, codes[0])] else [TextIn(AirlineCol, codes)];
        CodesConstraintMeaning(r, codes);
      }
    }
  }

  /** `if (value) builder = builder.eq(column, value)`: an empty string is falsy. */
  function PresentEq(column: Column, v: Option<string>): seq<Constraint> {
    if v.Some? && v.value != "" then [TextEq(column, v.value)] else []
  }

  /** The date steps additionally skip a value that is blank after trimming. */
  function PresentDateEq(column: Column, v: Option<string>): seq<Constraint> {
    if v.Some? && v.value != "" && Trim(v.value) != "" then [TextEq(column, v.value)] else []
  }

  /** The constraints `fetchFilteredExposures` puts on the builder, in order. */
  function QueryConstraints(q: ExposureQuery, since: int): (c: seq<Constraint>)
    ensures 1 <= |c| <= 10 && c[0] == TsAtLeast(since)
  {
    var c0 := [TsAtLeast(since)];
    var c := c0
      + AirlineConstraints(q.airline)
      + PresentEq(OriginCol, q.origin)
      + PresentEq(DestCol, q.dest)
      + PresentEq(TripTypeCol, q.tripType)
      + PresentEq(ChannelCol, q.channel)
      + PresentDateEq(DepartureDateCol, q.departureDate)
      + PresentDateEq(ArrivalDateCol, q.arrivalDate)
      + (if q.minPrice.Some? then [PriceAtLeast(q.minPrice.value)] else [])
      + (if q.maxPrice.Some? then [PriceAtMost(q.maxPrice.value)] else []);
    assert c[..1] == c0;
    c
  }

  /** A filter value admits a column value when it is absent or empty, or
      equal to it. */
  predicate FieldAllows(filter: Option<string>, value: string) {
    filter.None? || filter.value == "" || value == filter.value
  }

  predicate DateAllows(filter: Option<string>, value: Option<string>) {
    filter.None? || Trim(filter.value) == "" || value == Some(filter.value)
  }

  /** What a row returned for query `q` satisfies, field by field: inside the
      window, admitted by every present filter, and within the inclusive
      price bounds (a bound of 0 is still a bound). */
  predicate MatchesQuery(r: ExposureRow, q: ExposureQuery, since: int) {
    && r.ts >= since
    && AirlineAllowed(r.airline, q.airline)
    && FieldAllows(q.origin, r.origin)
    && FieldAllows(q.dest, r.dest)
    && FieldAllows(q.tripType, r.tripType)
    && FieldAllows(q.channel, r.channel)
    && DateAllows(q.departureDate, r.departureDate)
    && DateAllows(q.arrivalDate, r.arrivalDate)
    && (q.minPrice.None? || q.minPrice.value <= r.priceKrw)
    && (q.maxPrice.None? || r.priceKrw <= q.maxPrice.value)
  }

  lemma PresentEqMeaning(r: ExposureRow, col: Column, v: Option<string>)
    requires col != DepartureDateCol && col != ArrivalDateCol
    ensures SatisfiesAll(r, PresentEq(col, v)) <==> FieldAllows(v, ColumnValue(r, col).value)
  {
    if v.Some? && v.value != "" {
      SatisfiesSingle(r, TextEq(col, v.value));
    }
  }

  lemma PresentDateEqMeaning(r: ExposureRow, col: Column, v: Option<string>)
    requires col == DepartureDateCol || col == ArrivalDateCol
    ensures SatisfiesAll(r, PresentDateEq(col, v)) <==> DateAllows(v, ColumnValue(r, col))
  {
    if v.Some? && v.value != "" && Trim(v.value) != "" {
      SatisfiesSingle(r, TextEq(col, v.value));
    } else if v.Some? && v.value == "" {
      assert |Trim(v.value)| <= 0;
    }
  }

  /** The accumulated builder constraints hold of a row exactly when the row
      matches the query field by field. */
  lemma {:induction false} QueryConstraintsMeaning(r: ExposureRow, q: ExposureQuery, since: int)
    ensures SatisfiesAll(r, QueryConstraints(q, since)) <==> MatchesQuery(r, q, since)
  {
    var c0 := [TsAtLeast(since)];
    var c1 := AirlineConstraints(q.airline);
    var c2 := PresentEq(OriginCol, q.origin);
    var c3 := PresentEq(DestCol, q.dest);
    var c4 := PresentEq(TripTypeCol, q.tripType);
    var c5 := PresentEq(ChannelCol, q.channel);
    var c6 := PresentDateEq(DepartureDateCol, q.departureDate);
    var c7 := PresentDateEq(ArrivalDateCol, q.arrivalDate);
    var c8: seq<Constraint> := if q.minPrice.Some? then [PriceAtLeast(q.minPrice.value)] else [];
    var c9: seq<Constraint> := if q.maxPrice.Some? then [PriceAtMost(q.maxPrice.value)] else [];
    SatisfiesSingle(r, TsAtLeast(since));
    AirlineConstraintsMeaning(r, q.airline);
    PresentEqMeaning(r, OriginCol, q.origin);
    PresentEqMeaning(r, DestCol, q.dest);
    PresentEqMeaning(r, TripTypeCol, q.tripType);
    PresentEqMeaning(r, ChannelCol, q.channel);
    PresentDateEqMeaning(r, DepartureDateCol, q.departureDate);
    PresentDateEqMeaning(r, ArrivalDateCol, q.arrivalDate);
    BoundMeaning(r, q.minPrice, true);
    BoundMeaning(r, q.maxPrice, false);
    SatisfiesAllTen(r, c0, c1, c2, c3, c4, c5, c6, c7, c8, c9,
      r.ts >= since, AirlineAllowed(r.airline, q.airline),
      FieldAllows(q.origin, r.origin), FieldAllows(q.dest, r.dest),
      FieldAllows(q.tripType, r.tripType), FieldAllows(q.channel, r.channel),
      DateAllows(q.departureDate, r.departureDate), DateAllows(q.arrivalDate, r.arrivalDate),
      q.minPrice.None? || q.minPrice.value <= r.priceKrw, q.maxPrice.None? || r.priceKrw <= q.maxPrice.value);
    assert QueryConstraints(q, since) == c0 + c1 + c2 + c3 + c4 + c5 + c6 + c7 + c8 + c9;
  }

  /** `.order("ts", { ascending: false })`. */
  function NewestFirst(rows: seq<ExposureRow>): (r: seq<ExposureRow>)
    ensures multiset(r) == multiset(rows)
    ensures forall i, j :: 0 <= i < j < |r| ==> r[i].ts >= r[j].ts
  {
    var sorted := SortBy(rows, (x: ExposureRow) => -x.ts);
    assert forall i, j :: 0 <= i < j < |sorted| ==> -sorted[i].ts <= -sorted[j].ts;
    sorted
  }

  /** The rows of the store that satisfy every constraint, in store order. */
  function Selected(rows: seq<ExposureRow>, cs: seq<Constraint>): (r: seq<ExposureRow>)
    ensures forall i :: 0 <= i < |r| ==> SatisfiesAll(r[i], cs)
    ensures forall x :: multiset(r)[x] == if SatisfiesAll(x, cs) then multiset(rows)[x] else 0
  {
    Filter(rows, (x: ExposureRow) => SatisfiesAll(x, cs))
  }

  /** What the builder returns: every row satisfying the constraints, each
      as often as it is stored, newest first. */
  function NewestMatching(rows: seq<ExposureRow>, cs: seq<Constraint>): (r: seq<ExposureRow>)
    ensures forall i :: 0 <= i < |r| ==> SatisfiesAll(r[i], cs)
    ensures forall x :: multiset(r)[x] == if SatisfiesAll(x, cs) then multiset(rows)[x] else 0
    ensures forall i, j :: 0 <= i < j < |r| ==> r[i].ts >= r[j].ts
  {
    var found := NewestFirst(Selected(rows, cs));
    forall i | 0 <= i < |found| ensures SatisfiesAll(found[i], cs) {
      assert found[i] in multiset(found);
    }
    found
  }

  /** The builder returns no row more often than it is stored. */
  lemma NewestMatchingFromStore(rows: seq<ExposureRow>, cs: seq<Constraint>)
    ensures multiset(NewestMatching(rows, cs)) <= multiset(rows)
  {
    var found := NewestMatching(rows, cs);
    forall x ensures multiset(found)[x] <= multiset(rows)[x] {
    }
  }

  /** The rows selected by the query's constraints are the rows matching
      the query, each as often as it is stored. */
  lemma NewestMatchingQuery(rows: seq<ExposureRow>, q: ExposureQuery, since: int)
    ensures var found := NewestMatching(rows, QueryConstraints(q, since));
      && (forall i :: 0 <= i < |found| ==> MatchesQuery(found[i], q, since))
      && (forall x :: multiset(found)[x] == if MatchesQuery(x, q, since) then multiset(rows)[x] else 0)
  {
    var found := NewestMatching(rows, QueryConstraints(q, since));
    forall i | 0 <= i < |found| ensures MatchesQuery(found[i], q, since) {
      QueryConstraintsMeaning(found[i], q, since);
    }
    forall x ensures multiset(found)[x] == if MatchesQuery(x, q, since) then multiset(rows)[x] else 0 {
      QueryConstraintsMeaning(x, q, since);
    }
  }

  /** `fetchFilteredExposures`: the matching rows, newest first, or the
      store's error (never an empty list in its place). */
  function FetchFilteredExposures(store: Store, q: ExposureQuery, now: int): (r: Result<seq<ExposureRow>, Thrown>)
    ensures r.Failure? <==> store.Unavailable?
    ensures r.Failure? ==> r.error == store.thrown
    ensures r.Success? ==> forall i :: 0 <= i < |r.value| ==> MatchesQuery(r.value[i], q, SinceDate(q.period, now))
    ensures r.Success? ==> forall x :: (multiset(r.value)[x] ==
      if MatchesQuery(x, q, SinceDate(q.period, now)) then multiset(store.rows)[x] else 0)
    ensures r.Success? ==> forall i, j :: 0 <= i < j < |r.value| ==> r.value[i].ts >= r.value[j].ts
    ensures r.Success? ==> multiset(r.value) <= multiset(store.rows)
  {
    match store
    case Unavailable(thrown) => Failure(thrown)
    case Healthy(rows) =>
      NewestMatchingQuery(rows, q, SinceDate(q.period, now));
      NewestMatchingFromStore(rows, QueryConstraints(q, SinceDate(q.period, now)));
      Success(NewestMatching(rows, QueryConstraints(q, SinceDate(q.period, now))))
  }

  /** Widening the period from "24h" to "7d" (same `now`) only adds rows. */
  lemma WeekIncludesDay(store: Store, q: ExposureQuery, now: int)
    requires store.Healthy?
    ensures multiset(FetchFilteredExposures(store, q.(period := Day), now).value)
         <= multiset(FetchFilteredExposures(store, q.(period := Week), now).value)
  {
    var day := FetchFilteredExposures(store, q.(period := Day), now).value;
    var week := FetchFilteredExposures(store, q.(period := Week), now).value;
    forall x ensures multiset(day)[x] <= multiset(week)[x] {
      if MatchesQuery(x, q.(period := Day), SinceDate(Day, now)) {
        assert MatchesQuery(x, q.(period := Week), SinceDate(Week, now));
      }
    }
  }

  /** What `fetchExposuresByPrice` receives. */
  datatype ByPriceInput = ByPriceInput(
    priceKRW: int,
    period: Period,
    airline: Option<string>,
    origin: Option<string>,
    dest: Option<string>,
    tripType: Option<string>,
    channel: Option<string>)

  /** `if (q.channel && q.channel !== "all")`. */
  function ChannelConstraint(channel: Option<string>): seq<Constraint> {
    if channel.Some? && channel.value != "" && channel.value != "all" then [TextEq(ChannelCol, channel.value)] else []
  }

  function ByPriceConstraints(q: ByPriceInput, since: int): (c: seq<Constraint>)
    ensures 2 <= |c| <= 7 && c[0] == TsAtLeast(since) && c[1] == PriceIs(q.priceKRW)
  {
    var c0 := [TsAtLeast(since), PriceIs(q.priceKRW)];
    var c := c0
      + AirlineConstraints(q.airline)
      + PresentEq(OriginCol, q.origin)
      + PresentEq(DestCol, q.dest)
      + PresentEq(TripTypeCol, q.tripType)
      + ChannelConstraint(q.channel);
    assert c[..2] == c0;
    c
  }

  /** What a row returned by the exact-price lookup satisfies: inside the
      window, exactly the requested price, admitted by the route filters, and
      on the requested channel unless that is absent, empty or "all". */
  predicate MatchesByPrice(r: ExposureRow, q: ByPriceInput, since: int) {
    && r.ts >= since
    && r.priceKrw == q.priceKRW
    && AirlineAllowed(r.airline, q.airline)
    && FieldAllows(q.origin, r.origin)
    && FieldAllows(q.dest, r.dest)
    && FieldAllows(q.tripType, r.tripType)
    && (q.channel.None? || q.channel.value == "all" || FieldAllows(q.channel, r.channel))
  }

  /** The window and price steps admit the rows inside the window at
      exactly the requested price. */
  lemma WindowAndPriceMeaning(r: ExposureRow, since: int, price: int)
    ensures SatisfiesAll(r, [TsAtLeast(since), PriceIs(price)]) <==> r.ts >= since && r.priceKrw == price
  {
    var c := [TsAtLeast(since), PriceIs(price)];
    assert c[1..] == [PriceIs(price)];
    SatisfiesSingle(r, PriceIs(price));
  }

  /** The channel step admits every channel when the filter is absent,
      empty or "all", and otherwise the named channel only. */
  lemma ChannelConstraintMeaning(r: ExposureRow, channel: Option<string>)
    ensures SatisfiesAll(r, ChannelConstraint(channel)) <==>
      channel.None? || channel.value == "all" || FieldAllows(channel, r.channel)
  {
    if channel.Some? && channel.value != "" && channel.value != "all" {
      SatisfiesSingle(r, TextEq(ChannelCol, channel.value));
    }
  }

  lemma ByPriceConstraintsMeaning(r: ExposureRow, q: ByPriceInput, since: int)
    ensures SatisfiesAll(r, ByPriceConstraints(q, since)) <==> MatchesByPrice(r, q, since)
  {
    var c0 := [TsAtLeast(since), PriceIs(q.priceKRW)];
    var c1 := AirlineConstraints(q.airline);
    var c2 := PresentEq(OriginCol, q.origin);
    var c3 := PresentEq(DestCol, q.dest);
    var c4 := PresentEq(TripTypeCol, q.tripType);
    var c5 := ChannelConstraint(q.channel);
    WindowAndPriceMeaning(r, since, q.priceKRW);
    AirlineConstraintsMeaning(r, q.airline);
    PresentEqMeaning(r, OriginCol, q.origin);
    PresentEqMeaning(r, DestCol, q.dest);
    PresentEqMeaning(r, TripTypeCol, q.tripType);
    ChannelConstraintMeaning(r, q.channel);
    SatisfiesAllSix(r, c0, c1, c2, c3, c4, c5,
      r.ts >= since && r.priceKrw == q.priceKRW, AirlineAllowed(r.airline, q.airline),
      FieldAllows(q.origin, r.origin), FieldAllows(q.dest, r.dest), FieldAllows(q.tripType, r.tripType),
      q.channel.None? || q.channel.value == "all" || FieldAllows(q.channel, r.channel));
    assert ByPriceConstraints(q, since) == c0 + c1 + c2 + c3 + c4 + c5;
  }

  /** The rows selected by the exact-price constraints are the rows
      matching the lookup, each as often as it is stored. */
  lemma NewestMatchingByPrice(rows: seq<ExposureRow>, q: ByPriceInput, since: int)
    ensures var found := NewestMatching(rows, ByPriceConstraints(q, since));
      && (forall i :: 0 <= i < |found| ==> MatchesByPrice(found[i], q, since))
      && (forall x :: multiset(found)[x] == if MatchesByPrice(x, q, since) then multiset(rows)[x] else 0)
  {
    var found := NewestMatching(rows, ByPriceConstraints(q, since));
    forall i | 0 <= i < |found| ensures MatchesByPrice(found[i], q, since) {
      ByPriceConstraintsMeaning(found[i], q, since);
    }
    forall x ensures multiset(found)[x] == if MatchesByPrice(x, q, since) then multiset(rows)[x] else 0 {
      ByPriceConstraintsMeaning(x, q, since);
    }
  }

  /** All rows matching the exact-price lookup, newest first, before the limit. */
  function ByPriceCandidates(rows: seq<ExposureRow>, q: ByPriceInput, since: int): (r: seq<ExposureRow>)
    ensures forall i :: 0 <= i < |r| ==> MatchesByPrice(r[i], q, since)
    ensures forall x :: multiset(r)[x] == if MatchesByPrice(x, q, since) then multiset(rows)[x] else 0
    ensures forall i, j :: 0 <= i < j < |r| ==> r[i].ts >= r[j].ts
    ensures multiset(r) <= multiset(rows)
  {
    NewestMatchingByPrice(rows, q, since);
    NewestMatching(rows, ByPriceConstraints(q, since))
  }

  /** `.limit(n)`: the first `n` rows, or all of them when there are fewer. */
  function Limit(all: seq<ExposureRow>, n: nat): (kept: seq<ExposureRow>)
    ensures |kept| == if |all| <= n then |all| else n
    ensures forall i :: 0 <= i < |kept| ==> kept[i] == all[i]
    ensures multiset(kept) <= multiset(all)
  {
    if |all| <= n then all
    else
      assert all == all[..n] + all[n..];
      all[..n]
  }

  /** The limited candidates still match the lookup and stay newest first. */
  lemma LimitedCandidates(rows: seq<ExposureRow>, q: ByPriceInput, since: int)
    ensures var kept := Limit(ByPriceCandidates(rows, q, since), ByPriceLimit);
      && (forall i :: 0 <= i < |kept| ==> kept[i].priceKrw == q.priceKRW && MatchesByPrice(kept[i], q, since))
      && (forall i, j :: 0 <= i < j < |kept| ==> kept[i].ts >= kept[j].ts)
  {
    var all := ByPriceCandidates(rows, q, since);
    var kept := Limit(all, ByPriceLimit);
    forall i | 0 <= i < |kept| ensures kept[i].priceKrw == q.priceKRW && MatchesByPrice(kept[i], q, since) {
      assert kept[i] == all[i];
    }
    forall i, j | 0 <= i < j < |kept| ensures kept[i].ts >= kept[j].ts {
      assert kept[i] == all[i] && kept[j] == all[j];
    }
  }

  /** `fetchExposuresByPrice`: at most 50 matching rows, newest first, or
      the store's error. */
  function FetchExposuresByPrice(store: Store, q: ByPriceInput, now: int): (r: Result<seq<ExposureRow>, Thrown>)
    ensures r.Failure? <==> store.Unavailable?
    ensures r.Failure? ==> r.error == store.thrown
    ensures r.Success? ==> |r.value| <= ByPriceLimit
    ensures r.Success? ==> forall i :: 0 <= i < |r.value| ==>
      r.value[i].priceKrw == q.priceKRW && MatchesByPrice(r.value[i], q, SinceDate(q.period, now))
    ensures r.Success? ==> forall i, j :: 0 <= i < j < |r.value| ==> r.value[i].ts >= r.value[j].ts
    ensures r.Success? ==> multiset(r.value) <= multiset(store.rows)
  {
    match store
    case Unavailable(thrown) => Failure(thrown)
    case Healthy(rows) =>
      LimitedCandidates(rows, q, SinceDate(q.period, now));
      Success(Limit(ByPriceCandidates(rows, q, SinceDate(q.period, now)), ByPriceLimit))
  }

  /** Limiting a newest-first list keeps everything when nothing is cut and
      otherwise leaves out nothing newer than what it keeps. */
  lemma LimitKeepsNewest(all: seq<ExposureRow>, n: nat, x: ExposureRow)
    requires forall i, j :: 0 <= i < j < |all| ==> all[i].ts >= all[j].ts
    ensures |all| <= n ==> multiset(Limit(all, n)) == multiset(all)
    ensures multiset(Limit(all, n))[x] < multiset(all)[x] ==> forall i :: 0 <= i < |Limit(all, n)| ==> Limit(all, n)[i].ts >= x.ts
  {
    if |all| > n && multiset(Limit(all, n))[x] < multiset(all)[x] {
      PrefixKeepsNewest(all, n, x);
    }
  }

  /** Cutting a newest-first list after `n` rows leaves out nothing newer
      than what it keeps. */
  lemma {:induction false} PrefixKeepsNewest(all: seq<ExposureRow>, n: nat, x: ExposureRow)
    requires n <= |all|
    requires forall i, j :: 0 <= i < j < |all| ==> all[i].ts >= all[j].ts
    requires multiset(all[..n])[x] < multiset(all)[x]
    ensures forall i :: 0 <= i < n ==> all[i].ts >= x.ts
  {
    assert all == all[..n] + all[n..];
    assert x in multiset(all[n..]);
    assert x in all[n..];
    var k :| 0 <= k < |all[n..]| && all[n..][k] == x;
    assert all[n + k] == x;
  }

  /** The limit keeps the newest rows: when at most 50 rows match, all of
      them are returned; otherwise exactly 50 are, and every matching row left
      out is no newer than any row kept. */
  lemma ByPriceKeepsNewest(rows: seq<ExposureRow>, q: ByPriceInput, now: int, x: ExposureRow)
    ensures var all := ByPriceCandidates(rows, q, SinceDate(q.period, now));
      var kept := FetchExposuresByPrice(Healthy(rows), q, now).value;
      && |kept| == (if |all| <= ByPriceLimit then |all| else ByPriceLimit)
      && kept == all[..|kept|]
      && multiset(kept) <= multiset(all)
      && (|all| <= ByPriceLimit ==> multiset(kept) == multiset(all))
      && (multiset(kept)[x] < multiset(all)[x] ==> forall i :: 0 <= i < |kept| ==> kept[i].ts >= x.ts)
  {
    var all := ByPriceCandidates(rows, q, SinceDate(q.period, now));
    assert FetchExposuresByPrice(Healthy(rows), q, now).value == Limit(all, ByPriceLimit);
    LimitKeepsNewest(all, ByPriceLimit, x);
  }
}
