/** Request validation and normalisation (`src/lib/validators.ts`). Each
    zod schema is modelled as a total function from the decoded input to
    either the parsed value or the list of issues zod would report, field by
    field in declaration order. */
module Validators {
  import opened Seqs
  import opened Text

  /** A decoded input value as a schema sees it: a string, a JSON number,
      a boolean, `null`, or anything else (an array or an object). */
  datatype Value = Str(s: string) | Num(n: real) | Flag(b: bool) | Null | Other

  datatype IssueCode =
    | Required
    | ExpectedString
    | ExpectedNumber
    | ExpectedBoolean
    | NotANumber
    | NotAnInteger
    | TooSmall(minimum: int)
    | InvalidEnum
    | InvalidUnion
    | InvalidFormat

  /** One validation problem: the field it concerns and what went wrong. */
  datatype Issue = Issue(path: string, code: IssueCode)

  /** The `period` enumeration: "24h" or "7d". */
  datatype Period = Day | Week

  /** What `exposureQuerySchema.parse` returns. */
  datatype ExposureQuery = ExposureQuery(
    airline: Option<string>,
    origin: Option<string>,
    dest: Option<string>,
    tripType: Option<string>,
    channel: Option<string>,
    period: Period,
    binSize: int,
    departureDate: Option<string>,
    arrivalDate: Option<string>,
    minPrice: Option<int>,
    maxPrice: Option<int>,
    debug: bool)

  /** What `byPriceQuerySchema.parse` returns. */
  datatype ByPriceQuery = ByPriceQuery(
    priceKRW: int,
    period: Period,
    airline: string,
    origin: string,
    dest: string,
    tripType: string,
    channel: Option<string>,
    anchorPrice: Option<int>)

  /** What `exposureEventSchema.parse` returns (without `meta`). */
  datatype ExposureEvent = ExposureEvent(
    ts: int,
    airline: string,
    origin: string,
    dest: string,
    tripType: string,
    channel: string,
    sessionId: string,
    searchId: string,
    resultRank: int,
    priceKrw: int,
    currency: string,
    isDiscounted: bool,
    departureDate: Option<string>,
    arrivalDate: Option<string>)

  type Params = map<string, Value>

  const DefaultBinSize := 10000
  const MinBinSize := 10000

  // ---------------------------------------------------------------------
  // Field-level transforms

  /** `optionalFilterString`: trim; an empty result or "all" means "no
      constraint". */
  function NormalizeFilter(raw: Option<string>): (r: Option<string>)
    ensures r.Some? ==> r.value != "" && r.value != "all" && Trimmed(r.value)
    ensures r.None? <==> raw.None? || Trim(raw.value) == "" || Trim(raw.value) == "all"
    ensures r.Some? ==> r.value == Trim(raw.value)
  {
    var s := if raw.Some? then Trim(raw.value) else "";
    if s == "" || s == "all" then None else Some(s)
  }

  /** Normalising a filter value a second time changes nothing. */
  lemma NormalizeFilterIdempotent(raw: Option<string>)
    ensures NormalizeFilter(NormalizeFilter(raw)) == NormalizeFilter(raw)
  {
    var r := NormalizeFilter(raw);
    if r.Some? {
      TrimIdempotent(r.value);
    }
  }

  /** The date transform: the trimmed text when it has the shape
      YYYY-MM-DD, otherwise absent. */
  function NormalizeDate(raw: Option<string>): (r: Option<string>)
    ensures r.Some? <==> raw.Some? && IsIsoDate(Trim(raw.value))
    ensures r.Some? ==> r.value == Trim(raw.value) && |r.value| == 10
  {
    var s := if raw.Some? then Trim(raw.value) else "";
    if s != "" && IsIsoDate(s) then Some(s) else None
  }

  /** `Number(v)` as `z.coerce.number()` applies it; None is NaN. A number
      stays itself, `true` and `false` are 1 and 0, `null` and blank text
      are 0, a digit run is the integer it spells, and an array or object is
      NaN. */
  function CoerceNumber(v: Value): (c: Option<real>)
    ensures v.Num? ==> c == Some(v.n)
    ensures v.Flag? ==> c == Some(if v.b then 1.0 else 0.0)
    ensures v.Null? ==> c == Some(0.0)
    ensures v.Other? ==> c.None?
    ensures v.Str? && Trim(v.s) == [] ==> c == Some(0.0)
    ensures v.Str? && v.s != [] && AllDigits(v.s) ==> c == Some(DigitsValue(v.s) as real)
  {
    match v
    case Str(s) =>
      if s != [] && AllDigits(s) then ParseDigits(s); ParseNumber(s) else ParseNumber(s)
    case Num(n) => Some(n)
    case Flag(b) => Some(if b then 1.0 else 0.0)
    case Null => Some(0.0)
    case Other => None
  }

  /** `v` coerces to a whole number of at least `minimum`. */
  predicate CoercesToInt(v: Value, minimum: int) {
    CoerceNumber(v).Some? && IsWhole(CoerceNumber(v).value) && CoerceNumber(v).value >= minimum as real
  }

  predicate IsWhole(n: real) {
    n.Floor as real == n
  }

  /** The `.int().min(minimum)` checks on a number, both reported. */
  function IntChecks(n: real, path: string, minimum: int): (r: Result<int, seq<Issue>>)
    ensures r.Failure? ==> r.error != []
    ensures r.Success? <==> IsWhole(n) && n >= minimum as real
    ensures r.Success? ==> r.value as real == n && r.value >= minimum
  {
    var issues := (if IsWhole(n) then [] else [Issue(path, NotAnInteger)])
      + (if n >= minimum as real then [] else [Issue(path, TooSmall(minimum))]);
    if issues == [] then Success(n.Floor) else Failure(issues)
  }

  /** `z.coerce.number().int().min(minimum)` on a present value. */
  function CoercedInt(v: Value, path: string, minimum: int): (r: Result<int, seq<Issue>>)
    ensures r.Failure? ==> r.error != []
    ensures r.Success? ==> r.value >= minimum
    ensures r.Success? <==> CoercesToInt(v, minimum)
    ensures r.Success? ==> r.value as real == CoerceNumber(v).value
  {
    match CoerceNumber(v)
    case None => Failure([Issue(path, NotANumber)])
    case Some(n) => IntChecks(n, path, minimum)
  }

  /** A query-string digit run is accepted as the integer it spells once it
      reaches the minimum: "20000" gives a `binSize` of 20000. */
  lemma DigitTextAccepted(d: string, path: string, minimum: int)
    requires d != [] && AllDigits(d) && DigitsValue(d) >= minimum
    ensures CoercedInt(Str(d), path, minimum) == Success(DigitsValue(d))
  {
  }

  /** A negative number is refused by `.min(0)` and every larger minimum:
      "-5" is too small. */
  lemma NegativeTextRefused(d: string, path: string, minimum: int)
    requires d != [] && AllDigits(d) && DigitsValue(d) > 0 && minimum >= 0
    ensures CoercedInt(Str("-" + d), path, minimum).Failure?
    ensures Issue(path, TooSmall(minimum)) in CoercedInt(Str("-" + d), path, minimum).error
  {
    ParseSignedDigits(d);
  }

  /** A number with a non-zero fractional part is refused by `.int()`:
      "12.5" is not an integer. */
  lemma FractionalTextRefused(d: string, f: string, path: string, minimum: int)
    requires d != [] && AllDigits(d) && AllDigits(f) && DigitsValue(f) > 0
    ensures CoercedInt(Str(d + "." + f), path, minimum).Failure?
    ensures Issue(path, NotAnInteger) in CoercedInt(Str(d + "." + f), path, minimum).error
  {
    var t := d + "." + f;
    ParseFractionBetween(d, f);
    assert !AllDigits(t) by {
      assert !IsDigit(t[|d|]);
    }
    assert CoerceNumber(Str(t)) == ParseNumber(t);
    NotWhole(ParseNumber(t).value, DigitsValue(d));
    RefusedWhenNotWhole(Str(t), ParseNumber(t).value, path, minimum);
  }

  /** A value that coerces to a number with a fractional part is refused. */
  lemma RefusedWhenNotWhole(v: Value, n: real, path: string, minimum: int)
    requires CoerceNumber(v) == Some(n) && !IsWhole(n)
    ensures CoercedInt(v, path, minimum).Failure?
    ensures Issue(path, NotAnInteger) in CoercedInt(v, path, minimum).error
  {
  }

  /** A number strictly between two consecutive integers is not whole. */
  lemma NotWhole(x: real, w: int)
    requires w as real < x < w as real + 1.0
    ensures !IsWhole(x)
  {
    assert x.Floor == w;
  }

  /** `z.number().int().min(minimum)`: no coercion, a string is refused. */
  function StrictInt(v: Value, path: string, minimum: int): (r: Result<int, seq<Issue>>)
    ensures r.Failure? ==> r.error != []
    ensures r.Success? <==> v.Num? && IsWhole(v.n) && v.n >= minimum as real
    ensures r.Success? ==> r.value >= minimum && r.value as real == v.n
  {
    if v.Num? then IntChecks(v.n, path, minimum) else Failure([Issue(path, ExpectedNumber)])
  }

  function IssuesOf<X>(r: Result<X, seq<Issue>>): seq<Issue> {
    if r.Failure? then r.error else []
  }

  // ---------------------------------------------------------------------
  // Fields of a params object

  /** The text of a field when it is present and a string. */
  function RawText(params: Params, key: string): Option<string> {
    if key in params && params[key].Str? then Some(params[key].s) else None
  }

  /** An `optionalFilterString` field. */
  function FilterField(params: Params, key: string): (r: Result<Option<string>, seq<Issue>>)
    ensures r.Failure? ==> r.error != []
    ensures r.Success? <==> key !in params || params[key].Str?
    ensures r.Success? ==> r.value == NormalizeFilter(RawText(params, key))
  {
    if key !in params then Success(NormalizeFilter(None))
    else if params[key].Str? then Success(NormalizeFilter(Some(params[key].s)))
    else Failure([Issue(key, ExpectedString)])
  }

  /** An optional date field: a malformed date string is dropped, never refused. */
  function DateField(params: Params, key: string): (r: Result<Option<string>, seq<Issue>>)
    ensures r.Failure? ==> r.error != []
    ensures r.Success? <==> key !in params || params[key].Str?
    ensures r.Success? ==> r.value == NormalizeDate(RawText(params, key))
  {
    if key !in params then Success(NormalizeDate(None))
    else if params[key].Str? then Success(NormalizeDate(Some(params[key].s)))
    else Failure([Issue(key, ExpectedString)])
  }

  function PeriodOf(v: Value, key: string): (r: Result<Period, seq<Issue>>)
    ensures r.Failure? ==> r.error != []
    ensures r.Success? <==> v == Str("24h") || v == Str("7d")
    ensures r.Success? ==> (r.value == Week <==> v == Str("7d"))
  {
    if v == Str("24h") then Success(Day)
    else if v == Str("7d") then Success(Week)
    else if v.Str? then Failure([Issue(key, InvalidEnum)])
    else Failure([Issue(key, ExpectedString)])
  }

  /** `z.enum(["24h", "7d"]).optional().default("24h")`. */
  function DefaultedPeriod(params: Params, key: string): (r: Result<Period, seq<Issue>>)
    ensures r.Failure? ==> r.error != []
    ensures key !in params ==> r == Success(Day)
    ensures key in params ==> r == PeriodOf(params[key], key)
  {
    if key !in params then Success(Day) else PeriodOf(params[key], key)
  }

  /** `z.coerce.number().int().min(minimum).optional()`. */
  function OptionalInt(params: Params, key: string, minimum: int): (r: Result<Option<int>, seq<Issue>>)
    ensures r.Failure? ==> r.error != []
    ensures key !in params ==> r == Success(None)
    ensures r.Success? && r.value.Some? ==> key in params && r.value.value >= minimum
    ensures key in params ==> (r.Success? <==> CoercedInt(params[key], key, minimum).Success?)
    ensures key in params && r.Success? ==> r.value == Some(CoercedInt(params[key], key, minimum).value)
  {
    if key !in params then Success(None)
    else
      match CoercedInt(params[key], key, minimum)
      case Success(n) => Success(Some(n))
      case Failure(e) => Failure(e)
  }

  /** The `debug` flag: the union of a string and a coerced number, then
      `v === "1" || v === 1`. */
  function DebugField(params: Params, key: string): (r: Result<bool, seq<Issue>>)
    ensures r.Failure? ==> r.error != []
    ensures r.Success? && r.value <==> key in params && (params[key] == Str("1") || (!params[key].Str? && CoerceNumber(params[key]) == Some(1.0)))
  {
    if key !in params then Success(false)
    else match params[key]
      case Str(s) => Success(s == "1")
      case _ =>
        match CoerceNumber(params[key])
        case Some(n) => Success(n == 1.0)
        case None => Failure([Issue(key, InvalidUnion)])
  }

  // ---------------------------------------------------------------------
  // Schemas

  /** A field that is absent or holds text. */
  predicate TextOrAbsent(params: Params, key: string) {
    key !in params || params[key].Str?
  }

  /** A field that is absent or coerces to a whole number of at least `minimum`. */
  predicate IntOrAbsent(params: Params, key: string, minimum: int) {
    key !in params || CoercesToInt(params[key], minimum)
  }

  /** One of the two `period` values. */
  predicate IsPeriodText(v: Value) {
    v == Str("24h") || v == Str("7d")
  }

  /** The query strings `exposureQuerySchema` accepts, stated field by field
      on the input: text filters and dates, a known period, a whole `binSize`
      of at least 10000, whole non-negative prices, and a `debug` value that
      is text or coerces to a number. */
  predicate ExposureQueryAccepted(params: Params) {
    && TextOrAbsent(params, "airline")
    && TextOrAbsent(params, "origin")
    && TextOrAbsent(params, "dest")
    && TextOrAbsent(params, "tripType")
    && TextOrAbsent(params, "channel")
    && ("period" !in params || IsPeriodText(params["period"]))
    && IntOrAbsent(params, "binSize", MinBinSize)
    && TextOrAbsent(params, "departureDate")
    && TextOrAbsent(params, "arrivalDate")
    && IntOrAbsent(params, "minPrice", 0)
    && IntOrAbsent(params, "maxPrice", 0)
    && ("debug" !in params || params["debug"].Str? || CoerceNumber(params["debug"]).Some?)
  }

  /** `exposureQuerySchema.parse`: all issues of all fields are collected. */
  function ParseExposureQuery(params: Params): (r: Result<ExposureQuery, seq<Issue>>)
    ensures r.Failure? ==> r.error != []
    ensures r.Success? ==> (
      && r.value.airline == NormalizeFilter(RawText(params, "airline"))
      && r.value.origin == NormalizeFilter(RawText(params, "origin"))
      && r.value.dest == NormalizeFilter(RawText(params, "dest"))
      && r.value.tripType == NormalizeFilter(RawText(params, "tripType"))
      && r.value.channel == NormalizeFilter(RawText(params, "channel"))
      && r.value.departureDate == NormalizeDate(RawText(params, "departureDate"))
      && r.value.arrivalDate == NormalizeDate(RawText(params, "arrivalDate")))
    ensures r.Success? ==> r.value.binSize >= MinBinSize
    ensures r.Success? && "binSize" !in params ==> r.value.binSize == DefaultBinSize
    ensures r.Success? && "period" !in params ==> r.value.period == Day
    ensures "period" in params && params["period"] != Str("24h") && params["period"] != Str("7d") ==> r.Failure?
    ensures r.Success? && r.value.minPrice.Some? ==> r.value.minPrice.value >= 0
    ensures r.Success? && r.value.maxPrice.Some? ==> r.value.maxPrice.value >= 0
    ensures r.Success? ==> (
      r.value.debug <==> "debug" in params && (params["debug"] == Str("1") || (!params["debug"].Str? && CoerceNumber(params["debug"]) == Some(1.0))))
    ensures r.Success? <==> ExposureQueryAccepted(params)
    ensures r.Success? ==> (r.value.period == Week <==> "period" in params && params["period"] == Str("7d"))
    ensures r.Success? && "binSize" in params ==> r.value.binSize as real == CoerceNumber(params["binSize"]).value
    ensures r.Success? ==> (r.value.minPrice.Some? <==> "minPrice" in params) && (r.value.maxPrice.Some? <==> "maxPrice" in params)
    ensures r.Success? && "minPrice" in params ==> r.value.minPrice.value as real == CoerceNumber(params["minPrice"]).value
    ensures r.Success? && "maxPrice" in params ==> r.value.maxPrice.value as real == CoerceNumber(params["maxPrice"]).value
  {
    var airline := FilterField(params, "airline");
    var origin := FilterField(params, "origin");
    var dest := FilterField(params, "dest");
    var tripType := FilterField(params, "tripType");
    var channel := FilterField(params, "channel");
    var period := DefaultedPeriod(params, "period");
    var binSize :=
      if "binSize" !in params then Success(DefaultBinSize)
      else CoercedInt(params["binSize"], "binSize", MinBinSize);
    var departureDate := DateField(params, "departureDate");
    var arrivalDate := DateField(params, "arrivalDate");
    var minPrice := OptionalInt(params, "minPrice", 0);
    var maxPrice := OptionalInt(params, "maxPrice", 0);
    var debug := DebugField(params, "debug");
    var issues := IssuesOf(airline) + IssuesOf(origin) + IssuesOf(dest) + IssuesOf(tripType)
      + IssuesOf(channel) + IssuesOf(period) + IssuesOf(binSize) + IssuesOf(departureDate)
      + IssuesOf(arrivalDate) + IssuesOf(minPrice) + IssuesOf(maxPrice) + IssuesOf(debug);
    assert |issues| == |IssuesOf(airline)| + |IssuesOf(origin)| + |IssuesOf(dest)| + |IssuesOf(tripType)|
      + |IssuesOf(channel)| + |IssuesOf(period)| + |IssuesOf(binSize)| + |IssuesOf(departureDate)|
      + |IssuesOf(arrivalDate)| + |IssuesOf(minPrice)| + |IssuesOf(maxPrice)| + |IssuesOf(debug)|;
    if issues != [] then Failure(issues)
    else
      Success(ExposureQuery(
        airline.value, origin.value, dest.value, tripType.value, channel.value,
        period.value, binSize.value, departureDate.value, arrivalDate.value,
        minPrice.value, maxPrice.value, debug.value))
  }

  /** Every filter of a parsed query is absent or a trimmed value other than
      "" and "all", and every date is absent or of the form YYYY-MM-DD. */
  lemma ParsedQueryIsNormal(params: Params)
    requires ParseExposureQuery(params).Success?
    ensures var q := ParseExposureQuery(params).value;
      && (q.airline.Some? ==> q.airline.value != "" && q.airline.value != "all" && Trimmed(q.airline.value))
      && (q.origin.Some? ==> q.origin.value != "" && q.origin.value != "all" && Trimmed(q.origin.value))
      && (q.dest.Some? ==> q.dest.value != "" && q.dest.value != "all" && Trimmed(q.dest.value))
      && (q.tripType.Some? ==> q.tripType.value != "" && q.tripType.value != "all" && Trimmed(q.tripType.value))
      && (q.channel.Some? ==> q.channel.value != "" && q.channel.value != "all" && Trimmed(q.channel.value))
      && (q.departureDate.Some? ==> IsIsoDate(q.departureDate.value))
      && (q.arrivalDate.Some? ==> IsIsoDate(q.arrivalDate.value))
  {
  }

  /** A string date field never makes the query fail: swapping any string
      into `departureDate` leaves the outcome of the other fields alone and
      keeps it only when it is a well-formed date. */
  lemma DateNeverRefused(params: Params, raw: string)
    requires ParseExposureQuery(params).Success?
    ensures var r := ParseExposureQuery(params["departureDate" := Str(raw)]);
      && r.Success?
      && (r.value.departureDate.Some? <==> IsIsoDate(Trim(raw)))
  {
    var p' := params["departureDate" := Str(raw)];
    assert FilterField(p', "airline") == FilterField(params, "airline");
    assert FilterField(p', "origin") == FilterField(params, "origin");
    assert FilterField(p', "dest") == FilterField(params, "dest");
    assert FilterField(p', "tripType") == FilterField(params, "tripType");
    assert FilterField(p', "channel") == FilterField(params, "channel");
    assert DefaultedPeriod(p', "period") == DefaultedPeriod(params, "period");
    assert DateField(p', "arrivalDate") == DateField(params, "arrivalDate");
    assert OptionalInt(p', "minPrice", 0) == OptionalInt(params, "minPrice", 0);
    assert OptionalInt(p', "maxPrice", 0) == OptionalInt(params, "maxPrice", 0);
    assert DebugField(p', "debug") == DebugField(params, "debug");
    assert ("binSize" in p') == ("binSize" in params);
    assert "binSize" in params ==> p'["binSize"] == params["binSize"];
    assert DateField(p', "departureDate").Success?;
  }

  /** A filter field counts as blank when it is absent or only whitespace. */
  predicate Blank(v: Option<string>) {
    v.None? || Trim(v.value) == ""
  }

  /** The name of the `i`-th of the four route fields `requireExposureFilters`
      checks, in its order. */
  function RequiredName(i: int): string {
    if i == 0 then "airline" else if i == 1 then "origin" else if i == 2 then "dest" else "tripType"
  }

  /** The value of the `i`-th of those fields. */
  function RequiredValue(q: ExposureQuery, i: int): Option<string> {
    if i == 0 then q.airline else if i == 1 then q.origin else if i == 2 then q.dest else q.tripType
  }

  /** The start of every message `requireExposureFilters` returns. */
  const MissingFiltersPrefix := "missing required filters: "

  /** `requireExposureFilters`: the message naming the first blank field, or
      None when all four are filled in. */
  function RequireExposureFilters(q: ExposureQuery): (r: Option<string>)
    ensures r.None? <==> !Blank(q.airline) && !Blank(q.origin) && !Blank(q.dest) && !Blank(q.tripType)
    ensures r.Some? ==> |r.value| > |MissingFiltersPrefix| && r.value[..|MissingFiltersPrefix|] == MissingFiltersPrefix
  {
    if Blank(q.airline) then Some(MissingFiltersPrefix + "airline")
    else if Blank(q.origin) then Some(MissingFiltersPrefix + "origin")
    else if Blank(q.dest) then Some(MissingFiltersPrefix + "dest")
    else if Blank(q.tripType) then Some(MissingFiltersPrefix + "tripType")
    else None
  }

  /** Field `i` is blank and every field before it is filled in. */
  predicate FirstBlankAt(q: ExposureQuery, i: int) {
    0 <= i < 4 && Blank(RequiredValue(q, i)) && forall j :: 0 <= j < i ==> !Blank(RequiredValue(q, j))
  }

  /** The check passes exactly when none of the four fields is blank, and
      otherwise names the first blank one in the order airline, origin,
      dest, tripType. */
  lemma RequireExposureFiltersFirstBlank(q: ExposureQuery)
    ensures RequireExposureFilters(q).None? <==> forall i :: 0 <= i < 4 ==> !Blank(RequiredValue(q, i))
    ensures RequireExposureFilters(q).Some? ==>
      exists i :: FirstBlankAt(q, i) && RequireExposureFilters(q).value == MissingFiltersPrefix + RequiredName(i)
  {
    var r := RequireExposureFilters(q);
    if Blank(q.airline) {
      assert FirstBlankAt(q, 0);
      assert r.value == MissingFiltersPrefix + RequiredName(0);
    } else if Blank(q.origin) {
      assert FirstBlankAt(q, 1) by {
        forall j | 0 <= j < 1 ensures !Blank(RequiredValue(q, j)) {
          assert j == 0;
        }
      }
      assert r.value == MissingFiltersPrefix + RequiredName(1);
    } else if Blank(q.dest) {
      assert FirstBlankAt(q, 2) by {
        forall j | 0 <= j < 2 ensures !Blank(RequiredValue(q, j)) {
          assert j == 0 || j == 1;
        }
      }
      assert r.value == MissingFiltersPrefix + RequiredName(2);
    } else if Blank(q.tripType) {
      assert FirstBlankAt(q, 3) by {
        forall j | 0 <= j < 3 ensures !Blank(RequiredValue(q, j)) {
          assert j == 0 || j == 1 || j == 2;
        }
      }
      assert r.value == MissingFiltersPrefix + RequiredName(3);
    } else {
      forall i | 0 <= i < 4 ensures !Blank(RequiredValue(q, i)) {
        assert i == 0 || i == 1 || i == 2 || i == 3;
      }
    }
  }

  /** On a parsed query, "blank" and "absent" coincide, so the check passes
      exactly when the four route filters were given. */
  lemma RequireOnParsedQuery(params: Params)
    requires ParseExposureQuery(params).Success?
    ensures var q := ParseExposureQuery(params).value;
      RequireExposureFilters(q).None? <==> q.airline.Some? && q.origin.Some? && q.dest.Some? && q.tripType.Some?
  {
    var q := ParseExposureQuery(params).value;
    NormalizedBlankIsAbsent(RawText(params, "airline"));
    NormalizedBlankIsAbsent(RawText(params, "origin"));
    NormalizedBlankIsAbsent(RawText(params, "dest"));
    NormalizedBlankIsAbsent(RawText(params, "tripType"));
    assert RequireExposureFilters(q).None? <==> !Blank(q.airline) && !Blank(q.origin) && !Blank(q.dest) && !Blank(q.tripType);
  }

  /** A normalised filter is blank exactly when it is absent. */
  lemma NormalizedBlankIsAbsent(raw: Option<string>)
    ensures Blank(NormalizeFilter(raw)) <==> NormalizeFilter(raw).None?
  {
    var r := NormalizeFilter(raw);
    if r.Some? {
      TrimIdempotent(Trim(raw.value));
    }
  }

  /** `z.string().min(1)`: a required non-empty string (not trimmed). */
  function NonEmptyString(params: Params, key: string): (r: Result<string, seq<Issue>>)
    ensures r.Failure? ==> r.error != []
    ensures r.Success? <==> key in params && params[key].Str? && |params[key].s| >= 1
    ensures r.Success? ==> r.value == params[key].s
  {
    if key !in params then Failure([Issue(key, Required)])
    else if !params[key].Str? then Failure([Issue(key, ExpectedString)])
    else if |params[key].s| < 1 then Failure([Issue(key, TooSmall(1))])
    else Success(params[key].s)
  }

  /** `z.string().optional()`: kept as given. */
  function OptionalString(params: Params, key: string): (r: Result<Option<string>, seq<Issue>>)
    ensures r.Failure? ==> r.error != []
    ensures r.Success? <==> key !in params || params[key].Str?
    ensures r.Success? && key in params ==> r.value == Some(params[key].s)
    ensures key !in params ==> r == Success(None)
  {
    if key !in params then Success(None)
    else if params[key].Str? then Success(Some(params[key].s))
    else Failure([Issue(key, ExpectedString)])
  }

  /** A field holding non-empty text. */
  predicate NonEmptyText(params: Params, key: string) {
    key in params && params[key].Str? && |params[key].s| >= 1
  }

  /** The query strings `byPriceQuerySchema` accepts: a price that coerces
      to a whole number of at least 0, a known period, four non-empty route
      fields, a text channel if any, and a whole non-negative anchor if any. */
  predicate ByPriceQueryAccepted(params: Params) {
    && "priceKRW" in params && CoercesToInt(params["priceKRW"], 0)
    && "period" in params && IsPeriodText(params["period"])
    && NonEmptyText(params, "airline")
    && NonEmptyText(params, "origin")
    && NonEmptyText(params, "dest")
    && NonEmptyText(params, "tripType")
    && TextOrAbsent(params, "channel")
    && IntOrAbsent(params, "anchorPrice", 0)
  }

  /** `byPriceQuerySchema.parse`: price and period are required, the four
      route fields must be non-empty strings, the anchor is optional. */
  function ParseByPriceQuery(params: Params): (r: Result<ByPriceQuery, seq<Issue>>)
    ensures r.Failure? ==> r.error != []
    ensures r.Success? ==> r.value.priceKRW >= 0
    ensures r.Success? ==> |r.value.airline| >= 1 && |r.value.origin| >= 1 && |r.value.dest| >= 1 && |r.value.tripType| >= 1
    ensures r.Success? && r.value.anchorPrice.Some? ==> r.value.anchorPrice.value >= 0
    ensures "period" !in params ==> r.Failure?
    ensures "priceKRW" !in params ==> r.Failure?
    ensures r.Success? ==> (
      && RawText(params, "airline") == Some(r.value.airline)
      && RawText(params, "origin") == Some(r.value.origin)
      && RawText(params, "dest") == Some(r.value.dest)
      && RawText(params, "tripType") == Some(r.value.tripType))
    ensures r.Success? <==> ByPriceQueryAccepted(params)
    ensures r.Success? ==> r.value.priceKRW as real == CoerceNumber(params["priceKRW"]).value
    ensures r.Success? ==> (r.value.period == Week <==> params["period"] == Str("7d"))
    ensures r.Success? ==> r.value.channel == RawText(params, "channel")
    ensures r.Success? ==> (r.value.anchorPrice.Some? <==> "anchorPrice" in params)
    ensures r.Success? && "anchorPrice" in params ==> r.value.anchorPrice.value as real == CoerceNumber(params["anchorPrice"]).value
  {
    var price :=
      if "priceKRW" !in params then Failure([Issue("priceKRW", NotANumber)])
      else CoercedInt(params["priceKRW"], "priceKRW", 0);
    var period :=
      if "period" !in params then Failure([Issue("period", Required)])
      else PeriodOf(params["period"], "period");
    var airline := NonEmptyString(params, "airline");
    var origin := NonEmptyString(params, "origin");
    var dest := NonEmptyString(params, "dest");
    var tripType := NonEmptyString(params, "tripType");
    var channel := OptionalString(params, "channel");
    var anchor := OptionalInt(params, "anchorPrice", 0);
    var issues := IssuesOf(price) + IssuesOf(period) + IssuesOf(airline) + IssuesOf(origin)
      + IssuesOf(dest) + IssuesOf(tripType) + IssuesOf(channel) + IssuesOf(anchor);
    assert |issues| == |IssuesOf(price)| + |IssuesOf(period)| + |IssuesOf(airline)| + |IssuesOf(origin)|
      + |IssuesOf(dest)| + |IssuesOf(tripType)| + |IssuesOf(channel)| + |IssuesOf(anchor)|;
    if issues != [] then Failure(issues)
    else
      Success(ByPriceQuery(
        price.value, period.value, airline.value, origin.value, dest.value,
        tripType.value, channel.value, anchor.value))
  }

  /** The `trip_type` enumeration of an ingested event. */
  predicate IsTripType(s: string) {
    s == "OW" || s == "RT" || s == "MC"
  }

  function TripTypeField(params: Params, key: string): (r: Result<string, seq<Issue>>)
    ensures r.Failure? ==> r.error != []
    ensures r.Success? <==> key in params && params[key].Str? && IsTripType(params[key].s)
    ensures r.Success? ==> r.value == params[key].s
  {
    if key !in params then Failure([Issue(key, Required)])
    else if !params[key].Str? then Failure([Issue(key, ExpectedString)])
    else if IsTripType(params[key].s) then Success(params[key].s)
    else Failure([Issue(key, InvalidEnum)])
  }

  /** `z.number().int().min(minimum)`, required. */
  function RequiredStrictInt(params: Params, key: string, minimum: int): (r: Result<int, seq<Issue>>)
    ensures r.Failure? ==> r.error != []
    ensures r.Success? <==> key in params && StrictInt(params[key], key, minimum).Success?
    ensures r.Success? ==> r.value >= minimum && r.value as real == params[key].n
  {
    if key !in params then Failure([Issue(key, Required)]) else StrictInt(params[key], key, minimum)
  }

  /** An optional `YYYY-MM-DD` string of an event (not trimmed). */
  function OptionalIsoDate(params: Params, key: string): (r: Result<Option<string>, seq<Issue>>)
    ensures r.Failure? ==> r.error != []
    ensures r.Success? && r.value.Some? ==> IsIsoDate(r.value.value)
    ensures r.Success? <==> key !in params || (params[key].Str? && IsIsoDate(params[key].s))
    ensures r.Success? ==> r.value == RawText(params, key)
  {
    if key !in params then Success(None)
    else if !params[key].Str? then Failure([Issue(key, ExpectedString)])
    else if IsIsoDate(params[key].s) then Success(Some(params[key].s))
    else Failure([Issue(key, InvalidFormat)])
  }

  /** A field holding a whole JSON number of at least `minimum`; text is
      not coerced. */
  predicate WholeNumberAt(obj: Params, key: string, minimum: int) {
    key in obj && obj[key].Num? && IsWhole(obj[key].n) && obj[key].n >= minimum as real
  }

  /** A field that is absent or a `YYYY-MM-DD` string. */
  predicate IsoDateOrAbsent(obj: Params, key: string) {
    key !in obj || (obj[key].Str? && IsIsoDate(obj[key].s))
  }

  /** The objects `exposureEventSchema` accepts, stated on the input: a
      date-time `ts`, six non-empty text fields, a known trip type, whole
      non-negative rank and price, text currency and boolean discount flag
      when given, and well-shaped dates when given. */
  predicate ExposureEventAccepted(obj: Params, isDateTime: string -> bool) {
    && "ts" in obj && obj["ts"].Str? && isDateTime(obj["ts"].s)
    && NonEmptyText(obj, "airline")
    && NonEmptyText(obj, "origin")
    && NonEmptyText(obj, "dest")
    && "trip_type" in obj && obj["trip_type"].Str? && IsTripType(obj["trip_type"].s)
    && NonEmptyText(obj, "channel")
    && NonEmptyText(obj, "session_id")
    && NonEmptyText(obj, "search_id")
    && WholeNumberAt(obj, "result_rank", 0)
    && WholeNumberAt(obj, "price_krw", 0)
    && TextOrAbsent(obj, "currency")
    && ("is_discounted" !in obj || obj["is_discounted"].Flag?)
    && IsoDateOrAbsent(obj, "departure_date")
    && IsoDateOrAbsent(obj, "arrival_date")
  }

  /** `exposureEventSchema.parse`. Whether a string is an ISO date-time and
      the instant it denotes are supplied by the caller (`isDateTime`,
      `instantOf`). */
  function ParseExposureEvent(obj: Params, isDateTime: string -> bool, instantOf: string -> int): (r: Result<ExposureEvent, seq<Issue>>)
    ensures r.Failure? ==> r.error != []
    ensures r.Success? ==> r.value.priceKrw >= 0 && r.value.resultRank >= 0
    ensures r.Success? ==> IsTripType(r.value.tripType)
    ensures r.Success? ==> (|r.value.airline| >= 1 && |r.value.origin| >= 1 && |r.value.dest| >= 1
      && |r.value.channel| >= 1 && |r.value.sessionId| >= 1 && |r.value.searchId| >= 1)
    ensures r.Success? ==> (r.value.currency == "KRW" <==> "currency" !in obj || obj["currency"] == Str("KRW"))
    ensures ("price_krw" !in obj || !StrictInt(obj["price_krw"], "price_krw", 0).Success?) ==> r.Failure?
    ensures ("result_rank" !in obj || !StrictInt(obj["result_rank"], "result_rank", 0).Success?) ==> r.Failure?
    ensures ("trip_type" !in obj || !obj["trip_type"].Str? || !IsTripType(obj["trip_type"].s)) ==> r.Failure?
    ensures r.Success? <==> ExposureEventAccepted(obj, isDateTime)
    ensures r.Success? ==> (
      && r.value.ts == instantOf(obj["ts"].s)
      && r.value.airline == obj["airline"].s
      && r.value.origin == obj["origin"].s
      && r.value.dest == obj["dest"].s
      && r.value.tripType == obj["trip_type"].s
      && r.value.channel == obj["channel"].s
      && r.value.sessionId == obj["session_id"].s
      && r.value.searchId == obj["search_id"].s
      && r.value.resultRank as real == obj["result_rank"].n
      && r.value.priceKrw as real == obj["price_krw"].n
      && r.value.currency == (if "currency" in obj then obj["currency"].s else "KRW")
      && r.value.isDiscounted == ("is_discounted" in obj && obj["is_discounted"].b)
      && r.value.departureDate == RawText(obj, "departure_date")
      && r.value.arrivalDate == RawText(obj, "arrival_date"))
  {
    var ts :=
      if "ts" in obj && obj["ts"].Str? && isDateTime(obj["ts"].s) then Success(instantOf(obj["ts"].s))
      else Failure([Issue("ts", InvalidUnion)]);
    var airline := NonEmptyString(obj, "airline");
    var origin := NonEmptyString(obj, "origin");
    var dest := NonEmptyString(obj, "dest");
    var tripType := TripTypeField(obj, "trip_type");
    var channel := NonEmptyString(obj, "channel");
    var sessionId := NonEmptyString(obj, "session_id");
    var searchId := NonEmptyString(obj, "search_id");
    var rank := RequiredStrictInt(obj, "result_rank", 0);
    var price := RequiredStrictInt(obj, "price_krw", 0);
    var currency := OptionalString(obj, "currency");
    var discounted :=
      if "is_discounted" !in obj then Success(false)
      else if obj["is_discounted"].Flag? then Success(obj["is_discounted"].b)
      else Failure([Issue("is_discounted", ExpectedBoolean)]);
    var departure := OptionalIsoDate(obj, "departure_date");
    var arrival := OptionalIsoDate(obj, "arrival_date");
    var issues := IssuesOf(ts) + IssuesOf(airline) + IssuesOf(origin) + IssuesOf(dest)
      + IssuesOf(tripType) + IssuesOf(channel) + IssuesOf(sessionId) + IssuesOf(searchId)
      + IssuesOf(rank) + IssuesOf(price) + IssuesOf(currency) + IssuesOf(discounted)
      + IssuesOf(departure) + IssuesOf(arrival);
    if issues != [] then Failure(issues)
    else
      assert |issues| == |IssuesOf(ts)| + |IssuesOf(airline)| + |IssuesOf(origin)| + |IssuesOf(dest)|
        + |IssuesOf(tripType)| + |IssuesOf(channel)| + |IssuesOf(sessionId)| + |IssuesOf(searchId)|
        + |IssuesOf(rank)| + |IssuesOf(price)| + |IssuesOf(currency)| + |IssuesOf(discounted)|
        + |IssuesOf(departure)| + |IssuesOf(arrival)|;
      Success(ExposureEvent(
        ts.value, airline.value, origin.value, dest.value, tripType.value, channel.value,
        sessionId.value, searchId.value, rank.value, price.value,
        if currency.value.Some? then currency.value.value else "KRW",
        discounted.value, departure.value, arrival.value))
  }
}
