/** The dashboard's filter record and the check that names the filters
    still to be chosen (`src/components/dashboard/types.ts`). */
module DashboardTypes {
  import opened Seqs
  import opened Text
  import opened Validators

  /** The filters of the dashboard form. The text fields are kept as the
      values they hold at run time, which need not be strings. */
  datatype DashboardFilters = DashboardFilters(
    airline: Value,
    origin: Value,
    dest: Value,
    tripType: Value,
    period: Value,
    channel: Value,
    departureDate: Value,
    arrivalDate: Value,
    minPrice: Option<int>,
    maxPrice: Option<int>)

  /** `defaultFilters`: every text field empty, no price range. */
  const DefaultFilters := DashboardFilters(Str(""), Str(""), Str(""), Str(""), Str(""), Str(""), Str(""), Str(""), None, None)

  /** The keys checked before a query is sent: every text filter but the dates. */
  datatype FilterKey = AirlineKey | OriginKey | DestKey | TripTypeKey | PeriodKey | ChannelKey

  datatype RequiredFilter = RequiredFilter(key: FilterKey, text: string)

  /** `REQUIRED_FILTER_LABELS`, in its order. */
  const RequiredFilterLabels := [
    RequiredFilter(AirlineKey, "항공사"),
    RequiredFilter(OriginKey, "출발"),
    RequiredFilter(DestKey, "도착"),
    RequiredFilter(TripTypeKey, "편도/왕복"),
    RequiredFilter(PeriodKey, "기간"),
    RequiredFilter(ChannelKey, "채널")]

  /** `f[key]`. */
  function FieldOf(f: DashboardFilters, key: FilterKey): Value {
    match key
    case AirlineKey => f.airline
    case OriginKey => f.origin
    case DestKey => f.dest
    case TripTypeKey => f.tripType
    case PeriodKey => f.period
    case ChannelKey => f.channel
  }

  /** `typeof v !== "string" || !v.trim()`. */
  predicate IsMissing(v: Value): (b: bool)
    ensures b <==> !v.Str? || AllSpace(v.s)
  {
    !v.Str? || (BlankIffAllSpace(v.s); Trim(v.s) == [])
  }

  /** `[text]` when `missing`, else nothing. */
  function LabelIf(missing: bool, text: string): (labels: seq<string>)
    ensures |labels| <= 1
  {
    if missing then [text] else []
  }

  /** The labels of the entries of `required` whose value is missing, in order. */
  function MissingLabels(f: DashboardFilters, required: seq<RequiredFilter>): (labels: seq<string>)
    ensures |labels| <= |required|
  {
    if required == [] then []
    else LabelIf(IsMissing(FieldOf(f, required[0].key)), required[0].text) + MissingLabels(f, required[1..])
  }

  /** A label no entry carries is never listed. */
  lemma {:induction false} LabelNotListed(f: DashboardFilters, required: seq<RequiredFilter>, text: string)
    requires forall i :: 0 <= i < |required| ==> required[i].text != text
    ensures text !in MissingLabels(f, required)
  {
    if required != [] {
      assert forall i :: 0 <= i < |required[1..]| ==> required[1..][i] == required[i + 1];
      LabelNotListed(f, required[1..], text);
    }
  }

  /** When no entry is missing, nothing is listed. */
  lemma {:induction false} NoneMissingNoLabels(f: DashboardFilters, required: seq<RequiredFilter>)
    requires forall i :: 0 <= i < |required| ==> !IsMissing(FieldOf(f, required[i].key))
    ensures MissingLabels(f, required) == []
  {
    if required != [] {
      assert forall i :: 0 <= i < |required[1..]| ==> required[1..][i] == required[i + 1];
      NoneMissingNoLabels(f, required[1..]);
    }
  }

  /** With pairwise different labels, the label of entry `i` is listed
      exactly when that entry is missing. */
  lemma {:induction false} LabelListedIff(f: DashboardFilters, required: seq<RequiredFilter>, i: int)
    requires 0 <= i < |required|
    requires forall i, j :: 0 <= i < j < |required| ==> required[i].text != required[j].text
    ensures required[i].text in MissingLabels(f, required) <==> IsMissing(FieldOf(f, required[i].key))
  {
    var rest := required[1..];
    assert forall k :: 0 <= k < |rest| ==> rest[k] == required[k + 1];
    var head := LabelIf(IsMissing(FieldOf(f, required[0].key)), required[0].text);
    assert MissingLabels(f, required) == head + MissingLabels(f, rest);
    if i == 0 {
      LabelNotListed(f, rest, required[0].text);
    } else {
      assert rest[i - 1] == required[i];
      assert required[0].text != required[i].text;
      LabelListedIff(f, rest, i - 1);
      assert required[i].text !in head;
    }
  }

  /** `getMissingFilterLabels`. */
  function GetMissingFilterLabels(f: DashboardFilters): (labels: seq<string>)
    ensures |labels| <= |RequiredFilterLabels|
  {
    MissingLabels(f, RequiredFilterLabels)
  }

  /** The six labels differ from one another. */
  lemma LabelTextsDistinct()
    ensures forall i, j :: 0 <= i < j < |RequiredFilterLabels| ==> RequiredFilterLabels[i].text != RequiredFilterLabels[j].text
  {
    var r := RequiredFilterLabels;
    forall i, j | 0 <= i < j < |r| ensures r[i].text != r[j].text {
      assert r[i].text[0] != r[j].text[0];
    }
  }

  /** The label of the filter at position `i` is listed exactly when that
      filter is missing. */
  lemma MissingLabelAt(f: DashboardFilters, i: int)
    requires 0 <= i < |RequiredFilterLabels|
    ensures RequiredFilterLabels[i].text in GetMissingFilterLabels(f) <==> IsMissing(FieldOf(f, RequiredFilterLabels[i].key))
  {
    LabelTextsDistinct();
    LabelListedIff(f, RequiredFilterLabels, i);
  }

  /** Nothing is reported exactly when all six required filters hold a
      non-blank string; otherwise each missing filter's label is. */
  lemma MissingLabelsMeaning(f: DashboardFilters)
    ensures GetMissingFilterLabels(f) == [] <==> forall k :: !IsMissing(FieldOf(f, k))
    ensures forall i :: 0 <= i < |RequiredFilterLabels| ==>
      (RequiredFilterLabels[i].text in GetMissingFilterLabels(f) <==> IsMissing(FieldOf(f, RequiredFilterLabels[i].key)))
  {
    var r := RequiredFilterLabels;
    var labels := GetMissingFilterLabels(f);
    forall i | 0 <= i < |r|
      ensures r[i].text in labels <==> IsMissing(FieldOf(f, r[i].key))
    {
      MissingLabelAt(f, i);
    }
    if forall k :: !IsMissing(FieldOf(f, k)) {
      NoneMissingNoLabels(f, r);
    }
    forall k | IsMissing(FieldOf(f, k))
      ensures labels != []
    {
      var i := match k
        case AirlineKey => 0
        case OriginKey => 1
        case DestKey => 2
        case TripTypeKey => 3
        case PeriodKey => 4
        case ChannelKey => 5;
      assert r[i].key == k;
    }
  }

  /** The entry at the head of the list is reported first when missing. */
  lemma MissingLabelsCons(f: DashboardFilters, e: RequiredFilter, rest: seq<RequiredFilter>)
    ensures MissingLabels(f, [e] + rest) == LabelIf(IsMissing(FieldOf(f, e.key)), e.text) + MissingLabels(f, rest)
  {
    assert ([e] + rest)[1..] == rest;
  }

  /** Spelled out: the label of each missing filter, in the order airline,
      origin, destination, trip type, period, channel. */
  lemma MissingLabelsInOrder(f: DashboardFilters)
    ensures GetMissingFilterLabels(f) ==
      LabelIf(IsMissing(f.airline), "항공사")
      + (LabelIf(IsMissing(f.origin), "출발")
      + (LabelIf(IsMissing(f.dest), "도착")
      + (LabelIf(IsMissing(f.tripType), "편도/왕복")
      + (LabelIf(IsMissing(f.period), "기간")
      + LabelIf(IsMissing(f.channel), "채널")))))
  {
    var r := RequiredFilterLabels;
    assert r[0] == RequiredFilter(AirlineKey, "항공사");
    assert r[1] == RequiredFilter(OriginKey, "출발");
    assert r[2] == RequiredFilter(DestKey, "도착");
    assert r[3] == RequiredFilter(TripTypeKey, "편도/왕복");
    assert r[4] == RequiredFilter(PeriodKey, "기간");
    assert r[5] == RequiredFilter(ChannelKey, "채널");
    assert FieldOf(f, AirlineKey) == f.airline;
    assert FieldOf(f, OriginKey) == f.origin;
    assert FieldOf(f, DestKey) == f.dest;
    assert FieldOf(f, TripTypeKey) == f.tripType;
    assert FieldOf(f, PeriodKey) == f.period;
    assert FieldOf(f, ChannelKey) == f.channel;
    MissingLabelsSix(f, r);
  }

  /** The label an entry contributes on its own. */
  function EntryLabel(f: DashboardFilters, e: RequiredFilter): seq<string> {
    LabelIf(IsMissing(FieldOf(f, e.key)), e.text)
  }

  /** Six entries report their labels one after the other. */
  lemma MissingLabelsSix(f: DashboardFilters, r: seq<RequiredFilter>)
    requires |r| == 6
    ensures MissingLabels(f, r) ==
      EntryLabel(f, r[0]) + (EntryLabel(f, r[1]) + (EntryLabel(f, r[2])
      + (EntryLabel(f, r[3]) + (EntryLabel(f, r[4]) + EntryLabel(f, r[5])))))
  {
    assert MissingLabels(f, r[6..]) == [] by { assert r[6..] == []; }
    assert MissingLabels(f, r[5..]) == EntryLabel(f, r[5]) by {
      MissingLabelsTail(f, r, 5);
      assert EntryLabel(f, r[5]) + [] == EntryLabel(f, r[5]);
    }
    MissingLabelsTail(f, r, 4);
    MissingLabelsTail(f, r, 3);
    MissingLabelsTail(f, r, 2);
    MissingLabelsTail(f, r, 1);
    MissingLabelsTail(f, r, 0);
    assert r[0..] == r;
  }

  /** The suffix from `k` reports the `k`-th entry before the rest. */
  lemma MissingLabelsTail(f: DashboardFilters, r: seq<RequiredFilter>, k: nat)
    requires k < |r|
    ensures MissingLabels(f, r[k..]) == EntryLabel(f, r[k]) + MissingLabels(f, r[k + 1..])
  {
    assert r[k..][1..] == r[k + 1..];
  }

  /** Entries with pairwise different labels give a list without repeats. */
  lemma {:induction false} MissingLabelsNoRepeats(f: DashboardFilters, required: seq<RequiredFilter>)
    requires forall i, j :: 0 <= i < j < |required| ==> required[i].text != required[j].text
    ensures Distinct(MissingLabels(f, required))
  {
    if required != [] {
      var rest := required[1..];
      assert forall i :: 0 <= i < |rest| ==> rest[i] == required[i + 1];
      MissingLabelsNoRepeats(f, rest);
      var head := LabelIf(IsMissing(FieldOf(f, required[0].key)), required[0].text);
      var tail := MissingLabels(f, rest);
      LabelNotListed(f, rest, required[0].text);
      assert MissingLabels(f, required) == head + tail;
      if head != [] {
        DistinctCons(required[0].text, tail);
      }
    }
  }

  /** No label is listed twice. */
  lemma MissingLabelsDistinct(f: DashboardFilters)
    ensures Distinct(GetMissingFilterLabels(f))
  {
    LabelTextsDistinct();
    MissingLabelsNoRepeats(f, RequiredFilterLabels);
  }

  /** The dates and the price range never make a filter count as missing. */
  lemma MissingLabelsIgnoreDatesAndPrices(f: DashboardFilters, departureDate: Value, arrivalDate: Value, minPrice: Option<int>, maxPrice: Option<int>)
    ensures GetMissingFilterLabels(f.(departureDate := departureDate, arrivalDate := arrivalDate, minPrice := minPrice, maxPrice := maxPrice))
      == GetMissingFilterLabels(f)
  {
    MissingLabelsInOrder(f);
    MissingLabelsInOrder(f.(departureDate := departureDate, arrivalDate := arrivalDate, minPrice := minPrice, maxPrice := maxPrice));
  }

  /** A value counts as given as soon as it has a non-blank character, so
      the channel "all" is a chosen channel. */
  lemma AllChannelIsChosen(f: DashboardFilters)
    requires f.channel == Str("all")
    ensures "채널" !in GetMissingFilterLabels(f)
  {
    assert RequiredFilterLabels[5] == RequiredFilter(ChannelKey, "채널");
    assert FieldOf(f, ChannelKey) == f.channel;
    assert !IsSpace(f.channel.s[0]);
    MissingLabelAt(f, 5);
  }

  /** When all six required filters are missing, all six labels are listed. */
  lemma AllMissingListsAll(f: DashboardFilters)
    requires IsMissing(f.airline) && IsMissing(f.origin) && IsMissing(f.dest)
    requires IsMissing(f.tripType) && IsMissing(f.period) && IsMissing(f.channel)
    ensures GetMissingFilterLabels(f) == ["항공사", "출발", "도착", "편도/왕복", "기간", "채널"]
  {
    MissingLabelsInOrder(f);
    var all := ["항공사", "출발", "도착", "편도/왕복", "기간", "채널"];
    assert GetMissingFilterLabels(f) == [all[0]] + ([all[1]] + ([all[2]] + ([all[3]] + ([all[4]] + [all[5]]))));
  }

  /** The default filters lack all six required values. */
  lemma DefaultFiltersMissAll()
    ensures GetMissingFilterLabels(DefaultFilters) == ["항공사", "출발", "도착", "편도/왕복", "기간", "채널"]
  {
    assert Trim("") == [];
    AllMissingListsAll(DefaultFilters);
  }
}
