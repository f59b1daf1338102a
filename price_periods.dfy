/** clean_price_data.py: keep the Price Paid records of the seven study towns
    and label each with its railway treatment period. */
module PricePeriods {
  import opened Frames
  import opened Text

  /** A Price Paid record as read: the transfer date and town/city text as
      they stand in the file; the fourteen other columns travel in `rest`. */
  datatype RawSale<X> = RawSale(dateOfTransfer: Option<string>, town: Option<string>, rest: X)

  /** A record after the date is parsed, the town upper-cased and the year
      extracted. */
  datatype Sale<X> = Sale(dateOfTransfer: Option<Date>, town: string, yearOfTransaction: Option<int>, rest: X)

  /** A record with the added `railway_period` column. */
  datatype LabelledSale<X> = LabelledSale(sale: Sale<X>, railwayPeriod: string)

  /** Towns that gained a station during the study window. */
  const CoreTowns: seq<string> := ["CORBY", "BICESTER", "KENILWORTH"]
  /** Control towns that had a station throughout. */
  const AlwaysStation: seq<string> := ["REDDITCH", "KETTERING"]
  /** Control towns without a station. */
  const NoStation: seq<string> := ["WISBECH", "RUSHDEN"]
  const TargetCities: seq<string> := CoreTowns + AlwaysStation + NoStation

  /** The opening date of each core town's station: sales strictly before it
      are `Pre`, sales on or after it are `Post`. */
  const StationOpening: map<string, Date> :=
    map["CORBY" := Date(2009, 2, 1), "BICESTER" := Date(2016, 12, 1), "KENILWORTH" := Date(2018, 4, 30)]

  const PeriodLabels: set<string> := {"Pre", "Post", "Control-Station", "Control-NoStation", "Unknown"}

  /** Lines 17-21: `to_datetime(errors='coerce')`, `astype(str).str.upper()`
      and `.dt.year`; unparsable or missing dates become `None`. */
  function Standardize<X>(raw: RawSale<X>, parseDate: string -> Option<Date>): (s: Sale<X>)
    ensures s.rest == raw.rest
    ensures forall c :: c in s.town ==> !IsLowerLetter(c)
    ensures s.town == Upper(AsStr(raw.town))
    ensures raw.dateOfTransfer.None? ==> s.dateOfTransfer.None?
    ensures raw.dateOfTransfer.Some? ==> s.dateOfTransfer == parseDate(raw.dateOfTransfer.value)
    ensures s.yearOfTransaction.Some? <==> s.dateOfTransfer.Some?
    ensures s.yearOfTransaction.Some? ==> s.yearOfTransaction.value == s.dateOfTransfer.value.year
  {
    var date := match raw.dateOfTransfer
      case None => None
      case Some(t) => parseDate(t);
    Sale(date,
         Upper(AsStr(raw.town)),
         match date case None => None case Some(d) => Some(d.year),
         raw.rest)
  }

  predicate IsTargetTown<X>(s: Sale<X>) { s.town in TargetCities }

  /** Lines 31-33: the records of the seven study towns, in file order. */
  function SelectTargetTowns<X>(sales: seq<Sale<X>>): (kept: seq<Sale<X>>)
    ensures forall s :: s in kept ==> s in sales && s.town in TargetCities
    ensures forall s :: s in sales && s.town in TargetCities ==> s in kept
    ensures IsSubsequence(kept, sales)
  {
    FilterIsSubsequence(sales, IsTargetTown);
    Filter(sales, IsTargetTown)
  }

  /** Lines 36-51: `assign_period`. */
  function AssignPeriod(town: string, date: Option<Date>): (period: string)
    ensures period in PeriodLabels
    ensures period == "Unknown" <==> date.None? || town !in TargetCities
    ensures period == "Pre" || period == "Post" <==> date.Some? && town in CoreTowns
    ensures town in StationOpening && date.Some? ==>
              (period == "Pre" <==> Before(date.value, StationOpening[town]))
    ensures period == "Control-Station" <==> date.Some? && town in AlwaysStation
    ensures period == "Control-NoStation" <==> date.Some? && town in NoStation
  {
    if date.None? then "Unknown"
    else if town == "CORBY" then (if Before(date.value, Date(2009, 2, 1)) then "Pre" else "Post")
    else if town == "BICESTER" then (if Before(date.value, Date(2016, 12, 1)) then "Pre" else "Post")
    else if town == "KENILWORTH" then (if Before(date.value, Date(2018, 4, 30)) then "Pre" else "Post")
    else if town in AlwaysStation then "Control-Station"
    else if town in NoStation then "Control-NoStation"
    else "Unknown"
  }

  /** The opening day itself is already `Post`. */
  lemma OpeningDayIsPost(town: string)
    requires town in StationOpening
    ensures AssignPeriod(town, Some(StationOpening[town])) == "Post"
  {
  }

  /** For a core town the label is monotone in the date: once `Post`, every
      later sale is `Post` too. */
  lemma PostIsMonotone(town: string, d1: Date, d2: Date)
    requires town in CoreTowns
    requires AssignPeriod(town, Some(d1)) == "Post"
    requires !Before(d2, d1)
    ensures AssignPeriod(town, Some(d2)) == "Post"
  {
    var cutoff := StationOpening[town];
    assert !Before(d1, cutoff);
    BeforeIsStrictTotalOrder(d2, cutoff, d1);
    BeforeIsStrictTotalOrder(d1, d2, cutoff);
  }

  /** Line 53: `df_filtered.apply(assign_period, axis=1)` adds the
      `railway_period` column and leaves every other field as it was. */
  method AddRailwayPeriod<X>(sales: seq<Sale<X>>) returns (labelled: seq<LabelledSale<X>>)
    ensures |labelled| == |sales|
    ensures forall i :: 0 <= i < |sales| ==>
              labelled[i].sale == sales[i]
              && labelled[i].railwayPeriod == AssignPeriod(sales[i].town, sales[i].dateOfTransfer)
  {
    labelled := [];
    for i := 0 to |sales|
      invariant |labelled| == i
      invariant forall k :: 0 <= k < i ==>
                  labelled[k].sale == sales[k]
                  && labelled[k].railwayPeriod == AssignPeriod(sales[k].town, sales[k].dateOfTransfer)
    {
      labelled := labelled + [LabelledSale(sales[i], AssignPeriod(sales[i].town, sales[i].dateOfTransfer))];
    }
  }

  /** Lines 17-21 over the whole file. */
  function StandardizeAll<X>(raw: seq<RawSale<X>>, parseDate: string -> Option<Date>): (sales: seq<Sale<X>>)
    ensures |sales| == |raw|
    ensures forall i :: 0 <= i < |raw| ==> sales[i] == Standardize(raw[i], parseDate)
  {
    Map(raw, r => Standardize(r, parseDate))
  }

  /** The whole script: standardise, keep the study towns in file order, and
      label each kept record with its period. */
  method CleanPriceData<X>(raw: seq<RawSale<X>>, parseDate: string -> Option<Date>)
    returns (labelled: seq<LabelledSale<X>>)
    ensures |labelled| == Count(StandardizeAll(raw, parseDate), IsTargetTown)
    ensures forall i :: 0 <= i < |labelled| ==>
              labelled[i].sale == SelectTargetTowns(StandardizeAll(raw, parseDate))[i]
              && labelled[i].railwayPeriod == AssignPeriod(labelled[i].sale.town, labelled[i].sale.dateOfTransfer)
    ensures forall l :: l in labelled ==> l.sale.town in TargetCities && l.railwayPeriod in PeriodLabels
    ensures forall l :: l in labelled ==> (l.railwayPeriod == "Unknown" <==> l.sale.dateOfTransfer.None?)
    ensures forall l :: l in labelled ==> l.sale in StandardizeAll(raw, parseDate)
  {
    var standardized := StandardizeAll(raw, parseDate);
    var filtered := SelectTargetTowns(standardized);
    labelled := AddRailwayPeriod(filtered);
    forall l | l in labelled
      ensures l.sale in filtered
    {
      var i :| 0 <= i < |labelled| && labelled[i] == l;
      assert l.sale == filtered[i];
    }
  }
}
