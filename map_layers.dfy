/** map_interactive.py: clean the labelled sales, colour each by its railway
    group, size it by its price quartile, and build one map feature per
    sampled sale. */
module MapLayers {
  import opened Frames
  import opened Text
  import PricePeriods

  /** A labelled, enriched sale as read: the columns the script reads. */
  datatype ListingRow<X> = ListingRow(
    latitude: Option<real>,
    longitude: Option<real>,
    stationLat: Option<real>,
    stationLon: Option<real>,
    realPrice: Option<real>,
    dateOfTransfer: Option<string>,
    railwayPeriod: Option<string>,
    town: Option<string>,
    rest: X)

  /** A sale after lines 11-17: parsed date and normalised group name. */
  datatype MapRow<X> = MapRow(listing: ListingRow<X>, date: Option<Date>, period: string)

  /** Line 11's `dropna` subset. */
  predicate HasRequiredFields<X>(r: ListingRow<X>)
  {
    && r.latitude.Some? && r.longitude.Some? && r.stationLat.Some? && r.stationLon.Some?
    && r.realPrice.Some? && r.dateOfTransfer.Some?
  }

  const FirstYear: int := 2005
  const LastYear: int := 2025

  /** Line 17 on the group name: `astype(str).str.strip().str.replace("–", "-")`. */
  function NormalizePeriod(period: Option<string>): (p: string)
    ensures '\U{2013}' !in p
    ensures |p| <= |AsStr(period)|
  {
    ReplaceChar(Strip(AsStr(period)), '\U{2013}', '-')
  }

  /** Lines 12-17 on one row that passed line 11. */
  function Standardize<X>(r: ListingRow<X>, parseDate: string -> Option<Date>): (m: MapRow<X>)
    ensures m.listing == r
    ensures r.dateOfTransfer.None? ==> m.date.None?
    ensures r.dateOfTransfer.Some? ==> m.date == parseDate(r.dateOfTransfer.value)
    ensures m.period == NormalizePeriod(r.railwayPeriod)
  {
    var date := match r.dateOfTransfer case None => None case Some(t) => parseDate(t);
    MapRow(r, date, NormalizePeriod(r.railwayPeriod))
  }

  /** Lines 13-14: a parsed date whose year lies in 2005..2025, both ends
      included. */
  predicate InDateWindow<X>(m: MapRow<X>)
  {
    m.date.Some? && FirstYear <= m.date.value.year <= LastYear
  }

  function StandardizeAll<X>(rows: seq<ListingRow<X>>, parseDate: string -> Option<Date>): seq<MapRow<X>>
  {
    Map(rows, r => Standardize(r, parseDate))
  }

  /** Lines 11-17. The group name is normalised after filtering; since it
      plays no part in the filters, normalising first keeps the same rows. */
  function CleanMapRows<X>(rows: seq<ListingRow<X>>, parseDate: string -> Option<Date>): (cleaned: seq<MapRow<X>>)
    ensures forall m :: m in cleaned ==> HasRequiredFields(m.listing) && InDateWindow(m) && '\U{2013}' !in m.period
    ensures forall m :: m in cleaned ==> m.listing in rows
    ensures forall r :: r in rows && HasRequiredFields(r) && InDateWindow(Standardize(r, parseDate)) ==>
              Standardize(r, parseDate) in cleaned
    ensures IsSubsequence(cleaned, StandardizeAll(rows, parseDate))
    ensures |cleaned| == Count(StandardizeAll(Filter(rows, HasRequiredFields), parseDate), InDateWindow)
  {
    var complete := Filter(rows, HasRequiredFields);
    var standardized := StandardizeAll(complete, parseDate);
    var cleaned := Filter(standardized, InDateWindow);
    forall r | r in rows && HasRequiredFields(r) && InDateWindow(Standardize(r, parseDate))
      ensures Standardize(r, parseDate) in cleaned
    {
      MapMember(complete, r => Standardize(r, parseDate), r);
    }
    forall m | m in cleaned
      ensures HasRequiredFields(m.listing) && m.listing in rows
    {
      MapOrigin(complete, r => Standardize(r, parseDate), m);
    }
    FilterIsSubsequence(rows, HasRequiredFields);
    MapSubsequence(complete, rows, r => Standardize(r, parseDate));
    FilterIsSubsequence(standardized, InDateWindow);
    SubsequenceTransitive(cleaned, standardized, StandardizeAll(rows, parseDate));
    cleaned
  }

  // ---------------------------------------------------------------------------
  // Colours (lines 28-44)
  // ---------------------------------------------------------------------------

  const PreToPost: string := "Pre \U{2192} Post"
  const TreatedGroups: seq<string> := [PreToPost, "Pre", "Post"]

  /** `color_group`. */
  function ColorGroup(group: string): (color: string)
    ensures color in {"blue", "green", "orange", "gray"}
    ensures color == "blue" <==> group in TreatedGroups
    ensures color == "green" <==> group == "Control-Station"
    ensures color == "orange" <==> group == "Control-NoStation"
  {
    if group in TreatedGroups then "blue"
    else if group == "Control-Station" then "green"
    else if group == "Control-NoStation" then "orange"
    else "gray"
  }

  /** `label_background_color`. */
  function LabelBackground(group: string): (background: string)
    ensures background == "rgba(0, 102, 255, 0.8)" <==> group in TreatedGroups
    ensures background == "rgba(0, 153, 0, 0.8)" <==> group == "Control-Station"
    ensures background == "rgba(255, 153, 0, 0.8)" <==> group == "Control-NoStation"
    ensures background == "rgba(120,120,120,0.6)" <==>
              group !in TreatedGroups && group != "Control-Station" && group != "Control-NoStation"
  {
    if group in TreatedGroups then "rgba(0, 102, 255, 0.8)"
    else if group == "Control-Station" then "rgba(0, 153, 0, 0.8)"
    else if group == "Control-NoStation" then "rgba(255, 153, 0, 0.8)"
    else "rgba(120,120,120,0.6)"
  }

  /** Two groups share a label background exactly when they share a marker
      colour. */
  lemma BackgroundFollowsColor(a: string, b: string)
    ensures LabelBackground(a) == LabelBackground(b) <==> ColorGroup(a) == ColorGroup(b)
  {
  }

  /** A trimmed name with one en dash between two parts normalises to the
      parts joined by a hyphen. */
  lemma NormalizeDashed(a: string, b: string)
    requires a != [] && b != [] && !IsSpace(a[0]) && !IsSpace(b[|b| - 1])
    requires '\U{2013}' !in a && '\U{2013}' !in b
    ensures NormalizePeriod(Some(a + ['\U{2013}'] + b)) == a + ['-'] + b
  {
    var s := a + ['\U{2013}'] + b;
    assert s[0] == a[0] && s[|s| - 1] == b[|b| - 1];
    StripKeepsTrimmed(s);
    ReplaceCharSplit(a, b, '\U{2013}', '-');
  }

  /** `Control–Station`, written with an en dash, normalises to
      `Control-Station`. */
  lemma EnDashNormalised()
    ensures NormalizePeriod(Some("Control\U{2013}Station")) == "Control-Station"
  {
    var a, b := "Control", "Station";
    assert "Control\U{2013}Station" == a + ['\U{2013}'] + b;
    assert a + ['-'] + b == "Control-Station";
    NormalizeDashed(a, b);
  }

  /** `Control–Station`, written with an en dash, is coloured green like
      `Control-Station`. */
  lemma EnDashIsGreen()
    ensures ColorGroup(NormalizePeriod(Some("Control\U{2013}Station"))) == "green"
  {
    EnDashNormalised();
  }

  /** A single space on either side of a group name does not change its
      normal form or its colour. */
  lemma PaddingNormalised(s: string)
    requires s == [] || (!IsSpace(s[0]) && !IsSpace(s[|s| - 1]))
    ensures NormalizePeriod(Some([' '] + s + [' '])) == NormalizePeriod(Some(s))
    ensures ColorGroup(NormalizePeriod(Some([' '] + s + [' ']))) == ColorGroup(NormalizePeriod(Some(s)))
  {
    StripPadded(s);
    StripKeepsTrimmed(s);
  }

  /** A text without whitespace at its ends and without an en dash is its
      own normal form. */
  lemma NormalPeriodIsFixed(s: string)
    requires s == [] || (!IsSpace(s[0]) && !IsSpace(s[|s| - 1]))
    requires '\U{2013}' !in s
    ensures NormalizePeriod(Some(s)) == s
  {
    StripKeepsTrimmed(s);
    ReplaceAbsentChar(s, '\U{2013}', '-');
  }

  /** Replacing the en dash by a hyphen keeps a trimmed text trimmed. */
  lemma DashReplacementKeepsTrimmed(s: string)
    requires s == [] || (!IsSpace(s[0]) && !IsSpace(s[|s| - 1]))
    ensures var p := ReplaceChar(s, '\U{2013}', '-');
            p == [] || (!IsSpace(p[0]) && !IsSpace(p[|p| - 1]))
  {
  }

  /** Normalising twice changes nothing more. */
  lemma NormalizePeriodIdempotent(period: Option<string>)
    ensures NormalizePeriod(Some(NormalizePeriod(period))) == NormalizePeriod(period)
  {
    DashReplacementKeepsTrimmed(Strip(AsStr(period)));
    NormalPeriodIsFixed(NormalizePeriod(period));
  }

  /** The five labels of the period assignment are their own normal forms. */
  lemma LabelsAreNormal(name: string)
    requires name in PricePeriods.PeriodLabels
    ensures NormalizePeriod(Some(name)) == name
  {
    assert name[0] in "PCU" && name[|name| - 1] in "enot";
    assert '\U{2013}' !in name;
    NormalPeriodIsFixed(name);
  }

  /** Every label the period assignment produces keeps its name through the
      normalisation and gets the intended colour: treated towns blue, control
      towns with a station green, without one orange, `Unknown` gray. */
  lemma PeriodColours(town: string, date: Option<Date>)
    ensures var period := PricePeriods.AssignPeriod(town, date);
            && NormalizePeriod(Some(period)) == period
            && (ColorGroup(period) == "blue" <==> period == "Pre" || period == "Post")
            && (ColorGroup(period) == "green" <==> period == "Control-Station")
            && (ColorGroup(period) == "orange" <==> period == "Control-NoStation")
            && (ColorGroup(period) == "gray" <==> period == "Unknown")
  {
    var period := PricePeriods.AssignPeriod(town, date);
    LabelsAreNormal(period);
    assert period != PreToPost;
  }

  // ---------------------------------------------------------------------------
  // Sizes (lines 22-25, 54-62)
  // ---------------------------------------------------------------------------

  /** The quartiles of the cleaned prices. */
  datatype Tiers = Tiers(q1: real, q2: real, q3: real)

  /** Lines 54-62: each boundary value goes to the lower tier. */
  function SizeTier(price: real, t: Tiers): (size: int)
    ensures size in {3, 5, 7, 9}
    ensures size == 3 <==> price <= t.q1
    ensures size == 9 <==> !(price <= t.q1) && !(price <= t.q2) && !(price <= t.q3)
  {
    if price <= t.q1 then 3
    else if price <= t.q2 then 5
    else if price <= t.q3 then 7
    else 9
  }

  /** With ordered quartiles the size never decreases with the price. */
  lemma SizeIsMonotone(p1: real, p2: real, t: Tiers)
    requires t.q1 <= t.q2 <= t.q3
    requires p1 <= p2
    ensures SizeTier(p1, t) <= SizeTier(p2, t)
  {
  }

  /** With ordered quartiles, sizes 5 and 7 are the half-open price bands
      above q1 up to q2 and above q2 up to q3. */
  lemma SizeBands(price: real, t: Tiers)
    requires t.q1 <= t.q2 <= t.q3
    ensures SizeTier(price, t) == 5 <==> t.q1 < price <= t.q2
    ensures SizeTier(price, t) == 7 <==> t.q2 < price <= t.q3
  {
  }

  /** A missing price compares false with every quartile and gets the
      largest size. */
  function SizeOf(price: Option<real>, t: Tiers): (size: int)
    ensures price.None? ==> size == 9
    ensures price.Some? ==> size == SizeTier(price.value, t)
  {
    match price
    case None => 9
    case Some(p) => SizeTier(p, t)
  }

  // ---------------------------------------------------------------------------
  // Sampling (line 20) and features (lines 47-91)
  // ---------------------------------------------------------------------------

  const SampleCap: nat := 2000

  /** Line 20: the number of rows drawn from one town. */
  function SampleSize(townRows: nat): (k: nat)
    ensures k <= townRows && k <= SampleCap
    ensures k == townRows || k == SampleCap
  {
    if townRows <= SampleCap then townRows else SampleCap
  }

  function TownCount<X>(rows: seq<MapRow<X>>, town: Option<string>): nat
  {
    Count(rows, (m: MapRow<X>) => m.listing.town == town)
  }

  /** What line 20 promises of its random draw: cleaned rows, each drawn at
      most as often as it occurs, none without a town (`groupby` leaves out
      the rows whose key is missing), and from each town exactly
      `SampleSize` of that town's rows. */
  predicate IsTownSample<X(==)>(sample: seq<MapRow<X>>, cleaned: seq<MapRow<X>>)
  {
    && multiset(sample) <= multiset(cleaned)
    && (forall m :: m in sample ==> m in cleaned && m.listing.town.Some?)
    && (forall m :: m in cleaned && m.listing.town.Some? ==>
          TownCount(sample, m.listing.town) == SampleSize(TownCount(cleaned, m.listing.town)))
  }

  /** One map feature: position, time, colour and radius (the popup text is
      not modelled). */
  datatype Feature = Feature(
    longitude: Option<real>,
    latitude: Option<real>,
    time: Date,
    color: string,
    radius: int)

  /** One marker: the row's position and date, the colour of its group and
      the size of its price tier. */
  function FeatureOf<X>(m: MapRow<X>, date: Date, t: Tiers): (f: Feature)
    ensures f.longitude == m.listing.longitude && f.latitude == m.listing.latitude && f.time == date
    ensures f.color in {"blue", "green", "orange", "gray"}
    ensures f.color == "blue" <==> m.period in TreatedGroups
    ensures f.radius in {3, 5, 7, 9}
    ensures m.listing.realPrice.None? ==> f.radius == 9
  {
    Feature(m.listing.longitude, m.listing.latitude, date, ColorGroup(m.period), SizeOf(m.listing.realPrice, t))
  }

  /** The features of a sample, in sample order; a row whose date cannot be
      formatted is skipped. */
  function FeaturesOf<X>(sample: seq<MapRow<X>>, t: Tiers): (features: seq<Feature>)
    ensures |features| <= |sample|
  {
    if sample == [] then []
    else
      var init := FeaturesOf(sample[..|sample| - 1], t);
      var last := sample[|sample| - 1];
      match last.date
      case None => init
      case Some(d) => init + [FeatureOf(last, d, t)]
  }

  /** Every row has a date. */
  predicate AllDated<X>(sample: seq<MapRow<X>>)
  {
    forall i :: 0 <= i < |sample| ==> sample[i].date.Some?
  }

  /** When every sampled row has a date, there is one feature per row, and
      feature i carries row i's position, date, colour and size. */
  lemma {:induction false} FeaturesOfDatedRows<X>(sample: seq<MapRow<X>>, t: Tiers)
    requires AllDated(sample)
    ensures |FeaturesOf(sample, t)| == |sample|
    ensures forall i :: 0 <= i < |sample| ==>
              FeaturesOf(sample, t)[i] == FeatureOf(sample[i], sample[i].date.value, t)
  {
    if sample != [] {
      var init := sample[..|sample| - 1];
      var last := sample[|sample| - 1];
      assert AllDated(init) by {
        forall i | 0 <= i < |init|
          ensures init[i].date.Some?
        {
          assert init[i] == sample[i];
        }
      }
      FeaturesOfDatedRows(init, t);
      var f := FeatureOf(last, last.date.value, t);
      assert FeaturesOf(sample, t) == FeaturesOf(init, t) + [f];
      forall i | 0 <= i < |sample|
        ensures FeaturesOf(sample, t)[i] == FeatureOf(sample[i], sample[i].date.value, t)
      {
        if i < |init| {
          assert sample[i] == init[i];
        }
      }
    }
  }

  /** Lines 47-91: the loop that appends one feature per sampled row. */
  method BuildFeatures<X>(sample: seq<MapRow<X>>, t: Tiers) returns (features: seq<Feature>)
    ensures features == FeaturesOf(sample, t)
  {
    features := [];
    for i := 0 to |sample|
      invariant features == FeaturesOf(sample[..i], t)
    {
      assert sample[..i + 1][..i] == sample[..i];
      var row := sample[i];
      match row.date {
        case None =>
        case Some(d) =>
          features := features + [FeatureOf(row, d, t)];
      }
    }
    assert sample[..|sample|] == sample;
  }

  function CleanPrices<X>(cleaned: seq<MapRow<X>>): seq<real>
  {
    Map(cleaned, (m: MapRow<X>) => match m.listing.realPrice case None => 0.0 case Some(p) => p)
  }

  /** The whole script up to the features: clean, take the quartiles of the
      cleaned prices (`quartiles` stands for the three `quantile` calls), and
      build the features of a town sample of the cleaned rows. No sampled row
      is skipped, and each feature carries its row's colour and size. */
  method MapInteractive<X(==)>(rows: seq<ListingRow<X>>, parseDate: string -> Option<Date>,
                           quartiles: seq<real> -> Tiers, sample: seq<MapRow<X>>)
    returns (features: seq<Feature>)
    requires IsTownSample(sample, CleanMapRows(rows, parseDate))
    ensures |features| == |sample|
    ensures forall i :: 0 <= i < |sample| ==>
              && features[i].longitude == sample[i].listing.longitude
              && features[i].latitude == sample[i].listing.latitude
              && features[i].color == ColorGroup(sample[i].period)
              && features[i].radius == SizeOf(sample[i].listing.realPrice, quartiles(CleanPrices(CleanMapRows(rows, parseDate))))
              && Some(features[i].time) == sample[i].date
  {
    var cleaned := CleanMapRows(rows, parseDate);
    var t := quartiles(CleanPrices(cleaned));
    features := BuildFeatures(sample, t);
    assert AllDated(sample) by {
      forall i | 0 <= i < |sample|
        ensures sample[i].date.Some?
      {
        assert sample[i] in sample;
      }
    }
    FeaturesOfDatedRows(sample, t);
  }
}
