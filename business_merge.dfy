/** merge_price_nomis.py: reshape the Nomis business counts from one column
    per year to one row per (district, year), align district names with the
    property records and left-merge the counts onto the properties. */
module BusinessMerge {
  import opened Frames
  import opened Text

  /** A row of the wide business table: the district cell and one count cell
      per year column. */
  datatype WideRow = WideRow(district: Option<string>, counts: seq<Cell>)

  /** A row of the melted table, before the year header is converted. */
  datatype MeltedRow = MeltedRow(district: Option<string>, year: string, businessCount: Cell)

  /** A row of the long business table after normalisation. */
  datatype BusinessRow = BusinessRow(district: string, year: int, businessCount: Cell)

  /** A property record as read: the columns the script touches and the rest. */
  datatype RawProperty<X> = RawProperty(dateOfTransfer: Option<string>, district: Option<string>, rest: X)

  /** A property record after date parsing and district normalisation. */
  datatype Property<X> = Property(dateOfTransfer: Option<Date>, yearOfTransaction: Option<int>, district: string, rest: X)

  /** The output row: the property columns and `business_count`; the helper
      `year` column of the business table is not part of it. */
  datatype EnrichedProperty<X> = EnrichedProperty(property: Property<X>, businessCount: Cell)

  datatype Result<T> = Ok(value: T) | YearHeaderNotAnInteger(header: string)

  predicate Rectangular(years: seq<string>, rows: seq<WideRow>)
  {
    forall i :: 0 <= i < |rows| ==> |rows[i].counts| == |years|
  }

  /** The melted rows of year columns 0 .. n-1: pandas `melt` lists all
      district rows of the first year column, then all of the second, and so
      on. */
  function MeltColumns(years: seq<string>, rows: seq<WideRow>, n: nat): seq<MeltedRow>
    requires Rectangular(years, rows)
    requires n <= |years|
  {
    if n == 0 then []
    else
      MeltColumns(years, rows, n - 1)
      + seq(|rows|, i requires 0 <= i < |rows| => MeltedRow(rows[i].district, years[n - 1], rows[i].counts[n - 1]))
  }

  /** Line 18: `melt(id_vars=columns[0], var_name='year', value_name='business_count')`. */
  function Melt(years: seq<string>, rows: seq<WideRow>): (ms: seq<MeltedRow>)
    requires Rectangular(years, rows)
    ensures forall m :: m in ms ==> exists j :: 0 <= j < |years| && m.year == years[j]
  {
    MeltYears(years, rows, |years|);
    MeltColumns(years, rows, |years|)
  }

  lemma {:induction false} MeltLength(years: seq<string>, rows: seq<WideRow>, n: nat)
    requires Rectangular(years, rows)
    requires n <= |years|
    ensures |MeltColumns(years, rows, n)| == n * |rows|
  {
    if n > 0 {
      MeltLength(years, rows, n - 1);
      assert (n - 1) * |rows| + |rows| == n * |rows|;
    }
  }

  /** The melt has one row per (district row, year column) pair: the cell of
      row i under year column j sits at position j * |rows| + i. */
  lemma {:induction false} MeltCell(years: seq<string>, rows: seq<WideRow>, n: nat, j: nat, i: nat)
    requires Rectangular(years, rows)
    requires j < n <= |years| && i < |rows|
    ensures j * |rows| + i < |MeltColumns(years, rows, n)|
    ensures MeltColumns(years, rows, n)[j * |rows| + i] == MeltedRow(rows[i].district, years[j], rows[i].counts[j])
  {
    MeltLength(years, rows, n);
    MeltLength(years, rows, n - 1);
    var m := |rows|;
    if j == n - 1 {
      assert j * m + i == (n - 1) * m + i;
    } else {
      MeltCell(years, rows, n - 1, j, i);
    }
  }

  /** Every melted row carries one of the year headers. */
  lemma {:induction false} MeltYears(years: seq<string>, rows: seq<WideRow>, n: nat)
    requires Rectangular(years, rows)
    requires n <= |years|
    ensures forall r :: r in MeltColumns(years, rows, n) ==> exists j :: 0 <= j < n && r.year == years[j]
  {
    if n > 0 {
      MeltYears(years, rows, n - 1);
    }
  }

  /** Some melted row has a year that is not an integer exactly when some
      year header is not one and the table has a row. */
  lemma MeltHasBadYear(years: seq<string>, wide: seq<WideRow>, parseInt: string -> Option<int>)
    requires Rectangular(years, wide)
    ensures (exists i :: 0 <= i < |Melt(years, wide)| && parseInt(Melt(years, wide)[i].year).None?)
       <==> (wide != [] && exists j :: 0 <= j < |years| && parseInt(years[j]).None?)
  {
    var melted := Melt(years, wide);
    if wide != [] && exists j :: 0 <= j < |years| && parseInt(years[j]).None? {
      var j :| 0 <= j < |years| && parseInt(years[j]).None?;
      MeltCell(years, wide, |years|, j, 0);
    }
    if exists i :: 0 <= i < |melted| && parseInt(melted[i].year).None? {
      var i :| 0 <= i < |melted| && parseInt(melted[i].year).None?;
      MeltLength(years, wide, |years|);
      MeltYears(years, wide, |years|);
      assert melted[i] in melted;
    }
  }

  /** The first melted row whose year header is not an integer, if any. */
  function FirstBadYear(melted: seq<MeltedRow>, parseInt: string -> Option<int>): (bad: Option<string>)
    ensures bad.None? <==> forall i :: 0 <= i < |melted| ==> parseInt(melted[i].year).Some?
    ensures bad.Some? ==> exists i :: 0 <= i < |melted| && melted[i].year == bad.value && parseInt(bad.value).None?
  {
    if melted == [] then None
    else if parseInt(melted[0].year).None? then Some(melted[0].year)
    else
      var bad := FirstBadYear(melted[1..], parseInt);
      assert forall i :: 1 <= i < |melted| ==> melted[i] == melted[1..][i - 1];
      bad
  }

  /** Lines 20 and 24: the year header converted with `astype(int)` and the
      district normalised; a header that is not an integer stops the script. */
  function NormalizeBusiness(melted: seq<MeltedRow>, parseInt: string -> Option<int>)
    : (r: Result<seq<BusinessRow>>)
    ensures r.Ok? ==> |r.value| == |melted|
    ensures r.Ok? ==> forall i :: 0 <= i < |melted| ==>
              parseInt(melted[i].year) == Some(r.value[i].year)
              && r.value[i].district == NormalizeDistrict(melted[i].district)
              && r.value[i].businessCount == melted[i].businessCount
    ensures r.YearHeaderNotAnInteger? <==> exists i :: 0 <= i < |melted| && parseInt(melted[i].year).None?
  {
    match FirstBadYear(melted, parseInt)
    case Some(h) => YearHeaderNotAnInteger(h)
    case None =>
      Ok(seq(|melted|, i requires 0 <= i < |melted| =>
               BusinessRow(NormalizeDistrict(melted[i].district), parseInt(melted[i].year).value,
                           melted[i].businessCount)))
  }

  /** Lines 23-24: `astype(str).str.strip().str.upper()`, the same on both
      tables. */
  function NormalizeDistrict(cell: Option<string>): string
  {
    CanonicalDistrict(AsStr(cell))
  }

  function CanonicalDistrict(s: string): (d: string)
    ensures d == Upper(Strip(s))
    ensures forall c :: c in d ==> !IsLowerLetter(c)
    ensures d == [] || (!IsSpace(d[0]) && !IsSpace(d[|d| - 1]))
  {
    var t := Strip(s);
    UpperKeepsTrimmed(t);
    Upper(t)
  }

  /** District normalisation is idempotent. */
  lemma CanonicalDistrictIdempotent(s: string)
    ensures CanonicalDistrict(CanonicalDistrict(s)) == CanonicalDistrict(s)
  {
    var d := CanonicalDistrict(s);
    StripKeepsTrimmed(d);
    assert Strip(d) == d;
    UpperKeepsUpper(d);
    assert Upper(d) == d;
  }

  /** Lines 27-49: the boundary corrections applied to property districts. */
  const DistrictCorrections: map<string, string> := map[
    "CORBY" := "NORTH NORTHAMPTONSHIRE",
    "KETTERING" := "NORTH NORTHAMPTONSHIRE",
    "EAST NORTHAMPTONSHIRE" := "NORTH NORTHAMPTONSHIRE",
    "RUSHDEN" := "NORTH NORTHAMPTONSHIRE",
    "NORTHAMPTON" := "WEST NORTHAMPTONSHIRE",
    "SOUTH NORTHAMPTONSHIRE" := "WEST NORTHAMPTONSHIRE",
    "AYLESBURY VALE" := "BUCKINGHAMSHIRE",
    "BUCKINGHAMSHIRE" := "CHERWELL",
    "WISBECH" := "FENLAND",
    "KING'S LYNN AND WEST NORFOLK" := "FENLAND",
    "REDDITCH" := "REDDITCH",
    "WARWICK" := "WARWICK",
    "KENILWORTH" := "WARWICK",
    "DAVENTRY" := "NORTH NORTHAMPTONSHIRE",
    "WELLINGBOROUGH" := "NORTH NORTHAMPTONSHIRE"
  ]

  /** `Series.replace(dict)`: one lookup, no chaining. */
  function CorrectDistrict(d: string): (r: string)
    ensures d in DistrictCorrections ==> r == DistrictCorrections[d]
    ensures d !in DistrictCorrections ==> r == d
    ensures r in DistrictCorrections.Values || r == d
  {
    if d in DistrictCorrections then DistrictCorrections[d] else d
  }

  /** The replacement is a single pass: AYLESBURY VALE becomes
      BUCKINGHAMSHIRE, although BUCKINGHAMSHIRE itself is mapped on to
      CHERWELL. */
  lemma CorrectionIsSinglePass()
    ensures CorrectDistrict("AYLESBURY VALE") == "BUCKINGHAMSHIRE"
    ensures CorrectDistrict(CorrectDistrict("AYLESBURY VALE")) == "CHERWELL"
  {
  }

  /** Lines 14-15 and 23-49 on one property. */
  function PrepareProperty<X>(raw: RawProperty<X>, parseDate: string -> Option<Date>): (p: Property<X>)
    ensures p.rest == raw.rest
    ensures p.district == CorrectDistrict(NormalizeDistrict(raw.district))
    ensures raw.dateOfTransfer.None? ==> p.dateOfTransfer.None?
    ensures raw.dateOfTransfer.Some? ==> p.dateOfTransfer == parseDate(raw.dateOfTransfer.value)
    ensures p.yearOfTransaction.Some? <==> p.dateOfTransfer.Some?
    ensures p.yearOfTransaction.Some? ==> p.yearOfTransaction.value == p.dateOfTransfer.value.year
  {
    var date := match raw.dateOfTransfer case None => None case Some(t) => parseDate(t);
    Property(date,
             match date case None => None case Some(d) => Some(d.year),
             CorrectDistrict(NormalizeDistrict(raw.district)),
             raw.rest)
  }

  /** The merge keys: (district, year_of_transaction) against (district, year).
      A missing year of sale matches no business row. */
  function PropertyKey<X>(p: Property<X>): (string, Option<int>) { (p.district, p.yearOfTransaction) }

  function BusinessKey(b: BusinessRow): (string, Option<int>) { (b.district, Some(b.year)) }

  /** Lines 59-63 on one merged pair: `fillna(0)` and the dropped `year`. */
  function FillCount<X>(pair: (Property<X>, Option<BusinessRow>)): (e: EnrichedProperty<X>)
    ensures e.property == pair.0
    ensures !e.businessCount.Missing?
    ensures pair.1.None? ==> e.businessCount == Number(0.0)
    ensures pair.1.Some? && !pair.1.value.businessCount.Missing? ==> e.businessCount == pair.1.value.businessCount
    ensures pair.1.Some? && pair.1.value.businessCount.Missing? ==> e.businessCount == Number(0.0)
  {
    match pair.1
    case None => EnrichedProperty(pair.0, Number(0.0))
    case Some(b) => EnrichedProperty(pair.0, if b.businessCount.Missing? then Number(0.0) else b.businessCount)
  }

  /** Lines 52-63: left merge, zero fill, `year` dropped. */
  function MergeCounts<X>(properties: seq<Property<X>>, business: seq<BusinessRow>): (out: seq<EnrichedProperty<X>>)
    ensures |out| >= |properties|
    ensures forall e :: e in out ==> e.property in properties && !e.businessCount.Missing?
    ensures forall p :: p in properties ==> exists e :: e in out && e.property == p
  {
    var joined := LeftJoin(properties, business, PropertyKey, BusinessKey);
    var out := Map(joined, FillCount);
    forall e | e in out
      ensures e.property in properties
    {
      MapOrigin(joined, FillCount, e);
    }
    forall p | p in properties
      ensures exists e :: e in out && e.property == p
    {
      var pair :| pair in joined && pair.0 == p;
      MapMember(joined, FillCount, pair);
    }
    out
  }

  /** When each (district, year) occurs at most once in the business table,
      the merge keeps the property count and order; row i's count is that of
      the business row with the same district and year (0 when that cell is
      empty), and 0 when there is no such row. */
  lemma MergeCountsOneToOne<X>(properties: seq<Property<X>>, business: seq<BusinessRow>)
    requires UniqueKeys(business, BusinessKey)
    ensures |MergeCounts(properties, business)| == |properties|
    ensures forall i :: 0 <= i < |properties| ==>
              MergeCounts(properties, business)[i].property == properties[i]
    ensures forall i, b :: 0 <= i < |properties| && b in business && BusinessKey(b) == PropertyKey(properties[i]) ==>
              MergeCounts(properties, business)[i].businessCount
                == (if b.businessCount.Missing? then Number(0.0) else b.businessCount)
    ensures forall i :: (0 <= i < |properties| &&
                         forall b :: b in business ==> BusinessKey(b) != PropertyKey(properties[i])) ==>
              MergeCounts(properties, business)[i].businessCount == Number(0.0)
  {
    var joined := LeftJoin(properties, business, PropertyKey, BusinessKey);
    forall i | 0 <= i < |properties|
      ensures |MatchesOf(business, BusinessKey, PropertyKey(properties[i]))| <= 1
    {
      UniqueKeysMatchAtMostOne(business, BusinessKey, PropertyKey(properties[i]));
    }
    LeftJoinOneToOne(properties, business, PropertyKey, BusinessKey);
    var out := MergeCounts(properties, business);
    forall i, b | 0 <= i < |properties| && b in business && BusinessKey(b) == PropertyKey(properties[i])
      ensures out[i].businessCount == (if b.businessCount.Missing? then Number(0.0) else b.businessCount)
    {
      assert out[i] == FillCount(joined[i]);
      assert joined[i] in joined;
      UniqueKeysSameRow(business, BusinessKey, b, joined[i].1.value);
    }
    forall i | 0 <= i < |properties| && forall b :: b in business ==> BusinessKey(b) != PropertyKey(properties[i])
      ensures out[i].businessCount == Number(0.0)
    {
      assert out[i] == FillCount(joined[i]);
    }
  }

  /** Lines 14-49 over the whole property table. */
  function PrepareAll<X>(raw: seq<RawProperty<X>>, parseDate: string -> Option<Date>): (props: seq<Property<X>>)
    ensures |props| == |raw|
    ensures forall i :: 0 <= i < |raw| ==> props[i] == PrepareProperty(raw[i], parseDate)
  {
    Map(raw, p => PrepareProperty(p, parseDate))
  }

  /** No property record is lost by the merge. */
  lemma PropertyIsMerged<X>(raw: seq<RawProperty<X>>, parseDate: string -> Option<Date>, business: seq<BusinessRow>,
                            p: RawProperty<X>)
    requires p in raw
    ensures exists e :: e in MergeCounts(PrepareAll(raw, parseDate), business) && e.property == PrepareProperty(p, parseDate)
  {
    var props := PrepareAll(raw, parseDate);
    var q := PrepareProperty(p, parseDate);
    var k :| 0 <= k < |raw| && raw[k] == p;
    assert props[k] == q;
    assert q in props;
    var out := MergeCounts(props, business);
    var e :| e in out && e.property == q;
  }

  /** Every merged row is a prepared property record. */
  lemma MergedIsProperty<X>(raw: seq<RawProperty<X>>, parseDate: string -> Option<Date>, business: seq<BusinessRow>,
                            e: EnrichedProperty<X>)
    requires e in MergeCounts(PrepareAll(raw, parseDate), business)
    ensures exists p :: p in raw && e.property == PrepareProperty(p, parseDate)
  {
    var props := PrepareAll(raw, parseDate);
    var k :| 0 <= k < |props| && props[k] == e.property;
    assert raw[k] in raw;
  }

  /** The whole script: melt, normalise both tables, correct districts,
      merge and fill. */
  function MergePriceNomis<X>(rawProperties: seq<RawProperty<X>>, years: seq<string>, wide: seq<WideRow>,
                              parseDate: string -> Option<Date>, parseInt: string -> Option<int>)
    : (r: Result<seq<EnrichedProperty<X>>>)
    requires Rectangular(years, wide)
    ensures r.YearHeaderNotAnInteger? <==>
              wide != [] && exists j :: 0 <= j < |years| && parseInt(years[j]).None?
    ensures r.Ok? ==> |r.value| >= |rawProperties|
    ensures r.Ok? ==> forall e :: e in r.value ==> !e.businessCount.Missing?
    ensures r.Ok? ==> forall p :: p in rawProperties ==>
              exists e :: e in r.value && e.property == PrepareProperty(p, parseDate)
    ensures r.Ok? ==> forall e :: e in r.value ==>
              exists p :: p in rawProperties && e.property == PrepareProperty(p, parseDate)
  {
    var melted := Melt(years, wide);
    MeltHasBadYear(years, wide, parseInt);
    match NormalizeBusiness(melted, parseInt)
    case YearHeaderNotAnInteger(h) => YearHeaderNotAnInteger(h)
    case Ok(business) =>
      var out := MergeCounts(PrepareAll(rawProperties, parseDate), business);
      forall p | p in rawProperties
        ensures exists e :: e in out && e.property == PrepareProperty(p, parseDate)
      {
        PropertyIsMerged(rawProperties, parseDate, business, p);
      }
      forall e | e in out
        ensures exists p :: p in rawProperties && e.property == PrepareProperty(p, parseDate)
      {
        MergedIsProperty(rawProperties, parseDate, business, e);
      }
      Ok(out)
  }
}
