/** `HospitalDataTool`: the daily hospital trend table (one row per hospital per date)
    and the queries the agent runs on it. */
module HospitalData {
  import opened Wrappers
  import opened Strings
  import opened Seqs
  import opened Sorting
  import opened Records
  import opened Pairing

  const HospitalIdColumn := "hospital_id"
  const HospitalNameColumn := "hospital_name"
  const DateColumn := "date"
  const LocationColumn := "location"
  const RegionColumn := "region"

  /** One table row: column name to cell. */
  type Row = map<string, Cell>

  /** A loaded CSV file: its header and its rows. */
  datatype Frame = Frame(columns: seq<string>, rows: seq<Row>)

  function ColumnSet(f: Frame): set<string>
  {
    set c | c in f.columns
  }

  /** A table the tool can work with: a header without repeats that holds the id, name
      and date columns, and every row has exactly the header's columns. */
  ghost predicate WellFormed(f: Frame)
  {
    && NoDuplicates(f.columns)
    && HospitalIdColumn in f.columns
    && HospitalNameColumn in f.columns
    && DateColumn in f.columns
    && forall i :: 0 <= i < |f.rows| ==> f.rows[i].Keys == ColumnSet(f)
  }

  /** The mask `df['hospital_name'] == name`. */
  predicate NameIs(r: Row, name: string)
  {
    HospitalNameColumn in r && r[HospitalNameColumn] == Text(name)
  }

  /** The mask `(df['hospital_name'] == name) & (df['date'] == date)`. */
  predicate NameDateIs(r: Row, name: string, date: string)
  {
    NameIs(r, name) && DateColumn in r && r[DateColumn] == Text(date)
  }

  function Named(name: string): Row -> bool
  {
    (r: Row) => NameIs(r, name)
  }

  function NamedOn(name: string, date: string): Row -> bool
  {
    (r: Row) => NameDateIs(r, name, date)
  }

  /** One column of the table, top to bottom. */
  function Column(f: Frame, c: string): (col: seq<Cell>)
    requires WellFormed(f) && c in f.columns
    ensures |col| == |f.rows| && forall i :: 0 <= i < |f.rows| ==> col[i] == f.rows[i][c]
  {
    seq(|f.rows|, i requires 0 <= i < |f.rows| => f.rows[i][c])
  }

  // ---------------------------------------------------------------------------
  // Counting and listing hospitals

  /** The hospital ids that occur in the table, NaN left out. */
  ghost function IdSet(f: Frame): set<Cell>
    requires WellFormed(f)
  {
    set i | 0 <= i < |f.rows| && f.rows[i][HospitalIdColumn] != Missing :: f.rows[i][HospitalIdColumn]
  }

  /** `get_hospital_count`: `nunique` of the id column, which does not count NaN;
      0 without a table. */
  function GetHospitalCount(df: Option<Frame>): (n: nat)
    requires df.Some? ==> WellFormed(df.value)
    ensures df.None? ==> n == 0
    ensures df.Some? ==> n == |IdSet(df.value)|
  {
    if df.None? then 0
    else
      var ids := IdCells(df.value);
      DistinctCardinality(ids);
      PresentIds(df.value);
      |Distinct(ids)|
  }

  /** The id column with NaN left out. */
  function IdCells(f: Frame): seq<Cell>
    requires WellFormed(f)
  {
    Filter(Column(f, HospitalIdColumn), (c: Cell) => c != Missing)
  }

  lemma PresentIds(f: Frame)
    requires WellFormed(f)
    ensures (set x | x in IdCells(f)) == IdSet(f)
  {
    var col := Column(f, HospitalIdColumn);
    var ids := IdCells(f);
    forall i | 0 <= i < |f.rows| && f.rows[i][HospitalIdColumn] != Missing
      ensures f.rows[i][HospitalIdColumn] in ids
    {
      assert col[i] in col;
    }
  }

  /** One record of `get_hospital_names`. */
  datatype HospitalEntry = HospitalEntry(hospitalId: Cell, hospitalName: Cell, location: Cell)

  /** The id, name and location columns of the table, row by row. */
  function Entries(f: Frame): (es: seq<HospitalEntry>)
    requires WellFormed(f) && LocationColumn in f.columns
    ensures |es| == |f.rows|
    ensures forall i :: 0 <= i < |f.rows| ==>
      es[i] == HospitalEntry(f.rows[i][HospitalIdColumn], f.rows[i][HospitalNameColumn], f.rows[i][LocationColumn])
  {
    seq(|f.rows|, i requires 0 <= i < |f.rows| =>
      HospitalEntry(f.rows[i][HospitalIdColumn], f.rows[i][HospitalNameColumn], f.rows[i][LocationColumn]))
  }

  /** `get_hospital_names`: every distinct (id, name, location) triple, once each, in
      the order of first appearance (`drop_duplicates` treats NaN as equal to NaN);
      `[]` without a table. */
  function GetHospitalNames(df: Option<Frame>): (r: seq<HospitalEntry>)
    requires df.Some? ==> WellFormed(df.value) && LocationColumn in df.value.columns
    ensures df.None? ==> r == []
    ensures df.Some? ==> forall e :: e in r <==> e in Entries(df.value)
    ensures NoDuplicates(r)
    ensures df.Some? ==> forall i, j :: 0 <= i < j < |r| ==>
      FirstPos(Entries(df.value), r[i]) < FirstPos(Entries(df.value), r[j])
  {
    if df.None? then [] else Distinct(Entries(df.value))
  }

  /** The count is the number of distinct non-NaN ids among the listed hospitals. */
  lemma HospitalCountMatchesNames(df: Option<Frame>)
    requires df.Some? ==> WellFormed(df.value) && LocationColumn in df.value.columns
    ensures GetHospitalCount(df) ==
      |set e | e in GetHospitalNames(df) && e.hospitalId != Missing :: e.hospitalId|
  {
    if df.Some? {
      ListedIdsAreIds(df.value, GetHospitalNames(df));
    }
  }

  lemma ListedIdsAreIds(f: Frame, names: seq<HospitalEntry>)
    requires WellFormed(f) && LocationColumn in f.columns
    requires forall e :: e in names <==> e in Entries(f)
    ensures (set e | e in names && e.hospitalId != Missing :: e.hospitalId) == IdSet(f)
  {
    var es := Entries(f);
    var listed := set e | e in names && e.hospitalId != Missing :: e.hospitalId;
    forall c | c in listed ensures c in IdSet(f) {
      var e :| e in names && e.hospitalId != Missing && e.hospitalId == c;
      var i :| 0 <= i < |es| && es[i] == e;
    }
    forall c | c in IdSet(f) ensures c in listed {
      var i :| 0 <= i < |f.rows| && f.rows[i][HospitalIdColumn] != Missing && f.rows[i][HospitalIdColumn] == c;
      assert es[i] in es;
    }
  }

  // ---------------------------------------------------------------------------
  // Rows and columns

  /** `get_hospital_details_by_date`: the first row with that name and date, or the
      no-data error. */
  function GetHospitalDetailsByDate(f: Frame, name: string, date: string): (r: Result<Row>)
    requires WellFormed(f)
    ensures r.Err? <==> forall j :: 0 <= j < |f.rows| ==> !NameDateIs(f.rows[j], name, date)
    ensures r.Err? ==> r.error == NoDataForDate(name, date)
    ensures r.Ok? ==> exists i :: IsFirstMatch(f.rows, NamedOn(name, date), i) && f.rows[i] == r.value
  {
    FirstWhere(f.rows, NamedOn(name, date), NoDataForDate(name, date))
  }

  /** One record of the undated form of `get_column_value`. */
  datatype DatedValue = DatedValue(date: Cell, value: Cell)

  datatype ColumnValue =
    | AtDate(hospitalName: string, column: string, date: string, value: Cell)
    | Series(hospitalName: string, column: string, values: seq<DatedValue>)

  /** Python's `if date:`: a date was passed and it is not the empty string. */
  predicate DateGiven(date: Option<string>)
  {
    date.Some? && date.value != ""
  }

  /** The date and `column` cells of some rows, in order. */
  function DatedValues(rows: seq<Row>, column: string): (vs: seq<DatedValue>)
    requires forall x :: x in rows ==> DateColumn in x && column in x
    ensures |vs| == |rows|
    ensures forall i :: 0 <= i < |rows| ==> vs[i] == DatedValue(rows[i][DateColumn], rows[i][column])
  {
    seq(|rows|, i requires 0 <= i < |rows| => DatedValue(rows[i][DateColumn], rows[i][column]))
  }

  /** The dated form of `get_column_value`: the `column` cell of the first row with that
      name and date, or the no-data error. */
  function ValueOnDate(f: Frame, name: string, column: string, date: string): (r: Result<ColumnValue>)
    requires WellFormed(f) && column in f.columns
    ensures r.Err? <==> forall j :: 0 <= j < |f.rows| ==> !NameDateIs(f.rows[j], name, date)
    ensures r.Err? ==> r.error == NoDataForDate(name, date)
    ensures r.Ok? ==> exists i :: IsFirstMatch(f.rows, NamedOn(name, date), i) &&
                                 r.value == AtDate(name, column, date, f.rows[i][column])
  {
    match FirstWhere(f.rows, NamedOn(name, date), NoDataForDate(name, date))
    case Err(e) => Err(e)
    case Ok(row) => Ok(AtDate(name, column, date, row[column]))
  }

  /** `get_column_value`: checks the column, then the hospital, then (for a given date)
      the date, and answers with one value or with every dated value of the hospital. */
  function GetColumnValue(f: Frame, name: string, column: string, date: Option<string>): (r: Result<ColumnValue>)
    requires WellFormed(f)
    ensures column !in f.columns ==> r == Err(ColumnNotFound(column))
    ensures column in f.columns && (forall j :: 0 <= j < |f.rows| ==> !NameIs(f.rows[j], name)) ==>
      r == Err(HospitalNotFound(name))
    ensures column in f.columns && (exists j :: 0 <= j < |f.rows| && NameIs(f.rows[j], name)) && DateGiven(date) ==>
      r == ValueOnDate(f, name, column, date.value)
    ensures column in f.columns && (exists j :: 0 <= j < |f.rows| && NameIs(f.rows[j], name)) && !DateGiven(date) ==>
      r == Ok(Series(name, column, DatedValues(Filter(f.rows, Named(name)), column)))
  {
    if column !in f.columns then Err(ColumnNotFound(column))
    else
      var named := Filter(f.rows, Named(name));
      FirstIndexHeadsFilter(f.rows, Named(name));
      if named == [] then Err(HospitalNotFound(name))
      else if DateGiven(date) then ValueOnDate(f, name, column, date.value)
      else Ok(Series(name, column, DatedValues(named, column)))
  }

  /** `get_column_names`: the header, each column once, including the key columns. */
  function GetColumnNames(f: Frame): (r: seq<string>)
    requires WellFormed(f)
    ensures NoDuplicates(r)
    ensures forall c :: c in r <==> c in ColumnSet(f)
    ensures HospitalIdColumn in r && HospitalNameColumn in r && DateColumn in r
  {
    f.columns
  }

  /** A column is reported missing exactly when `get_column_names` does not list it. */
  lemma ColumnNotFoundIffUnlisted(f: Frame, name: string, column: string, date: Option<string>)
    requires WellFormed(f)
    ensures GetColumnValue(f, name, column, date) == Err(ColumnNotFound(column)) <==>
      column !in GetColumnNames(f)
  {
  }

  /** A value read for one date is among the dated values read without a date. */
  lemma DatedValueInSeries(f: Frame, name: string, column: string, date: string)
    requires WellFormed(f) && date != ""
    requires GetColumnValue(f, name, column, Some(date)).Ok?
    ensures var series := GetColumnValue(f, name, column, None);
      series.Ok? && series.value.Series? &&
      DatedValue(Text(date), GetColumnValue(f, name, column, Some(date)).value.value) in series.value.values
  {
    var r := GetColumnValue(f, name, column, Some(date));
    assert column in f.columns;
    assert exists j :: 0 <= j < |f.rows| && NameIs(f.rows[j], name);
    assert r == ValueOnDate(f, name, column, date);
    var i :| IsFirstMatch(f.rows, NamedOn(name, date), i) &&
             r.value == AtDate(name, column, date, f.rows[i][column]);
    var row := f.rows[i];
    assert NameDateIs(row, name, date);
    SeriesHoldsRow(f, name, column, i);
  }

  lemma SeriesHoldsRow(f: Frame, name: string, column: string, i: int)
    requires WellFormed(f) && column in f.columns
    requires 0 <= i < |f.rows| && NameIs(f.rows[i], name)
    ensures var series := GetColumnValue(f, name, column, None);
      series.Ok? && series.value.Series? &&
      DatedValue(f.rows[i][DateColumn], f.rows[i][column]) in series.value.values
  {
    var named := Filter(f.rows, Named(name));
    NamedRowSelected(f.rows, name, i);
    var k := FirstPos(named, f.rows[i]);
    var vs := DatedValues(named, column);
    assert vs[k] == DatedValue(f.rows[i][DateColumn], f.rows[i][column]);
  }

  lemma NamedRowSelected(rows: seq<Row>, name: string, i: int)
    requires 0 <= i < |rows| && NameIs(rows[i], name)
    ensures rows[i] in Filter(rows, Named(name))
  {
    var named := Filter(rows, Named(name));
    assert rows[i] in rows;
    assert multiset(named)[rows[i]] == multiset(rows)[rows[i]];
  }

  // ---------------------------------------------------------------------------
  // Locations and distances

  datatype Coord = Coord(latitude: real, longitude: real)

  /** The floating-point primitives the tool relies on, which this model leaves abstract:
      Python's `float(token)` (`None` where it raises `ValueError`) and the haversine
      great-circle distance in kilometres on a sphere of radius 6371, rounded to two
      decimals. */
  datatype Numerics = Numerics(parseFloat: string -> Option<real>, haversineKm: (Coord, Coord) -> real)

  datatype Parsed = Parsed(coord: Coord) | Unparsable(cause: CoordinateError)

  /** `row['location'].split(',')` followed by `float(coords[0])` and `float(coords[1])`,
      in that order: a non-text cell has no `split`, a token that is not a number fails
      `float`, and a location without a comma has no second token. Tokens after the
      second are ignored. */
  function ParseCoordinates(location: Cell, num: Numerics): (r: Parsed)
    ensures !location.Text? ==> r == Unparsable(LocationNotText(location))
    ensures location.Text? ==>
      var ts := Split(location.s, ',');
      && (num.parseFloat(ts[0]).None? ==> r == Unparsable(NotAFloat(ts[0])))
      && (num.parseFloat(ts[0]).Some? && |ts| == 1 ==> r == Unparsable(NoSecondToken(location.s)))
      && (num.parseFloat(ts[0]).Some? && |ts| > 1 && num.parseFloat(ts[1]).None? ==>
            r == Unparsable(NotAFloat(ts[1])))
      && (r.Parsed? ==> |ts| > 1 && num.parseFloat(ts[0]) == Some(r.coord.latitude)
                                 && num.parseFloat(ts[1]) == Some(r.coord.longitude))
  {
    if !location.Text? then Unparsable(LocationNotText(location))
    else
      var ts := Split(location.s, ',');
      match num.parseFloat(ts[0])
      case None => Unparsable(NotAFloat(ts[0]))
      case Some(lat) =>
        if |ts| < 2 then Unparsable(NoSecondToken(location.s))
        else match num.parseFloat(ts[1])
          case None => Unparsable(NotAFloat(ts[1]))
          case Some(lon) => Parsed(Coord(lat, lon))
  }

  /** A location written as `lat,lon` (optionally followed by more comma-separated
      fields) parses back to the numbers its two first fields denote. */
  lemma CoordinatesRoundTrip(lat: string, lon: string, rest: seq<string>, num: Numerics, x: real, y: real)
    requires ',' !in lat && ',' !in lon && forall t :: t in rest ==> ',' !in t
    requires num.parseFloat(lat) == Some(x) && num.parseFloat(lon) == Some(y)
    ensures ParseCoordinates(Text(Join([lat, lon] + rest, ',')), num) == Parsed(Coord(x, y))
  {
    SplitJoin([lat, lon] + rest, ',');
  }

  /** One answer of `get_hospital_location`. */
  datatype LocationInfo = LocationInfo(
    hospitalName: string,
    hospitalId: Cell,
    location: Cell,
    region: Cell,
    latitude: real,
    longitude: real)

  /** `get_hospital_location`: the first row with that name, with its location parsed;
      a location that does not parse raises. */
  function GetHospitalLocation(f: Frame, name: string, num: Numerics): (r: Outcome<LocationInfo>)
    requires WellFormed(f) && LocationColumn in f.columns && RegionColumn in f.columns
    ensures r.ErrorRecord? <==> forall j :: 0 <= j < |f.rows| ==> !NameIs(f.rows[j], name)
    ensures r.ErrorRecord? ==> r.error == HospitalNotFound(name)
    ensures var k := FirstIndex(f.rows, Named(name));
      k.Some? ==>
      var row := f.rows[k.value];
      var p := ParseCoordinates(row[LocationColumn], num);
      && (p.Unparsable? ==> r == Raised(p.cause))
      && (p.Parsed? ==> r == Success(LocationInfo(name, row[HospitalIdColumn], row[LocationColumn],
                                                  row[RegionColumn], p.coord.latitude, p.coord.longitude)))
  {
    match FirstWhere(f.rows, Named(name), HospitalNotFound(name))
    case Err(e) => ErrorRecord(e)
    case Ok(row) =>
      match ParseCoordinates(row[LocationColumn], num)
      case Unparsable(e) => Raised(e)
      case Parsed(c) =>
        Success(LocationInfo(name, row[HospitalIdColumn], row[LocationColumn], row[RegionColumn],
                             c.latitude, c.longitude))
  }

  /** One answer of `calculate_distance`. */
  datatype DistanceInfo = DistanceInfo(
    fromHospital: string,
    toHospital: string,
    distanceKm: real,
    fromCoordinates: Coord,
    toCoordinates: Coord)

  /** `calculate_distance`: looks up both hospitals (the first one's absence is reported
      first), then parses the first location and then the second; a location that does
      not parse raises. */
  function CalculateDistance(f: Frame, from: string, to: string, num: Numerics): (r: Outcome<DistanceInfo>)
    requires WellFormed(f) && LocationColumn in f.columns
    ensures (forall j :: 0 <= j < |f.rows| ==> !NameIs(f.rows[j], from)) ==>
      r == ErrorRecord(HospitalNotFound(from))
    ensures (exists j :: 0 <= j < |f.rows| && NameIs(f.rows[j], from)) &&
            (forall j :: 0 <= j < |f.rows| ==> !NameIs(f.rows[j], to)) ==>
      r == ErrorRecord(HospitalNotFound(to))
    ensures r.ErrorRecord? ==>
      (forall j :: 0 <= j < |f.rows| ==> !NameIs(f.rows[j], from)) ||
      (forall j :: 0 <= j < |f.rows| ==> !NameIs(f.rows[j], to))
    ensures var k1, k2 := FirstIndex(f.rows, Named(from)), FirstIndex(f.rows, Named(to));
      k1.Some? && k2.Some? ==>
      var p1 := ParseCoordinates(f.rows[k1.value][LocationColumn], num);
      var p2 := ParseCoordinates(f.rows[k2.value][LocationColumn], num);
      && (p1.Unparsable? ==> r == Raised(p1.cause))
      && (p1.Parsed? && p2.Unparsable? ==> r == Raised(p2.cause))
      && (p1.Parsed? && p2.Parsed? ==>
            r == Success(DistanceInfo(from, to, num.haversineKm(p1.coord, p2.coord), p1.coord, p2.coord)))
  {
    var first := FirstWhere(f.rows, Named(from), HospitalNotFound(from));
    var second := FirstWhere(f.rows, Named(to), HospitalNotFound(to));
    if first.Err? then ErrorRecord(first.error)
    else if second.Err? then ErrorRecord(second.error)
    else
      match ParseCoordinates(first.value[LocationColumn], num)
      case Unparsable(e) => Raised(e)
      case Parsed(c1) =>
        match ParseCoordinates(second.value[LocationColumn], num)
        case Unparsable(e) => Raised(e)
        case Parsed(c2) => Success(DistanceInfo(from, to, num.haversineKm(c1, c2), c1, c2))
  }

  /** A computed distance uses exactly the coordinates `get_hospital_location` reports
      for the two hospitals. */
  lemma DistanceAgreesWithLocations(f: Frame, from: string, to: string, num: Numerics)
    requires WellFormed(f) && LocationColumn in f.columns && RegionColumn in f.columns
    requires CalculateDistance(f, from, to, num).Success?
    ensures var d := CalculateDistance(f, from, to, num).value;
      var a := GetHospitalLocation(f, from, num);
      var b := GetHospitalLocation(f, to, num);
      && a.Success? && a.value.latitude == d.fromCoordinates.latitude
      && a.value.longitude == d.fromCoordinates.longitude
      && b.Success? && b.value.latitude == d.toCoordinates.latitude
      && b.value.longitude == d.toCoordinates.longitude
  {
  }

  /** With a symmetric distance function, swapping the hospitals swaps the coordinates
      and keeps the distance. */
  lemma DistanceSymmetric(f: Frame, from: string, to: string, num: Numerics)
    requires WellFormed(f) && LocationColumn in f.columns
    requires forall a, b :: num.haversineKm(a, b) == num.haversineKm(b, a)
    requires CalculateDistance(f, from, to, num).Success?
    ensures var d := CalculateDistance(f, from, to, num).value;
      var e := CalculateDistance(f, to, from, num);
      e.Success? && e.value == DistanceInfo(to, from, d.distanceKm, d.toCoordinates, d.fromCoordinates)
  {
  }

  // ---------------------------------------------------------------------------
  // All pairwise distances

  /** What `get_all_distances` needs of the table: every id is text, so that `<` on ids
      is Python's `str` comparison, and every name is text or NaN. */
  predicate KeysAreText(f: Frame)
    requires WellFormed(f)
  {
    forall i :: 0 <= i < |f.rows| ==>
      f.rows[i][HospitalIdColumn].Text? && (f.rows[i][HospitalNameColumn].Text? || f.rows[i][HospitalNameColumn] == Missing)
  }

  /** The (id, name) pair of every row, top to bottom. */
  function RowIdNames(f: Frame): (all: seq<IdName>)
    requires WellFormed(f) && KeysAreText(f)
    ensures |all| == |f.rows|
    ensures forall i :: 0 <= i < |f.rows| ==>
      all[i] == IdName(f.rows[i][HospitalIdColumn].s, f.rows[i][HospitalNameColumn])
  {
    seq(|f.rows|, i requires 0 <= i < |f.rows| =>
      IdName(f.rows[i][HospitalIdColumn].s, f.rows[i][HospitalNameColumn]))
  }

  /** `df[['hospital_id', 'hospital_name']].drop_duplicates()`: the distinct (id, name)
      pairs of the rows; `IdNamesComplete` states that each row's pair is listed, in
      order of first appearance. */
  function IdNames(f: Frame): (h: seq<IdName>)
    requires WellFormed(f) && KeysAreText(f)
    ensures NoDuplicates(h)
    ensures forall e :: e in h ==> e in RowIdNames(f)
  {
    Distinct(RowIdNames(f))
  }

  /** Every row's (id, name) pair is listed exactly once, nothing else is, and the list
      follows the order in which the pairs first appear. */
  lemma IdNamesComplete(f: Frame)
    requires WellFormed(f) && KeysAreText(f)
    ensures forall e :: e in IdNames(f) <==> e in RowIdNames(f)
    ensures forall i :: 0 <= i < |f.rows| ==>
      IdName(f.rows[i][HospitalIdColumn].s, f.rows[i][HospitalNameColumn]) in IdNames(f)
    ensures var h := IdNames(f);
      forall i, j :: 0 <= i < j < |h| ==> FirstPos(RowIdNames(f), h[i]) < FirstPos(RowIdNames(f), h[j])
  {
    var all := RowIdNames(f);
    forall i | 0 <= i < |f.rows| ensures all[i] in all {
    }
  }

  /** Each listed entry's name is text or NaN and is the name cell of some row. */
  lemma ListedName(f: Frame, e: IdName)
    requires WellFormed(f) && KeysAreText(f) && e in IdNames(f)
    ensures e.name.Text? || e.name == Missing
    ensures exists i :: 0 <= i < |f.rows| && f.rows[i][HospitalNameColumn] == e.name
  {
    var all := RowIdNames(f);
    var i :| 0 <= i < |all| && all[i] == e;
  }

  /** `calculate_distance` called with two name cells of the table. A NaN name is
      formatted as `nan` and, since NaN equals nothing, matches no row; the first name is
      looked up before the second. (Numeric names, which `KeysAreText` rules out, are
      given the NaN answer too.) */
  function NamedDistance(f: Frame, from: Cell, to: Cell, num: Numerics): (r: Outcome<DistanceInfo>)
    requires WellFormed(f) && LocationColumn in f.columns
    ensures from.Text? && to.Text? ==> r == CalculateDistance(f, from.s, to.s, num)
    ensures from == Missing ==> r == ErrorRecord(HospitalNotFound("nan"))
    ensures from.Text? && to == Missing ==>
      r == ErrorRecord(HospitalNotFound(
        if forall j :: 0 <= j < |f.rows| ==> !NameIs(f.rows[j], from.s) then from.s else "nan"))
  {
    if !from.Text? then ErrorRecord(HospitalNotFound("nan"))
    else if !to.Text? then
      match FirstWhere(f.rows, Named(from.s), HospitalNotFound(from.s))
      case Err(e) => ErrorRecord(e)
      case Ok(_) => ErrorRecord(HospitalNotFound("nan"))
    else CalculateDistance(f, from.s, to.s, num)
  }

  /** `calculate_distance` applied to the names of a pair of entries. */
  function PairDistance(f: Frame, num: Numerics): (d: ((IdName, IdName)) -> Outcome<DistanceInfo>)
    requires WellFormed(f) && LocationColumn in f.columns
  {
    (p: (IdName, IdName)) => NamedDistance(f, p.0.name, p.1.name, num)
  }

  /** What the nested loops of `get_all_distances` end with when `done` has been gathered
      and the pairs `ps` are still to be visited, `dist` computing each pair's answer: an
      exception stops the loops, an error record is skipped and a distance is appended. */
  function GatherFrom(done: seq<DistanceInfo>, ps: seq<(IdName, IdName)>,
                      dist: ((IdName, IdName)) -> Outcome<DistanceInfo>): (r: Outcome<seq<DistanceInfo>>)
    ensures !r.ErrorRecord?
    ensures r.Success? ==> |done| <= |r.value| <= |done| + |ps|
    decreases |ps|
  {
    if |ps| == 0 then Success(done)
    else
      var info := dist(ps[0]);
      if info.Raised? then Raised(info.cause)
      else GatherFrom(if info.Success? then done + [info.value] else done, ps[1..], dist)
  }

  /** What the loops gather from nothing. */
  function Gather(ps: seq<(IdName, IdName)>, dist: ((IdName, IdName)) -> Outcome<DistanceInfo>): (r: Outcome<seq<DistanceInfo>>)
    ensures !r.ErrorRecord?
    ensures r.Success? ==> |r.value| <= |ps|
  {
    GatherFrom([], ps, dist)
  }

  /** One answer of `get_all_distances`. */
  datatype DistanceTable = DistanceTable(totalPairs: nat, distances: seq<DistanceInfo>)

  /** `get_all_distances`: the distance of every pair of distinct hospitals whose first
      id is the smaller, skipping the pairs `calculate_distance` reports an error for. */
  function AllDistances(f: Frame, num: Numerics): (r: Outcome<DistanceTable>)
    requires WellFormed(f) && LocationColumn in f.columns && KeysAreText(f)
    ensures !r.ErrorRecord?
    ensures r.Success? ==> r.value.totalPairs == |r.value.distances|
  {
    var g := Gather(Pairs(IdNames(f)), PairDistance(f, num));
    if g.Raised? then Raised(g.cause) else Success(DistanceTable(|g.value|, g.value))
  }

  /** Every gathered distance was gathered before or is the answer for one of the
      visited pairs. */
  lemma {:induction false} GatherFromPairs(done: seq<DistanceInfo>, ps: seq<(IdName, IdName)>,
                                           dist: ((IdName, IdName)) -> Outcome<DistanceInfo>)
    ensures var r := GatherFrom(done, ps, dist);
      r.Success? ==> forall d :: d in r.value ==> d in done || exists p :: p in ps && dist(p) == Success(d)
    decreases |ps|
  {
    if |ps| > 0 {
      var info := dist(ps[0]);
      if !info.Raised? {
        var next := if info.Success? then done + [info.value] else done;
        GatherFromPairs(next, ps[1..], dist);
        var r := GatherFrom(done, ps, dist);
        assert r == GatherFrom(next, ps[1..], dist);
        if r.Success? {
          forall d | d in r.value ensures d in done || exists p :: p in ps && dist(p) == Success(d) {
            if d in next && d !in done {
              assert dist(ps[0]) == Success(d);
              assert ps[0] in ps;
            } else if d !in next {
              var p :| p in ps[1..] && dist(p) == Success(d);
              assert p in ps;
            }
          }
        }
      }
    }
  }

  /** When no pair gets an error record, no pair is skipped. */
  lemma {:induction false} GatherKeepsEveryPair(done: seq<DistanceInfo>, ps: seq<(IdName, IdName)>,
                                                dist: ((IdName, IdName)) -> Outcome<DistanceInfo>)
    requires forall p :: p in ps ==> !dist(p).ErrorRecord?
    ensures var r := GatherFrom(done, ps, dist);
      r.Success? ==> |r.value| == |done| + |ps|
    decreases |ps|
  {
    if |ps| > 0 {
      assert ps[0] in ps;
      assert forall p :: p in ps[1..] ==> p in ps;
      var info := dist(ps[0]);
      if info.Success? {
        GatherKeepsEveryPair(done + [info.value], ps[1..], dist);
      }
    }
  }

  /** What one pass of the inner loop of `get_all_distances` does: the pairs still to
      visit lose their head, which is skipped, gathered or raised. */
  lemma RowStep(h: seq<IdName>, i: nat, j: nat, dist: ((IdName, IdName)) -> Outcome<DistanceInfo>,
                distances: seq<DistanceInfo>)
    requires i < |h| && j < |h|
    ensures var now := GatherFrom(distances, RowFrom(h, i, j) + RowsFrom(h, i + 1), dist);
      var rest := RowFrom(h, i, j + 1) + RowsFrom(h, i + 1);
      var info := dist((h[i], h[j]));
      && (!LexLess(h[i].id, h[j].id) ==> now == GatherFrom(distances, rest, dist))
      && (LexLess(h[i].id, h[j].id) && info.ErrorRecord? ==> now == GatherFrom(distances, rest, dist))
      && (LexLess(h[i].id, h[j].id) && info.Success? ==> now == GatherFrom(distances + [info.value], rest, dist))
      && (LexLess(h[i].id, h[j].id) && info.Raised? ==> now == Raised(info.cause))
  {
    RowFromStep(h, i, j);
    if LexLess(h[i].id, h[j].id) {
      var rest := RowFrom(h, i, j + 1) + RowsFrom(h, i + 1);
      var q := [(h[i], h[j])] + rest;
      assert q[0] == (h[i], h[j]) && q[1..] == rest;
    }
  }

  /** The two nested loops of `get_all_distances` over the entries `h`: every ordered
      pair whose first id is the smaller is passed to `dist`, and the first exception
      ends both loops. */
  method VisitAllPairs(h: seq<IdName>, dist: ((IdName, IdName)) -> Outcome<DistanceInfo>)
    returns (r: Outcome<seq<DistanceInfo>>)
    ensures r == Gather(Pairs(h), dist)
  {
    var distances: seq<DistanceInfo> := [];
    var i := 0;
    while i < |h|
      invariant 0 <= i <= |h|
      invariant GatherFrom(distances, RowsFrom(h, i), dist) == Gather(Pairs(h), dist)
    {
      var j := 0;
      while j < |h|
        invariant 0 <= j <= |h|
        invariant GatherFrom(distances, RowFrom(h, i, j) + RowsFrom(h, i + 1), dist) == Gather(Pairs(h), dist)
      {
        RowStep(h, i, j, dist, distances);
        if LexLess(h[i].id, h[j].id) {
          var info := dist((h[i], h[j]));
          if info.Raised? {
            return Raised(info.cause);
          }
          if info.Success? {
            distances := distances + [info.value];
          }
        }
        j := j + 1;
      }
      assert RowFrom(h, i, |h|) + RowsFrom(h, i + 1) == RowsFrom(h, i + 1);
      i := i + 1;
    }
    return Success(distances);
  }

  /** With distinct ids and no NaN name, a completed table holds all `n * (n - 1) / 2`
      pairs of the `n` (id, name) entries. */
  lemma AllDistancesComplete(f: Frame, num: Numerics)
    requires WellFormed(f) && LocationColumn in f.columns && KeysAreText(f)
    requires NoDuplicates(Ids(IdNames(f)))
    requires forall i :: 0 <= i < |f.rows| ==> f.rows[i][HospitalNameColumn].Text?
    ensures var r := AllDistances(f, num);
      r.Success? ==> 2 * r.value.totalPairs == |IdNames(f)| * (|IdNames(f)| - 1)
  {
    var h := IdNames(f);
    var dist := PairDistance(f, num);
    forall p | p in Pairs(h) ensures !dist(p).ErrorRecord? {
      TextPairKept(f, num, p);
    }
    GatherKeepsEveryPair([], Pairs(h), dist);
    PairsCount(h);
  }

  lemma TextPairKept(f: Frame, num: Numerics, p: (IdName, IdName))
    requires WellFormed(f) && LocationColumn in f.columns && KeysAreText(f)
    requires forall i :: 0 <= i < |f.rows| ==> f.rows[i][HospitalNameColumn].Text?
    requires p in Pairs(IdNames(f))
    ensures !PairDistance(f, num)(p).ErrorRecord?
  {
    PairsMembership(IdNames(f), p.0, p.1);
    assert (p.0, p.1) == p;
    ListedName(f, p.0);
    ListedName(f, p.1);
    PairFound(f, num, p);
  }

  /** The error filter of `get_all_distances` drops exactly the pairs with a NaN name:
      both hospitals of a visited pair have rows, so a pair whose names are text never
      gets an error record, and a pair with a NaN name always does. */
  lemma PairFound(f: Frame, num: Numerics, p: (IdName, IdName))
    requires WellFormed(f) && LocationColumn in f.columns && KeysAreText(f)
    requires p in Pairs(IdNames(f))
    ensures PairDistance(f, num)(p).ErrorRecord? <==> p.0.name == Missing || p.1.name == Missing
  {
    PairsMembership(IdNames(f), p.0, p.1);
    assert (p.0, p.1) == p;
    if p.0.name.Text? && p.1.name.Text? {
      ListedTextNameFound(f, p.0);
      ListedTextNameFound(f, p.1);
    } else {
      ListedName(f, p.0);
      ListedName(f, p.1);
    }
  }

  /** A listed text name is the name of some row, so the lookup by name finds it. */
  lemma ListedTextNameFound(f: Frame, e: IdName)
    requires WellFormed(f) && KeysAreText(f) && e in IdNames(f) && e.name.Text?
    ensures exists j :: 0 <= j < |f.rows| && NameIs(f.rows[j], e.name.s)
  {
    ListedName(f, e);
    var i :| 0 <= i < |f.rows| && f.rows[i][HospitalNameColumn] == e.name;
    assert NameIs(f.rows[i], e.name.s);
  }

  /** Every reported distance is between two listed hospitals whose first id is below
      the second, so no hospital is paired with itself and no pair appears reversed. */
  lemma DistancesFollowIdOrder(f: Frame, num: Numerics)
    requires WellFormed(f) && LocationColumn in f.columns && KeysAreText(f)
    ensures var r := AllDistances(f, num);
      r.Success? ==> forall d :: d in r.value.distances ==>
        exists x, y :: x in IdNames(f) && y in IdNames(f) && LexLess(x.id, y.id) &&
                      x.name.Text? && y.name.Text? && CalculateDistance(f, x.name.s, y.name.s, num) == Success(d)
  {
    var h := IdNames(f);
    var dist := PairDistance(f, num);
    var r := AllDistances(f, num);
    if r.Success? {
      GatherFromPairs([], Pairs(h), dist);
      forall d | d in r.value.distances
        ensures exists x, y :: x in h && y in h && LexLess(x.id, y.id) &&
                              x.name.Text? && y.name.Text? && CalculateDistance(f, x.name.s, y.name.s, num) == Success(d)
      {
        var p :| p in Pairs(h) && dist(p) == Success(d);
        PairWitness(f, num, p, d);
      }
    }
  }

  lemma PairWitness(f: Frame, num: Numerics, p: (IdName, IdName), d: DistanceInfo)
    requires WellFormed(f) && LocationColumn in f.columns && KeysAreText(f)
    requires p in Pairs(IdNames(f)) && PairDistance(f, num)(p) == Success(d)
    ensures exists x, y :: x in IdNames(f) && y in IdNames(f) && LexLess(x.id, y.id) &&
                          x.name.Text? && y.name.Text? && CalculateDistance(f, x.name.s, y.name.s, num) == Success(d)
  {
    PairsMembership(IdNames(f), p.0, p.1);
    assert (p.0, p.1) == p;
  }

  // ---------------------------------------------------------------------------
  // Dates

  predicate DatesAreText(f: Frame)
    requires WellFormed(f)
  {
    forall i :: 0 <= i < |f.rows| ==> f.rows[i][DateColumn].Text?
  }

  /** One answer of `get_date_range`. */
  datatype DateRange = DateRange(startDate: string, endDate: string, totalDays: nat, allDates: seq<string>)

  function DateStrings(f: Frame): (ds: seq<string>)
    requires WellFormed(f) && DatesAreText(f)
    ensures |ds| == |f.rows| && forall i :: 0 <= i < |f.rows| ==> ds[i] == f.rows[i][DateColumn].s
  {
    seq(|f.rows|, i requires 0 <= i < |f.rows| => f.rows[i][DateColumn].s)
  }

  /** `get_date_range`: the distinct dates in ascending order, the first and last of
      them, and how many there are. An empty table has no first date. */
  function GetDateRange(f: Frame): (r: DateRange)
    requires WellFormed(f) && |f.rows| > 0 && DatesAreText(f)
    ensures StrictlySorted(r.allDates)
    ensures forall d :: d in r.allDates <==> exists i :: 0 <= i < |f.rows| && f.rows[i][DateColumn] == Text(d)
    ensures r.totalDays == |r.allDates| == |set i | 0 <= i < |f.rows| :: f.rows[i][DateColumn].s|
    ensures |r.allDates| > 0 && r.startDate == r.allDates[0] && r.endDate == r.allDates[|r.allDates| - 1]
    ensures forall d :: d in r.allDates ==>
      (d == r.startDate || LexLess(r.startDate, d)) && (d == r.endDate || LexLess(d, r.endDate))
  {
    var ds := DateStrings(f);
    var dates := SortUnique(ds);
    DateListFacts(f, dates);
    DateRange(dates[0], dates[|dates| - 1], |dates|, dates)
  }

  lemma DateListFacts(f: Frame, dates: seq<string>)
    requires WellFormed(f) && |f.rows| > 0 && DatesAreText(f)
    requires StrictlySorted(dates)
    requires forall d :: d in dates <==> d in DateStrings(f)
    ensures |dates| > 0
    ensures forall d :: d in dates <==> exists i :: 0 <= i < |f.rows| && f.rows[i][DateColumn] == Text(d)
    ensures |dates| == |set i | 0 <= i < |f.rows| :: f.rows[i][DateColumn].s|
    ensures forall d :: d in dates ==>
      (d == dates[0] || LexLess(dates[0], d)) && (d == dates[|dates| - 1] || LexLess(d, dates[|dates| - 1]))
  {
    var ds := DateStrings(f);
    assert ds[0] in ds;
    DatesCounted(f, dates);
    SortedBounds(dates);
  }

  lemma DatesCounted(f: Frame, dates: seq<string>)
    requires WellFormed(f) && DatesAreText(f)
    requires StrictlySorted(dates)
    requires forall d :: d in dates <==> d in DateStrings(f)
    ensures |dates| == |set i | 0 <= i < |f.rows| :: f.rows[i][DateColumn].s|
    ensures forall d :: d in dates <==> exists i :: 0 <= i < |f.rows| && f.rows[i][DateColumn] == Text(d)
  {
    var ds := DateStrings(f);
    assert (set d | d in dates) == (set i | 0 <= i < |f.rows| :: f.rows[i][DateColumn].s) by {
      forall d | d in dates ensures d in (set i | 0 <= i < |f.rows| :: f.rows[i][DateColumn].s) {
        var i :| 0 <= i < |ds| && ds[i] == d;
      }
      forall i | 0 <= i < |f.rows| ensures f.rows[i][DateColumn].s in dates {
        assert ds[i] in ds;
      }
    }
    forall d | d in dates ensures exists i :: 0 <= i < |f.rows| && f.rows[i][DateColumn] == Text(d) {
      var i :| 0 <= i < |ds| && ds[i] == d;
    }
    forall i | 0 <= i < |f.rows| ensures f.rows[i][DateColumn].s in dates {
      assert ds[i] in ds;
    }
    SortedHasNoDuplicates(dates);
    NoDuplicatesCardinality(dates);
  }

  lemma SortedBounds(s: seq<string>)
    requires StrictlySorted(s) && |s| > 0
    ensures forall d :: d in s ==> (d == s[0] || LexLess(s[0], d)) && (d == s[|s| - 1] || LexLess(d, s[|s| - 1]))
  {
    forall d | d in s ensures (d == s[0] || LexLess(s[0], d)) && (d == s[|s| - 1] || LexLess(d, s[|s| - 1])) {
      var k :| 0 <= k < |s| && s[k] == d;
    }
  }

  /** The date list is the only strictly sorted list of the table's dates. */
  lemma DateRangeDetermined(f: Frame, dates: seq<string>)
    requires WellFormed(f) && |f.rows| > 0 && DatesAreText(f)
    requires StrictlySorted(dates)
    requires forall d :: d in dates <==> exists i :: 0 <= i < |f.rows| && f.rows[i][DateColumn] == Text(d)
    ensures GetDateRange(f).allDates == dates
  {
    StrictlySortedUnique(GetDateRange(f).allDates, dates);
  }

  // ---------------------------------------------------------------------------
  // Adding the location column

  const LocationMapping: map<string, string> := map[
    "H001" := "New York, NY",
    "H002" := "Los Angeles, CA",
    "H003" := "Chicago, IL",
    "H004" := "Houston, TX",
    "H005" := "Phoenix, AZ"]

  /** `df['hospital_id'].map(location_mapping)`, one cell: ids outside the mapping (and
      non-text ids) become NaN. */
  function LocationFor(id: Cell): (loc: Cell)
    ensures loc != Missing <==> id.Text? && id.s in LocationMapping
    ensures loc != Missing ==> loc == Text(LocationMapping[id.s])
  {
    if id.Text? && id.s in LocationMapping then Text(LocationMapping[id.s]) else Missing
  }

  /** The table with a `location` column appended, derived from the ids. */
  function WithLocation(f: Frame): (g: Frame)
    requires WellFormed(f) && LocationColumn !in f.columns
    ensures WellFormed(g)
    ensures g.columns == f.columns + [LocationColumn] && |g.rows| == |f.rows|
    ensures forall i, c :: 0 <= i < |f.rows| && c in f.columns ==> g.rows[i][c] == f.rows[i][c]
    ensures forall i :: 0 <= i < |f.rows| ==> g.rows[i][LocationColumn] == LocationFor(f.rows[i][HospitalIdColumn])
  {
    var g := Frame(f.columns + [LocationColumn],
      seq(|f.rows|, i requires 0 <= i < |f.rows| =>
        f.rows[i][LocationColumn := LocationFor(f.rows[i][HospitalIdColumn])]));
    assert ColumnSet(g) == ColumnSet(f) + {LocationColumn};
    assert NoDuplicates(g.columns) by {
      forall i, j | 0 <= i < j < |g.columns| ensures g.columns[i] != g.columns[j] {
        if j == |f.columns| { assert g.columns[i] in f.columns; }
      }
    }
    g
  }

  /** What `_add_location_column` leaves in memory: the table itself when it already has
      a location column, otherwise the table with the column added. */
  function Migrate(f: Frame): (g: Frame)
    requires WellFormed(f)
    ensures WellFormed(g) && LocationColumn in g.columns
    ensures LocationColumn in f.columns ==> g == f
    ensures LocationColumn !in f.columns ==> g == WithLocation(f)
  {
    if LocationColumn in f.columns then f else WithLocation(f)
  }

  /** Adding the column a second time changes nothing. */
  lemma MigrateIdempotent(f: Frame)
    requires WellFormed(f)
    ensures Migrate(Migrate(f)) == Migrate(f)
  {
  }

  /** Adding the column does not change the hospital count. */
  lemma MigrateKeepsCount(f: Frame)
    requires WellFormed(f)
    ensures GetHospitalCount(Some(Migrate(f))) == GetHospitalCount(Some(f))
  {
    var g := Migrate(f);
    assert IdSet(g) == IdSet(f) by {
      forall i | 0 <= i < |f.rows| ensures g.rows[i][HospitalIdColumn] == f.rows[i][HospitalIdColumn] {
      }
    }
  }

  /** After the column is added, every listed hospital's location is the one its id maps to. */
  lemma MigratedLocations(f: Frame)
    requires WellFormed(f) && LocationColumn !in f.columns
    ensures forall e :: e in GetHospitalNames(Some(Migrate(f))) ==> e.location == LocationFor(e.hospitalId)
  {
    var g := Migrate(f);
    var es := Entries(g);
    forall e | e in GetHospitalNames(Some(g)) ensures e.location == LocationFor(e.hospitalId) {
      var i :| 0 <= i < |es| && es[i] == e;
      MigratedEntry(f, i);
    }
  }

  lemma MigratedEntry(f: Frame, i: int)
    requires WellFormed(f) && LocationColumn !in f.columns && 0 <= i < |f.rows|
    ensures var e := Entries(Migrate(f))[i]; e.location == LocationFor(e.hospitalId)
  {
    var g := WithLocation(f);
    assert g.rows[i][HospitalIdColumn] == f.rows[i][HospitalIdColumn];
  }

  /** `float` rejects the city part of each place name the migration writes. */
  predicate CityNamesRejected(num: Numerics)
  {
    && num.parseFloat("New York").None?
    && num.parseFloat("Los Angeles").None?
    && num.parseFloat("Chicago").None?
    && num.parseFloat("Houston").None?
    && num.parseFloat("Phoenix").None?
  }

  /** The migration writes place names where the location parser expects `lat,lon`:
      every cell it writes makes the parse raise. */
  lemma MigratedLocationsDoNotParse(id: Cell, num: Numerics)
    requires CityNamesRejected(num)
    ensures ParseCoordinates(LocationFor(id), num).Unparsable?
  {
    if id.Text? && id.s in LocationMapping {
      var city, state;
      if id.s == "H001" { city, state := "New York", " NY"; }
      else if id.s == "H002" { city, state := "Los Angeles", " CA"; }
      else if id.s == "H003" { city, state := "Chicago", " IL"; }
      else if id.s == "H004" { city, state := "Houston", " TX"; }
      else { city, state := "Phoenix", " AZ"; }
      assert LocationMapping[id.s] == city + [','] + state;
      SplitPiece(city, state, ',');
    }
  }

  /** So on a table the tool migrated itself, `get_hospital_location` never answers with
      coordinates: it reports a missing hospital or raises. */
  lemma MigratedTableHasNoCoordinates(f: Frame, name: string, num: Numerics)
    requires WellFormed(f) && LocationColumn !in f.columns && RegionColumn in f.columns
    requires CityNamesRejected(num)
    ensures !GetHospitalLocation(Migrate(f), name, num).Success?
  {
    var g := Migrate(f);
    var k := FirstIndex(g.rows, Named(name));
    if k.Some? {
      assert g.rows[k.value][LocationColumn] == LocationFor(f.rows[k.value][HospitalIdColumn]);
      MigratedLocationsDoNotParse(f.rows[k.value][HospitalIdColumn], num);
    }
  }

  // ---------------------------------------------------------------------------
  // The tool object

  /** The tool: the CSV path, the file at that path (`None` when no file exists there)
      and the table loaded from it. Writing the table back with `to_csv` and reading it
      again with `read_csv` are taken to give back the same table. */
  class HospitalDataTool {
    const csvPath: string
    var file: Option<Frame>
    var df: Option<Frame>

    ghost predicate Valid()
      reads this
    {
      (file.Some? ==> WellFormed(file.value)) && (df.Some? ==> WellFormed(df.value))
    }

    /** `__init__`: with a file at the path, loads it and adds the location column. */
    constructor (csvPath: string, csvFile: Option<Frame>)
      requires csvFile.Some? ==> WellFormed(csvFile.value)
      ensures Valid() && this.csvPath == csvPath
      ensures df == (if csvFile.Some? then Some(Migrate(csvFile.value)) else None)
      ensures file == df
    {
      this.csvPath := csvPath;
      file := csvFile;
      df := None;
      new;
      if file.Some? {
        LoadData();
        AddLocationColumn();
      }
    }

    /** `_load_data`: the table is the file's contents, or `None` without a file. */
    method LoadData()
      requires Valid()
      modifies this
      ensures Valid() && df == file && file == old(file)
    {
      if file.Some? {
        df := Some(file.value);
      } else {
        df := None;
      }
    }

    /** `_add_location_column`: adds the column when it is absent and writes the table
      back to the file; does nothing without a table or when the column exists. */
    method AddLocationColumn()
      requires Valid()
      modifies this
      ensures Valid()
      ensures old(df).None? ==> df == old(df) && file == old(file)
      ensures old(df).Some? ==> df == Some(Migrate(old(df).value))
      ensures old(df).Some? && LocationColumn !in old(df).value.columns ==> file == df
      ensures old(df).Some? && LocationColumn in old(df).value.columns ==> file == old(file)
    {
      if df.None? {
        return;
      }
      if LocationColumn !in df.value.columns {
        df := Some(WithLocation(df.value));
        file := df;
      }
    }

    /** `get_all_distances`. */
    method GetAllDistances(num: Numerics) returns (r: Outcome<DistanceTable>)
      requires Valid() && df.Some? && LocationColumn in df.value.columns && KeysAreText(df.value)
      ensures r == AllDistances(df.value, num)
    {
      var g := VisitAllPairs(IdNames(df.value), PairDistance(df.value, num));
      if g.Raised? {
        r := Raised(g.cause);
      } else {
        r := Success(DistanceTable(|g.value|, g.value));
      }
    }
  }
}
