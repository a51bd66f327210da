/** What a table cell can hold once a CSV file is loaded, the two text tests the
    lookups use on a cell, and the outcomes the tools return. */
module Records {
  import opened Wrappers
  import opened Strings
  import opened Seqs

  /** One DataFrame cell: text, a number, or NaN (an empty CSV field). */
  datatype Cell = Text(s: string) | Number(x: real) | Missing

  /** `column.str.contains(q, case=False, na=False)` for one cell: only a text cell can
      match; NaN and numbers give `False`. */
  predicate CellContains(c: Cell, q: string)
  {
    c.Text? && ContainsIgnoreCase(c.s, q)
  }

  /** `column == q` for one cell, with `q` a string: only an equal text cell matches. */
  predicate CellIs(c: Cell, q: string)
  {
    c == Text(q)
  }

  /** The `{"error": ...}` records, one variant per message the tools produce. */
  datatype QueryError =
    | ColumnNotFound(column: string)
    | HospitalNotFound(hospital: string)
    | NoDataForDate(hospital: string, date: string)
    | DepartmentDataMissing
    | DepartmentNotFound(department: string)
    | DoctorDataMissing
    | DoctorNotFound(doctor: string)
    | PatientDataMissing
    | PatientNotFound(patient: string)
    | NoPatientInRoom(room: string)

  /** A success record or an error record. */
  datatype Result<T> = Ok(value: T) | Err(error: QueryError)

  /** The exceptions that escape from reading a location as coordinates:
      `split` on a cell that is not text (NaN), `float()` on a token that is not a
      number, and indexing a second token that is not there. */
  datatype CoordinateError =
    | LocationNotText(location: Cell)
    | NotAFloat(token: string)
    | NoSecondToken(text: string)

  /** Operations that can return a success record, return an error record, or raise. */
  datatype Outcome<T> =
    | Success(value: T)
    | ErrorRecord(error: QueryError)
    | Raised(cause: CoordinateError)

  /** `df[mask].iloc[0]` guarded by `if df.empty`: the first row satisfying `p`, or the
      not-found error. */
  function FirstWhere<T>(rows: seq<T>, p: T -> bool, notFound: QueryError): (r: Result<T>)
    ensures r.Err? <==> forall j :: 0 <= j < |rows| ==> !p(rows[j])
    ensures r.Err? ==> r.error == notFound
    ensures r.Ok? ==> exists i :: IsFirstMatch(rows, p, i) && rows[i] == r.value
  {
    match FirstIndex(rows, p)
    case None => Err(notFound)
    case Some(i) => Ok(rows[i])
  }

  /** A single-record lookup of a tool whose table may be absent. */
  function Lookup<T>(df: Option<seq<T>>, p: T -> bool, noData: QueryError, notFound: QueryError): (r: Result<T>)
    ensures df.None? ==> r == Err(noData)
    ensures df.Some? ==> r == FirstWhere(df.value, p, notFound)
  {
    match df
    case None => Err(noData)
    case Some(rows) => FirstWhere(rows, p, notFound)
  }

  /** A list lookup of a tool whose table may be absent: `[]` without a table. The
      `SelectsExactly` clause determines the answer uniquely (`SelectsExactlyIsFilter`). */
  function FilterTable<T(==)>(df: Option<seq<T>>, p: T -> bool): (r: seq<T>)
    ensures df.None? ==> r == []
    ensures df.Some? ==> SelectsExactly(r, df.value, p)
  {
    match df
    case None => []
    case Some(rows) => Filter(rows, p)
  }

  /** A single-record lookup returns the head of the list lookup with the same test,
      and fails exactly when that list is empty. */
  lemma LookupHeadsFilter<T>(df: Option<seq<T>>, p: T -> bool, noData: QueryError, notFound: QueryError)
    requires df.Some?
    ensures Lookup(df, p, noData, notFound).Err? <==> FilterTable(df, p) == []
    ensures Lookup(df, p, noData, notFound).Ok? ==>
      FilterTable(df, p)[0] == Lookup(df, p, noData, notFound).value
  {
    FirstIndexHeadsFilter(df.value, p);
  }

  /** Two tests that agree on every row select the same rows. */
  lemma {:induction false} FilterCongruent<T>(s: seq<T>, p: T -> bool, q: T -> bool)
    requires forall x :: x in s ==> p(x) == q(x)
    ensures Filter(s, p) == Filter(s, q)
    decreases |s|
  {
    if |s| > 0 {
      assert s[0] in s;
      assert forall x :: x in s[1..] ==> x in s;
      FilterCongruent(s[1..], p, q);
    }
  }

  /** Two tests that agree on every row find the same first row. */
  lemma {:induction false} FirstIndexCongruent<T>(s: seq<T>, p: T -> bool, q: T -> bool)
    requires forall x :: x in s ==> p(x) == q(x)
    ensures FirstIndex(s, p) == FirstIndex(s, q)
    decreases |s|
  {
    if |s| > 0 {
      assert s[0] in s;
      assert forall x :: x in s[1..] ==> x in s;
      FirstIndexCongruent(s[1..], p, q);
    }
  }
}
