/** `DoctorDataTool`: the doctor table and its lookups. */
module Doctors {
  import opened Wrappers
  import opened Strings
  import opened Seqs
  import opened Records

  /** One row of the doctor table; `availableDays` is the delimited text of weekday names. */
  datatype Doctor = Doctor(
    doctorName: Cell,
    specialization: Cell,
    departmentId: Cell,
    yearsExperience: Cell,
    availableDays: Cell,
    availableTimeStart: Cell,
    availableTimeEnd: Cell,
    contactNumber: Cell)

  /** The tool holds the table read from its CSV file, or `None` when the file is absent. */
  class DoctorDataTool {
    const csvPath: string
    const df: Option<seq<Doctor>>

    constructor (csvPath: string, file: Option<seq<Doctor>>)
      ensures this.csvPath == csvPath && df == file
    {
      this.csvPath := csvPath;
      df := file;
    }
  }

  /** `get_all_doctors`: every row, or `[]` without a table. */
  function GetAllDoctors(df: Option<seq<Doctor>>): (r: seq<Doctor>)
    ensures df.None? ==> r == []
    ensures df.Some? ==> r == df.value
  {
    if df.None? then [] else df.value
  }

  /** `get_doctor_by_name`: the first doctor whose name contains the query, ignoring case. */
  function GetDoctorByName(df: Option<seq<Doctor>>, name: string): (r: Result<Doctor>)
    ensures df.None? ==> r == Err(DoctorDataMissing)
    ensures df.Some? ==>
      (r.Err? <==> forall j :: 0 <= j < |df.value| ==> !CellContains(df.value[j].doctorName, name))
    ensures df.Some? && r.Err? ==> r.error == DoctorNotFound(name)
    ensures r.Ok? ==> df.Some? && exists i ::
      IsFirstMatch(df.value, (d: Doctor) => CellContains(d.doctorName, name), i) && df.value[i] == r.value
  {
    Lookup(df, (d: Doctor) => CellContains(d.doctorName, name), DoctorDataMissing, DoctorNotFound(name))
  }

  /** `get_doctors_by_specialization`: the doctors whose specialization contains the query. */
  function GetDoctorsBySpecialization(df: Option<seq<Doctor>>, specialization: string): (r: seq<Doctor>)
    ensures df.None? ==> r == []
    ensures df.Some? ==>
      SelectsExactly(r, df.value, (d: Doctor) => CellContains(d.specialization, specialization))
  {
    FilterTable(df, (d: Doctor) => CellContains(d.specialization, specialization))
  }

  /** `get_doctors_by_department`: the doctors whose department id equals the query exactly. */
  function GetDoctorsByDepartment(df: Option<seq<Doctor>>, departmentId: string): (r: seq<Doctor>)
    ensures df.None? ==> r == []
    ensures df.Some? ==> SelectsExactly(r, df.value, (d: Doctor) => CellIs(d.departmentId, departmentId))
  {
    FilterTable(df, (d: Doctor) => CellIs(d.departmentId, departmentId))
  }

  /** `get_available_doctors`: the doctors whose availability text contains the day,
      ignoring case (a text test, not a weekday-set test). */
  function GetAvailableDoctors(df: Option<seq<Doctor>>, day: string): (r: seq<Doctor>)
    ensures df.None? ==> r == []
    ensures df.Some? ==> SelectsExactly(r, df.value, (d: Doctor) => CellContains(d.availableDays, day))
  {
    FilterTable(df, (d: Doctor) => CellContains(d.availableDays, day))
  }

  /** Every list lookup returns rows of `get_all_doctors`, in its order. */
  lemma DoctorListsWithinAll(df: Option<seq<Doctor>>, q: string)
    ensures IsSubsequence(GetDoctorsBySpecialization(df, q), GetAllDoctors(df))
    ensures IsSubsequence(GetDoctorsByDepartment(df, q), GetAllDoctors(df))
    ensures IsSubsequence(GetAvailableDoctors(df, q), GetAllDoctors(df))
  {
  }

  /** Because availability is a text test, any piece of the day name (for instance
      "Mon" of "Monday", or just "day") selects every doctor the full name selects. */
  lemma AvailabilityOverMatches(df: Option<seq<Doctor>>, day: string, a: nat, b: nat)
    requires a <= b <= |day|
    ensures IsSubsequence(GetAvailableDoctors(df, day), GetAvailableDoctors(df, day[a..b]))
  {
    if df.Some? {
      var piece := day[a..b];
      forall d | d in df.value && CellContains(d.availableDays, day)
        ensures CellContains(d.availableDays, piece)
      {
        FragmentContained(d.availableDays.s, day, a, b);
      }
      FilterMonotone(df.value, (d: Doctor) => CellContains(d.availableDays, day),
                     (d: Doctor) => CellContains(d.availableDays, piece));
    }
  }

  /** The specialization lookup does not depend on the case of the query. */
  lemma SpecializationIgnoresCase(df: Option<seq<Doctor>>, specialization: string)
    ensures GetDoctorsBySpecialization(df, specialization)
         == GetDoctorsBySpecialization(df, LowerAll(specialization))
  {
    if df.Some? {
      var low := LowerAll(specialization);
      forall d | d in df.value
        ensures CellContains(d.specialization, specialization) == CellContains(d.specialization, low)
      {
        if d.specialization.Text? { ContainsIgnoresQueryCase(d.specialization.s, specialization); }
      }
      FilterCongruent(df.value, (d: Doctor) => CellContains(d.specialization, specialization),
                      (d: Doctor) => CellContains(d.specialization, low));
    }
  }
}
