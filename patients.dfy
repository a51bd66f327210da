/** `PatientDataTool`: the patient table and its lookups. */
module Patients {
  import opened Wrappers
  import opened Strings
  import opened Seqs
  import opened Records

  /** One row of the patient table. */
  datatype Patient = Patient(
    patientName: Cell,
    age: Cell,
    gender: Cell,
    roomNumber: Cell,
    floor: Cell,
    building: Cell,
    disease: Cell,
    admittedDate: Cell,
    attendingDoctorId: Cell,
    relativeName: Cell,
    relativeContact: Cell,
    directionToRoom: Cell)

  /** The record `get_direction_to_patient` builds from a patient row. */
  datatype Directions = Directions(
    patientName: Cell,
    roomNumber: Cell,
    floor: Cell,
    building: Cell,
    directions: Cell)

  /** The tool holds the table read from its CSV file, or `None` when the file is absent. */
  class PatientDataTool {
    const csvPath: string
    const df: Option<seq<Patient>>

    constructor (csvPath: string, file: Option<seq<Patient>>)
      ensures this.csvPath == csvPath && df == file
    {
      this.csvPath := csvPath;
      df := file;
    }
  }

  /** `get_all_patients`: every row, or `[]` without a table. */
  function GetAllPatients(df: Option<seq<Patient>>): (r: seq<Patient>)
    ensures df.None? ==> r == []
    ensures df.Some? ==> r == df.value
  {
    if df.None? then [] else df.value
  }

  /** `get_patient_by_name`: the first patient whose name contains the query, ignoring case. */
  function GetPatientByName(df: Option<seq<Patient>>, name: string): (r: Result<Patient>)
    ensures df.None? ==> r == Err(PatientDataMissing)
    ensures df.Some? ==>
      (r.Err? <==> forall j :: 0 <= j < |df.value| ==> !CellContains(df.value[j].patientName, name))
    ensures df.Some? && r.Err? ==> r.error == PatientNotFound(name)
    ensures r.Ok? ==> df.Some? && exists i ::
      IsFirstMatch(df.value, (p: Patient) => CellContains(p.patientName, name), i) && df.value[i] == r.value
  {
    Lookup(df, (p: Patient) => CellContains(p.patientName, name), PatientDataMissing, PatientNotFound(name))
  }

  /** `get_patient_by_room`: the first patient whose room number equals the query exactly. */
  function GetPatientByRoom(df: Option<seq<Patient>>, room: string): (r: Result<Patient>)
    ensures df.None? ==> r == Err(PatientDataMissing)
    ensures df.Some? ==>
      (r.Err? <==> forall j :: 0 <= j < |df.value| ==> !CellIs(df.value[j].roomNumber, room))
    ensures df.Some? && r.Err? ==> r.error == NoPatientInRoom(room)
    ensures r.Ok? ==> df.Some? && exists i ::
      IsFirstMatch(df.value, (p: Patient) => CellIs(p.roomNumber, room), i) && df.value[i] == r.value
  {
    Lookup(df, (p: Patient) => CellIs(p.roomNumber, room), PatientDataMissing, NoPatientInRoom(room))
  }

  /** `get_patients_by_disease`: the patients whose disease contains the query. */
  function GetPatientsByDisease(df: Option<seq<Patient>>, disease: string): (r: seq<Patient>)
    ensures df.None? ==> r == []
    ensures df.Some? ==> SelectsExactly(r, df.value, (p: Patient) => CellContains(p.disease, disease))
  {
    FilterTable(df, (p: Patient) => CellContains(p.disease, disease))
  }

  /** `get_patients_by_doctor`: the patients whose attending doctor id equals the query exactly. */
  function GetPatientsByDoctor(df: Option<seq<Patient>>, doctorId: string): (r: seq<Patient>)
    ensures df.None? ==> r == []
    ensures df.Some? ==> SelectsExactly(r, df.value, (p: Patient) => CellIs(p.attendingDoctorId, doctorId))
  {
    FilterTable(df, (p: Patient) => CellIs(p.attendingDoctorId, doctorId))
  }

  /** `get_patients_by_floor`: the patients whose floor contains the query. */
  function GetPatientsByFloor(df: Option<seq<Patient>>, floor: string): (r: seq<Patient>)
    ensures df.None? ==> r == []
    ensures df.Some? ==> SelectsExactly(r, df.value, (p: Patient) => CellContains(p.floor, floor))
  {
    FilterTable(df, (p: Patient) => CellContains(p.floor, floor))
  }

  /** The five fields `get_direction_to_patient` keeps. */
  function DirectionsOf(p: Patient): Directions
  {
    Directions(p.patientName, p.roomNumber, p.floor, p.building, p.directionToRoom)
  }

  /** `get_direction_to_patient`: the room and directions of the first patient whose
      name contains the query, ignoring case. */
  function GetDirectionToPatient(df: Option<seq<Patient>>, name: string): (r: Result<Directions>)
    ensures df.None? ==> r == Err(PatientDataMissing)
    ensures df.Some? ==>
      (r.Err? <==> forall j :: 0 <= j < |df.value| ==> !CellContains(df.value[j].patientName, name))
    ensures df.Some? && r.Err? ==> r.error == PatientNotFound(name)
    ensures r.Ok? ==> df.Some? && exists i ::
      IsFirstMatch(df.value, (p: Patient) => CellContains(p.patientName, name), i)
      && r.value == Directions(df.value[i].patientName, df.value[i].roomNumber, df.value[i].floor,
                               df.value[i].building, df.value[i].directionToRoom)
  {
    match GetPatientByName(df, name)
    case Err(e) => Err(e)
    case Ok(p) => Ok(DirectionsOf(p))
  }

  /** Directions are those of the patient the name lookup finds, and fail when it fails. */
  lemma DirectionsFollowNameLookup(df: Option<seq<Patient>>, name: string)
    ensures GetDirectionToPatient(df, name).Err? == GetPatientByName(df, name).Err?
    ensures GetPatientByName(df, name).Ok? ==>
      GetDirectionToPatient(df, name).value.roomNumber == GetPatientByName(df, name).value.roomNumber
      && GetDirectionToPatient(df, name).value.directions == GetPatientByName(df, name).value.directionToRoom
  {
  }

  /** Room numbers identify patients: no two rows share a text room number. */
  ghost predicate RoomsUnique(rows: seq<Patient>)
  {
    forall i, j :: 0 <= i < j < |rows| && rows[i].roomNumber.Text? ==> rows[i].roomNumber != rows[j].roomNumber
  }

  /** With one patient per room, the room lookup finds that patient, however many
      patients a name query would match. */
  lemma RoomLookupFindsOccupant(df: Option<seq<Patient>>, room: string, p: Patient)
    requires df.Some? && RoomsUnique(df.value)
    requires p in df.value && p.roomNumber == Text(room)
    ensures GetPatientByRoom(df, room) == Ok(p)
  {
    var rows := df.value;
    var k :| 0 <= k < |rows| && rows[k] == p;
    var r := GetPatientByRoom(df, room);
    var i :| IsFirstMatch(rows, (q: Patient) => CellIs(q.roomNumber, room), i) && rows[i] == r.value;
    assert k < i ==> CellIs(rows[k].roomNumber, room);
  }

  /** Every list lookup returns rows of `get_all_patients`, in its order. */
  lemma PatientListsWithinAll(df: Option<seq<Patient>>, q: string)
    ensures IsSubsequence(GetPatientsByDisease(df, q), GetAllPatients(df))
    ensures IsSubsequence(GetPatientsByDoctor(df, q), GetAllPatients(df))
    ensures IsSubsequence(GetPatientsByFloor(df, q), GetAllPatients(df))
  {
  }
}
