/** `DepartmentDataTool`: the department table and its lookups. */
module Departments {
  import opened Wrappers
  import opened Strings
  import opened Seqs
  import opened Records

  /** One row of the department table. */
  datatype Department = Department(
    departmentName: Cell,
    floor: Cell,
    building: Cell,
    contactExtension: Cell)

  /** The tool holds the table read from its CSV file, or `None` when the file is absent. */
  class DepartmentDataTool {
    const csvPath: string
    const df: Option<seq<Department>>

    constructor (csvPath: string, file: Option<seq<Department>>)
      ensures this.csvPath == csvPath && df == file
    {
      this.csvPath := csvPath;
      df := file;
    }
  }

  /** `get_all_departments`: every row, or `[]` without a table. */
  function GetAllDepartments(df: Option<seq<Department>>): (r: seq<Department>)
    ensures df.None? ==> r == []
    ensures df.Some? ==> r == df.value
  {
    if df.None? then [] else df.value
  }

  /** `get_department_by_name`: the first department whose name contains the query,
      ignoring case. */
  function GetDepartmentByName(df: Option<seq<Department>>, name: string): (r: Result<Department>)
    ensures df.None? ==> r == Err(DepartmentDataMissing)
    ensures df.Some? ==>
      (r.Err? <==> forall j :: 0 <= j < |df.value| ==> !CellContains(df.value[j].departmentName, name))
    ensures df.Some? && r.Err? ==> r.error == DepartmentNotFound(name)
    ensures r.Ok? ==> df.Some? && exists i ::
      IsFirstMatch(df.value, (d: Department) => CellContains(d.departmentName, name), i) && df.value[i] == r.value
  {
    Lookup(df, (d: Department) => CellContains(d.departmentName, name),
           DepartmentDataMissing, DepartmentNotFound(name))
  }

  /** `get_departments_by_floor`: the departments whose floor contains the query. */
  function GetDepartmentsByFloor(df: Option<seq<Department>>, floor: string): (r: seq<Department>)
    ensures df.None? ==> r == []
    ensures df.Some? ==> SelectsExactly(r, df.value, (d: Department) => CellContains(d.floor, floor))
  {
    FilterTable(df, (d: Department) => CellContains(d.floor, floor))
  }

  /** `get_departments_by_building`: the departments whose building contains the query. */
  function GetDepartmentsByBuilding(df: Option<seq<Department>>, building: string): (r: seq<Department>)
    ensures df.None? ==> r == []
    ensures df.Some? ==> SelectsExactly(r, df.value, (d: Department) => CellContains(d.building, building))
  {
    FilterTable(df, (d: Department) => CellContains(d.building, building))
  }

  /** Both list lookups return rows of `get_all_departments`, in its order. */
  lemma DepartmentListsWithinAll(df: Option<seq<Department>>, floor: string, building: string)
    ensures IsSubsequence(GetDepartmentsByFloor(df, floor), GetAllDepartments(df))
    ensures IsSubsequence(GetDepartmentsByBuilding(df, building), GetAllDepartments(df))
  {
  }

  /** The name lookup does not depend on the case of the query. */
  lemma DepartmentByNameIgnoresCase(df: Option<seq<Department>>, name: string)
    ensures GetDepartmentByName(df, name).Ok? == GetDepartmentByName(df, LowerAll(name)).Ok?
    ensures GetDepartmentByName(df, name).Ok? ==>
      GetDepartmentByName(df, name).value == GetDepartmentByName(df, LowerAll(name)).value
  {
    if df.Some? {
      var low := LowerAll(name);
      forall d | d in df.value
        ensures CellContains(d.departmentName, name) == CellContains(d.departmentName, low)
      {
        if d.departmentName.Text? { ContainsIgnoresQueryCase(d.departmentName.s, name); }
      }
      FirstIndexCongruent(df.value, (d: Department) => CellContains(d.departmentName, name),
                          (d: Department) => CellContains(d.departmentName, low));
    }
  }
}
