# Hospital query tools, modelled in Dafny

This project models the tabular query layer of a hospital assistant. Four tool objects
each load one CSV table once and answer questions about it:

- `HospitalDataTool` owns the daily hospital trend table, which has one row per hospital per date. It can:
  - count the hospitals and list them;
  - look up a row by name and date;
  - read one column for one date or for every date;
  - list the columns;
  - parse a hospital's `location` into coordinates;
  - compute the distance between two hospitals, and every pairwise distance;
  - summarise the dates the table covers.

  On start-up the tool adds a `location` column derived from the hospital id when the
  table has none, and writes the table back to its file.
- `DepartmentDataTool`, `DoctorDataTool` and `PatientDataTool` own the department, doctor
  and patient tables. Their single-record lookups return the first matching row or an
  error record. Their list lookups return every matching row in table order. Most
  lookups test case-insensitive containment; room number, department id and attending
  doctor id are tested for equality.

How the model represents things:

- **Cells.** A cell is `Text`, `Number` or `Missing`, where `Missing` is pandas' NaN.
- **Hospital table.** The table is a `Frame`: a header plus rows that map column names to cells.
- **Other tables.** These are sequences of records, with `None` standing for a file that does not exist.
- **Error records.** An `{"error": ...}` dict is an `Err`/`ErrorRecord` value, with one `QueryError` variant per message.
- **Exceptions.** The exceptions raised while parsing a location are a `Raised` outcome. This matters because `get_all_distances` skips error records but does not catch exceptions.
- **Queries and the tool's state.** Read-only queries are functions of the table. The hospital tool's constructor and `_add_location_column` change state, so `HospitalDataTool` is a class with `file` and `df` fields and a method for each.
- **All pairwise distances.** `get_all_distances` is a method with the source's two nested loops. Both loops are proved against the specification function `AllDistances`.

Module layout:

- `Wrappers`: `Option`.
- `Strings`: the text primitives:
  - case-insensitive containment;
  - Python's `str` ordering;
  - `split` and `join`.
- `Seqs`: mask selection (`Filter`), first-match selection (`FirstIndex`) and `drop_duplicates` (`Distinct`).
- `Sorting`: `sorted(set(...))` on strings.
- `Records`: cells, the error records, the outcomes, and the lookup shapes shared by the tools.
- `Pairing`: the pairs the nested loops of `get_all_distances` visit, with their count.
- `HospitalData`: the hospital tool.
- `Departments`, `Doctors` and `Patients`: the three other tools.

Consequences the lemmas prove:

- `get_hospital_count` is the number of distinct non-NaN ids among the hospitals that `get_hospital_names` lists.
- A value read for one date also appears in the undated series.
- A computed distance uses the coordinates `get_hospital_location` reports for the same two hospitals.
- With distinct ids, `get_all_distances` visits exactly `n * (n - 1) / 2` pairs. It never pairs a hospital with itself and never visits a pair in both orders.
- The migration writes place names such as `New York, NY`, but the location parser expects `lat,lon`. So on a table the tool migrated itself, `get_hospital_location` either reports a missing hospital or raises. It never returns coordinates.

## Model

All source paths are in `agent/tools/hospital_data.py`.

| member | source | states |
|---|---|---|
| HospitalData.GetHospitalCount | agent/tools/hospital_data.py:48-52 | 0 without a table; otherwise the number of distinct non-NaN cells of the `hospital_id` column |
| HospitalData.GetHospitalNames | agent/tools/hospital_data.py:54-59 | `[]` without a table; otherwise each (id, name, location) triple of the table exactly once, in order of first appearance |
| HospitalData.HospitalCountMatchesNames | agent/tools/hospital_data.py:48-59 | the hospital count equals the number of distinct non-NaN ids among the listed triples |
| HospitalData.GetHospitalDetailsByDate | agent/tools/hospital_data.py:61-82 | an error record exactly when no row has that name and that date (exact equality), with the no-data message; otherwise the first such row |
| HospitalData.ValueOnDate | agent/tools/hospital_data.py:107-117 | the no-data error exactly when no row has that name and date; otherwise the column's cell of the first such row, tagged with name, column and date |
| HospitalData.GetColumnValue | agent/tools/hospital_data.py:84-125 | an unknown column is reported first, even for an unknown hospital; then an unknown hospital; with a non-empty date, the dated lookup; otherwise the (date, value) pairs of all of that hospital's rows in table order |
| HospitalData.GetColumnNames | agent/tools/hospital_data.py:127-129 | exactly the table's columns, each once, including the id, name and date columns |
| HospitalData.ColumnNotFoundIffUnlisted | agent/tools/hospital_data.py:96-98 | `get_column_value` reports a missing column exactly when `get_column_names` does not list it |
| HospitalData.DatedValueInSeries | agent/tools/hospital_data.py:106-125 | a value found for a date appears, paired with that date, in the undated series for the same hospital and column |
| HospitalData.SeriesHoldsRow | agent/tools/hospital_data.py:118-125 | every row with the hospital's name contributes its (date, value) pair to the undated series |
| HospitalData.ParseCoordinates | agent/tools/hospital_data.py:148-151 | a non-text location raises; otherwise the first token is parsed first, then the existence of a second token is checked, then the second token is parsed; on success both coordinates are the parses of the first two comma-separated pieces |
| HospitalData.CoordinatesRoundTrip | agent/tools/hospital_data.py:148-151 | a location written as `lat,lon[,...]` with comma-free pieces parses back to the two numbers |
| HospitalData.GetHospitalLocation | agent/tools/hospital_data.py:131-160 | an error record exactly when no row has the name; otherwise the first such row's location is parsed, and the result either raises the parse error or reports name, id, location, region and the two coordinates |
| HospitalData.CalculateDistance | agent/tools/hospital_data.py:162-209 | a missing first hospital is reported before a missing second one, and an error record means one of them is missing; otherwise the first rows of both are parsed, the first before the second, and a success carries both names, both coordinate pairs and the distance of the two coordinates |
| HospitalData.DistanceAgreesWithLocations | agent/tools/hospital_data.py:182-189 | a successful distance uses exactly the coordinates `get_hospital_location` returns for each hospital |
| HospitalData.DistanceSymmetric | agent/tools/hospital_data.py:162-209 | with a symmetric distance function, swapping the hospitals swaps names and coordinates and keeps the distance |
| HospitalData.RowIdNames | agent/tools/hospital_data.py:218 | one (id, name) entry per row, in table order, holding that row's id and name cell |
| HospitalData.IdNames | agent/tools/hospital_data.py:218 | the listed (id, name) entries have no duplicates and each is the entry of some row |
| HospitalData.IdNamesComplete | agent/tools/hospital_data.py:218 | `drop_duplicates` lists exactly the rows' entries: every row's entry is listed, nothing else is, and the list follows the order of first appearance |
| HospitalData.ListedName | agent/tools/hospital_data.py:218 | a listed name is text or NaN and is the name cell of some row |
| HospitalData.NamedDistance | agent/tools/hospital_data.py:174-180 | `calculate_distance` on two name cells: for text names it is the lookup by name; a NaN first name is an error record naming `nan`; a NaN second name is an error record naming the first hospital if it is missing, otherwise `nan` |
| HospitalData.GatherFrom | agent/tools/hospital_data.py:219-226 | folding the visited pairs never yields an error record, and appends at most one distance per pair |
| HospitalData.AllDistances | agent/tools/hospital_data.py:211-231 | the outcome is never an error record, and on success `total_pairs` equals the number of distances |
| HospitalData.GatherFromPairs | agent/tools/hospital_data.py:224-226 | every gathered distance was already gathered or is the answer for one of the visited pairs |
| HospitalData.GatherKeepsEveryPair | agent/tools/hospital_data.py:224-226 | when no visited pair gets an error record, a completed fold holds one distance per pair |
| HospitalData.RowStep | agent/tools/hospital_data.py:222-226 | one inner iteration: a pair with a non-smaller first id is skipped, an error record is skipped, a success is appended, and an exception ends the whole computation |
| HospitalData.VisitAllPairs | agent/tools/hospital_data.py:219-226 | the nested loops compute the specification fold over the pairs, stopping at the first exception |
| HospitalData.PairFound | agent/tools/hospital_data.py:222-225 | a visited pair gets an error record exactly when one of its names is NaN, so the error filter drops exactly those pairs |
| HospitalData.ListedTextNameFound | agent/tools/hospital_data.py:174-180 | a listed text name is found by the lookup by name |
| HospitalData.TextPairKept | agent/tools/hospital_data.py:224-225 | when no name is NaN, no visited pair gets an error record |
| HospitalData.AllDistancesComplete | agent/tools/hospital_data.py:218-231 | with distinct ids and no NaN name, a completed table holds `n * (n - 1) / 2` distances for `n` entries |
| HospitalData.DistancesFollowIdOrder | agent/tools/hospital_data.py:221-230 | every reported distance is `calculate_distance` of the text names of two listed hospitals whose first id is below the second |
| HospitalData.PairWitness | agent/tools/hospital_data.py:223-224 | a successful answer for a visited pair is `calculate_distance` of the text names of two entries in id order |
| HospitalData.GetDateRange | agent/tools/hospital_data.py:233-241 | the dates are strictly ascending and are exactly the table's dates; `total_days` is their number, which is the number of distinct date strings; start and end are the first and last dates, and every date lies between them |
| HospitalData.DateListFacts | agent/tools/hospital_data.py:235-240 | a sorted list of the table's dates is non-empty, has one entry per distinct date, and is bounded by its first and last entries |
| HospitalData.DateRangeDetermined | agent/tools/hospital_data.py:235 | the reported date list is the only strictly sorted list of the table's dates |
| HospitalData.LocationFor | agent/tools/hospital_data.py:33-42 | an id gets a location exactly when it is a text id in the five-entry mapping, and then gets that entry's value; otherwise NaN |
| HospitalData.WithLocation | agent/tools/hospital_data.py:41-42 | the table gets a `location` column at the end, with the same rows, all other cells unchanged, and each location derived from the row's id |
| HospitalData.Migrate | agent/tools/hospital_data.py:26-46 | a table with a location column is left unchanged; otherwise the column is added |
| HospitalData.MigrateIdempotent | agent/tools/hospital_data.py:31 | migrating twice is the same as migrating once |
| HospitalData.MigrateKeepsCount | agent/tools/hospital_data.py:41-52 | the migration does not change the hospital count |
| HospitalData.MigratedLocations | agent/tools/hospital_data.py:41-59 | after the migration, every listed hospital's location is the one its id maps to |
| HospitalData.MigratedEntry | agent/tools/hospital_data.py:42 | after the migration, each row's location is the one its id maps to |
| HospitalData.MigratedLocationsDoNotParse | agent/tools/hospital_data.py:33-42 | when `float` rejects the five city names, no location cell the migration writes can be parsed |
| HospitalData.MigratedTableHasNoCoordinates | agent/tools/hospital_data.py:141-151 | on a table the tool migrated itself, `get_hospital_location` never returns coordinates |
| HospitalData.HospitalDataTool.constructor | agent/tools/hospital_data.py:11-17 | without a file there is no table; with a file, the table is the migrated file contents and the file holds the same table |
| HospitalData.HospitalDataTool.LoadData | agent/tools/hospital_data.py:19-24 | the table becomes the file's contents, or `None` without a file |
| HospitalData.HospitalDataTool.AddLocationColumn | agent/tools/hospital_data.py:26-46 | nothing changes without a table; otherwise the table is migrated, and the file is rewritten exactly when the column was added |
| HospitalData.HospitalDataTool.GetAllDistances | agent/tools/hospital_data.py:211-231 | the nested loops over the loaded table return `AllDistances` of that table |
| Pairing.RowFromStep | agent/tools/hospital_data.py:222-223 | one inner iteration removes the pair `(h[i], h[j])` from the front of the pairs still to visit, and keeps it only when the first id is smaller |
| Pairing.RowFromMembership | agent/tools/hospital_data.py:222-223 | the pairs one outer iteration keeps are exactly `(h[i], y)` with `y` among the remaining entries and `h[i].id < y.id` |
| Pairing.RowsFromMembership | agent/tools/hospital_data.py:221-223 | the pairs kept from outer iteration `k` on are exactly those whose first entry is at or after `k` and whose first id is smaller |
| Pairing.PairsMembership | agent/tools/hospital_data.py:221-223 | a pair is visited exactly when both are entries and the first id is smaller; so no self-pairs, and never both orders |
| Pairing.RowsFromDistinct | agent/tools/hospital_data.py:221-223 | distinct entries give distinct visited pairs from any outer iteration on |
| Pairing.PairsDistinct | agent/tools/hospital_data.py:218-223 | distinct entries give distinct visited pairs |
| Pairing.HalfOfAllPairs | agent/tools/hospital_data.py:223 | among `n` distinct ids, `n * (n - 1) / 2` ordered pairs have the first below the second |
| Pairing.PairsCount | agent/tools/hospital_data.py:218-229 | with distinct ids, `n` entries give `n * (n - 1) / 2` visited pairs |
| Strings.ContainsIgnoreCase | agent/tools/hospital_data.py:270 | true exactly when the query occurs at some offset of the text, ignoring ASCII case |
| Strings.ContainsIgnoresQueryCase | agent/tools/hospital_data.py:270 | lower-casing the query does not change a containment test |
| Strings.FragmentContained | agent/tools/hospital_data.py:336 | any piece of a query that is found is found too |
| Strings.LexLessAsymmetric | agent/tools/hospital_data.py:223 | `a < b` and `b < a` never both hold |
| Strings.LexLessTotal | agent/tools/hospital_data.py:223 | of two different strings, one is below the other |
| Strings.Split | agent/tools/hospital_data.py:149 | at least one piece, no piece contains the separator, and joining the pieces gives the text back |
| Strings.SplitJoin | agent/tools/hospital_data.py:149 | splitting joined separator-free pieces gives the pieces back |
| Sorting.SortUnique | agent/tools/hospital_data.py:235 | a strictly ascending list of exactly the given strings |
| Sorting.StrictlySortedUnique | agent/tools/hospital_data.py:235 | two strictly sorted lists with the same elements are equal |
| Seqs.Filter | agent/tools/hospital_data.py:280-281 | exactly the elements satisfying the mask, each as often as in the input, in input order |
| Seqs.SelectsExactlyIsFilter | agent/tools/hospital_data.py:280-281 | the description every list lookup's contract gives (an in-order selection of exactly the matching rows, with their multiplicity) admits only one answer, the mask selection itself |
| Seqs.FirstIndex | agent/tools/hospital_data.py:273 | `None` exactly when nothing matches; otherwise the position of the first match |
| Seqs.Distinct | agent/tools/hospital_data.py:58 | each element of the input once, and nothing else, ordered by first appearance |
| Seqs.DistinctCardinality | agent/tools/hospital_data.py:52 | the de-duplicated list has as many elements as the input has distinct values |
| Records.FirstWhere | agent/tools/hospital_data.py:78-82 | the not-found error exactly when nothing matches; otherwise the first matching row |
| Records.LookupHeadsFilter | agent/tools/hospital_data.py:265-289 | a single-record lookup fails exactly when the list lookup with the same test is empty, and otherwise returns its first row |
| Departments.DepartmentDataTool.constructor | agent/tools/hospital_data.py:255-257 | the tool holds its path and the table read from the file, or `None` |
| Departments.GetAllDepartments | agent/tools/hospital_data.py:259-263 | every row, or `[]` without a table |
| Departments.GetDepartmentByName | agent/tools/hospital_data.py:265-273 | the data-missing error without a table; the not-found error exactly when no name contains the query; otherwise the first department whose name contains it |
| Departments.GetDepartmentsByFloor | agent/tools/hospital_data.py:275-281 | `[]` without a table; otherwise exactly the departments whose floor contains the query, in order |
| Departments.GetDepartmentsByBuilding | agent/tools/hospital_data.py:283-289 | `[]` without a table; otherwise exactly the departments whose building contains the query, in order |
| Departments.DepartmentListsWithinAll | agent/tools/hospital_data.py:259-289 | both list lookups return rows of `get_all_departments`, in its order |
| Departments.DepartmentByNameIgnoresCase | agent/tools/hospital_data.py:270 | the name lookup gives the same answer for a query and its lower-cased form |
| Doctors.DoctorDataTool.constructor | agent/tools/hospital_data.py:295-297 | the tool holds its path and the table read from the file, or `None` |
| Doctors.GetAllDoctors | agent/tools/hospital_data.py:299-303 | every row, or `[]` without a table |
| Doctors.GetDoctorByName | agent/tools/hospital_data.py:305-313 | the data-missing error without a table; the not-found error exactly when no name contains the query; otherwise the first doctor whose name contains it |
| Doctors.GetDoctorsBySpecialization | agent/tools/hospital_data.py:315-321 | `[]` without a table; otherwise exactly the doctors whose specialization contains the query, in order |
| Doctors.GetDoctorsByDepartment | agent/tools/hospital_data.py:323-329 | `[]` without a table; otherwise exactly the doctors whose department id equals the query, in order |
| Doctors.GetAvailableDoctors | agent/tools/hospital_data.py:331-337 | `[]` without a table; otherwise exactly the doctors whose availability text contains the day, in order |
| Doctors.DoctorListsWithinAll | agent/tools/hospital_data.py:299-337 | every list lookup returns rows of `get_all_doctors`, in its order |
| Doctors.AvailabilityOverMatches | agent/tools/hospital_data.py:336 | any piece of a day name selects every doctor the full day name selects |
| Doctors.SpecializationIgnoresCase | agent/tools/hospital_data.py:320 | the specialization lookup gives the same list for a query and its lower-cased form |
| Patients.PatientDataTool.constructor | agent/tools/hospital_data.py:343-345 | the tool holds its path and the table read from the file, or `None` |
| Patients.GetAllPatients | agent/tools/hospital_data.py:347-351 | every row, or `[]` without a table |
| Patients.GetPatientByName | agent/tools/hospital_data.py:353-361 | the data-missing error without a table; the not-found error exactly when no name contains the query; otherwise the first patient whose name contains it |
| Patients.GetPatientByRoom | agent/tools/hospital_data.py:363-371 | the data-missing error without a table; the no-patient-in-room error exactly when no room number equals the query; otherwise the first patient of the table with that room number |
| Patients.GetPatientsByDisease | agent/tools/hospital_data.py:373-379 | `[]` without a table; otherwise exactly the patients whose disease contains the query, in order |
| Patients.GetPatientsByDoctor | agent/tools/hospital_data.py:381-387 | `[]` without a table; otherwise exactly the patients whose attending doctor id equals the query, in order |
| Patients.GetPatientsByFloor | agent/tools/hospital_data.py:389-395 | `[]` without a table; otherwise exactly the patients whose floor contains the query, in order |
| Patients.GetDirectionToPatient | agent/tools/hospital_data.py:397-413 | the same errors as the name lookup; otherwise the name, room, floor, building and directions of the first patient whose name contains the query |
| Patients.DirectionsFollowNameLookup | agent/tools/hospital_data.py:397-413 | directions fail exactly when the name lookup fails, and otherwise carry that patient's room and directions |
| Patients.RoomLookupFindsOccupant | agent/tools/hospital_data.py:363-371 | when room numbers are unique, the room lookup returns the room's occupant |
| Patients.PatientListsWithinAll | agent/tools/hospital_data.py:373-395 | every list lookup returns rows of `get_all_patients`, in its order |

## Left out

- **Reading and writing files.** `os.path.exists`, `pd.read_csv`, `to_csv` and the `print` after the migration are left out. The file is a constructor parameter: `None` when no file exists, otherwise the table it holds. Writing the table with `to_csv` and reading it back is taken to give back the same table.
- **Module-level instances.** The instances `hospital_tool`, `department_tool`, `doctor_tool` and `patient_tool` are not modelled. They build the four tools on the default paths. `hospital_tool` may rewrite its CSV in doing so: when the default table has no `location` column, its constructor adds one and saves the file. That behaviour is what `HospitalData.HospitalDataTool.constructor` models for any path.
- **Floating point.** `float()` and the haversine computation are parameters of the model (`Numerics`). This covers the radius 6371, the trigonometry and `round(..., 2)`. So distances are exact values of an abstract function, and no property of the formula itself is stated.
- **`str.contains`.** Case-insensitive containment is a literal substring test with ASCII case folding. Pandas treats the query as a regular expression by default and folds case by Unicode rules. Queries with regex metacharacters or non-ASCII letters are therefore not modelled faithfully.
- **Column types.** Cells are compared as Python values: a number cell never equals a text query. The consequence: if pandas reads a column such as `room_number` or `department_id` as integers, the equality lookups never match a string query. The model reproduces this, but does not model pandas' type inference.
- **`Departments.GetDepartmentByName`, `Departments.GetDepartmentsByFloor`, `Departments.GetDepartmentsByBuilding`, `Doctors.GetDoctorByName`, `Doctors.GetDoctorsBySpecialization`, `Doctors.GetAvailableDoctors`, `Patients.GetPatientByName`, `Patients.GetPatientsByDisease`, `Patients.GetPatientsByFloor`, `Patients.GetDirectionToPatient`:** the model treats a non-text cell as not matching. That agrees with pandas for a column that mixes text with numbers or NaN, where `na=False` applies. It does not cover a column that holds no text at all, for example a `floor` column read as integers, or a column that is entirely empty. There pandas' `.str` accessor raises `AttributeError`, and the model answers `[]` or the not-found record instead. That exception is not modelled.
- **Crashes when the table is absent.** Every hospital query other than count, names and the migration dereferences the table without a check. Those queries (and `HospitalDataTool.GetAllDistances`) therefore require a loaded, well-formed table. Their crashes when there is no table or when a key column is missing (`KeyError`) are not modelled. The model also assumes that every hospital table has `hospital_id`, `hospital_name` and `date` columns. Every hospital member makes this assumption, including the count, the names, the migration and the constructor. In the source, `get_hospital_count` and `_add_location_column` read only `hospital_id`, so a table without the other two columns is outside the model for them too.
- **Missing and empty tables.** The hospital tool's queries other than count, names and the migration crash when no table is loaded. The model excludes that case by precondition (see "Crashes when the table is absent"). Count and names answer `0` and `[]`. The department, doctor and patient tools do not crash without a table: their single lookups return the data-missing error record and their list lookups return `[]`, as `Records.Lookup` and `Records.FilterTable` model. A table that is loaded but has no rows is covered like any other. Its lookups give their not-found records or `[]`; `GetDateRange`, which requires at least one row, is the one exception.
- **`GetHospitalLocation`, `CalculateDistance`:** both require the `location` column, and `GetHospitalLocation` also requires `region`. The `KeyError` raised without them is not modelled.
- **`AllDistances`, `HospitalData.HospitalDataTool.GetAllDistances`:** both require every id to be text, and every name to be text or NaN. A NaN or number id is compared with `<`, which raises `TypeError` against a string; that is not modelled. A table whose ids are all numbers is excluded as well, although its ids compare without error. A number name is not modelled either: its error record would carry a number rather than a string.
- **`IdNames`:** represents each id as a string, which is only valid under that all-text-id requirement.
- **`GetDateRange`:** requires at least one row and assumes all dates are text. Three cases are not modelled: the `IndexError` on an empty table, the `TypeError` when sorting NaN with strings, and a table whose single distinct date is NaN. In that last case `sorted` makes no comparison, and the answer has NaN start and end dates with `total_days == 1`.
- **`GetColumnValue`:** with `column_name == 'date'`, the undated form selects the `date` column twice. Pandas then builds a record with one `date` key. The model gives `(date, date)` pairs instead.
- **Error messages.** Exact message texts are represented by the `QueryError` variant and its arguments, not by the formatted strings.
- **Other files.** `hospital_functions.py` (presentation wrappers that format strings and catch exceptions) is not part of this model. Neither are `agent.py`, `main.py`, `rag_tool.py`, `rag_function.py` or the scripts, which hold the language-model agent, the web server and the vector-store clients.
