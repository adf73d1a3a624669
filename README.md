# AsesoraMe core in Dafny

A verified model of the core of AsesoraMe, a Java tool that reads advisor records
(`Asesor`) from a spreadsheet, then:

- normalises and validates each record;
- computes statistics over the valid ones;
- writes them back;
- demonstrates filtering.

The model covers four parts:

- **The record class** (`AsesorRecord`). It has seven mutable fields and setters, plus
  `getFullName`, `isValid` and `equals`.
- **The validator** (`AsesorValidation`). `validate` gives the ordered list of error
  messages, one per failing field, in the fixed field order id, nombre, apellido,
  email, telefono, especialidad, ubicacion. `isValid` is derived from it.
  `normalizeAsesor` rewrites four text fields in place.
- **The statistics service** (`Statistics`). It covers:
  - grouping by specialty, with group sizes and the per-specialty statistics;
  - case-insensitive filtering;
  - the stable sort by specialty and its top-N prefix;
  - the dataset summary.
- **The processing pipeline** (`ProcessorApp`). `validateAndNormalizeAsesores`
  normalises every record in place and keeps those that then validate.
  `processAsesorFile` runs its steps in order and stops early on an empty input.

Supporting modules:

- `Wrappers` holds `Option`. `None` stands for a Java `null`.
- `Strings` models the string operations the core relies on (trim, case mapping,
  blankness, `compareTo`).
- `Sequences` holds order-preserving subsequences and selection by a list of flags.

The record is a Dafny `class` whose setters change one field each. `Data()` is the
value `AsesorData` of its seven fields at one moment. Validation and normalisation
are specified on that value:

- `Check` is the error list of a non-null record.
- `Normalized` is the record after normalisation.

The statistics read the record objects directly, so a group holds the same objects
as the input.

The email syntax check of the validator is an external library. It is the parameter
`emailOk: string -> bool`, and nothing is assumed about it. File reading, file
writing and the creation of a missing input file are also external. They are the
boolean parameters `inputReady`, `readOk` and `writeOk` of `ProcessAsesorFile`, and
the records read are its `records` parameter.

## Model

All source paths are under `src/main/java/com/mycompany/asesorame/demo/`.

| member | source | states |
|---|---|---|
| AsesorRecord.Asesor.Empty | src/main/java/com/mycompany/asesorame/demo/Asesor.java:25-26 | the no-argument constructor leaves every field null |
| AsesorRecord.Asesor.constructor | src/main/java/com/mycompany/asesorame/demo/Asesor.java:29-37 | the seven-argument constructor sets each field from its own argument |
| AsesorRecord.Asesor.SetId | src/main/java/com/mycompany/asesorame/demo/Asesor.java:66-68 | the id becomes the argument; the other six fields are unchanged |
| AsesorRecord.Asesor.SetNombre | src/main/java/com/mycompany/asesorame/demo/Asesor.java:74-76 | the name becomes the argument; nothing else changes |
| AsesorRecord.Asesor.SetApellido | src/main/java/com/mycompany/asesorame/demo/Asesor.java:82-84 | the surname becomes the argument; nothing else changes |
| AsesorRecord.Asesor.SetEmail | src/main/java/com/mycompany/asesorame/demo/Asesor.java:90-92 | the email becomes the argument; nothing else changes |
| AsesorRecord.Asesor.SetTelefono | src/main/java/com/mycompany/asesorame/demo/Asesor.java:98-100 | the phone becomes the argument; nothing else changes |
| AsesorRecord.Asesor.SetEspecialidad | src/main/java/com/mycompany/asesorame/demo/Asesor.java:106-108 | the specialty becomes the argument; nothing else changes |
| AsesorRecord.Asesor.SetUbicacion | src/main/java/com/mycompany/asesorame/demo/Asesor.java:114-116 | the location becomes the argument; nothing else changes |
| AsesorRecord.Asesor.FullName | src/main/java/com/mycompany/asesorame/demo/Asesor.java:43-49 | the full name has no whitespace at either end and is at most name, one space and surname long (null parts read as empty) |
| AsesorRecord.Asesor.IsValid | src/main/java/com/mycompany/asesorame/demo/Asesor.java:51-59 | a complete record has all six text fields present and non-empty |
| AsesorRecord.Asesor.Equals | src/main/java/com/mycompany/asesorame/demo/Asesor.java:119-131 | `equals` holds exactly when the other record is non-null and has the same seven field values |
| AsesorRecord.EqualsIsFieldwise | src/main/java/com/mycompany/asesorame/demo/Asesor.java:119-131 | `equals` holds exactly when the other record is non-null with all seven fields equal; it is reflexive, symmetric and transitive |
| AsesorRecord.FullNameOfNulls | src/main/java/com/mycompany/asesorame/demo/Asesor.java:43-49 | with name and surname both null the full name is empty |
| AsesorRecord.FullNameWithoutNombre | src/main/java/com/mycompany/asesorame/demo/Asesor.java:43-49 | with a null name the full name is the trimmed surname |
| AsesorRecord.FullNameOfTrimmedParts | src/main/java/com/mycompany/asesorame/demo/Asesor.java:43-49 | two non-empty parts without surrounding blanks are joined by exactly one space |
| AsesorRecord.IsValidIgnoresId | src/main/java/com/mycompany/asesorame/demo/Asesor.java:51-59 | the record's own `isValid` does not depend on the id |
| AsesorValidation.Validate | src/main/java/com/mycompany/asesorame/demo/AsesorValidator.java:25-92 | a null record yields exactly one error, the null-record error; a non-null record never yields it |
| AsesorValidation.ValidateMessages | src/main/java/com/mycompany/asesorame/demo/AsesorValidator.java:25-92 | the list of strings for a null record is exactly ["El asesor no puede ser nulo."]; in general there is one message per error |
| AsesorValidation.Check | src/main/java/com/mycompany/asesorame/demo/AsesorValidator.java:39-82 | the field checks of a non-null record yield at most seven errors, each about one of the seven fields |
| AsesorValidation.CheckEmptyIff | src/main/java/com/mycompany/asesorame/demo/AsesorValidator.java:39-82 | a non-null record has no error exactly when it meets every field constraint, stated directly (id positive, names non-blank of 2..50 characters, email non-blank and accepted, phone nine digits, specialty and location non-blank) |
| AsesorValidation.IsValid | src/main/java/com/mycompany/asesorame/demo/AsesorValidator.java:97-99 | `isValid` holds exactly when the record is non-null and meets every field constraint |
| AsesorValidation.CheckOrdered | src/main/java/com/mycompany/asesorame/demo/AsesorValidator.java:39-82 | every error is about one of the seven fields, and the field numbers strictly increase along the list |
| AsesorValidation.AtMostSevenErrors | src/main/java/com/mycompany/asesorame/demo/AsesorValidator.java:39-82 | `validate` returns at most seven errors |
| AsesorValidation.NombreErrors | src/main/java/com/mycompany/asesorame/demo/AsesorValidator.java:45-51 | a blank name yields the required error and neither length error; a non-blank name of 2..50 characters yields no name error |
| AsesorValidation.ApellidoErrors | src/main/java/com/mycompany/asesorame/demo/AsesorValidator.java:54-60 | the same for the surname |
| AsesorValidation.NombreInCheck | src/main/java/com/mycompany/asesorame/demo/AsesorValidator.java:45-51 | a name error is in the list exactly when the name rule alone produces it |
| AsesorValidation.ApellidoInCheck | src/main/java/com/mycompany/asesorame/demo/AsesorValidator.java:54-60 | a surname error is in the list exactly when the surname rule alone produces it |
| AsesorValidation.NombreLengthErrors | src/main/java/com/mycompany/asesorame/demo/AsesorValidator.java:47-50 | a non-blank name of `len` characters yields the too-short error iff len < 2 and the too-long error iff len > 50 |
| AsesorValidation.TelefonoFormatError | src/main/java/com/mycompany/asesorame/demo/AsesorValidator.java:71-75 | a non-blank phone that is not nine digits yields the nine-digit error, and it is the only phone error |
| AsesorValidation.EmailErrors | src/main/java/com/mycompany/asesorame/demo/AsesorValidator.java:63-68 | the email-required error appears iff the email is blank; the format error, carrying the email, appears iff a non-blank email is rejected by the syntax check |
| AsesorValidation.TelefonoErrors | src/main/java/com/mycompany/asesorame/demo/AsesorValidator.java:71-75 | the phone-required error appears iff the phone is blank; the nine-digit error iff a non-blank phone is not nine digits |
| AsesorValidation.RequiredErrors | src/main/java/com/mycompany/asesorame/demo/AsesorValidator.java:77-82 | the specialty error appears iff the specialty is blank, the location error iff the location is blank |
| AsesorValidation.OnlyTelefonoWrong | src/main/java/com/mycompany/asesorame/demo/AsesorValidator.java:39-82 | a record valid except for a malformed phone has exactly the one nine-digit error |
| AsesorValidation.IdRuleIndependent | src/main/java/com/mycompany/asesorame/demo/AsesorValidator.java:39-42 | the id error appears iff the id is null or not positive; changing the id changes no other error |
| AsesorValidation.ValidImpliesComplete | src/main/java/com/mycompany/asesorame/demo/AsesorValidator.java:45-81 | a record the validator accepts satisfies the record's own `isValid` |
| AsesorValidation.CompleteButInvalid | src/main/java/com/mycompany/asesorame/demo/AsesorValidator.java:39-42 | the converse fails: a complete record with a null id passes `isValid` of the record but not of the validator |
| AsesorValidation.NormalizeName | src/main/java/com/mycompany/asesorame/demo/AsesorValidator.java:108-114 | a null name stays null and a non-null one non-null; a blank name is left as it is; a non-blank one gets no longer |
| AsesorValidation.NormalizeEmail | src/main/java/com/mycompany/asesorame/demo/AsesorValidator.java:117-119 | the same for the email |
| AsesorValidation.Normalized | src/main/java/com/mycompany/asesorame/demo/AsesorValidator.java:101-127 | normalisation keeps the id, the phone and the location |
| AsesorValidation.NormalizeAsesor | src/main/java/com/mycompany/asesorame/demo/AsesorValidator.java:101-127 | a non-null record's new data is `Normalized` of its old data; a null record is left as it is |
| AsesorValidation.NormalizedKeeps | src/main/java/com/mycompany/asesorame/demo/AsesorValidator.java:101-127 | normalisation never changes id, phone or location, nor any blank field |
| AsesorValidation.NormalizeKeepsBlankness | src/main/java/com/mycompany/asesorame/demo/AsesorValidator.java:108-124 | each of the four normalised fields is blank after normalisation iff it was blank before |
| AsesorValidation.NormalizeNameForm | src/main/java/com/mycompany/asesorame/demo/AsesorValidator.java:108-114 | a non-blank name becomes the capitalised lower-cased trim of the input: non-blank, trimmed, as long as the trimmed input, no capital after the first character |
| AsesorValidation.NormalizeEmailForm | src/main/java/com/mycompany/asesorame/demo/AsesorValidator.java:117-119 | a non-blank email becomes the lower-cased trim of the input: non-blank, trimmed, no capital letter |
| AsesorValidation.NormalizeNameIdempotent | src/main/java/com/mycompany/asesorame/demo/AsesorValidator.java:108-114 | normalising a name twice is normalising it once |
| AsesorValidation.NormalizeEmailIdempotent | src/main/java/com/mycompany/asesorame/demo/AsesorValidator.java:117-119 | normalising an email twice is normalising it once |
| AsesorValidation.NormalizeIdempotent | src/main/java/com/mycompany/asesorame/demo/AsesorValidator.java:101-127 | normalising a record twice is normalising it once |
| AsesorValidation.NormalizedNombreLength | src/main/java/com/mycompany/asesorame/demo/AsesorProcessorApp.java:156-158 | validating a normalised record applies the length limits to the trimmed name |
| Strings.Trim | src/main/java/com/mycompany/asesorame/demo/AsesorValidator.java:109 | the trim has no whitespace at either end and is no longer than the input |
| Strings.TrimSlice | src/main/java/com/mycompany/asesorame/demo/AsesorValidator.java:109 | the trim is a contiguous slice of the input, and everything cut off at both ends is whitespace |
| Strings.TrimEmptyIffBlank | src/main/java/com/mycompany/asesorame/demo/StatisticsService.java:101 | trimming gives the empty string exactly when the string is blank |
| Strings.TrimIdempotent | src/main/java/com/mycompany/asesorame/demo/AsesorValidator.java:118 | trimming twice is trimming once |
| Strings.LowerNoUpper | src/main/java/com/mycompany/asesorame/demo/AsesorValidator.java:118 | a lower-cased string has no capital letter, and lower-casing is idempotent |
| Strings.TrimLowerCommute | src/main/java/com/mycompany/asesorame/demo/AsesorValidator.java:109 | lower-casing and trimming commute |
| Strings.LowerCapitalize | src/main/java/com/mycompany/asesorame/demo/AsesorValidator.java:109 | lower-casing undoes capitalisation |
| Strings.CapitalizeTrimmed | src/main/java/com/mycompany/asesorame/demo/AsesorValidator.java:109 | capitalising keeps a trimmed string trimmed, and non-blank iff non-empty |
| Strings.LessEqTotal | src/main/java/com/mycompany/asesorame/demo/StatisticsService.java:125 | any two strings are comparable under `compareTo` |
| Strings.LessEqAntisymmetric | src/main/java/com/mycompany/asesorame/demo/StatisticsService.java:125 | strings that compare both ways are equal |
| Strings.LessEqTransitive | src/main/java/com/mycompany/asesorame/demo/StatisticsService.java:125 | the `compareTo` order is transitive |
| Strings.LessEqReflexive | src/main/java/com/mycompany/asesorame/demo/StatisticsService.java:125 | every string compares not greater than itself |
| Strings.LessIsStrict | src/main/java/com/mycompany/asesorame/demo/StatisticsService.java:125 | `compareTo < 0` is exactly "not greater and different" |
| Statistics.GroupByEspecialidad | src/main/java/com/mycompany/asesorame/demo/StatisticsService.java:19-39 | the keys are exactly the non-null specialties present, and each group is the records of its specialty in input order |
| Statistics.MembersSubsequence | src/main/java/com/mycompany/asesorame/demo/StatisticsService.java:25-29 | each group is an order-preserving subsequence of the input |
| Statistics.MembersMultiplicity | src/main/java/com/mycompany/asesorame/demo/StatisticsService.java:25-29 | a record is in the group of `k` exactly as often as in the input if its specialty is `k`, otherwise not at all |
| Statistics.MembersSpec | src/main/java/com/mycompany/asesorame/demo/StatisticsService.java:25-29 | every member of a group is an input record of that specialty |
| Statistics.EspecialidadesSpec | src/main/java/com/mycompany/asesorame/demo/StatisticsService.java:25-31 | a specialty is a key iff some record has it iff its group is non-empty |
| Statistics.GroupsDisjoint | src/main/java/com/mycompany/asesorame/demo/StatisticsService.java:25-29 | groups of different specialties share no record |
| Statistics.GroupsPartition | src/main/java/com/mycompany/asesorame/demo/StatisticsService.java:25-31 | the group sizes add up to the input size less the records with a null specialty |
| Statistics.CalculateSpecializationCounts | src/main/java/com/mycompany/asesorame/demo/StatisticsService.java:81-88 | the keys are the specialties present; each count is the size of that specialty's group and at least 1 |
| Statistics.MembersOfMembers | src/main/java/com/mycompany/asesorame/demo/StatisticsService.java:63-69 | regrouping a group by its own specialty gives it back, with the single key of that specialty |
| Statistics.CalculateStatsForDepartment | src/main/java/com/mycompany/asesorame/demo/StatisticsService.java:63-76 | the statistics carry the specialty and the group size; the distribution's keys are the specialties in the group, and a non-empty group of one specialty gives the single entry mapping it to the group size |
| Statistics.SingleSpecialty | src/main/java/com/mycompany/asesorame/demo/StatisticsService.java:63-69 | a list of records all of specialty `k` is its own group of `k`, with the single key `k` when non-empty |
| Statistics.CalculateDepartmentStatistics | src/main/java/com/mycompany/asesorame/demo/StatisticsService.java:44-58 | one entry per specialty present, holding that specialty, its group size and the distribution mapping only that specialty to the group size |
| Statistics.DepartmentStatsOfGroup | src/main/java/com/mycompany/asesorame/demo/StatisticsService.java:50-53 | the statistics computed for a group present in the input are its size and the single-entry distribution |
| Statistics.FilterAsesores | src/main/java/com/mycompany/asesorame/demo/StatisticsService.java:93-115 | the result is an order-preserving subsequence of the input, and every kept record meets each active criterion ignoring case |
| Statistics.FilterMultiplicity | src/main/java/com/mycompany/asesorame/demo/StatisticsService.java:109-111 | every matching record is kept as often as it occurs in the input, and no other record is kept; a record with a null field under an active criterion is dropped |
| Statistics.FilterWithoutCriteria | src/main/java/com/mycompany/asesorame/demo/StatisticsService.java:99-107 | with both criteria null or blank after trimming the filter returns its whole input |
| Statistics.InsertionPoint | src/main/java/com/mycompany/asesorame/demo/StatisticsService.java:124-125 | a stable insertion goes after every record whose specialty is not greater and before the first greater one |
| Statistics.InsertionPointSorted | src/main/java/com/mycompany/asesorame/demo/StatisticsService.java:124-125 | in a sorted list every record from the insertion point on sorts strictly after the inserted one |
| Statistics.InsertKeepsSorted | src/main/java/com/mycompany/asesorame/demo/StatisticsService.java:124-125 | inserting into a sorted list keeps it sorted and adds exactly the one record |
| Statistics.StableSort | src/main/java/com/mycompany/asesorame/demo/StatisticsService.java:124-125 | the sort is a permutation of its input, ascending by specialty |
| Statistics.InsertKeepsGroups | src/main/java/com/mycompany/asesorame/demo/StatisticsService.java:124-125 | a stable insertion puts the record after all records of its specialty and leaves the other specialties' order alone |
| Statistics.StableSortKeepsGroups | src/main/java/com/mycompany/asesorame/demo/StatisticsService.java:124-125 | stability: the sort keeps the records of each specialty in input order |
| Statistics.GetTopAsesoresByEspecialidad | src/main/java/com/mycompany/asesorame/demo/StatisticsService.java:120-131 | the result has min(topN, size) records, is that prefix of the stably sorted input, and is sorted by specialty |
| Statistics.TopIsStablePrefix | src/main/java/com/mycompany/asesorame/demo/StatisticsService.java:120-131 | the top records are input records; none left out sorts before a kept one; within each specialty the kept records are the first ones of the input, in input order |
| Statistics.CreateSummary | src/main/java/com/mycompany/asesorame/demo/StatisticsService.java:136-153 | the total is the input size; the specialty set is the set of non-null specialties and equals the key set of the counts; every count is at least 1 |
| Statistics.SummaryCountsSum | src/main/java/com/mycompany/asesorame/demo/StatisticsService.java:144-151 | the counts add up to the input size less the records with a null specialty |
| Statistics.SummaryOfOne | src/main/java/com/mycompany/asesorame/demo/StatisticsService.java:136-153 | one record of specialty "Ventas" is summarised as total 1, specialties {"Ventas"}, counts {"Ventas": 1} |
| Sequences.Select | src/main/java/com/mycompany/asesorame/demo/AsesorProcessorApp.java:157-167 | the records selected by a list of flags are an order-preserving subsequence |
| Sequences.SelectMembers | src/main/java/com/mycompany/asesorame/demo/AsesorProcessorApp.java:157-167 | a flagged record is selected, and every selected record sits at a flagged position |
| Sequences.SelectCount | src/main/java/com/mycompany/asesorame/demo/AsesorProcessorApp.java:169-170 | as many records are selected as there are flags set |
| Sequences.SelectAll | src/main/java/com/mycompany/asesorame/demo/AsesorProcessorApp.java:157-167 | with every flag set, the whole list is selected |
| ProcessorApp.ValidateAndNormalizeAsesores | src/main/java/com/mycompany/asesorame/demo/AsesorProcessorApp.java:152-179 | every input record, kept or not, is normalised in place; the result is, in input order, exactly the records that pass validation once normalised; each of them validates with no error; no record is kept more often than the input has it; the invalid count is the input size less the valid count |
| ProcessorApp.NormalizeAndFilter | src/main/java/com/mycompany/asesorame/demo/AsesorProcessorApp.java:155-167 | after the stream each record holds its normalised data, and the collected list is exactly the records that pass once normalised |
| ProcessorApp.NormalizeStep | src/main/java/com/mycompany/asesorame/demo/AsesorProcessorApp.java:156 | normalising the next record leaves every record seen so far normalised exactly once, including a record listed twice, and no unseen record touched |
| ProcessorApp.PassesValidation | src/main/java/com/mycompany/asesorame/demo/AsesorProcessorApp.java:157-166 | the filter keeps a record exactly when `validate` returns no error for it |
| ProcessorApp.KeepValidSpec | src/main/java/com/mycompany/asesorame/demo/AsesorProcessorApp.java:155-167 | the kept records are an order-preserving subsequence; a record is kept iff it passes once normalised; their number is the number that pass |
| ProcessorApp.KeepValidAll | src/main/java/com/mycompany/asesorame/demo/AsesorProcessorApp.java:155-167 | when every record passes, all of them are kept, in input order |
| ProcessorApp.KeptAreValid | src/main/java/com/mycompany/asesorame/demo/AsesorProcessorApp.java:157-167 | once the records are normalised, every kept record validates with no error |
| ProcessorApp.GenerateStatistics | src/main/java/com/mycompany/asesorame/demo/AsesorProcessorApp.java:184-203 | the summary is that of the valid records; the statistics have one entry per specialty present, holding that specialty, its group size (the summary's count) and the distribution mapping only that specialty to the group size |
| ProcessorApp.DemonstrateAdvancedFiltering | src/main/java/com/mycompany/asesorame/demo/AsesorProcessorApp.java:208-218 | the first figure is the number of "Tecnología" records; the second is the number of specialties present |
| ProcessorApp.ProcessAsesorFile | src/main/java/com/mycompany/asesorame/demo/AsesorProcessorApp.java:35-110 | a missing input, a failed read or an empty record list stops the run before validation, with nothing written and no record changed; otherwise every record read is normalised in place, and the outcome is what `ProcessRecords` produces, with the valid records as the output written |
| ProcessorApp.ProcessRecords | src/main/java/com/mycompany/asesorame/demo/AsesorProcessorApp.java:66-99 | every record is normalised in place; the outcome holds exactly the records that pass once normalised, their summary, one statistics entry per specialty with its group size and single-entry distribution, and, only when writing succeeds, the "Tecnología" count and the number of specialties |

## Left out

- **Spreadsheet reading and writing** (`ExcelService`). These are the `readOk` and
  `writeOk` parameters and the `written` result of `ProcessAsesorFile`. Cell
  layout and styling are not part of this model.
- **Missing input file** (`ensureInputFileExists`). Generating test data with a
  random generator (`TestDataGenerator`) is not modelled; the outcome is the
  `inputReady` parameter.
- **Output that has no effect on the results.** This covers logging, `Stopwatch`
  timing, console output, `main`, and `AsesoraMeDemo`.
- **Exceptions in `processAsesorFile`.** The handlers are modelled as the
  `ReadFailed` and `WriteFailed` outcomes. Other unexpected exceptions are not
  modelled.
- **Email syntax** (`EmailValidator`). It is an external library, taken as the
  uninterpreted parameter `emailOk`.
- **Case mapping.** `toLowerCase`, the title case of `StringUtils.capitalize` and
  `equalsIgnoreCase` use ASCII case mapping only. Locale and full Unicode rules are
  not modelled. A consequence: "TECNOLOGÍA" normalises to "TecnologÍa" in the
  model and then fails the "Tecnología" filter, which Java matches.
- **Whitespace.** `String.trim` (every character up to U+0020) and `isBlank`
  (`Character.isWhitespace`) share one whitespace class in the model: the space and
  TAB to CR. So `NormalizeKeepsBlankness` holds in the model but not in
  Java: a name made only of U+0000 to U+0008 is not blank there, yet `trim` turns
  it into the empty string.
- **Character counts and ordering.** `String.length` and `compareTo` count UTF-16
  code units. The model counts and compares Dafny characters, so the two differ
  only outside the Basic Multilingual Plane.
- **Collection types.** Guava's multimaps, `HashMap` iteration order and the
  immutable collection wrappers become Dafny `map`, `set` and `seq`.
- **Numeric widths.** The `int` and `Long` counts are unbounded `nat`, as no count
  can reach the bounds.
- **`hashCode` and `toString`** (Guava hashing, JSON formatting) of the record and
  of `DepartmentStats`/`EmployeeSummary`.
- AsesorRecord.Asesor.Equals: takes `Asesor?` instead of `Object`. An object of
  another class (the `instanceof` test) cannot be expressed.
- ProcessorApp.ValidateAndNormalizeAsesores: the list holds non-null records. In
  the source a null element makes the run fail: the filter logs the id of a
  record with errors, which throws on null, and the generic handler ends the run.
  The spreadsheet reader never adds a null record
  (src/main/java/com/mycompany/asesorame/demo/ExcelService.java:54-55).
- Statistics.GetTopAsesoresByEspecialidad: requires `topN >= 0` and a non-null
  specialty on every record. Java throws `IllegalArgumentException` on a negative
  limit and `NullPointerException` when the comparator reaches a null specialty,
  which a list of at most one record never does.
