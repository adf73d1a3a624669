/** `AsesorProcessorApp`: the processing pipeline. The records read from the input
    are normalised and validated one after the other, the valid ones feed the
    statistics, the writer and the filtering demonstration. File access is
    modelled by parameters saying whether each step succeeds. */
module ProcessorApp {
  import opened Wrappers
  import opened Sequences
  import opened AsesorRecord
  import opened AsesorValidation
  import opened Statistics

  /** The data of each record of `s`, in the current state. */
  function Snapshot(s: seq<Asesor>): (data: seq<AsesorData>)
    reads s
    ensures |data| == |s|
    ensures forall i :: 0 <= i < |s| ==> data[i] == s[i].Data()
  {
    if s == [] then [] else Snapshot(s[..|s| - 1]) + [s[|s| - 1].Data()]
  }

  /** A snapshot taken in one state gives the same data for the same object. */
  predicate Consistent(s: seq<Asesor>, before: seq<AsesorData>) {
    |before| == |s| &&
    forall j, k :: 0 <= j < |s| && 0 <= k < |s| && s[j] == s[k] ==> before[j] == before[k]
  }

  /** Whether a record whose data was `d` before normalisation passes validation
      once normalised. */
  predicate PassesOnceNormalized(emailOk: string -> bool, d: AsesorData) {
    Check(emailOk, Normalized(d)) == []
  }

  /** The pipeline's verdict on each record, from its data before normalisation. */
  function Verdicts(emailOk: string -> bool, before: seq<AsesorData>): (ok: seq<bool>)
    ensures |ok| == |before|
  {
    seq(|before|, i requires 0 <= i < |before| => PassesOnceNormalized(emailOk, before[i]))
  }

  /** Each record's data once normalised. */
  function NormalizedAll(before: seq<AsesorData>): (after: seq<AsesorData>)
    ensures |after| == |before|
  {
    seq(|before|, i requires 0 <= i < |before| => Normalized(before[i]))
  }

  /** The records kept by the pipeline: in input order, those whose data passes
      validation once normalised. */
  function KeepValid(emailOk: string -> bool, s: seq<Asesor>, before: seq<AsesorData>)
    : seq<Asesor>
    requires |before| == |s|
  {
    Select(s, Verdicts(emailOk, before))
  }

  /** With a consistent snapshot a record is kept exactly when its data passes;
      the kept records are an order-preserving subsequence, one per passing
      position. */
  lemma KeepValidSpec(emailOk: string -> bool, s: seq<Asesor>, before: seq<AsesorData>, i: int)
    requires Consistent(s, before)
    requires 0 <= i < |s|
    ensures IsSubsequence(KeepValid(emailOk, s, before), s)
    ensures s[i] in KeepValid(emailOk, s, before) <==> PassesOnceNormalized(emailOk, before[i])
    ensures |KeepValid(emailOk, s, before)| == Count(Verdicts(emailOk, before))
  {
    var ok := Verdicts(emailOk, before);
    SelectMembers(s, ok);
    SelectCount(s, ok);
    if s[i] in Select(s, ok) {
      var j := SelectWitness(s, ok, s[i]);
    }
  }

  /** When every record passes, all of them are kept, in input order. */
  lemma KeepValidAll(emailOk: string -> bool, s: seq<Asesor>, before: seq<AsesorData>)
    requires |before| == |s|
    requires forall i :: 0 <= i < |s| ==> PassesOnceNormalized(emailOk, before[i])
    ensures KeepValid(emailOk, s, before) == s
  {
    var ok := Verdicts(emailOk, before);
    forall i | 0 <= i < |ok| ensures ok[i] {
    }
    SelectAll(s, ok);
  }

  /** `validateAndNormalizeAsesores`: normalises every record in place and returns,
      in input order, those that then pass validation, with the number rejected.
      A record listed twice is normalised twice, which changes nothing the second
      time. */
  method ValidateAndNormalizeAsesores(emailOk: string -> bool, s: seq<Asesor>)
    returns (valid: seq<Asesor>, invalidCount: nat)
    modifies s
    ensures forall i :: 0 <= i < |s| ==> s[i].Data() == Normalized(old(s[i].Data()))
    ensures valid == KeepValid(emailOk, s, old(Snapshot(s)))
    ensures forall a :: a in valid ==> Validate(emailOk, a) == []
    ensures invalidCount == |s| - |valid|
    ensures multiset(valid) <= multiset(s)
  {
    ghost var before := Snapshot(s);
    valid := NormalizeAndFilter(emailOk, s, before);
    SubsequenceMultiset(valid, s);
    KeptAreValid(emailOk, s, before);
    SelectCount(s, Verdicts(emailOk, before));
    invalidCount := |s| - |valid|;
  }

  /** The stream of `validateAndNormalizeAsesores`: each record in turn is
      normalised (`peek`) and then kept when it passes validation (`filter`). */
  method NormalizeAndFilter(emailOk: string -> bool, s: seq<Asesor>, ghost before: seq<AsesorData>)
    returns (valid: seq<Asesor>)
    requires |before| == |s|
    requires forall j :: 0 <= j < |s| ==> s[j].Data() == before[j]
    modifies s
    ensures forall j :: 0 <= j < |s| ==> s[j].Data() == NormalizedAll(before)[j]
    ensures valid == KeepValid(emailOk, s, before)
  {
    ghost var ok := Verdicts(emailOk, before);
    assert Consistent(s, before);
    valid := [];
    var i := 0;
    while i < |s|
      invariant 0 <= i <= |s|
      invariant Progress(s, before, i)
      invariant valid == Select(s[..i], ok[..i])
    {
      valid := FilterStep(emailOk, s, before, i, valid);
      i := i + 1;
    }
    assert s[..|s|] == s;
    assert ok[..|s|] == ok;
    assert Progress(s, before, |s|);
  }

  /** One pass of the stream over `s[i]`: it is normalised, then kept when it
      validates with no error. */
  method FilterStep(emailOk: string -> bool, s: seq<Asesor>, ghost before: seq<AsesorData>,
                    i: nat, valid: seq<Asesor>)
    returns (kept: seq<Asesor>)
    requires i < |s| && Consistent(s, before)
    requires Progress(s, before, i)
    requires valid == Select(s[..i], Verdicts(emailOk, before)[..i])
    modifies s[i]
    ensures Progress(s, before, i + 1)
    ensures kept == Select(s[..i + 1], Verdicts(emailOk, before)[..i + 1])
  {
    NormalizeStep(s, before, i);
    assert s[i].Data() == NormalizedAll(before)[i];
    var passes := PassesValidation(emailOk, s[i], before, i);
    SelectSnoc(s, Verdicts(emailOk, before), i);
    kept := if passes then valid + [s[i]] else valid;
  }

  /** Once every record is normalised, each kept record passes validation. */
  lemma KeptAreValid(emailOk: string -> bool, s: seq<Asesor>, before: seq<AsesorData>)
    requires |before| == |s|
    requires forall j :: 0 <= j < |s| ==> s[j].Data() == NormalizedAll(before)[j]
    ensures forall a :: a in KeepValid(emailOk, s, before) ==> Validate(emailOk, a) == []
  {
    forall a | a in KeepValid(emailOk, s, before) ensures Validate(emailOk, a) == [] {
      KeptIsValid(emailOk, s, before, a);
    }
  }

  lemma KeptIsValid(emailOk: string -> bool, s: seq<Asesor>, before: seq<AsesorData>, a: Asesor)
    requires |before| == |s|
    requires forall j :: 0 <= j < |s| ==> s[j].Data() == NormalizedAll(before)[j]
    requires a in KeepValid(emailOk, s, before)
    ensures Validate(emailOk, a) == []
  {
    var j := SelectWitness(s, Verdicts(emailOk, before), a);
    PassingIsValid(emailOk, s[j], before, j);
  }

  /** A record normalised from data that passes has no validation error. */
  lemma PassingIsValid(emailOk: string -> bool, a: Asesor, before: seq<AsesorData>, j: nat)
    requires j < |before| && a.Data() == NormalizedAll(before)[j]
    requires Verdicts(emailOk, before)[j]
    ensures Validate(emailOk, a) == []
  {
  }

  /** The filter of `validateAndNormalizeAsesores`: a normalised record is kept when
      `validate` reports no error (the errors of a rejected record are only
      logged). */
  method PassesValidation(emailOk: string -> bool, a: Asesor, ghost before: seq<AsesorData>,
                          ghost i: nat)
    returns (passes: bool)
    requires i < |before| && a.Data() == NormalizedAll(before)[i]
    ensures passes == Verdicts(emailOk, before)[i]
    ensures passes <==> Validate(emailOk, a) == []
  {
    var errors := Validate(emailOk, a);
    passes := errors == [];
  }

  /** Progress of the loop above after `i` records: each of them is normalised
      once, and every later record not yet seen is untouched. */
  ghost predicate Progress(s: seq<Asesor>, before: seq<AsesorData>, i: nat)
    requires i <= |s| == |before|
    reads s
  {
    && (forall j :: 0 <= j < i ==> s[j].Data() == NormalizedAll(before)[j])
    && (forall j :: i <= j < |s| && s[j] !in s[..i] ==> s[j].Data() == before[j])
  }

  /** One step of the loop above: normalising `s[i]` advances its progress by one. */
  method NormalizeStep(s: seq<Asesor>, ghost before: seq<AsesorData>, i: nat)
    requires i < |s| && Consistent(s, before)
    requires Progress(s, before, i)
    modifies s[i]
    ensures Progress(s, before, i + 1)
  {
    ghost var pre := Snapshot(s);
    assert forall j :: 0 <= j < i && s[j] == s[i] ==> before[j] == before[i];
    NormalizeReachesTarget(s, before, i);
    NormalizeAsesor(s[i]);
    assert forall j :: 0 <= j < |s| && s[j] != s[i] ==> s[j].Data() == pre[j];
    ProgressAdvances(s, before, pre, i);
  }

  /** Normalising `s[i]` to its target and leaving every other record as it was
      in `pre` advances the progress of the stream by one. */
  lemma ProgressAdvances(s: seq<Asesor>, before: seq<AsesorData>, pre: seq<AsesorData>, i: nat)
    requires i < |s| == |before| == |pre|
    requires forall j :: 0 <= j < i && s[j] == s[i] ==> before[j] == before[i]
    requires forall j :: 0 <= j < i ==> pre[j] == NormalizedAll(before)[j]
    requires forall j :: i <= j < |s| && s[j] !in s[..i] ==> pre[j] == before[j]
    requires s[i].Data() == NormalizedAll(before)[i]
    requires forall j :: 0 <= j < |s| && s[j] != s[i] ==> s[j].Data() == pre[j]
    ensures Progress(s, before, i + 1)
  {
    NormalizedPrefix(s, before, pre, i);
    UnseenSuffix(s, before, pre, i);
  }

  /** The records up to `s[i]` all hold their normalised data. */
  lemma NormalizedPrefix(s: seq<Asesor>, before: seq<AsesorData>, pre: seq<AsesorData>, i: nat)
    requires i < |s| == |before| == |pre|
    requires forall j :: 0 <= j < i && s[j] == s[i] ==> before[j] == before[i]
    requires forall j :: 0 <= j < i ==> pre[j] == NormalizedAll(before)[j]
    requires s[i].Data() == NormalizedAll(before)[i]
    requires forall j :: 0 <= j < |s| && s[j] != s[i] ==> s[j].Data() == pre[j]
    ensures forall j :: 0 <= j <= i ==> s[j].Data() == NormalizedAll(before)[j]
  {
    forall j | 0 <= j <= i
      ensures s[j].Data() == NormalizedAll(before)[j]
    {
      if s[j] == s[i] {
        assert before[j] == before[i];
      } else {
        assert j < i;
      }
    }
  }

  /** The later records not met up to `s[i]` still hold their original data. */
  lemma UnseenSuffix(s: seq<Asesor>, before: seq<AsesorData>, pre: seq<AsesorData>, i: nat)
    requires i < |s| == |before| == |pre|
    requires forall j :: i <= j < |s| && s[j] !in s[..i] ==> pre[j] == before[j]
    requires forall j :: 0 <= j < |s| && s[j] != s[i] ==> s[j].Data() == pre[j]
    ensures forall j :: i < j < |s| && s[j] !in s[..i + 1] ==> s[j].Data() == before[j]
  {
    forall j | i < j < |s| && s[j] !in s[..i + 1]
      ensures s[j].Data() == before[j]
    {
      PrefixSnocMember(s, i, s[j]);
    }
  }

  /** Whether or not it was met earlier in the stream, normalising `s[i]` once
      more gives its normalised data. */
  lemma NormalizeReachesTarget(s: seq<Asesor>, before: seq<AsesorData>, i: nat)
    requires i < |s| == |before|
    requires forall j :: 0 <= j < i && s[j] == s[i] ==> before[j] == before[i]
    requires Progress(s, before, i)
    ensures Normalized(s[i].Data()) == NormalizedAll(before)[i]
  {
    if s[i] in s[..i] {
      var k :| 0 <= k < i && s[..i][k] == s[i];
      assert s[i].Data() == Normalized(before[i]) by {
        assert s[k].Data() == NormalizedAll(before)[k] && before[k] == before[i];
      }
      NormalizeIdempotent(before[i]);
    } else {
      assert s[i].Data() == before[i];
    }
  }

  /** `generateStatistics`: the dataset summary and the per-specialty statistics
      of the valid records. */
  method GenerateStatistics(valid: seq<Asesor>)
    returns (summary: EmployeeSummary, departments: map<string, DepartmentStats>)
    ensures summary == CreateSummary(valid)
    ensures departments.Keys == summary.especialidades
    ensures forall k :: k in departments ==>
              departments[k].asesorCount == summary.specializationCounts[k]
    ensures forall k :: k in departments ==>
              departments[k] == DepartmentStats(k, |Members(valid, k)|, map[k := |Members(valid, k)|])
  {
    summary := CreateSummary(valid);
    departments := CalculateDepartmentStatistics(valid);
  }

  /** `demonstrateAdvancedFiltering`: the number of records of specialty
      "Tecnología" and the number of specialty groups. */
  method DemonstrateAdvancedFiltering(valid: seq<Asesor>) returns (tecnologia: nat, groupCount: nat)
    ensures tecnologia == |FilterAsesores(valid, Some("Tecnología"), None)|
    ensures groupCount == |Especialidades(valid)|
  {
    var it := FilterAsesores(valid, Some("Tecnología"), None);
    tecnologia := |it|;
    var grouped := GroupByEspecialidad(valid);
    groupCount := |grouped.Keys|;
  }

  /** How a run of the pipeline ends. */
  datatype Outcome =
    | InputMissing
    | ReadFailed
    | NoRecords
    | WriteFailed(valid: seq<Asesor>, summary: EmployeeSummary,
                  departments: map<string, DepartmentStats>)
    | Completed(valid: seq<Asesor>, summary: EmployeeSummary,
                departments: map<string, DepartmentStats>, tecnologia: nat, groupCount: nat)

  /** `processAsesorFile`, steps 1 to 5. `inputReady` says whether the input file
      exists or could be generated, `readOk` whether reading succeeds (then
      `records` is what was read), `writeOk` whether writing succeeds. An empty
      input stops the run before validation; otherwise the run goes on with
      `ProcessRecords`. */
  method ProcessAsesorFile(emailOk: string -> bool, inputReady: bool, readOk: bool,
                           records: seq<Asesor>, writeOk: bool)
    returns (outcome: Outcome, written: Option<seq<Asesor>>)
    modifies records
    ensures !inputReady ==> outcome == InputMissing
    ensures inputReady && !readOk ==> outcome == ReadFailed
    ensures inputReady && readOk && records == [] ==> outcome == NoRecords
    ensures !(inputReady && readOk && records != []) ==>
              written == None && forall a :: a in records ==> a.Data() == old(a.Data())
    ensures inputReady && readOk && records != [] ==>
              forall i :: 0 <= i < |records| ==> records[i].Data() == Normalized(old(records[i].Data()))
    ensures inputReady && readOk && records != [] ==>
              && Processed(emailOk, records, old(Snapshot(records)), writeOk, outcome)
              && written == Some(outcome.valid)
  {
    written := None;
    if !inputReady {
      return InputMissing, written;
    }
    if !readOk {
      return ReadFailed, written;
    }
    if records == [] {
      return NoRecords, written;
    }
    outcome := ProcessRecords(emailOk, records, writeOk);
    written := Some(outcome.valid);
  }

  /** What steps 2 to 5 produce from records whose data was `before`: the valid
      records, in input order; their summary; one statistics entry per specialty,
      holding its group size and the single-entry distribution; and, once the
      output is written, the two filtering figures. The run completes exactly when
      writing succeeds. */
  ghost predicate Processed(emailOk: string -> bool, records: seq<Asesor>, before: seq<AsesorData>,
                            writeOk: bool, outcome: Outcome)
    requires |before| == |records|
    reads records, if outcome.WriteFailed? || outcome.Completed? then outcome.valid else []
  {
    && (outcome.WriteFailed? || outcome.Completed?)
    && outcome.valid == KeepValid(emailOk, records, before)
    && outcome.summary == CreateSummary(outcome.valid)
    && outcome.departments.Keys == Especialidades(outcome.valid)
    && (forall k :: k in outcome.departments ==>
          outcome.departments[k] ==
            DepartmentStats(k, |Members(outcome.valid, k)|, map[k := |Members(outcome.valid, k)|]))
    && (outcome.Completed? <==> writeOk)
    && (writeOk ==>
          && outcome.tecnologia == |FilterAsesores(outcome.valid, Some("Tecnología"), None)|
          && outcome.groupCount == |Especialidades(outcome.valid)|)
  }

  /** Steps 2 to 5 of `processAsesorFile` on a non-empty read: validation and
      normalisation, statistics, writing (`writeOk` says whether it succeeds, and
      the output is the `valid` list of the outcome), then the filtering. Every
      record is normalised, and every later step sees only the valid records. */
  method ProcessRecords(emailOk: string -> bool, records: seq<Asesor>, writeOk: bool)
    returns (outcome: Outcome)
    modifies records
    ensures forall i :: 0 <= i < |records| ==> records[i].Data() == Normalized(old(records[i].Data()))
    ensures Processed(emailOk, records, old(Snapshot(records)), writeOk, outcome)
  {
    ghost var before := Snapshot(records);
    var valid, invalidCount := ValidateAndNormalizeAsesores(emailOk, records);
    var summary, departments := GenerateStatistics(valid);
    if !writeOk {
      outcome := WriteFailed(valid, summary, departments);
    } else {
      var tecnologia, groupCount := DemonstrateAdvancedFiltering(valid);
      outcome := Completed(valid, summary, departments, tecnologia, groupCount);
    }
    assert Processed(emailOk, records, before, writeOk, outcome);
  }
}
