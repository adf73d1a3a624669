/** `StatisticsService`: grouping by specialty, per-specialty statistics, filtering,
    the sorted top-N and the dataset summary, over a list of record objects. */
module Statistics {
  import opened Wrappers
  import opened Strings
  import opened Sequences
  import opened AsesorRecord

  /** `DepartmentStats`: the statistics of one specialty group. */
  datatype DepartmentStats = DepartmentStats(
    especialidad: string,
    asesorCount: nat,
    specializationDistribution: map<string, nat>)

  /** `EmployeeSummary`: the dataset-wide summary. */
  datatype EmployeeSummary = EmployeeSummary(
    totalAsesores: nat,
    especialidades: set<string>,
    specializationCounts: map<string, nat>)

  // ---------------------------------------------------------------------------
  // Reference definitions

  /** The records of `s` whose specialty is `k`, in input order. */
  function Members(s: seq<Asesor>, k: string): seq<Asesor>
    reads s
  {
    if s == [] then []
    else Members(s[..|s| - 1], k) + (if s[|s| - 1].especialidad == Some(k) then [s[|s| - 1]] else [])
  }

  /** The specialties that occur in `s` (null ones do not count). */
  function Especialidades(s: seq<Asesor>): set<string>
    reads s
  {
    if s == [] then {}
    else Especialidades(s[..|s| - 1]) +
         (match s[|s| - 1].especialidad case Some(k) => {k} case None => {})
  }

  /** How many records of `s` have a null specialty. */
  function NullCount(s: seq<Asesor>): nat
    reads s
  {
    if s == [] then 0
    else NullCount(s[..|s| - 1]) + (if s[|s| - 1].especialidad.None? then 1 else 0)
  }

  /** How many records of `s` have a specialty in `keys`. */
  function CountIn(s: seq<Asesor>, keys: set<string>): nat
    reads s
  {
    if s == [] then 0
    else CountIn(s[..|s| - 1], keys) +
         (if s[|s| - 1].especialidad.Some? && s[|s| - 1].especialidad.value in keys then 1 else 0)
  }

  /** The sum of the values of `m` over `keys`. */
  ghost function SumOver(m: map<string, nat>, keys: set<string>): nat
    requires keys <= m.Keys
    decreases keys
  {
    if keys == {} then 0 else var k :| k in keys; m[k] + SumOver(m, keys - {k})
  }

  // ---------------------------------------------------------------------------
  // Properties of the reference definitions

  /** The members of `k` are an order-preserving subsequence of `s`. */
  lemma {:induction false} MembersSubsequence(s: seq<Asesor>, k: string)
    ensures IsSubsequence(Members(s, k), s)
  {
    if s != [] {
      var p, x := s[..|s| - 1], s[|s| - 1];
      MembersSubsequence(p, k);
      assert s == p + [x];
      SubsequenceSnoc(Members(p, k), p, x);
      if x.especialidad == Some(k) {
        assert Members(s, k) == Members(p, k) + [x];
      } else {
        assert Members(s, k) == Members(p, k);
      }
    }
  }

  /** The group of `k` takes every record of specialty `k` exactly as often as it
      occurs in `s`, and no other record. */
  lemma {:induction false} MembersMultiplicity(s: seq<Asesor>, k: string)
    ensures forall a: Asesor :: multiset(Members(s, k))[a] == if a.especialidad == Some(k) then multiset(s)[a] else 0
  {
    if s != [] {
      var p, x := s[..|s| - 1], s[|s| - 1];
      MembersMultiplicity(p, k);
      assert s == p + [x];
      assert multiset(s) == multiset(p) + multiset{x};
    }
  }

  /** The members of `k` belong to `s` and all have specialty `k`. */
  lemma MembersSpec(s: seq<Asesor>, k: string)
    ensures forall a :: a in Members(s, k) ==> a in s && a.especialidad == Some(k)
  {
    MembersMultiplicity(s, k);
    forall a | a in Members(s, k) ensures a in s && a.especialidad == Some(k) {
      assert multiset(Members(s, k))[a] > 0;
    }
  }

  /** A specialty occurs in `s` exactly when some record has it, exactly when its
      group is not empty. */
  lemma {:induction false} EspecialidadesSpec(s: seq<Asesor>, k: string)
    ensures k in Especialidades(s) <==> exists i :: 0 <= i < |s| && s[i].especialidad == Some(k)
    ensures k in Especialidades(s) <==> Members(s, k) != []
  {
    if s != [] {
      var p := s[..|s| - 1];
      EspecialidadesSpec(p, k);
      if k in Especialidades(p) {
        var i :| 0 <= i < |p| && p[i].especialidad == Some(k);
        assert s[i] == p[i];
      }
      if exists i :: 0 <= i < |s| && s[i].especialidad == Some(k) {
        var i :| 0 <= i < |s| && s[i].especialidad == Some(k);
        if i < |p| {
          assert p[i] == s[i];
        }
      }
    }
  }

  /** Groups of different specialties share no record. */
  lemma GroupsDisjoint(s: seq<Asesor>, k1: string, k2: string)
    requires k1 != k2
    ensures forall a :: a in Members(s, k1) ==> a !in Members(s, k2)
  {
    MembersSpec(s, k1);
    MembersSpec(s, k2);
  }

  /** Regrouping a group by its own specialty gives the group back. */
  lemma {:induction false} MembersOfMembers(s: seq<Asesor>, k: string)
    ensures Members(Members(s, k), k) == Members(s, k)
    ensures Especialidades(Members(s, k)) == if Members(s, k) == [] then {} else {k}
  {
    if s != [] {
      var p, x := s[..|s| - 1], s[|s| - 1];
      MembersOfMembers(p, k);
      var g := Members(p, k);
      if x.especialidad == Some(k) {
        assert Members(s, k) == g + [x];
        assert (g + [x])[..|g|] == g;
        assert (g + [x])[|g|] == x;
      } else {
        assert Members(s, k) == g;
      }
    }
  }

  /** Splitting the input splits every group the same way. */
  lemma {:induction false} MembersConcat(s: seq<Asesor>, t: seq<Asesor>, k: string)
    ensures Members(s + t, k) == Members(s, k) + Members(t, k)
    decreases |t|
  {
    if t == [] {
      assert s + t == s;
    } else {
      var q := t[..|t| - 1];
      MembersConcat(s, q, k);
      assert (s + t)[..|s + t| - 1] == s + q;
    }
  }

  lemma {:induction false} CountInEmpty(s: seq<Asesor>)
    ensures CountIn(s, {}) == 0
  {
    if s != [] {
      CountInEmpty(s[..|s| - 1]);
    }
  }

  /** Counting over `keys` is counting the group of `k` plus the rest. */
  lemma {:induction false} CountInSplit(s: seq<Asesor>, keys: set<string>, k: string)
    requires k in keys
    ensures CountIn(s, keys) == |Members(s, k)| + CountIn(s, keys - {k})
  {
    if s != [] {
      CountInSplit(s[..|s| - 1], keys, k);
    }
  }

  /** Counting over a superset of the specialties present counts every record
      whose specialty is not null. */
  lemma {:induction false} CountInAll(s: seq<Asesor>, keys: set<string>)
    requires Especialidades(s) <= keys
    ensures CountIn(s, keys) + NullCount(s) == |s|
  {
    if s != [] {
      CountInAll(s[..|s| - 1], keys);
    }
  }

  /** The sum over a key set may take out any key first. */
  lemma {:induction false} SumOverPick(m: map<string, nat>, keys: set<string>, k: string)
    requires keys <= m.Keys && k in keys
    ensures SumOver(m, keys) == m[k] + SumOver(m, keys - {k})
    decreases keys
  {
    var j :| j in keys && SumOver(m, keys) == m[j] + SumOver(m, keys - {j});
    if j != k {
      SumOverPick(m, keys - {j}, k);
      SumOverPick(m, keys - {k}, j);
      assert keys - {j} - {k} == keys - {k} - {j};
    }
  }

  /** Summing group sizes over some of the specialties counts the records that
      have one of them. */
  lemma {:induction false} SumOfGroupSizes(s: seq<Asesor>, m: map<string, nat>, keys: set<string>)
    requires keys <= m.Keys
    requires forall k :: k in keys ==> m[k] == |Members(s, k)|
    ensures SumOver(m, keys) == CountIn(s, keys)
    decreases keys
  {
    if keys == {} {
      CountInEmpty(s);
    } else {
      var k :| k in keys;
      SumOverPick(m, keys, k);
      SumOfGroupSizes(s, m, keys - {k});
      CountInSplit(s, keys, k);
    }
  }

  // ---------------------------------------------------------------------------
  // Grouping and per-specialty statistics

  /** `groupByEspecialidad`: one group per specialty present, each holding the
      records of that specialty in input order; records with a null specialty are
      left out. */
  method GroupByEspecialidad(s: seq<Asesor>) returns (groups: map<string, seq<Asesor>>)
    ensures groups.Keys == Especialidades(s)
    ensures forall k :: k in groups ==> groups[k] == Members(s, k)
  {
    groups := map[];
    for i := 0 to |s|
      invariant groups.Keys == Especialidades(s[..i])
      invariant forall k :: k in groups ==> groups[k] == Members(s[..i], k)
    {
      assert s[..i + 1][..i] == s[..i];
      var a := s[i];
      match a.especialidad {
        case Some(k) =>
          var group := if k in groups then groups[k] else [];
          EspecialidadesSpec(s[..i], k);
          groups := groups[k := group + [a]];
        case None =>
      }
    }
    assert s[..|s|] == s;
  }

  /** Grouping partitions the records with a specialty: the group sizes add up to
      the input size less the null-specialty records. */
  lemma GroupsPartition(s: seq<Asesor>)
    ensures SumOver(CalculateSpecializationCounts(s), Especialidades(s)) == |s| - NullCount(s)
  {
    var sizes := CalculateSpecializationCounts(s);
    SumOfGroupSizes(s, sizes, sizes.Keys);
    CountInAll(s, sizes.Keys);
  }

  /** `calculateSpecializationCounts`: for each specialty present, how many records
      have it; every count is positive. */
  function CalculateSpecializationCounts(s: seq<Asesor>): (counts: map<string, nat>)
    reads s
    ensures counts.Keys == Especialidades(s)
    ensures forall k :: k in counts ==> counts[k] == |Members(s, k)| >= 1
  {
    assert forall k :: k in Especialidades(s) ==> |Members(s, k)| >= 1 by {
      forall k | k in Especialidades(s) ensures |Members(s, k)| >= 1 {
        EspecialidadesSpec(s, k);
      }
    }
    map k | k in Especialidades(s) :: |Members(s, k)|
  }

  /** `calculateStatsForDepartment`: the group size, and the specialty distribution
      of the group itself. For a group of one specialty `k` that distribution is the
      single entry `k` mapped to the group size. */
  function CalculateStatsForDepartment(especialidad: string, group: seq<Asesor>): (stats: DepartmentStats)
    reads group
    ensures stats.especialidad == especialidad && stats.asesorCount == |group|
    ensures stats.specializationDistribution.Keys == Especialidades(group)
    ensures group != [] && (forall i :: 0 <= i < |group| ==> group[i].especialidad == Some(especialidad)) ==>
              stats.specializationDistribution == map[especialidad := |group|]
  {
    var counts := CalculateSpecializationCounts(group);
    assert group != [] && (forall i :: 0 <= i < |group| ==> group[i].especialidad == Some(especialidad)) ==>
             counts == map[especialidad := |group|] by {
      if group != [] && (forall i :: 0 <= i < |group| ==> group[i].especialidad == Some(especialidad)) {
        SingleSpecialty(group, especialidad);
      }
    }
    DepartmentStats(especialidad, |group|, counts)
  }

  /** A non-empty list of records all of specialty `k` is its own group of `k`. */
  lemma SingleSpecialty(g: seq<Asesor>, k: string)
    requires forall i :: 0 <= i < |g| ==> g[i].especialidad == Some(k)
    ensures Members(g, k) == g
    ensures Especialidades(g) == if g == [] then {} else {k}
  {
    SingleSpecialtyMembers(g, k);
    SingleSpecialtyKeys(g, k);
  }

  lemma {:induction false} SingleSpecialtyMembers(g: seq<Asesor>, k: string)
    requires forall i :: 0 <= i < |g| ==> g[i].especialidad == Some(k)
    ensures Members(g, k) == g
  {
    if g != [] {
      var p, x := g[..|g| - 1], g[|g| - 1];
      assert x.especialidad == Some(k);
      assert forall i :: 0 <= i < |p| ==> p[i].especialidad == Some(k) by {
        assert forall i :: 0 <= i < |p| ==> p[i] == g[i];
      }
      SingleSpecialtyMembers(p, k);
      assert Members(g, k) == Members(p, k) + [x];
      assert p + [x] == g;
    }
  }

  lemma {:induction false} SingleSpecialtyKeys(g: seq<Asesor>, k: string)
    requires forall i :: 0 <= i < |g| ==> g[i].especialidad == Some(k)
    ensures Especialidades(g) == if g == [] then {} else {k}
  {
    if g != [] {
      var p := g[..|g| - 1];
      assert forall i :: 0 <= i < |p| ==> p[i] == g[i];
      SingleSpecialtyKeys(p, k);
    }
  }

  /** `calculateDepartmentStatistics`: for every specialty present, its group size
      and the (degenerate) distribution holding only that specialty. */
  method CalculateDepartmentStatistics(s: seq<Asesor>) returns (statistics: map<string, DepartmentStats>)
    ensures statistics.Keys == Especialidades(s)
    ensures forall k :: k in statistics ==>
              statistics[k] == DepartmentStats(k, |Members(s, k)|, map[k := |Members(s, k)|])
  {
    var groups := GroupByEspecialidad(s);
    statistics := map[];
    var pending := groups.Keys;
    while pending != {}
      invariant pending <= groups.Keys
      invariant statistics.Keys == groups.Keys - pending
      invariant forall k :: k in statistics ==>
                  statistics[k] == DepartmentStats(k, |Members(s, k)|, map[k := |Members(s, k)|])
      decreases pending
    {
      var k :| k in pending;
      var stats := CalculateStatsForDepartment(k, groups[k]);
      assert stats == DepartmentStats(k, |Members(s, k)|, map[k := |Members(s, k)|]) by {
        DepartmentStatsOfGroup(s, k);
      }
      statistics := statistics[k := stats];
      pending := pending - {k};
    }
  }

  /** The statistics of a group present in `s`. */
  lemma DepartmentStatsOfGroup(s: seq<Asesor>, k: string)
    requires k in Especialidades(s)
    ensures CalculateStatsForDepartment(k, Members(s, k)) ==
            DepartmentStats(k, |Members(s, k)|, map[k := |Members(s, k)|])
  {
    MembersSpec(s, k);
    EspecialidadesSpec(s, k);
  }

  // ---------------------------------------------------------------------------
  // Filtering

  /** A filter criterion takes part only when it is non-null and not empty once
      trimmed. */
  predicate Active(criterion: Option<string>) {
    criterion.Some? && Trim(criterion.value) != []
  }

  /** A field meets a criterion when the criterion does not take part, or the field
      is non-null and equal to the criterion ignoring case. */
  predicate Meets(criterion: Option<string>, field: Option<string>) {
    !Active(criterion) || (field.Some? && EqualsIgnoreCase(criterion.value, field.value))
  }

  /** The record meets both criteria of `filterAsesores`. */
  predicate MatchesCriteria(a: Asesor, especialidad: Option<string>, ubicacion: Option<string>)
    reads a
  {
    Meets(especialidad, a.especialidad) && Meets(ubicacion, a.ubicacion)
  }

  /** `filterAsesores`: the records meeting every criterion that takes part, as an
      order-preserving subsequence of the input. */
  function FilterAsesores(s: seq<Asesor>, especialidad: Option<string>, ubicacion: Option<string>)
    : (filtered: seq<Asesor>)
    reads s
    ensures IsSubsequence(filtered, s)
    ensures forall a :: a in filtered ==> MatchesCriteria(a, especialidad, ubicacion)
  {
    if s == [] then []
    else
      var p, x := s[..|s| - 1], s[|s| - 1];
      var rest := FilterAsesores(p, especialidad, ubicacion);
      assert s == p + [x];
      SubsequenceSnoc(rest, p, x);
      if MatchesCriteria(x, especialidad, ubicacion) then rest + [x] else rest
  }

  /** The filter keeps every matching record exactly as often as the input has it,
      and drops every other record. */
  lemma {:induction false} FilterMultiplicity(s: seq<Asesor>, especialidad: Option<string>,
                                              ubicacion: Option<string>)
    ensures forall a: Asesor :: multiset(FilterAsesores(s, especialidad, ubicacion))[a] ==
              if MatchesCriteria(a, especialidad, ubicacion) then multiset(s)[a] else 0
  {
    if s != [] {
      var p, x := s[..|s| - 1], s[|s| - 1];
      FilterMultiplicity(p, especialidad, ubicacion);
      assert s == p + [x];
      assert multiset(s) == multiset(p) + multiset{x};
    }
  }

  /** Without any criterion taking part the filter returns its whole input. */
  lemma {:induction false} FilterWithoutCriteria(s: seq<Asesor>, especialidad: Option<string>,
                                                 ubicacion: Option<string>)
    requires !Active(especialidad) && !Active(ubicacion)
    ensures FilterAsesores(s, especialidad, ubicacion) == s
  {
    if s != [] {
      FilterWithoutCriteria(s[..|s| - 1], especialidad, ubicacion);
      assert s == s[..|s| - 1] + [s[|s| - 1]];
    }
  }

  // ---------------------------------------------------------------------------
  // Sorting by specialty and the top N

  /** The sort key: the specialty. Callers of the sort guarantee it is non-null. */
  function Key(a: Asesor): string
    reads a
  {
    a.especialidad.GetOr("")
  }

  /** Ascending by specialty, in `compareTo` order. */
  predicate SortedByEspecialidad(s: seq<Asesor>)
    reads s
  {
    forall i, j :: 0 <= i < j < |s| ==> LessEq(Key(s[i]), Key(s[j]))
  }

  /** Where a stable insertion puts `x`: after every record whose key is not greater. */
  function InsertionPoint(t: seq<Asesor>, x: Asesor): (p: nat)
    reads t, x
    ensures p <= |t|
    ensures forall i :: 0 <= i < p ==> LessEq(Key(t[i]), Key(x))
    ensures p < |t| ==> Less(Key(x), Key(t[p]))
  {
    if t == [] then 0
    else if Less(Key(x), Key(t[0])) then 0
    else
      LessEqTotal(Key(x), Key(t[0]));
      1 + InsertionPoint(t[1..], x)
  }

  /** In a sorted list every record from the insertion point on sorts after `x`. */
  lemma InsertionPointSorted(t: seq<Asesor>, x: Asesor)
    requires SortedByEspecialidad(t)
    ensures forall i :: InsertionPoint(t, x) <= i < |t| ==> Less(Key(x), Key(t[i]))
  {
    var p := InsertionPoint(t, x);
    forall i | p <= i < |t| ensures Less(Key(x), Key(t[i])) {
      if i > p && !Less(Key(x), Key(t[i])) {
        LessEqTransitive(Key(t[p]), Key(t[i]), Key(x));
      }
    }
  }

  /** `x` inserted into `t` after every record whose key is not greater. */
  function InsertStable(t: seq<Asesor>, x: Asesor): seq<Asesor>
    reads t, x
  {
    var p := InsertionPoint(t, x);
    t[..p] + [x] + t[p..]
  }

  /** Inserting into a sorted list keeps it sorted and adds exactly `x`. */
  lemma InsertKeepsSorted(t: seq<Asesor>, x: Asesor)
    requires SortedByEspecialidad(t)
    ensures SortedByEspecialidad(InsertStable(t, x))
    ensures multiset(InsertStable(t, x)) == multiset(t) + multiset{x}
  {
    var p := InsertionPoint(t, x);
    InsertedAt(t, x);
    InsertionPointSorted(t, x);
    forall i, j | 0 <= i < j < |t| + 1
      ensures LessEq(Key(InsertStable(t, x)[i]), Key(InsertStable(t, x)[j]))
    {
      if i == p {
        LessIsStrict(Key(x), Key(t[j - 1]));
      }
    }
    TakeDrop(t, p);
  }

  /** Where each element of the insertion comes from. */
  lemma InsertedAt(t: seq<Asesor>, x: Asesor)
    ensures var p, r := InsertionPoint(t, x), InsertStable(t, x);
            |r| == |t| + 1 &&
            forall k :: 0 <= k < |r| ==> r[k] == if k < p then t[k] else if k == p then x else t[k - 1]
  {
  }

  /** A permutation of all but the last record of `s` holds records of `s` only. */
  lemma ElementsOfPrefix(t: seq<Asesor>, s: seq<Asesor>)
    requires s != [] && multiset(t) == multiset(s[..|s| - 1])
    ensures forall i :: 0 <= i < |t| ==> t[i] in s
  {
    forall i | 0 <= i < |t| ensures t[i] in s {
      assert t[i] in multiset(s[..|s| - 1]);
      assert t[i] in s[..|s| - 1];
    }
  }

  /** The stable sort by specialty (as `sorted(Comparator.comparing(...))`): a sorted
      permutation of the input. */
  function StableSort(s: seq<Asesor>): (sorted: seq<Asesor>)
    reads s
    ensures |sorted| == |s|
    ensures multiset(sorted) == multiset(s)
    ensures SortedByEspecialidad(sorted)
  {
    if s == [] then []
    else
      var t := StableSort(s[..|s| - 1]);
      InsertKeepsSorted(t, s[|s| - 1]);
      assert s == s[..|s| - 1] + [s[|s| - 1]];
      ElementsOfPrefix(t, s);
      InsertStable(t, s[|s| - 1])
  }

  /** The members of `k` after an insertion: those before the insertion point, then
      `x` if it has specialty `k`, then those after. */
  lemma MembersOfInsert(t: seq<Asesor>, x: Asesor, k: string)
    ensures var q := InsertionPoint(t, x);
            Members(InsertStable(t, x), k) ==
              Members(t[..q], k) + (if x.especialidad == Some(k) then [x] else []) + Members(t[q..], k)
  {
    var q := InsertionPoint(t, x);
    MembersConcat(t[..q] + [x], t[q..], k);
    MembersConcat(t[..q], [x], k);
    assert [x][..0] == [];
  }

  /** In a sorted list, no record after the insertion point of `x` shares its
      specialty. */
  lemma NoMembersAfterInsertionPoint(t: seq<Asesor>, x: Asesor, k: string)
    requires SortedByEspecialidad(t)
    requires x.especialidad == Some(k)
    ensures Members(t[InsertionPoint(t, x)..], k) == []
  {
    var q := InsertionPoint(t, x);
    InsertionPointSorted(t, x);
    MembersSpec(t[q..], k);
    if Members(t[q..], k) != [] {
      var a := Members(t[q..], k)[0];
      assert a in t[q..];
      var i :| q <= i < |t| && t[i] == a;
      LessEqReflexive(k);
    }
  }

  /** One step of the sort: the last record inserted into the sorted rest. */
  lemma StableSortStep(s: seq<Asesor>)
    requires s != []
    ensures StableSort(s) == InsertStable(StableSort(s[..|s| - 1]), s[|s| - 1])
  {
  }

  /** Stability: sorting keeps each specialty's records in input order. */
  lemma {:induction false} StableSortKeepsGroups(s: seq<Asesor>, k: string)
    ensures Members(StableSort(s), k) == Members(s, k)
  {
    if s != [] {
      var p, x := s[..|s| - 1], s[|s| - 1];
      var t := StableSort(p);
      StableSortKeepsGroups(p, k);
      StableSortStep(s);
      InsertKeepsGroups(t, x, k);
    }
  }

  /** A list is its first `q` elements followed by the rest. */
  lemma TakeDrop(t: seq<Asesor>, q: nat)
    requires q <= |t|
    ensures t == t[..q] + t[q..]
  {
  }

  /** Inserting `x` into a sorted list adds `x` at the end of its specialty's
      records and leaves the other specialties alone. */
  lemma InsertKeepsGroups(t: seq<Asesor>, x: Asesor, k: string)
    requires SortedByEspecialidad(t)
    ensures Members(InsertStable(t, x), k) ==
            Members(t, k) + (if x.especialidad == Some(k) then [x] else [])
  {
    var q := InsertionPoint(t, x);
    MembersOfInsert(t, x, k);
    TakeDrop(t, q);
    MembersConcat(t[..q], t[q..], k);
    if x.especialidad == Some(k) {
      NoMembersAfterInsertionPoint(t, x, k);
    }
  }

  /** `getTopAsesoresByEspecialidad`: the first `topN` records (or all of them, when
      there are fewer) of the input stably sorted by specialty. A null specialty or a
      negative `topN` makes the source throw, so they are not allowed. */
  function GetTopAsesoresByEspecialidad(s: seq<Asesor>, topN: int): (top: seq<Asesor>)
    reads s
    requires topN >= 0
    requires forall i :: 0 <= i < |s| ==> s[i].especialidad.Some?
    ensures |top| == if topN < |s| then topN else |s|
    ensures top == StableSort(s)[..|top|]
    ensures SortedByEspecialidad(top)
  {
    var sorted := StableSort(s);
    sorted[..if topN < |s| then topN else |s|]
  }

  /** The top N are records of the input; none of the records left out sorts before
      a kept one; and within each specialty the kept records are the first ones of
      the input, in input order. */
  lemma TopIsStablePrefix(s: seq<Asesor>, topN: int, k: string)
    requires topN >= 0
    requires forall i :: 0 <= i < |s| ==> s[i].especialidad.Some?
    ensures var top := GetTopAsesoresByEspecialidad(s, topN);
            && multiset(top) <= multiset(s)
            && (forall i, j :: 0 <= i < |top| <= j < |s| ==> LessEq(Key(top[i]), Key(StableSort(s)[j])))
            && Members(top, k) <= Members(s, k)
  {
    var sorted := StableSort(s);
    var top := GetTopAsesoresByEspecialidad(s, topN);
    var n := |top|;
    assert sorted == top + sorted[n..];
    assert Members(top, k) <= Members(s, k) by {
      MembersConcat(top, sorted[n..], k);
      StableSortKeepsGroups(s, k);
    }
    assert multiset(top) <= multiset(s) by {
      assert multiset(sorted) == multiset(top) + multiset(sorted[n..]);
    }
  }

  // ---------------------------------------------------------------------------
  // Summary

  /** `createSummary`: the input size, the set of specialties present and the
      number of records of each. */
  function CreateSummary(s: seq<Asesor>): (summary: EmployeeSummary)
    reads s
    ensures summary.totalAsesores == |s|
    ensures summary.especialidades == summary.specializationCounts.Keys == Especialidades(s)
    ensures forall k :: k in summary.specializationCounts ==> summary.specializationCounts[k] >= 1
  {
    EmployeeSummary(|s|, Especialidades(s), CalculateSpecializationCounts(s))
  }

  /** The counts of the summary add up to the number of records with a specialty. */
  lemma SummaryCountsSum(s: seq<Asesor>)
    ensures var counts := CreateSummary(s).specializationCounts;
            SumOver(counts, counts.Keys) == |s| - NullCount(s)
  {
    GroupsPartition(s);
  }

  /** One record of specialty "Ventas" is summarised as one record, one specialty,
      one entry. */
  lemma SummaryOfOne(a: Asesor)
    requires a.especialidad == Some("Ventas")
    ensures CreateSummary([a]) == EmployeeSummary(1, {"Ventas"}, map["Ventas" := 1])
  {
    assert [a][..0] == [];
    assert Members([a], "Ventas") == [a];
    assert Especialidades([a]) == {"Ventas"};
    var counts := CalculateSpecializationCounts([a]);
    assert counts.Keys == {"Ventas"} && counts["Ventas"] == 1;
    assert counts == map["Ventas" := 1];
  }
}
