/** Column diff: the methods follow the program's loops, the functions say what they compute. */
module Diff {
  import opened Options
  import opened Models
  import opened Ordering
  import opened TypePolicy

  type Columns = map<ColumnRef, ColumnDefinition>

  /** Every column is filed under its own reference. */
  ghost predicate WellKeyed(m: Columns) {
    forall r :: r in m ==> m[r].Ref() == r
  }

  function At(m: Columns, r: ColumnRef): Option<ColumnDefinition> {
    if r in m then Some(m[r]) else None
  }

  function MakeChange(t: ChangeType, s: Severity, before: Option<ColumnDefinition>,
                      after: Option<ColumnDefinition>): SchemaChange
    requires before.Some? || after.Some?
  {
    var column := if before.Some? then before.value else after.value;
    SchemaChange(column.dataset, column.name, t, s, before, after)
  }

  /** The changes of one column. */
  function ColumnChanges(ref: ColumnRef, before: Option<ColumnDefinition>, after: Option<ColumnDefinition>,
                         dependencies: set<ColumnRef>): seq<SchemaChange> {
    if before.None? && after.None? then []
    else if before.None? then
      [MakeChange(AddColumn, if after.value.nullable then Info else Warning, before, after)]
    else if after.None? then
      [MakeChange(DropColumn, if ref in dependencies then Breaking else Warning, before, after)]
    else
      var b, a := before.value, after.value;
      (if b.dataType != a.dataType
       then [MakeChange(TypeChange, ClassifyTypeChange(b.dataType, a.dataType).severity, before, after)]
       else []) +
      (if b.nullable != a.nullable
       then [MakeChange(NullabilityChange,
                        if !b.nullable && a.nullable && ref in dependencies then Breaking else Warning, before, after)]
       else [])
  }

  function RefKey(r: ColumnRef): Key {
    Key(0, [r.dataset.schema, r.dataset.table, r.name])
  }

  function ChangeKey(c: SchemaChange): Key {
    Key(0, [c.dataset.schema, c.dataset.table, c.columnName, ChangeTypeValue(c.changeType)])
  }

  /** The dictionary comprehension over a column list: the last definition of a reference wins. */
  function RefMap(columns: seq<ColumnDefinition>): Columns {
    if columns == [] then map[] else
    var last := columns[|columns| - 1];
    RefMap(columns[..|columns| - 1])[last.Ref() := last]
  }

  function ChangesAlong(refs: seq<ColumnRef>, expected: Columns, observed: Columns,
                        dependencies: set<ColumnRef>): seq<SchemaChange> {
    if refs == [] then [] else
    var last := refs[|refs| - 1];
    ChangesAlong(refs[..|refs| - 1], expected, observed, dependencies)
      + ColumnChanges(last, At(expected, last), At(observed, last), dependencies)
  }

  /** The changes of all columns, sorted as the program sorts them. */
  ghost function SortedChanges(expected: Columns, observed: Columns, dependencies: set<ColumnRef>): seq<SchemaChange> {
    var refs := SortBy(Listing(expected.Keys + observed.Keys), RefKey);
    SortBy(ChangesAlong(refs, expected, observed, dependencies), ChangeKey)
  }

  // ---------- the program's loops ----------

  method CompareColumn(ref: ColumnRef, before: Option<ColumnDefinition>, after: Option<ColumnDefinition>,
                       dependencies: set<ColumnRef>)
    returns (changes: seq<SchemaChange>)
    ensures changes == ColumnChanges(ref, before, after, dependencies)
  {
    if before.None? && after.Some? {
      var severity := if after.value.nullable then Info else Warning;
      return [MakeChange(AddColumn, severity, before, after)];
    }
    if before.Some? && after.None? {
      var severity := if ref in dependencies then Breaking else Warning;
      return [MakeChange(DropColumn, severity, before, after)];
    }
    if before.None? || after.None? {
      return [];
    }
    changes := [];
    if before.value.dataType != after.value.dataType {
      var assessment := ClassifyTypeChange(before.value.dataType, after.value.dataType);
      changes := changes + [MakeChange(TypeChange, assessment.severity, before, after)];
    }
    if before.value.nullable != after.value.nullable {
      var severity :=
        if !before.value.nullable && after.value.nullable && ref in dependencies then Breaking else Warning;
      changes := changes + [MakeChange(NullabilityChange, severity, before, after)];
    }
  }

  method ByRef(columns: seq<ColumnDefinition>) returns (m: Columns)
    ensures m == RefMap(columns)
  {
    m := map[];
    for i := 0 to |columns|
      invariant m == RefMap(columns[..i])
    {
      assert columns[..i + 1][..i] == columns[..i];
      m := m[columns[i].Ref() := columns[i]];
    }
    assert columns[..|columns|] == columns;
  }

  method DiffColumns(expected: seq<ColumnDefinition>, observed: seq<ColumnDefinition>, dependencies: seq<ColumnRef>)
    returns (changes: seq<SchemaChange>)
    ensures changes == DiffOf(RefMap(expected), RefMap(observed), set r | r in dependencies)
    ensures IsDiff(changes, RefMap(expected), RefMap(observed), set r | r in dependencies)
  {
    var expectedByRef := ByRef(expected);
    var observedByRef := ByRef(observed);
    var dependencySet := set r | r in dependencies;
    var collected := Iterate(expectedByRef.Keys + observedByRef.Keys);
    SortedRefsCanonical(collected, expectedByRef.Keys + observedByRef.Keys);
    var unsorted := CompareAll(SortBy(collected, RefKey), expectedByRef, observedByRef, dependencySet);
    changes := SortBy(unsorted, ChangeKey);
    RefMapFacts(expected);
    RefMapFacts(observed);
    SortedChangesAreDiff(expectedByRef, observedByRef, dependencySet);
    DiffExact(expectedByRef, observedByRef, dependencySet);
    DiffUnique(changes, DiffOf(expectedByRef, observedByRef, dependencySet), expectedByRef, observedByRef,
               dependencySet);
  }

  /** Iterating over a set yields its elements in no particular order. */
  method Iterate(all: set<ColumnRef>) returns (collected: seq<ColumnRef>)
    ensures NoDuplicates(collected)
    ensures forall r :: r in all <==> r in collected
  {
    var pending := all;
    collected := [];
    while pending != {}
      invariant NoDuplicates(collected)
      invariant forall r :: r in all <==> r in pending || r in collected
      invariant forall r :: r in pending ==> r !in collected
      decreases pending
    {
      var r :| r in pending;
      pending := pending - {r};
      collected := collected + [r];
    }
  }

  method CompareAll(refs: seq<ColumnRef>, expected: Columns, observed: Columns, dependencies: set<ColumnRef>)
    returns (changes: seq<SchemaChange>)
    ensures changes == ChangesAlong(refs, expected, observed, dependencies)
  {
    changes := [];
    for i := 0 to |refs|
      invariant changes == ChangesAlong(refs[..i], expected, observed, dependencies)
    {
      assert refs[..i + 1][..i] == refs[..i];
      var more := CompareColumn(refs[i], At(expected, refs[i]), At(observed, refs[i]), dependencies);
      changes := changes + more;
    }
    assert refs[..|refs|] == refs;
  }

  lemma RefKeyInjective(a: ColumnRef, b: ColumnRef)
    requires RefKey(a) == RefKey(b)
    ensures a == b
  {
    assert RefKey(a).parts[0] == RefKey(b).parts[0];
    assert RefKey(a).parts[1] == RefKey(b).parts[1];
    assert RefKey(a).parts[2] == RefKey(b).parts[2];
  }

  lemma SortedRefsCanonical(refs: seq<ColumnRef>, all: set<ColumnRef>)
    requires NoDuplicates(refs) && forall r :: r in all <==> r in refs
    ensures SortBy(refs, RefKey) == SortBy(Listing(all), RefKey)
  {
    SameMultiset(refs, Listing(all));
    forall i, j | 0 <= i < |refs| && 0 <= j < |refs| && RefKey(refs[i]) == RefKey(refs[j]) ensures refs[i] == refs[j] {
      RefKeyInjective(refs[i], refs[j]);
    }
    SortByCanonical(refs, Listing(all), RefKey);
  }

  // ---------- what a diff contains ----------

  /** The changes a diff must report for the column `c` is about. */
  ghost predicate Reported(c: SchemaChange, expected: Columns, observed: Columns, dependencies: set<ColumnRef>) {
    c in ColumnChanges(c.Ref(), At(expected, c.Ref()), At(observed, c.Ref()), dependencies)
  }

  lemma ColumnChangesAbout(ref: ColumnRef, before: Option<ColumnDefinition>, after: Option<ColumnDefinition>,
                           dependencies: set<ColumnRef>)
    requires before.Some? ==> before.value.Ref() == ref
    requires after.Some? ==> after.value.Ref() == ref
    ensures forall c :: c in ColumnChanges(ref, before, after, dependencies) ==>
      c.Ref() == ref && c.before == before && c.after == after
    ensures DistinctKeys(ColumnChanges(ref, before, after, dependencies), ChangeKey)
  {
    var changes := ColumnChanges(ref, before, after, dependencies);
    forall i, j | 0 <= i < j < |changes| ensures ChangeKey(changes[i]) != ChangeKey(changes[j]) {
      assert changes[0].changeType == TypeChange && changes[1].changeType == NullabilityChange;
      if ChangeKey(changes[i]) == ChangeKey(changes[j]) {
        ChangeKeyInjective(changes[i], changes[j]);
      }
    }
  }

  lemma ChangeKeyInjective(a: SchemaChange, b: SchemaChange)
    ensures ChangeKey(a) == ChangeKey(b) <==> a.Ref() == b.Ref() && a.changeType == b.changeType
  {
    if ChangeKey(a) == ChangeKey(b) {
      assert ChangeKey(a).parts[0] == ChangeKey(b).parts[0];
      assert ChangeKey(a).parts[1] == ChangeKey(b).parts[1];
      assert ChangeKey(a).parts[2] == ChangeKey(b).parts[2];
      assert ChangeKey(a).parts[3] == ChangeKey(b).parts[3];
      ChangeTypeValueInjective(a.changeType, b.changeType);
    }
  }

  lemma {:induction false} ChangesAlongFacts(refs: seq<ColumnRef>, expected: Columns, observed: Columns,
                                             dependencies: set<ColumnRef>)
    requires WellKeyed(expected) && WellKeyed(observed) && NoDuplicates(refs)
    ensures forall c :: (c in ChangesAlong(refs, expected, observed, dependencies) <==>
                         c.Ref() in refs && Reported(c, expected, observed, dependencies))
    ensures DistinctKeys(ChangesAlong(refs, expected, observed, dependencies), ChangeKey)
  {
    if refs != [] {
      var n := |refs| - 1;
      var last := refs[n];
      var front := ChangesAlong(refs[..n], expected, observed, dependencies);
      var back := ColumnChanges(last, At(expected, last), At(observed, last), dependencies);
      ChangesAlongFacts(refs[..n], expected, observed, dependencies);
      ColumnChangesAbout(last, At(expected, last), At(observed, last), dependencies);
      assert refs == refs[..n] + [last];
      var all := front + back;
      forall i, j | 0 <= i < j < |all| ensures ChangeKey(all[i]) != ChangeKey(all[j]) {
        if i < |front| <= j {
          assert all[i] in front && all[j] in back;
          ChangeKeyInjective(all[i], all[j]);
        } else if j >= |front| {
          assert all[i] == back[i - |front|] && all[j] == back[j - |front|];
        }
      }
    }
  }

  /** The refs a diff goes through: each once, all that either side has. */
  lemma SortedRefs(all: set<ColumnRef>)
    ensures var refs := SortBy(Listing(all), RefKey);
      NoDuplicates(refs) && forall r :: r in refs <==> r in all
  {
    var listing := Listing(all);
    SortByKeepsElements(listing, RefKey);
    SortByIsAscendingPermutation(listing, RefKey);
    NoDuplicatesPermutation(listing, SortBy(listing, RefKey));
  }

  lemma ReportedHasColumn(c: SchemaChange, expected: Columns, observed: Columns, dependencies: set<ColumnRef>)
    requires Reported(c, expected, observed, dependencies)
    ensures c.Ref() in expected.Keys + observed.Keys
  {
  }

  /** The list reports exactly the changes of each column, in strictly increasing key order. */
  ghost predicate IsDiff(changes: seq<SchemaChange>, expected: Columns, observed: Columns,
                         dependencies: set<ColumnRef>) {
    StrictlyAscending(changes, ChangeKey) && forall c :: c in changes <==> Reported(c, expected, observed, dependencies)
  }

  /** What the program sorts together is a diff. */
  lemma SortedChangesAreDiff(expected: Columns, observed: Columns, dependencies: set<ColumnRef>)
    requires WellKeyed(expected) && WellKeyed(observed)
    ensures IsDiff(SortedChanges(expected, observed, dependencies), expected, observed, dependencies)
  {
    var refs := SortBy(Listing(expected.Keys + observed.Keys), RefKey);
    var changes := ChangesAlong(refs, expected, observed, dependencies);
    SortedRefs(expected.Keys + observed.Keys);
    ChangesAlongFacts(refs, expected, observed, dependencies);
    SortByKeepsElements(changes, ChangeKey);
    SortByStrict(changes, ChangeKey);
    forall c | Reported(c, expected, observed, dependencies) ensures c.Ref() in refs {
      ReportedHasColumn(c, expected, observed, dependencies);
    }
  }

  /** And it is the only one. */
  lemma DiffUnique(changes: seq<SchemaChange>, others: seq<SchemaChange>, expected: Columns, observed: Columns,
                   dependencies: set<ColumnRef>)
    requires IsDiff(changes, expected, observed, dependencies) && IsDiff(others, expected, observed, dependencies)
    ensures changes == others
  {
    StrictlyAscendingUnique(changes, others, ChangeKey);
  }

  /** The drift between two column maps filed under their own references. */
  ghost function DiffOf(expected: Columns, observed: Columns, dependencies: set<ColumnRef>): seq<SchemaChange> {
    if WellKeyed(expected) && WellKeyed(observed) then
      SortedChangesAreDiff(expected, observed, dependencies);
      var changes :| IsDiff(changes, expected, observed, dependencies);
      changes
    else []
  }

  lemma DiffExact(expected: Columns, observed: Columns, dependencies: set<ColumnRef>)
    requires WellKeyed(expected) && WellKeyed(observed)
    ensures forall c :: c in DiffOf(expected, observed, dependencies) <==> Reported(c, expected, observed, dependencies)
    ensures StrictlyAscending(DiffOf(expected, observed, dependencies), ChangeKey)
  {
    assert IsDiff(DiffOf(expected, observed, dependencies), expected, observed, dependencies);
  }

  lemma ColumnChangeKind(ref: ColumnRef, before: Option<ColumnDefinition>, after: Option<ColumnDefinition>,
                         dependencies: set<ColumnRef>, c: SchemaChange)
    requires c in ColumnChanges(ref, before, after, dependencies)
    ensures c.before == before && c.after == after && (before.Some? || after.Some?)
    ensures (c.changeType.AddColumn? <==> before.None?) && (c.changeType.DropColumn? <==> after.None?)
  {
  }

  /** What one reported change says about the two sides. */
  lemma DiffMember(expected: Columns, observed: Columns, dependencies: set<ColumnRef>, c: SchemaChange)
    requires WellKeyed(expected) && WellKeyed(observed)
    requires c in DiffOf(expected, observed, dependencies)
    ensures c.before == At(expected, c.Ref()) && c.after == At(observed, c.Ref())
    ensures c.changeType.AddColumn? <==> c.Ref() !in expected
    ensures c.changeType.DropColumn? <==> c.Ref() !in observed
    ensures c.Ref() in expected || c.Ref() in observed
  {
    DiffExact(expected, observed, dependencies);
    assert Reported(c, expected, observed, dependencies);
    ColumnChangeKind(c.Ref(), At(expected, c.Ref()), At(observed, c.Ref()), dependencies, c);
  }

  /**
   The compatibility policy: BREAKING are drops and lost non-null guarantees of columns some
   pipeline reads, and type changes that are not compatible; INFO are new nullable columns.
   */
  predicate FollowsPolicy(c: SchemaChange, dependencies: set<ColumnRef>) {
    match c.changeType
    case AddColumn =>
      c.after.Some? && c.severity == (if c.after.value.nullable then Info else Warning)
    case DropColumn =>
      c.severity == if c.Ref() in dependencies then Breaking else Warning
    case TypeChange =>
      c.before.Some? && c.after.Some? && c.before.value.dataType != c.after.value.dataType &&
      c.severity == if Compatible(c.before.value.dataType, c.after.value.dataType) then Warning else Breaking
    case NullabilityChange =>
      c.before.Some? && c.after.Some? && c.before.value.nullable != c.after.value.nullable &&
      c.severity == if c.after.value.nullable && c.Ref() in dependencies then Breaking else Warning
  }

  /** Every reported change carries both sides as they are and follows the policy. */
  lemma DiffSeverities(expected: Columns, observed: Columns, dependencies: set<ColumnRef>, c: SchemaChange)
    requires WellKeyed(expected) && WellKeyed(observed)
    requires c in DiffOf(expected, observed, dependencies)
    ensures c.before == At(expected, c.Ref()) && c.after == At(observed, c.Ref())
    ensures FollowsPolicy(c, dependencies)
  {
    DiffMember(expected, observed, dependencies, c);
    DiffExact(expected, observed, dependencies);
    assert Reported(c, expected, observed, dependencies);
    ColumnChangesFollowPolicy(c.Ref(), At(expected, c.Ref()), At(observed, c.Ref()), dependencies, c);
  }

  lemma ColumnChangesFollowPolicy(ref: ColumnRef, before: Option<ColumnDefinition>, after: Option<ColumnDefinition>,
                                  dependencies: set<ColumnRef>, c: SchemaChange)
    requires c in ColumnChanges(ref, before, after, dependencies) && c.Ref() == ref
    ensures FollowsPolicy(c, dependencies)
  {
  }

  /** A column the baseline lacks is reported as an addition. */
  lemma AdditionReported(expected: Columns, observed: Columns, dependencies: set<ColumnRef>, ref: ColumnRef)
    returns (c: SchemaChange)
    requires WellKeyed(expected) && WellKeyed(observed) && ref in observed && ref !in expected
    ensures c in DiffOf(expected, observed, dependencies) && c.Ref() == ref
    ensures c == MakeChange(AddColumn, if observed[ref].nullable then Info else Warning, None, Some(observed[ref]))
  {
    DiffExact(expected, observed, dependencies);
    c := MakeChange(AddColumn, if observed[ref].nullable then Info else Warning, None, Some(observed[ref]));
    assert ColumnChanges(ref, None, Some(observed[ref]), dependencies) == [c];
    assert Reported(c, expected, observed, dependencies);
  }

  /** A column missing on one side has a single change. */
  lemma LoneChange(expected: Columns, observed: Columns, dependencies: set<ColumnRef>, c: SchemaChange, d: SchemaChange)
    requires WellKeyed(expected) && WellKeyed(observed)
    requires c in DiffOf(expected, observed, dependencies) && d in DiffOf(expected, observed, dependencies)
    requires c.Ref() == d.Ref() && (c.Ref() in expected ==> c.Ref() !in observed)
    ensures c == d
  {
    DiffExact(expected, observed, dependencies);
    var changes := ColumnChanges(c.Ref(), At(expected, c.Ref()), At(observed, c.Ref()), dependencies);
    assert Reported(c, expected, observed, dependencies) && Reported(d, expected, observed, dependencies);
    assert |changes| <= 1;
  }

  /** When a change of this kind is due for the column. */
  predicate Due(t: ChangeType, r: ColumnRef, expected: Columns, observed: Columns) {
    match t
    case AddColumn => r !in expected && r in observed
    case DropColumn => r in expected && r !in observed
    case TypeChange => r in expected && r in observed && expected[r].dataType != observed[r].dataType
    case NullabilityChange => r in expected && r in observed && expected[r].nullable != observed[r].nullable
  }

  lemma DueIsListed(t: ChangeType, r: ColumnRef, expected: Columns, observed: Columns, dependencies: set<ColumnRef>)
    ensures Due(t, r, expected, observed) <==>
      exists c :: c in ColumnChanges(r, At(expected, r), At(observed, r), dependencies) && c.changeType == t
  {
    var changes := ColumnChanges(r, At(expected, r), At(observed, r), dependencies);
    if Due(t, r, expected, observed) {
      assert changes[0] in changes && changes[|changes| - 1] in changes;
      assert changes[0].changeType == t || changes[|changes| - 1].changeType == t;
    }
  }

  /**
   Each change that is due is reported, once, and no other.  A column can have a type and a
   nullability change at once.
   */
  lemma DiffListsDue(expected: Columns, observed: Columns, dependencies: set<ColumnRef>)
    requires WellKeyed(expected) && WellKeyed(observed)
    ensures forall t, r {:trigger Due(t, r, expected, observed)} :: Due(t, r, expected, observed) <==>
      exists c :: c in DiffOf(expected, observed, dependencies) && c.changeType == t && c.Ref() == r
    ensures var d := DiffOf(expected, observed, dependencies);
      forall i, j :: 0 <= i < j < |d| ==> d[i].Ref() != d[j].Ref() || d[i].changeType != d[j].changeType
  {
    var d := DiffOf(expected, observed, dependencies);
    DiffExact(expected, observed, dependencies);
    forall t, r ensures Due(t, r, expected, observed) <==> exists c :: c in d && c.changeType == t && c.Ref() == r {
      DueIsReported(t, r, expected, observed, dependencies);
    }
    forall i, j | 0 <= i < j < |d| ensures d[i].Ref() != d[j].Ref() || d[i].changeType != d[j].changeType {
      ChangeKeyInjective(d[i], d[j]);
      assert KeyLess(ChangeKey(d[i]), ChangeKey(d[j]));
    }
  }

  lemma DueIsReported(t: ChangeType, r: ColumnRef, expected: Columns, observed: Columns, dependencies: set<ColumnRef>)
    requires WellKeyed(expected) && WellKeyed(observed)
    ensures Due(t, r, expected, observed) <==>
      exists c :: c in DiffOf(expected, observed, dependencies) && c.changeType == t && c.Ref() == r
  {
    DiffExact(expected, observed, dependencies);
    DueIsListed(t, r, expected, observed, dependencies);
    ColumnChangesAbout(r, At(expected, r), At(observed, r), dependencies);
    if c :| c in ColumnChanges(r, At(expected, r), At(observed, r), dependencies) && c.changeType == t {
      assert Reported(c, expected, observed, dependencies);
    }
    if c :| c in DiffOf(expected, observed, dependencies) && c.changeType == t && c.Ref() == r {
      assert Reported(c, expected, observed, dependencies);
    }
  }

  /**
   The order of the report: by schema, table and column name, and of the two changes a column
   can have the nullability change first.
   */
  lemma DiffOrder(expected: Columns, observed: Columns, dependencies: set<ColumnRef>, i: nat, j: nat)
    requires WellKeyed(expected) && WellKeyed(observed)
    requires i < j < |DiffOf(expected, observed, dependencies)|
    ensures var c, e := DiffOf(expected, observed, dependencies)[i], DiffOf(expected, observed, dependencies)[j];
      if c.Ref() == e.Ref() then c.changeType.NullabilityChange? && e.changeType.TypeChange?
      else TuplePrecedes([c.dataset.schema, c.dataset.table, c.columnName],
                         [e.dataset.schema, e.dataset.table, e.columnName])
  {
    var d := DiffOf(expected, observed, dependencies);
    DiffAscends(expected, observed, dependencies);
    assert KeyLess(ChangeKey(d[i]), ChangeKey(d[j]));
    KeyLeqIff(ChangeKey(d[i]), ChangeKey(d[j]));
    if d[i].Ref() == d[j].Ref() {
      assert d[i] in d && d[j] in d;
      DiffMember(expected, observed, dependencies, d[i]);
      DiffMember(expected, observed, dependencies, d[j]);
      SameColumnOrder(d[i], d[j]);
    } else {
      DifferentColumnOrder(d[i], d[j]);
    }
  }

  lemma SameColumnOrder(c: SchemaChange, e: SchemaChange)
    requires c.Ref() == e.Ref() && TuplePrecedes(ChangeKey(c).parts, ChangeKey(e).parts)
    requires c.changeType.AddColumn? <==> e.changeType.AddColumn?
    requires c.changeType.DropColumn? <==> e.changeType.DropColumn?
    ensures c.changeType.NullabilityChange? && e.changeType.TypeChange?
  {
    var a, b := ChangeKey(c).parts, ChangeKey(e).parts;
    var k :| 0 <= k < |a| && k < |b| && a[..k] == b[..k] && Precedes(a[k], b[k]);
    PrecedesIrreflexive(a[k]);
    assert k == 3 && Precedes(ChangeTypeValue(c.changeType), ChangeTypeValue(e.changeType));
    FirstLetters(ChangeTypeValue(c.changeType), ChangeTypeValue(e.changeType));
  }

  lemma FirstLetters(a: string, b: string)
    requires a != [] && b != [] && Precedes(a, b)
    ensures a[0] <= b[0]
  {
    var k :| 0 <= k <= |a| && k < |b| && a[..k] == b[..k] && (k == |a| || a[k] < b[k]);
    SameFirst(a, b, k);
  }

  lemma DifferentColumnOrder(c: SchemaChange, e: SchemaChange)
    requires c.Ref() != e.Ref() && TuplePrecedes(ChangeKey(c).parts, ChangeKey(e).parts)
    ensures TuplePrecedes([c.dataset.schema, c.dataset.table, c.columnName],
                          [e.dataset.schema, e.dataset.table, e.columnName])
  {
    var a, b := ChangeKey(c).parts, ChangeKey(e).parts;
    var x, y := [c.dataset.schema, c.dataset.table, c.columnName], [e.dataset.schema, e.dataset.table, e.columnName];
    var k :| 0 <= k < |a| && k < |b| && a[..k] == b[..k] && Precedes(a[k], b[k]);
    assert a[..3] == x && b[..3] == y;
    assert k < 3 by {
      if k == 3 {
        assert false;
      }
    }
    assert x[..k] == a[..k] && y[..k] == b[..k];
  }

  /** Two columns a diff does not tell apart, whatever their default and ordinal. */
  predicate SameShape(a: Option<ColumnDefinition>, b: Option<ColumnDefinition>) {
    (a.Some? <==> b.Some?) &&
    (a.Some? ==> a.value.dataType == b.value.dataType && a.value.nullable == b.value.nullable)
  }

  lemma NoChangesIff(r: ColumnRef, before: Option<ColumnDefinition>, after: Option<ColumnDefinition>,
                     dependencies: set<ColumnRef>)
    ensures ColumnChanges(r, before, after, dependencies) == [] <==> SameShape(before, after)
  {
  }

  /** A diff is empty exactly when both sides have the same columns with equal types and nullability. */
  lemma DiffEmptyIff(expected: Columns, observed: Columns, dependencies: set<ColumnRef>)
    requires WellKeyed(expected) && WellKeyed(observed)
    ensures DiffOf(expected, observed, dependencies) == [] <==> forall r :: SameShape(At(expected, r), At(observed, r))
  {
    var d := DiffOf(expected, observed, dependencies);
    DiffExact(expected, observed, dependencies);
    forall r
      ensures SameShape(At(expected, r), At(observed, r)) <==> !exists c: SchemaChange :: c.Ref() == r && c in d
    {
      ReportsDifference(expected, observed, dependencies, r);
    }
    if d != [] {
      assert d[0] in d;
      assert !SameShape(At(expected, d[0].Ref()), At(observed, d[0].Ref()));
    }
  }

  lemma ReportsDifference(expected: Columns, observed: Columns, dependencies: set<ColumnRef>, r: ColumnRef)
    requires WellKeyed(expected) && WellKeyed(observed)
    ensures SameShape(At(expected, r), At(observed, r)) <==>
      !exists c: SchemaChange :: c.Ref() == r && c in DiffOf(expected, observed, dependencies)
  {
    var changes := ColumnChanges(r, At(expected, r), At(observed, r), dependencies);
    DiffExact(expected, observed, dependencies);
    NoChangesIff(r, At(expected, r), At(observed, r), dependencies);
    ColumnChangesAbout(r, At(expected, r), At(observed, r), dependencies);
    if changes != [] {
      assert changes[0] in changes;
      assert Reported(changes[0], expected, observed, dependencies);
    }
  }

  // ---------- the order of the inputs ----------

  predicate DistinctRefs(columns: seq<ColumnDefinition>) {
    forall i, j :: 0 <= i < j < |columns| ==> columns[i].Ref() != columns[j].Ref()
  }

  lemma {:induction false} RefMapFacts(columns: seq<ColumnDefinition>)
    ensures WellKeyed(RefMap(columns))
    ensures forall r :: r in RefMap(columns) <==> exists i :: 0 <= i < |columns| && columns[i].Ref() == r
    ensures DistinctRefs(columns) ==> forall i :: 0 <= i < |columns| ==> RefMap(columns)[columns[i].Ref()] == columns[i]
  {
    if columns != [] {
      var n := |columns| - 1;
      RefMapFacts(columns[..n]);
      forall r ensures r in RefMap(columns) <==> exists i :: 0 <= i < |columns| && columns[i].Ref() == r {
        if r in RefMap(columns) && r != columns[n].Ref() {
          var i :| 0 <= i < n && columns[..n][i].Ref() == r;
          assert columns[i].Ref() == r;
        }
        if i :| 0 <= i < |columns| && columns[i].Ref() == r {
          if i < n { assert columns[..n][i].Ref() == r; }
        }
      }
      if DistinctRefs(columns) {
        forall i | 0 <= i < |columns| ensures RefMap(columns)[columns[i].Ref()] == columns[i] {
          if i < n { assert columns[..n][i] == columns[i]; }
        }
      }
    }
  }

  lemma RefMapPermutation(a: seq<ColumnDefinition>, b: seq<ColumnDefinition>)
    requires multiset(a) == multiset(b) && DistinctRefs(a)
    ensures RefMap(a) == RefMap(b)
  {
    SameElements(a, b);
    NoDuplicatesPermutation(a, b);
    forall i, j | 0 <= i < j < |b| ensures b[i].Ref() != b[j].Ref() {
      assert b[i] in a && b[j] in a;
    }
    RefMapFacts(a);
    RefMapFacts(b);
    forall r ensures r in RefMap(a) <==> r in RefMap(b) {
      if r in RefMap(a) {
        var i :| 0 <= i < |a| && a[i].Ref() == r;
        assert a[i] in b;
      }
      if r in RefMap(b) {
        var i :| 0 <= i < |b| && b[i].Ref() == r;
        assert b[i] in a;
      }
    }
    forall r | r in RefMap(a) ensures RefMap(a)[r] == RefMap(b)[r] {
      var i :| 0 <= i < |a| && a[i].Ref() == r;
      assert a[i] in b;
    }
  }

  /** Reordering either input does not change the diff. */
  lemma DiffIgnoresInputOrder(e: seq<ColumnDefinition>, e': seq<ColumnDefinition>, o: seq<ColumnDefinition>,
                              o': seq<ColumnDefinition>, dependencies: set<ColumnRef>)
    requires multiset(e) == multiset(e') && DistinctRefs(e)
    requires multiset(o) == multiset(o') && DistinctRefs(o)
    ensures DiffOf(RefMap(e), RefMap(o), dependencies) == DiffOf(RefMap(e'), RefMap(o'), dependencies)
  {
    RefMapPermutation(e, e');
    RefMapPermutation(o, o');
  }

  lemma TwoEntries(x: ColumnDefinition, y: ColumnDefinition)
    requires x.Ref() == y.Ref()
    ensures RefMap([x, y]) == map[x.Ref() := y]
  {
    assert RefMap([x][..0]) == map[];
    assert RefMap([x]) == map[x.Ref() := x];
    assert [x, y][..1] == [x];
    assert RefMap([x, y]) == RefMap([x])[y.Ref() := y];
  }

  lemma AdditionsDiffer(m: Columns, m': Columns, ref: ColumnRef)
    requires WellKeyed(m) && WellKeyed(m') && ref in m && ref in m' && m[ref] != m'[ref]
    ensures DiffOf(map[], m, {}) != DiffOf(map[], m', {})
  {
    var c := AdditionReported(map[], m, {}, ref);
    if c in DiffOf(map[], m', {}) {
      DiffMember(map[], m', {}, c);
    }
  }

  /** With two definitions of one reference, the order of the input decides. */
  lemma DuplicateRefsMakeOrderMatter(x: ColumnDefinition, y: ColumnDefinition)
    requires x.Ref() == y.Ref() && x != y
    ensures multiset([x, y]) == multiset([y, x])
    ensures DiffOf(map[], RefMap([x, y]), {}) != DiffOf(map[], RefMap([y, x]), {})
  {
    TwoEntries(x, y);
    TwoEntries(y, x);
    AdditionsDiffer(RefMap([x, y]), RefMap([y, x]), x.Ref());
  }

  // ---------- fingerprints ----------

  function DatasetsOf(m: Columns): set<DatasetRef> {
    set r | r in m :: r.dataset
  }

  lemma ChangeDictIdentifies(names: set<DatasetRef>, a: SchemaChange, b: SchemaChange)
    requires UniqueNames(names) && a.dataset in names && b.dataset in names && ChangeDict(a) == ChangeDict(b)
    ensures a.Ref() == b.Ref() && a.changeType == b.changeType && a.severity == b.severity
    ensures ChangeKey(a) == ChangeKey(b)
  {
  }

  lemma DiffDatasetsKnown(expected: Columns, observed: Columns, dependencies: set<ColumnRef>, c: SchemaChange)
    requires WellKeyed(expected) && WellKeyed(observed) && c in DiffOf(expected, observed, dependencies)
    ensures c.dataset in DatasetsOf(expected) + DatasetsOf(observed)
  {
    DiffExact(expected, observed, dependencies);
    ReportedHasColumn(c, expected, observed, dependencies);
    assert c.Ref().dataset == c.dataset;
  }

  lemma DiffAscends(expected: Columns, observed: Columns, dependencies: set<ColumnRef>)
    requires WellKeyed(expected) && WellKeyed(observed)
    ensures StrictlyAscending(DiffOf(expected, observed, dependencies), ChangeKey)
  {
    DiffExact(expected, observed, dependencies);
  }

  /** When the names of the datasets on both sides differ, so do the fingerprints of any two changes. */
  lemma DiffFingerprintsDistinct(expected: Columns, observed: Columns, dependencies: set<ColumnRef>, source: string)
    requires WellKeyed(expected) && WellKeyed(observed)
    requires UniqueNames(DatasetsOf(expected) + DatasetsOf(observed))
    ensures var d := DiffOf(expected, observed, dependencies);
      forall i, j :: 0 <= i < j < |d| ==> ChangeFingerprint(source, d[i]) != ChangeFingerprint(source, d[j])
  {
    var d := DiffOf(expected, observed, dependencies);
    DiffAscends(expected, observed, dependencies);
    forall i, j | 0 <= i < j < |d| ensures ChangeFingerprint(source, d[i]) != ChangeFingerprint(source, d[j]) {
      assert KeyLess(ChangeKey(d[i]), ChangeKey(d[j]));
      assert d[i] in d && d[j] in d;
      DiffDatasetsKnown(expected, observed, dependencies, d[i]);
      DiffDatasetsKnown(expected, observed, dependencies, d[j]);
      if ChangeDict(d[i]) == ChangeDict(d[j]) {
        ChangeDictIdentifies(DatasetsOf(expected) + DatasetsOf(observed), d[i], d[j]);
      }
    }
  }

  /** Two added columns of datasets with clashing names get one fingerprint. */
  lemma FingerprintsClashWithDots()
    ensures exists o: Columns, i, j :: (
      var d := DiffOf(map[], o, {});
      0 <= i < |d| && 0 <= j < |d| && i != j && ChangeFingerprint("s", d[i]) == ChangeFingerprint("s", d[j]))
  {
    var t := CanonicalType("text", None, None, None);
    var x := ColumnDefinition(DatasetRef("a.b", "c"), "n", t, true, None, 1);
    var y := ColumnDefinition(DatasetRef("a", "b.c"), "n", t, true, None, 1);
    assert DatasetName(x.dataset) == "a.b.c" == DatasetName(y.dataset);
    assert |x.dataset.schema| != |y.dataset.schema|;
    ClashingAdditions(x, y, "s");
  }

  lemma ClashingAdditions(x: ColumnDefinition, y: ColumnDefinition, source: string)
    requires x.Ref() != y.Ref() && ColumnDict(x) == ColumnDict(y)
    ensures exists i, j :: (
      var d := DiffOf(map[], map[x.Ref() := x, y.Ref() := y], {});
      0 <= i < |d| && 0 <= j < |d| && i != j && ChangeFingerprint(source, d[i]) == ChangeFingerprint(source, d[j]))
  {
    var o: Columns := map[x.Ref() := x, y.Ref() := y];
    assert WellKeyed(o);
    var c := AdditionReported(map[], o, {}, x.Ref());
    var e := AdditionReported(map[], o, {}, y.Ref());
    var d := DiffOf(map[], o, {});
    var i :| 0 <= i < |d| && d[i] == c;
    var j :| 0 <= j < |d| && d[j] == e;
    assert ChangeFingerprint(source, d[i]) == ChangeFingerprint(source, d[j]);
  }
}
