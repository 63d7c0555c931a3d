/** Enumerations and frozen records of the schema policy domain, and change fingerprints. */

module Options {
  datatype Option<+T> = None | Some(value: T)

  datatype Result<+T, +E> = Ok(value: T) | Err(error: E)
}

module Models {
  import opened Options

  datatype ScanStatus = Running | Completed | FailedScan
  datatype ScanTrigger = Manual | Scheduled
  datatype ChangeType = AddColumn | DropColumn | TypeChange | NullabilityChange
  datatype Severity = Info | Warning | Breaking
  datatype ChangeState = Open | Accepted | Resolved
  datatype Criticality = Low | Medium | High | Critical
  datatype AlertChannel = Slack | Email
  datatype AlertStatus = Pending | Sent | Failed

  datatype DatasetRef = DatasetRef(schema: string, table: string)
  datatype ColumnRef = ColumnRef(dataset: DatasetRef, name: string)
  datatype CanonicalType = CanonicalType(
    name: string, length: Option<int>, precision: Option<int>, scale: Option<int>)
  datatype ColumnDefinition = ColumnDefinition(
    dataset: DatasetRef, name: string, dataType: CanonicalType,
    nullable: bool, default: Option<string>, ordinal: int)
  {
    function Ref(): ColumnRef { ColumnRef(dataset, name) }
  }
  datatype SchemaChange = SchemaChange(
    dataset: DatasetRef, columnName: string, changeType: ChangeType, severity: Severity,
    before: Option<ColumnDefinition>, after: Option<ColumnDefinition>)
  {
    function Ref(): ColumnRef { ColumnRef(dataset, columnName) }
  }

  datatype PipelineDefinition = PipelineDefinition(
    key: string, dagId: string, owner: string, criticality: Criticality)
  datatype LineageEdge = LineageEdge(
    pipeline: PipelineDefinition, upstream: ColumnRef, downstream: ColumnRef)

  function ChangeTypeValue(t: ChangeType): string {
    match t
    case AddColumn => "ADD_COLUMN"
    case DropColumn => "DROP_COLUMN"
    case TypeChange => "TYPE_CHANGE"
    case NullabilityChange => "NULLABILITY_CHANGE"
  }

  lemma ChangeTypeValueInjective(s: ChangeType, t: ChangeType)
    requires ChangeTypeValue(s) == ChangeTypeValue(t)
    ensures s == t
  {
    assert ChangeTypeValue(s)[0] == ChangeTypeValue(t)[0];
  }

  // ---------- qualified names ----------

  function DatasetName(d: DatasetRef): string {
    d.schema + "." + d.table
  }

  function ColumnName(c: ColumnRef): string {
    DatasetName(c.dataset) + "." + c.name
  }

  predicate DotFree(s: string) {
    '.' !in s
  }

  lemma FirstDot(a: string, b: string, x: string, y: string)
    requires DotFree(a) && DotFree(b) && a + "." + x == b + "." + y
    ensures a == b && x == y
  {
    var s, t := a + "." + x, b + "." + y;
    assert s[|a|] == '.' && t[|b|] == '.';
    assert forall i :: 0 <= i < |a| ==> s[i] == a[i];
    assert forall i :: 0 <= i < |b| ==> t[i] == b[i];
    assert |a| == |b|;
    assert a == s[..|a|] && b == t[..|b|];
    assert x == s[|a| + 1..] && y == t[|b| + 1..];
  }

  /**
   Two schemas admit tables of one qualified name exactly when they are equal or one continues the
   other after a dot.
   */
  lemma SchemasClashIff(s: string, t: string)
    ensures (exists x, y :: s + "." + x == t + "." + y) <==> s == t || s + "." <= t || t + "." <= s
  {
    if exists x, y :: s + "." + x == t + "." + y {
      var x, y :| s + "." + x == t + "." + y;
      if |s| < |t| {
        assert s + "." == (s + "." + x)[..|s| + 1] == (t + "." + y)[..|s| + 1] == t[..|s| + 1];
      } else if |t| < |s| {
        assert t + "." == (t + "." + y)[..|t| + 1] == (s + "." + x)[..|t| + 1] == s[..|t| + 1];
      } else {
        assert s == (s + "." + x)[..|s|] == (t + "." + y)[..|t|] == t;
      }
    }
    if s == t {
      assert s + "." + "" == t + "." + "";
    } else if s + "." <= t {
      var x := t[|s| + 1..] + ".";
      assert s + "." + x == t + "." + "";
    } else if t + "." <= s {
      var y := s[|t| + 1..] + ".";
      assert s + "." + "" == t + "." + y;
    }
  }

  /** No two of these datasets share a qualified name. */
  ghost predicate UniqueNames(datasets: set<DatasetRef>) {
    forall d, e :: d in datasets && e in datasets && DatasetName(d) == DatasetName(e) ==> d == e
  }

  /** `schema.table` identifies the dataset as soon as schema names carry no dot. */
  lemma DatasetNameInjective(a: DatasetRef, b: DatasetRef)
    requires DotFree(a.schema) && DotFree(b.schema)
    ensures DatasetName(a) == DatasetName(b) ==> a == b
  {
    if DatasetName(a) == DatasetName(b) {
      FirstDot(a.schema, b.schema, a.table, b.table);
    }
  }

  lemma DotFreeIsUnique(datasets: set<DatasetRef>)
    requires forall d :: d in datasets ==> DotFree(d.schema)
    ensures UniqueNames(datasets)
  {
    forall d, e | d in datasets && e in datasets && DatasetName(d) == DatasetName(e) ensures d == e {
      DatasetNameInjective(d, e);
    }
  }

  /** In general two datasets can share a qualified name. */
  lemma DatasetNameClash()
    ensures exists a, b :: a != b && DatasetName(a) == DatasetName(b)
  {
    var a, b := DatasetRef("a.b", "c"), DatasetRef("a", "b.c");
    assert DatasetName(a) == "a.b.c" == DatasetName(b);
    assert a.schema[..] == "a.b" && |a.schema| != |b.schema|;
  }

  lemma ColumnNameInjective(a: ColumnRef, b: ColumnRef)
    requires DotFree(a.dataset.schema) && DotFree(a.dataset.table)
    requires DotFree(b.dataset.schema) && DotFree(b.dataset.table)
    ensures ColumnName(a) == ColumnName(b) ==> a == b
  {
    if ColumnName(a) == ColumnName(b) {
      assert ColumnName(a) == a.dataset.schema + "." + (a.dataset.table + "." + a.name);
      assert ColumnName(b) == b.dataset.schema + "." + (b.dataset.table + "." + b.name);
      FirstDot(a.dataset.schema, b.dataset.schema,
               a.dataset.table + "." + a.name, b.dataset.table + "." + b.name);
      FirstDot(a.dataset.table, b.dataset.table, a.name, b.name);
    }
  }

  // ---------- canonical payloads and fingerprints ----------

  datatype ColumnPayload = ColumnPayload(
    dataset: string, name: string, dataType: CanonicalType,
    nullable: bool, default: Option<string>, ordinal: int)

  datatype ChangePayload = ChangePayload(
    dataset: string, columnName: string, changeType: ChangeType, severity: Severity,
    before: Option<ColumnPayload>, after: Option<ColumnPayload>)

  /** The SHA-256 digest of the encoded payload, taken to be collision free. */
  datatype Fingerprint = Fingerprint(source: string, change: ChangePayload)

  function ColumnDict(c: ColumnDefinition): ColumnPayload {
    ColumnPayload(DatasetName(c.dataset), c.name, c.dataType, c.nullable, c.default, c.ordinal)
  }

  function OptionalColumnDict(c: Option<ColumnDefinition>): Option<ColumnPayload> {
    match c
    case None => None
    case Some(d) => Some(ColumnDict(d))
  }

  function ChangeDict(c: SchemaChange): ChangePayload {
    ChangePayload(DatasetName(c.dataset), c.columnName, c.changeType, c.severity,
                  OptionalColumnDict(c.before), OptionalColumnDict(c.after))
  }

  function ChangeFingerprint(source: string, c: SchemaChange): Fingerprint {
    Fingerprint(source, ChangeDict(c))
  }
}
