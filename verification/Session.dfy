/** The database session: tables as fields, changed in place, with commit and rollback. */
module Sessions {
  import opened Models
  import opened Diff
  import opened Database

  class Session {
    const source: string
    var version: int
    var datasets: set<DatasetRef>
    var expected: Columns
    var scans: seq<ScanRow>
    var observations: seq<Observation>
    var changes: seq<ChangeRow>
    var deliveries: seq<Delivery>
    var pipelines: seq<PipelineDefinition>
    var edges: seq<LineageEdge>
    /** What other sessions see. */
    var committed: Db
    /** Whether this session holds the row lock of the source. */
    var sourceLocked: bool

    function State(): Db
      reads this
    {
      Db(source, version, datasets, expected, scans, observations, changes, deliveries, pipelines, edges)
    }

    /** Nothing pending. */
    ghost predicate Clean()
      reads this
    {
      State() == committed
    }

    constructor (source: string)
      ensures State() == Empty(source) && Clean() && !sourceLocked
    {
      this.source := source;
      version, datasets, expected := 1, {}, map[];
      scans, observations, changes, deliveries, pipelines, edges := [], [], [], [], [], [];
      committed, sourceLocked := Empty(source), false;
    }

    method Commit()
      modifies this`committed, this`sourceLocked
      ensures State() == old(State()) && Clean() && !sourceLocked
    {
      committed, sourceLocked := State(), false;
    }

    method Rollback()
      requires committed.source == source
      modifies this
      ensures State() == old(committed) && Clean() && !sourceLocked
    {
      sourceLocked := false;
      version, datasets, expected := committed.version, committed.datasets, committed.expected;
      scans, observations, changes := committed.scans, committed.observations, committed.changes;
      deliveries, pipelines, edges := committed.deliveries, committed.pipelines, committed.edges;
    }
  }
}
