/** Accepting changes in place, and the query behind the pipeline guard. */
module ChangeRepository {
  import opened Options
  import opened Models
  import opened Ordering
  import opened Database
  import opened Lineage
  import opened Guard
  import opened Sessions

  class SqlAlchemyLockedAcceptance {
    const session: Session
    const change: nat

    constructor (session: Session, change: nat)
      ensures this.session == session && this.change == change
    {
      this.session, this.change := session, change;
    }

    /** Applies the change to the baseline, raises the version and closes the row; raises before touching anything. */
    method Apply(now: int) returns (r: Result<int, AcceptError>)
      requires change < |session.changes| && session.sourceLocked
      modifies session
      ensures session.committed == old(session.committed)
      ensures match Patch(old(session.expected), old(session.changes)[change])
              case None => r == Err(BadMetadata) && session.State() == old(session.State())
              case Some(patched) =>
                r == Ok(old(session.version) + 1) &&
                session.State() == old(session.State()).(
                  expected := patched, version := old(session.version) + 1,
                  changes := old(session.changes)[change := AcceptRow(old(session.changes)[change], now)])
    {
      var row := session.changes[change];
      var ref := row.Ref();
      if row.changeType.AddColumn? {
        if row.after.None? {
          return Err(BadMetadata);
        }
        if ref !in session.expected {
          var after := row.after.value;
          session.expected := session.expected[
            ref := ColumnDefinition(row.dataset, row.columnName, after.dataType, after.nullable, after.default,
              after.ordinal)];
        }
      } else if row.changeType.DropColumn? {
        if ref !in session.expected {
          return Err(BadMetadata);
        }
        session.expected := session.expected - {ref};
      } else {
        if ref !in session.expected || row.after.None? {
          return Err(BadMetadata);
        }
        var after, column := row.after.value, session.expected[ref];
        session.expected := session.expected[
          ref := column.(dataType := after.dataType, nullable := after.nullable, default := after.default)];
      }
      session.version := session.version + 1;
      session.changes := session.changes[change := row.(state := Accepted, acceptedAt := Some(now))];
      return Ok(session.version);
    }
  }

  class ChangeRepository {
    const session: Session

    constructor (session: Session)
      ensures this.session == session
    {
      this.session := session;
    }

    /** Looks the OPEN row up, then takes the row lock of the source, which lasts to the end of the transaction. */
    method AcceptanceTransaction(change: nat) returns (locked: Option<SqlAlchemyLockedAcceptance>)
      modifies session`sourceLocked
      ensures session.sourceLocked == (old(session.sourceLocked) || locked.Some?)
      ensures locked.Some? <==> change < |session.changes| && session.changes[change].state.Open?
      ensures locked.Some? ==> fresh(locked.value) && locked.value.session == session && locked.value.change == change
    {
      if change >= |session.changes| || !session.changes[change].state.Open? {
        return None;
      }
      session.sourceLocked := true;
      var acceptance := new SqlAlchemyLockedAcceptance(session, change);
      return Some(acceptance);
    }

    /** Blocking changes of a pipeline; an error when the pipeline is unknown. */
    method ListOpenBreakingChangesForPipeline(pipelineKey: string) returns (r: Result<seq<BlockingChange>, string>)
      ensures r.Ok? <==> exists p :: p in session.pipelines && p.key == pipelineKey
      ensures r.Ok? ==> r.value == GuardAnswer(session.State(), pipelineKey)
    {
      if !exists p :: p in session.pipelines && p.key == pipelineKey {
        return Err("pipeline not found");
      }
      var graph := new LineageGraph(session.edges);
      ghost var db := session.State();
      var blocking: seq<BlockingChange> := [];
      for i := 0 to |session.changes|
        invariant graph.edgesByUpstream == AdjacencyOf(session.edges)
        invariant blocking == BlockingRows(db, pipelineKey, i)
      {
        var row := session.changes[i];
        if row.state.Open? && row.severity.Breaking? {
          var change := SchemaChange(row.dataset, row.columnName, row.changeType, row.severity, None, None);
          var impacts := graph.Impacts([change]);
          OneBreaking(change);
          ImpactedIff(session.edges, pipelineKey, row.Ref());
          if Impacted(impacts, pipelineKey) {
            blocking := blocking + [BlockingFor(i, row)];
          }
        }
      }
      return Ok(SortBy(blocking, BlockingOrder));
    }
  }

  lemma OneBreaking(c: SchemaChange)
    requires c.severity.Breaking?
    ensures BreakingRefs([c]) == [c.Ref()]
  {
    assert BreakingRefs([c][1..]) == [];
  }

  class ChangeService {
    const repository: ChangeRepository

    constructor (repository: ChangeRepository)
      ensures this.repository == repository
    {
      this.repository := repository;
    }

    method Accept(change: nat, expectedVersion: int, now: int) returns (r: Result<int, AcceptError>)
      modifies repository.session
      ensures repository.session.committed == old(repository.session.committed)
      ensures match AcceptChange(old(repository.session.State()), change, expectedVersion, now)
              case Err(e) => r == Err(e) && repository.session.State() == old(repository.session.State())
              case Ok(done) => r == Ok(done.version) && repository.session.State() == done
    {
      var locked := repository.AcceptanceTransaction(change);
      if locked.None? {
        return Err(ChangeNotFound);
      }
      if repository.session.version != expectedVersion {
        return Err(VersionConflict(expectedVersion, repository.session.version));
      }
      r := locked.value.Apply(now);
    }
  }

  /** The HTTP request around an acceptance. */
  method PostAccept(session: Session, change: nat, expectedVersion: int, now: int) returns (r: Result<int, AcceptError>)
    requires session.Clean()
    modifies session
    ensures session.Clean() && !session.sourceLocked
    ensures session.State() == AcceptRequest(old(session.State()), change, expectedVersion, now)
    ensures r.Ok? ==> r.value == old(session.version) + 1 == session.version
    ensures r == Err(ChangeNotFound) <==>
      change >= |old(session.changes)| || old(session.changes)[change].state != Open
    ensures change < |old(session.changes)| && old(session.changes)[change].state == Open ==>
      if expectedVersion != old(session.version) then r == Err(VersionConflict(expectedVersion, old(session.version)))
      else r.Ok? || r == Err(BadMetadata)
  {
    var repository := new ChangeRepository(session);
    var service := new ChangeService(repository);
    r := service.Accept(change, expectedVersion, now);
    if r.Ok? || !r.error.BadMetadata? {
      session.Commit();
    } else {
      session.Rollback();
    }
  }

  datatype PipelineValidation = PipelineValidation(pipelineKey: string, safe: bool, blocking: seq<BlockingChange>)

  /** The guard's answer: safe exactly when no row blocks the pipeline. */
  method ValidatePipeline(session: Session, pipelineKey: string) returns (r: Result<PipelineValidation, string>)
    ensures r.Ok? <==> exists p :: p in session.pipelines && p.key == pipelineKey
    ensures r.Ok? ==>
      (r.value.safe <==> forall i: nat :: !Blocks(session.State(), i, pipelineKey)) &&
      r.value.blocking == GuardAnswer(session.State(), pipelineKey)
  {
    var repository := new ChangeRepository(session);
    var blocking := repository.ListOpenBreakingChangesForPipeline(pipelineKey);
    if blocking.Err? {
      return Err(blocking.error);
    }
    GuardExact(session.State(), pipelineKey);
    return Ok(PipelineValidation(pipelineKey, blocking.value == [], blocking.value));
  }
}
