/** Which of several shortest paths the impact search reports: the first one. */
module PathChoice {
  import opened Models
  import opened Ordering
  import opened Lineage
  import opened Traversal

  // ---------- an order on paths ----------

  /** An edge among those leaving one column: by pipeline key, then by the column it leads to. */
  function StepKey(e: LineageEdge): Key {
    Key(0, [e.pipeline.key, e.downstream.dataset.schema, e.downstream.dataset.table, e.downstream.name])
  }

  /** Where the column first stands among the seeds. */
  function FirstIndex(seeds: seq<ColumnRef>, c: ColumnRef): (i: nat)
    ensures i <= |seeds| && (c in seeds ==> i < |seeds| && seeds[i] == c) && c !in seeds[..i]
  {
    if seeds == [] then 0 else if seeds[0] == c then 0 else 1 + FirstIndex(seeds[1..], c)
  }

  function StepKeys(p: seq<LineageEdge>): seq<Key> {
    seq(|p|, i requires 0 <= i < |p| => StepKey(p[i]))
  }

  /** A path by the seed it starts from and its steps. */
  function TrackFrom(seeds: seq<ColumnRef>, start: ColumnRef, p: seq<LineageEdge>): seq<Key> {
    [Key(FirstIndex(seeds, start), [])] + StepKeys(p)
  }

  function Track(seeds: seq<ColumnRef>, p: seq<LineageEdge>): seq<Key>
    requires p != []
  {
    TrackFrom(seeds, p[0].upstream, p)
  }

  /** Shorter, or as long and less at the first difference. */
  ghost predicate Before(a: seq<Key>, b: seq<Key>) {
    |a| < |b| || (|a| == |b| && exists k {:trigger a[..k]} :: 0 <= k < |a| && a[..k] == b[..k] && KeyLess(a[k], b[k]))
  }

  ghost predicate NotAfter(a: seq<Key>, b: seq<Key>) {
    a == b || Before(a, b)
  }

  lemma BeforeExtends(a: seq<Key>, b: seq<Key>, x: Key, y: Key)
    requires Before(a, b)
    ensures Before(a + [x], b + [y])
  {
    if |a| == |b| {
      var k :| 0 <= k < |a| && a[..k] == b[..k] && KeyLess(a[k], b[k]);
      assert (a + [x])[..k] == a[..k] && (b + [y])[..k] == b[..k];
    }
  }

  lemma LastDecides(a: seq<Key>, x: Key, y: Key)
    requires KeyLeq(x, y)
    ensures NotAfter(a + [x], a + [y])
  {
    if x != y {
      assert (a + [x])[..|a|] == (a + [y])[..|a|];
    }
  }

  lemma NotAfterExtends(a: seq<Key>, b: seq<Key>, x: Key)
    requires NotAfter(a, b)
    ensures NotAfter(a + [x], b + [x])
  {
    if a != b { BeforeExtends(a, b, x, x); }
  }

  lemma BeforeTransitive(a: seq<Key>, b: seq<Key>, c: seq<Key>)
    requires Before(a, b) && Before(b, c)
    ensures Before(a, c)
  {
    if |a| == |c| {
      var k :| 0 <= k < |a| && a[..k] == b[..k] && KeyLess(a[k], b[k]);
      var l :| 0 <= l < |b| && b[..l] == c[..l] && KeyLess(b[l], c[l]);
      var m := if k < l then k else l;
      assert a[..m] == a[..k][..m] && b[..m] == b[..k][..m] && b[..m] == b[..l][..m] && c[..m] == c[..l][..m];
      if k < l {
        assert b[k] == b[..l][k] == c[..l][k];
      } else if l < k {
        assert a[l] == a[..k][l] == b[..k][l];
      } else {
        KeyLeqTransitive(a[k], b[k], c[k]);
        if a[k] == c[k] { KeyLeqAntisymmetric(a[k], b[k]); }
      }
    }
  }

  lemma NotAfterTransitive(a: seq<Key>, b: seq<Key>, c: seq<Key>)
    requires NotAfter(a, b) && NotAfter(b, c)
    ensures NotAfter(a, c)
  {
    if a != b && b != c { BeforeTransitive(a, b, c); }
  }

  // ---------- tracks of worklist entries ----------

  function EntryTrack(seeds: seq<ColumnRef>, q: Entry): seq<Key> {
    TrackFrom(seeds, if q.path == [] then q.column else q.path[0].upstream, q.path)
  }

  /** Following an edge appends its step. */
  lemma TrackExtends(edges: seq<LineageEdge>, seeds: seq<ColumnRef>, q: Entry, e: LineageEdge)
    requires GoodEntry(edges, seeds, q) && e.upstream == q.column
    ensures Track(seeds, q.path + [e]) == EntryTrack(seeds, q) + [StepKey(e)]
  {
    assert StepKeys(q.path + [e]) == StepKeys(q.path) + [StepKey(e)];
    assert (q.path + [e])[0] == if q.path == [] then e else q.path[0];
  }

  lemma StepKeyInjective(d: LineageEdge, e: LineageEdge)
    ensures StepKey(d) == StepKey(e) <==> KeyOfEdge(d) == KeyOfEdge(e)
  {
    if StepKey(d) == StepKey(e) {
      var a, b := StepKey(d).parts, StepKey(e).parts;
      assert a[0] == b[0] && a[1] == b[1] && a[2] == b[2] && a[3] == b[3];
    }
  }

  /** Entries with one track stand at one column. */
  lemma TrackColumn(edges: seq<LineageEdge>, seeds: seq<ColumnRef>, q: Entry, x: Entry)
    requires GoodEntry(edges, seeds, q) && GoodEntry(edges, seeds, x) && EntryTrack(seeds, q) == EntryTrack(seeds, x)
    ensures q.column == x.column
  {
    var a, b := EntryTrack(seeds, q), EntryTrack(seeds, x);
    assert |a| == 1 + |q.path| && |b| == 1 + |x.path|;
    if q.path == [] {
      assert a[0] == b[0];
    } else {
      assert a[|q.path|] == StepKey(Last(q.path)) && b[|x.path|] == StepKey(Last(x.path));
      StepKeyInjective(Last(q.path), Last(x.path));
    }
  }

  /** The track of the path an impact was reached from. */
  function Origin(seeds: seq<ColumnRef>, i: PipelineImpact): seq<Key>
    requires i.path != []
  {
    TrackFrom(seeds, i.path[0].upstream, i.path[..|i.path| - 1])
  }

  lemma OriginExtends(seeds: seq<ColumnRef>, i: PipelineImpact)
    requires i.path != []
    ensures Track(seeds, i.path) == Origin(seeds, i) + [StepKey(Last(i.path))]
  {
    var n := |i.path| - 1;
    assert StepKeys(i.path) == StepKeys(i.path[..n]) + [StepKey(i.path[n])];
  }

  // ---------- the invariant ----------

  /** Some impact of this key has a path that does not come after this track. */
  ghost predicate FoundBy(seeds: seq<ColumnRef>, found: seq<PipelineImpact>, k: ImpactKey, track: seq<Key>) {
    exists i :: i in found && KeyOfImpact(i) == k && i.path != [] && NotAfter(Track(seeds, i.path), track)
  }

  /** Whatever could be reached from this entry has been, by paths that do not come after it. */
  ghost predicate Settled(adj: Adjacency, seeds: seq<ColumnRef>, found: seq<PipelineImpact>, q: Entry) {
    forall e :: e in Outgoing(adj, q.column) ==>
      FoundBy(seeds, found, KeyOfEdge(e), EntryTrack(seeds, q) + [StepKey(e)])
  }

  /** The j-th entry may still lead somewhere, and is not a repeated seed. */
  ghost predicate Live(adj: Adjacency, seeds: seq<ColumnRef>, f: Frontier, j: nat)
    requires j < |f.queue|
  {
    !Settled(adj, seeds, f.found, f.queue[j]) && f.queue[j] !in f.queue[..j]
  }

  /** No live entry comes before one ahead of it in the worklist. */
  ghost predicate InOrder(adj: Adjacency, seeds: seq<ColumnRef>, f: Frontier) {
    forall i, j :: 0 <= i < j < |f.queue| && Live(adj, seeds, f, j) ==>
      NotAfter(EntryTrack(seeds, f.queue[i]), EntryTrack(seeds, f.queue[j]))
  }

  /** Every impact was reached from something before every live entry. */
  ghost predicate Ahead(adj: Adjacency, seeds: seq<ColumnRef>, f: Frontier) {
    forall i, j :: i in f.found && i.path != [] && 0 <= j < |f.queue| && Live(adj, seeds, f, j) ==>
      Before(Origin(seeds, i), EntryTrack(seeds, f.queue[j]))
  }

  /** An entry of the worklist with a path belongs to an impact. */
  ghost predicate Queued(f: Frontier) {
    forall x :: x in f.queue && x.path != [] ==> PathOf(f.found, x.path)
  }

  ghost predicate PathOf(found: seq<PipelineImpact>, p: seq<LineageEdge>) {
    exists i :: i in found && i.path == p
  }

  ghost predicate Handled(adj: Adjacency, seeds: seq<ColumnRef>, f: Frontier, q: Entry) {
    q in f.queue || Settled(adj, seeds, f.found, q)
  }

  ghost predicate AllHandled(adj: Adjacency, seeds: seq<ColumnRef>, f: Frontier) {
    (forall c :: c in seeds ==> Handled(adj, seeds, f, Entry(c, []))) &&
    (forall i :: i in f.found ==> Handled(adj, seeds, f, Entry(i.downstream, i.path)))
  }

  ghost predicate Ordered(adj: Adjacency, edges: seq<LineageEdge>, seeds: seq<ColumnRef>, f: Frontier) {
    Sound(edges, seeds, f) && Queued(f) && InOrder(adj, seeds, f) && Ahead(adj, seeds, f) && AllHandled(adj, seeds, f)
  }

  lemma FirstIndexOf(seeds: seq<ColumnRef>, j: nat)
    requires j < |seeds| && seeds[j] !in seeds[..j]
    ensures FirstIndex(seeds, seeds[j]) == j
  {
  }

  lemma FirstIndexBound(seeds: seq<ColumnRef>, i: nat)
    requires i < |seeds|
    ensures FirstIndex(seeds, seeds[i]) <= i
  {
  }

  lemma RepeatedSeed(seeds: seq<ColumnRef>, j: nat)
    requires j < |seeds|
    ensures seeds[j] in seeds[..j] ==> Start(seeds).queue[j] in Start(seeds).queue[..j]
  {
    if seeds[j] in seeds[..j] {
      var m :| 0 <= m < j && seeds[..j][m] == seeds[j];
      assert Start(seeds).queue[..j][m] == Start(seeds).queue[j];
    }
  }

  lemma StartOrdered(adj: Adjacency, edges: seq<LineageEdge>, seeds: seq<ColumnRef>)
    ensures Ordered(adj, edges, seeds, Start(seeds))
  {
    var f := Start(seeds);
    StartInvariant(adj, edges, seeds);
    forall i, j | 0 <= i < j < |f.queue| && Live(adj, seeds, f, j)
      ensures NotAfter(EntryTrack(seeds, f.queue[i]), EntryTrack(seeds, f.queue[j]))
    {
      RepeatedSeed(seeds, j);
      FirstIndexOf(seeds, j);
      FirstIndexBound(seeds, i);
      var a, b := EntryTrack(seeds, f.queue[i]), EntryTrack(seeds, f.queue[j]);
      assert a[0].rank < b[0].rank && a[..0] == b[..0];
    }
    forall c | c in seeds ensures Entry(c, []) in f.queue {
      var i :| 0 <= i < |seeds| && seeds[i] == c;
      assert f.queue[i] == Entry(c, []);
    }
  }

  // ---------- one round ----------

  lemma SettledGrows(adj: Adjacency, seeds: seq<ColumnRef>, found: seq<PipelineImpact>, more: seq<PipelineImpact>,
                     q: Entry)
    requires found <= more && Settled(adj, seeds, found, q)
    ensures Settled(adj, seeds, more, q)
  {
    forall e | e in Outgoing(adj, q.column)
      ensures FoundBy(seeds, more, KeyOfEdge(e), EntryTrack(seeds, q) + [StepKey(e)])
    {
      var i :| i in found && KeyOfImpact(i) == KeyOfEdge(e) && i.path != [] &&
        NotAfter(Track(seeds, i.path), EntryTrack(seeds, q) + [StepKey(e)]);
      assert i in more;
    }
  }

  /** Edges whose keys are all known add nothing. */
  lemma {:induction false} ExpandKnown(edges: seq<LineageEdge>, path: seq<LineageEdge>, f: Frontier)
    requires forall e :: e in edges ==> KeyOfEdge(e) in FoundKeys(f.found)
    ensures Expand(edges, path, f) == f
  {
    if edges != [] {
      ExpandKnown(edges[..|edges| - 1], path, f);
    }
  }

  /** The entries a round adds are in the order of the edges followed. */
  lemma {:induction false} ExpandInOrder(edges: seq<LineageEdge>, path: seq<LineageEdge>, f: Frontier)
    requires forall i, j :: 0 <= i < j < |edges| ==> KeyLeq(StepKey(edges[i]), StepKey(edges[j]))
    ensures var g := Expand(edges, path, f);
      |f.queue| <= |g.queue| && g.queue[..|f.queue|] == f.queue &&
      (forall i :: |f.queue| <= i < |g.queue| ==> NewEntry(edges, path, g.queue[i])) &&
      (forall i, j :: |f.queue| <= i < j < |g.queue| ==> StepsInOrder(g.queue[i], g.queue[j]))
  {
    if edges != [] {
      var n := |edges| - 1;
      var front, g := Expand(edges[..n], path, f), Expand(edges, path, f);
      ExpandInOrder(edges[..n], path, f);
      forall i | |f.queue| <= i < |g.queue| ensures NewEntry(edges, path, g.queue[i]) {
        if i < |front.queue| {
          assert NewEntry(edges[..n], path, g.queue[i]);
        } else {
          assert Last(g.queue[i].path) == edges[n];
        }
      }
      forall i, j | |f.queue| <= i < j < |g.queue| ensures StepsInOrder(g.queue[i], g.queue[j]) {
        if j == |front.queue| {
          assert NewEntry(edges[..n], path, front.queue[i]);
          var m :| 0 <= m < n && edges[..n][m] == Last(front.queue[i].path);
          assert Last(g.queue[j].path) == edges[n];
        }
      }
    }
  }

  /** The entry extends the path by one of the edges. */
  ghost predicate NewEntry(edges: seq<LineageEdge>, path: seq<LineageEdge>, x: Entry) {
    x.path != [] && Last(x.path) in edges && x == Entry(Last(x.path).downstream, path + [Last(x.path)])
  }

  ghost predicate StepsInOrder(x: Entry, y: Entry) {
    x.path != [] && y.path != [] && KeyLeq(StepKey(Last(x.path)), StepKey(Last(y.path)))
  }

  /** The edges leaving a column are filed in the order of their steps. */
  lemma OutgoingInOrder(edges: seq<LineageEdge>, c: ColumnRef)
    ensures var out := Outgoing(AdjacencyOf(edges), c);
      forall i, j :: 0 <= i < j < |out| ==> KeyLeq(StepKey(out[i]), StepKey(out[j]))
  {
    if c in AdjacencyOf(edges) {
      var out := Outgoing(AdjacencyOf(edges), c);
      SortByIsAscendingPermutation(EdgesFrom(edges, c), EdgeOrder);
      forall i, j | 0 <= i < j < |out| ensures KeyLeq(StepKey(out[i]), StepKey(out[j])) {
        assert KeyLeq(EdgeOrder(out[i]), EdgeOrder(out[j]));
      }
    }
  }

  /** A round on a settled entry only drops it. */
  lemma VisitSettled(adj: Adjacency, seeds: seq<ColumnRef>, f: Frontier)
    requires f.queue != [] && Settled(adj, seeds, f.found, f.queue[0])
    ensures Visit(adj, f) == Frontier(f.queue[1..], f.found)
  {
    var q := f.queue[0];
    forall e | e in Outgoing(adj, q.column) ensures KeyOfEdge(e) in FoundKeys(f.found) {
      assert FoundBy(seeds, f.found, KeyOfEdge(e), EntryTrack(seeds, q) + [StepKey(e)]);
    }
    ExpandKnown(Outgoing(adj, q.column), q.path, Frontier(f.queue[1..], f.found));
  }

  /** Every impact after a round was there before or extends the path taken by one step. */
  ghost predicate OldOrNew(edges: seq<LineageEdge>, seeds: seq<ColumnRef>, q: Entry, known: seq<PipelineImpact>,
                           i: PipelineImpact) {
    i.path != [] && (i in known || (Origin(seeds, i) == EntryTrack(seeds, q) && i.path == q.path + [Last(i.path)]))
  }

  lemma VisitOldOrNew(adj: Adjacency, edges: seq<LineageEdge>, seeds: seq<ColumnRef>, f: Frontier, i: PipelineImpact)
    requires Represents(adj, edges) && f.queue != [] && Sound(edges, seeds, f) && i in Visit(adj, f).found
    ensures OldOrNew(edges, seeds, f.queue[0], f.found, i)
  {
    var q, h, g := f.queue[0], Frontier(f.queue[1..], f.found), Visit(adj, f);
    VisitGrown(adj, f);
    var k :| 0 <= k < |g.found| && g.found[k] == i;
    if k < |h.found| {
      assert i == f.found[k] && i in f.found;
      assert GoodImpact(edges, seeds, i);
    } else {
      var e := i.path[|q.path|];
      assert i.path == q.path + [e] && e.upstream == q.column;
      assert i.path[..|q.path|] == q.path;
      assert q in f.queue && GoodEntry(edges, seeds, q);
    }
  }

  /** What the taken entry leads to has been reached by paths that do not come after it. */
  lemma VisitSettles(adj: Adjacency, edges: seq<LineageEdge>, seeds: seq<ColumnRef>, f: Frontier)
    requires Represents(adj, edges) && f.queue != [] && Ordered(adj, edges, seeds, f)
    ensures Settled(adj, seeds, Visit(adj, f).found, f.queue[0])
  {
    var q, h, g := f.queue[0], Frontier(f.queue[1..], f.found), Visit(adj, f);
    if Settled(adj, seeds, f.found, q) {
      VisitSettled(adj, seeds, f);
    } else {
      assert Live(adj, seeds, f, 0);
      ExpandGrows(Outgoing(adj, q.column), q.path, h);
      forall e | e in Outgoing(adj, q.column)
        ensures FoundBy(seeds, g.found, KeyOfEdge(e), EntryTrack(seeds, q) + [StepKey(e)])
      {
        assert KeyOfEdge(e) in FoundKeys(g.found);
        var i :| i in g.found && KeyOfImpact(i) == KeyOfEdge(e);
        VisitOldOrNew(adj, edges, seeds, f, i);
        VisitImpacts(adj, edges, seeds, f, i);
        OriginExtends(seeds, i);
        StepKeyInjective(Last(i.path), e);
        NotAfterExtends(Origin(seeds, i), EntryTrack(seeds, q), StepKey(e));
      }
    }
  }

  lemma EarlierStays(s: seq<Entry>, t: seq<Entry>, j: nat, x: Entry)
    requires j < |s| - 1 && s[1..] <= t
    ensures x in s[..j + 1] ==> x == s[0] || x in t[..j]
  {
    if x in s[..j + 1] && x != s[0] {
      var m :| 0 <= m < j + 1 && s[..j + 1][m] == x;
      assert t[..j][m - 1] == s[1..][m - 1] == x;
    }
  }

  /** Entries left in the worklist that are live after the round were live before it. */
  lemma StaysLive(adj: Adjacency, edges: seq<LineageEdge>, seeds: seq<ColumnRef>, f: Frontier, j: nat)
    requires Represents(adj, edges) && f.queue != [] && Ordered(adj, edges, seeds, f) && j < |f.queue| - 1
    requires j < |Visit(adj, f).queue| && Live(adj, seeds, Visit(adj, f), j)
    ensures Visit(adj, f).queue[j] == f.queue[j + 1] && Live(adj, seeds, f, j + 1)
    ensures !Settled(adj, seeds, Visit(adj, f).found, f.queue[j + 1])
  {
    var g := Visit(adj, f);
    var x := f.queue[j + 1];
    VisitGrown(adj, f);
    assert g.queue[j] == f.queue[1..][j] == x;
    if Settled(adj, seeds, f.found, x) {
      SettledGrows(adj, seeds, f.found, g.found, x);
    }
    VisitSettles(adj, edges, seeds, f);
    EarlierStays(f.queue, g.queue, j, x);
  }

  /** The entries of the worklist after a round: those left, and extensions of the one taken. */
  lemma VisitTail(adj: Adjacency, edges: seq<LineageEdge>, seeds: seq<ColumnRef>, f: Frontier, j: nat)
    requires Represents(adj, edges) && f.queue != [] && Sound(edges, seeds, f) && j < |Visit(adj, f).queue|
    ensures var q, x := f.queue[0], Visit(adj, f).queue[j];
      if j < |f.queue| - 1 then x == f.queue[j + 1]
      else
        x.path != [] && PathOf(Visit(adj, f).found, x.path) && x.path == q.path + [Last(x.path)] &&
        EntryTrack(seeds, x) == EntryTrack(seeds, q) + [StepKey(Last(x.path))]
  {
    var q, h, g := f.queue[0], Frontier(f.queue[1..], f.found), Visit(adj, f);
    VisitGrown(adj, f);
    if j < |f.queue| - 1 {
      assert g.queue[j] == h.queue[j];
    } else {
      var k := j - |h.queue| + |h.found|;
      var i := g.found[k];
      assert g.queue[|h.queue| + k - |h.found|] == g.queue[j] == Entry(i.downstream, i.path);
      var e := i.path[|q.path|];
      assert i.path == q.path + [e] && e.upstream == q.column;
      assert q in f.queue && GoodEntry(edges, seeds, q);
      TrackExtends(edges, seeds, q, e);
    }
  }

  lemma VisitQueued(adj: Adjacency, edges: seq<LineageEdge>, seeds: seq<ColumnRef>, f: Frontier)
    requires Represents(adj, edges) && f.queue != [] && Ordered(adj, edges, seeds, f)
    ensures Queued(Visit(adj, f))
  {
    var g := Visit(adj, f);
    VisitGrown(adj, f);
    forall x | x in g.queue && x.path != [] ensures PathOf(g.found, x.path) {
      var j :| 0 <= j < |g.queue| && g.queue[j] == x;
      VisitTail(adj, edges, seeds, f, j);
      if j < |f.queue| - 1 {
        assert x in f.queue && PathOf(f.found, x.path);
        var i :| i in f.found && i.path == x.path;
        assert i in g.found;
      }
    }
  }

  /** What is left in the worklist does not come after the extensions of a live entry. */
  lemma LeftBeforeNew(adj: Adjacency, edges: seq<LineageEdge>, seeds: seq<ColumnRef>, f: Frontier, x: Entry, step: Key)
    requires Ordered(adj, edges, seeds, f) && f.queue != [] && Live(adj, seeds, f, 0) && x in f.queue
    ensures NotAfter(EntryTrack(seeds, x), EntryTrack(seeds, f.queue[0]) + [step])
  {
    if x.path != [] {
      assert PathOf(f.found, x.path);
      var i :| i in f.found && i.path == x.path;
      OriginExtends(seeds, i);
      BeforeExtends(Origin(seeds, i), EntryTrack(seeds, f.queue[0]), StepKey(Last(i.path)), step);
    } else {
      assert |EntryTrack(seeds, x)| == 1 < |EntryTrack(seeds, f.queue[0]) + [step]|;
    }
  }

  lemma VisitInOrder(edges: seq<LineageEdge>, seeds: seq<ColumnRef>, f: Frontier)
    requires f.queue != [] && Ordered(AdjacencyOf(edges), edges, seeds, f)
    ensures InOrder(AdjacencyOf(edges), seeds, Visit(AdjacencyOf(edges), f))
  {
    var adj, q := AdjacencyOf(edges), f.queue[0];
    var g := Visit(adj, f);
    AdjacencyRepresents(edges);
    VisitGrown(adj, f);
    OutgoingInOrder(edges, q.column);
    ExpandInOrder(Outgoing(adj, q.column), q.path, Frontier(f.queue[1..], f.found));
    if Settled(adj, seeds, f.found, q) { VisitSettled(adj, seeds, f); }
    forall i, j | 0 <= i < j < |g.queue| && Live(adj, seeds, g, j)
      ensures NotAfter(EntryTrack(seeds, g.queue[i]), EntryTrack(seeds, g.queue[j]))
    {
      VisitTail(adj, edges, seeds, f, i);
      VisitTail(adj, edges, seeds, f, j);
      if j < |f.queue| - 1 {
        StaysLive(adj, edges, seeds, f, j);
      } else if i < |f.queue| - 1 {
        assert Live(adj, seeds, f, 0);
        LeftBeforeNew(adj, edges, seeds, f, f.queue[i + 1], StepKey(Last(g.queue[j].path)));
      } else {
        assert StepsInOrder(g.queue[i], g.queue[j]);
        LastDecides(EntryTrack(seeds, q), StepKey(Last(g.queue[i].path)), StepKey(Last(g.queue[j].path)));
      }
    }
  }

  lemma VisitAhead(adj: Adjacency, edges: seq<LineageEdge>, seeds: seq<ColumnRef>, f: Frontier)
    requires Represents(adj, edges) && f.queue != [] && Ordered(adj, edges, seeds, f)
    ensures Ahead(adj, seeds, Visit(adj, f))
  {
    var q, g := f.queue[0], Visit(adj, f);
    VisitSettles(adj, edges, seeds, f);
    VisitSound(adj, edges, seeds, f);
    if Settled(adj, seeds, f.found, q) { VisitSettled(adj, seeds, f); }
    forall i, j | i in g.found && i.path != [] && 0 <= j < |g.queue| && Live(adj, seeds, g, j)
      ensures Before(Origin(seeds, i), EntryTrack(seeds, g.queue[j]))
    {
      VisitOldOrNew(adj, edges, seeds, f, i);
      VisitTail(adj, edges, seeds, f, j);
      if j < |f.queue| - 1 {
        StaysLive(adj, edges, seeds, f, j);
        if i !in f.found {
          NewBeforeLeft(adj, edges, seeds, f, j);
        }
      } else {
        assert Live(adj, seeds, f, 0);
        assert NotAfter(Origin(seeds, i), EntryTrack(seeds, q));
        assert |Origin(seeds, i)| < |EntryTrack(seeds, g.queue[j])|;
      }
    }
  }

  /** The entry taken comes before those that are live after its round. */
  lemma NewBeforeLeft(adj: Adjacency, edges: seq<LineageEdge>, seeds: seq<ColumnRef>, f: Frontier, j: nat)
    requires Represents(adj, edges) && f.queue != [] && Ordered(adj, edges, seeds, f) && j < |f.queue| - 1
    requires Live(adj, seeds, f, j + 1) && !Settled(adj, seeds, Visit(adj, f).found, f.queue[j + 1])
    ensures Before(EntryTrack(seeds, f.queue[0]), EntryTrack(seeds, f.queue[j + 1]))
  {
    var q, x := f.queue[0], f.queue[j + 1];
    assert q in f.queue && x in f.queue;
    VisitSettles(adj, edges, seeds, f);
    if EntryTrack(seeds, q) == EntryTrack(seeds, x) {
      TrackColumn(edges, seeds, q, x);
    }
  }

  lemma StaysHandled(adj: Adjacency, edges: seq<LineageEdge>, seeds: seq<ColumnRef>, f: Frontier, q: Entry)
    requires Represents(adj, edges) && f.queue != [] && Ordered(adj, edges, seeds, f) && Handled(adj, seeds, f, q)
    ensures Handled(adj, seeds, Visit(adj, f), q)
  {
    var g := Visit(adj, f);
    VisitGrown(adj, f);
    VisitSettles(adj, edges, seeds, f);
    if q in f.queue {
      var j :| 0 <= j < |f.queue| && f.queue[j] == q;
      if j > 0 {
        assert g.queue[j - 1] == f.queue[1..][j - 1] == q;
      }
    } else {
      SettledGrows(adj, seeds, f.found, g.found, q);
    }
  }

  lemma VisitHandled(adj: Adjacency, edges: seq<LineageEdge>, seeds: seq<ColumnRef>, f: Frontier)
    requires Represents(adj, edges) && f.queue != [] && Ordered(adj, edges, seeds, f)
    ensures AllHandled(adj, seeds, Visit(adj, f))
  {
    var g := Visit(adj, f);
    forall c | c in seeds ensures Handled(adj, seeds, g, Entry(c, [])) {
      StaysHandled(adj, edges, seeds, f, Entry(c, []));
    }
    forall i | i in g.found ensures Handled(adj, seeds, g, Entry(i.downstream, i.path)) {
      if i in f.found {
        StaysHandled(adj, edges, seeds, f, Entry(i.downstream, i.path));
      } else {
        NewIsQueued(adj, edges, seeds, f, i);
      }
    }
  }

  lemma NewIsQueued(adj: Adjacency, edges: seq<LineageEdge>, seeds: seq<ColumnRef>, f: Frontier, i: PipelineImpact)
    requires f.queue != [] && Sound(edges, seeds, f) && i in Visit(adj, f).found && i !in f.found
    ensures Entry(i.downstream, i.path) in Visit(adj, f).queue
  {
    var h, g := Frontier(f.queue[1..], f.found), Visit(adj, f);
    VisitGrown(adj, f);
    var k :| 0 <= k < |g.found| && g.found[k] == i;
    assert g.queue[|h.queue| + k - |h.found|] == Entry(i.downstream, i.path);
  }

  lemma {:induction false} ExploreOrdered(edges: seq<LineageEdge>, seeds: seq<ColumnRef>, f: Frontier)
    requires Ordered(AdjacencyOf(edges), edges, seeds, f)
    ensures Ordered(AdjacencyOf(edges), edges, seeds, Explore(AdjacencyOf(edges), f))
    ensures Explore(AdjacencyOf(edges), f).queue == []
    decreases Unvisited(AdjacencyOf(edges), f), |f.queue|
  {
    var adj := AdjacencyOf(edges);
    if f.queue != [] {
      AdjacencyRepresents(edges);
      VisitProgress(adj, f);
      VisitSound(adj, edges, seeds, f);
      VisitQueued(adj, edges, seeds, f);
      VisitInOrder(edges, seeds, f);
      VisitAhead(adj, edges, seeds, f);
      VisitHandled(adj, edges, seeds, f);
      ExploreOrdered(edges, seeds, Visit(adj, f));
    }
  }

  // ---------- the reported path ----------

  /** At the end every chain has been matched by an impact whose path does not come after it. */
  lemma {:induction false} ChainsAreFoundFirst(adj: Adjacency, edges: seq<LineageEdge>, seeds: seq<ColumnRef>,
                                               f: Frontier, p: seq<LineageEdge>)
    requires Represents(adj, edges) && Ordered(adj, edges, seeds, f) && f.queue == [] && IsChain(edges, seeds, p)
    ensures FoundBy(seeds, f.found, KeyOfEdge(Last(p)), Track(seeds, p))
    decreases |p|
  {
    var e, front := Last(p), p[..|p| - 1];
    assert e in p && e in edges && e in Outgoing(adj, e.upstream) && p == front + [e];
    if front == [] {
      var q := Entry(e.upstream, []);
      assert Handled(adj, seeds, f, q) && GoodEntry(edges, seeds, q);
      TrackExtends(edges, seeds, q, e);
    } else {
      ChainShrinks(edges, seeds, p);
      ChainsAreFoundFirst(adj, edges, seeds, f, front);
      var i :| i in f.found && KeyOfImpact(i) == KeyOfEdge(Last(front)) && i.path != [] &&
        NotAfter(Track(seeds, i.path), Track(seeds, front));
      FoundAfter(adj, edges, seeds, f, i, front, e);
    }
  }

  lemma FoundAfter(adj: Adjacency, edges: seq<LineageEdge>, seeds: seq<ColumnRef>, f: Frontier, i: PipelineImpact,
                   front: seq<LineageEdge>, e: LineageEdge)
    requires Ordered(adj, edges, seeds, f) && f.queue == [] && i in f.found
    requires IsChain(edges, seeds, front) && Last(front).downstream == e.upstream == i.downstream
    requires e in Outgoing(adj, e.upstream) && i.path != [] && NotAfter(Track(seeds, i.path), Track(seeds, front))
    ensures FoundBy(seeds, f.found, KeyOfEdge(e), Track(seeds, front + [e]))
  {
    var q := Entry(i.downstream, i.path);
    assert Handled(adj, seeds, f, q);
    assert FoundBy(seeds, f.found, KeyOfEdge(e), EntryTrack(seeds, q) + [StepKey(e)]);
    var j :| j in f.found && KeyOfImpact(j) == KeyOfEdge(e) && j.path != [] &&
      NotAfter(Track(seeds, j.path), EntryTrack(seeds, q) + [StepKey(e)]);
    NotAfterExtends(EntryTrack(seeds, q), Track(seeds, front), StepKey(e));
    TrackExtends(edges, seeds, Entry(e.upstream, front), e);
    NotAfterTransitive(Track(seeds, j.path), EntryTrack(seeds, q) + [StepKey(e)], Track(seeds, front + [e]));
  }

  /**
   Of all chains that end in the pipeline and column of an impact the reported path is the first:
   the shortest ones come first, and among them the one that starts from the earlier seed, then
   the one whose first step that differs has the smaller pipeline key or downstream column.
   */
  lemma ReportedPathIsFirst(edges: seq<LineageEdge>, seeds: seq<ColumnRef>, i: PipelineImpact, p: seq<LineageEdge>)
    requires i in ImpactsFor(AdjacencyOf(edges), seeds)
    requires IsChain(edges, seeds, p) && KeyOfEdge(Last(p)) == KeyOfImpact(i)
    ensures i.path != [] && NotAfter(Track(seeds, i.path), Track(seeds, p))
  {
    var adj := AdjacencyOf(edges);
    var f := Explore(adj, Start(seeds));
    AdjacencyRepresents(edges);
    StartOrdered(adj, edges, seeds);
    ExploreOrdered(edges, seeds, Start(seeds));
    SortByKeepsElements(f.found, ImpactOrder);
    ChainsAreFoundFirst(adj, edges, seeds, f, p);
    var j :| j in f.found && KeyOfImpact(j) == KeyOfEdge(Last(p)) && j.path != [] &&
      NotAfter(Track(seeds, j.path), Track(seeds, p));
    SameKeyIndex(f.found, i, j);
  }
}
