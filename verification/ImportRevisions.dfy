/**
 Revisions of imported sources (`obsidian_import.py`): a plan is prepared outside the write
 transaction, a finalizer inside it closes the revisions the new one replaces.  Any number of
 importers plan concurrently; their transactions commit one at a time.
 */
module ImportRevisions {
  import opened Prelude

  type MemoryId = nat
  type SourceId = nat
  type Path = nat
  type Time = int      // microseconds

  /** `stable_source_key`: made from a path, and a content branch when a diverged note is kept beside it.
      A source keeps its key when its note moves. */
  datatype Key = Key(path: Path, branch: Option<nat>)

  /** A stored memory; `until` absent means live.  `path` is the note's, as its metadata records it. */
  datatype Memory = Memory(subject: SourceId, from: Time, until: Option<Time>, path: Path)

  /** A manifest row.  `subject` is the source whose memory was last recorded under the key. */
  datatype Row = Row(id: SourceId, subject: SourceId, memory: MemoryId, path: Path)

  datatype Store = Store(memories: map<MemoryId, Memory>, manifest: map<Key, Row>)

  /** What `_apply_plan` fixes before it enters the write transaction. */
  datatype Plan = Plan(key: Key, source: SourceId, prior: Option<MemoryId>, importedAt: Time, path: Path)

  predicate Live(s: Store, m: MemoryId) {
    m in s.memories && s.memories[m].until.None?
  }

  predicate LiveFor(s: Store, m: MemoryId, subject: SourceId) {
    Live(s, m) && s.memories[m].subject == subject
  }

  /** `_revision_time`: the clock, pushed past the start of the memory to be superseded. */
  function RevisionTime(s: Store, prior: Option<MemoryId>, clock: Time): Time {
    if prior.Some? && prior.value in s.memories && clock <= s.memories[prior.value].from
    then s.memories[prior.value].from + 1
    else clock
  }

  /** The live memories the finalizer closes: the planned one and every one of the subject. */
  function Predecessors(s: Store, p: Plan): set<MemoryId> {
    set m | m in s.memories && Live(s, m) && (p.prior == Some(m) || s.memories[m].subject == p.source)
  }

  /** The earliest start that is not before the plan's and lies after every predecessor's start. */
  predicate IsStart(s: Store, p: Plan, t: Time) {
    && p.importedAt <= t
    && (forall m <- Predecessors(s, p) :: s.memories[m].from < t)
    && (t == p.importedAt || exists m <- Predecessors(s, p) :: t == s.memories[m].from + 1)
  }

  function Upserted(s: Store, p: Plan, id: MemoryId): map<Key, Row> {
    s.manifest[p.key := Row(if p.key in s.manifest then s.manifest[p.key].id else p.source, p.source, id, p.path)]
  }

  function CommitAt(s: Store, p: Plan, id: MemoryId, t: Time): Store {
    Store(map m | m in s.memories.Keys + {id} ::
            if m == id then Memory(p.source, t, None, p.path)
            else if m in Predecessors(s, p) then s.memories[m].(until := Some(t))
            else s.memories[m],
          Upserted(s, p, id))
  }

  /** A source that owns a manifest row. */
  predicate Owned(s: Store, x: SourceId) {
    exists k <- s.manifest :: s.manifest[k].id == x
  }

  /** The upsert keeps the id of a row that is there, and the job item written last must refer to an
      existing row: otherwise the store aborts the whole transaction. */
  predicate Admitted(s: Store, p: Plan) {
    p.key !in s.manifest || Owned(s, p.source)
  }

  /** One transaction for `p`, inserting memory `id`. */
  ghost predicate Commits(s: Store, p: Plan, id: MemoryId, s': Store) {
    && id !in s.memories
    && if Admitted(s, p) then exists t :: IsStart(s, p, t) && s' == CommitAt(s, p, id, t) else s' == s
  }

  /** The start is determined: two runs of the finalizer cannot disagree. */
  lemma StartIsUnique(s: Store, p: Plan, t: Time, u: Time)
    requires IsStart(s, p, t) && IsStart(s, p, u)
    ensures t == u
  {
  }

  function Max(a: int, b: int): int {
    if a < b then b else a
  }

  /** The store rows an importer reads and writes. */
  class ImportStore {
    var memories: map<MemoryId, Memory>
    var manifest: map<Key, Row>

    function State(): Store
      reads this
    {
      Store(memories, manifest)
    }

    constructor ()
      ensures State() == Store(map[], map[])
    {
      memories, manifest := map[], map[];
    }

    /** `close_validity`: refuses to end a memory before it starts. */
    method CloseValidity(m: MemoryId, at: Time) returns (raised: bool)
      requires m in memories
      modifies this`memories
      ensures raised <==> at < old(memories[m].from)
      ensures raised ==> memories == old(memories)
      ensures !raised && old(memories[m].until.None?) ==>
                memories == old(memories)[m := old(memories)[m].(until := Some(at))]
    {
      if at < memories[m].from {
        return true;
      }
      if memories[m].until.None? || memories[m].until.value > at {
        memories := memories[m := memories[m].(until := Some(at))];
      }
      raised := false;
    }

    /** The earliest start after every predecessor: two processes can both have computed
        `importedAt` before either entered its transaction. */
    method FindStart(importedAt: Time, predecessors: set<MemoryId>) returns (start: Time)
      requires predecessors <= memories.Keys
      ensures importedAt <= start
      ensures forall m <- predecessors :: memories[m].from < start
      ensures start == importedAt || exists m <- predecessors :: start == memories[m].from + 1
    {
      start := importedAt;
      var rest := predecessors;
      while rest != {}
        invariant rest <= predecessors
        invariant importedAt <= start
        invariant forall m <- predecessors - rest :: memories[m].from < start
        invariant start == importedAt || exists m <- predecessors :: start == memories[m].from + 1
        decreases rest
      {
        var m :| m in rest;
        if start < memories[m].from + 1 {
          start := memories[m].from + 1;
        }
        rest := rest - {m};
      }
    }

    method CloseAll(predecessors: set<MemoryId>, start: Time)
      requires predecessors <= memories.Keys
      requires forall m <- predecessors :: memories[m].until.None? && memories[m].from < start
      modifies this`memories
      ensures memories.Keys == old(memories).Keys
      ensures forall m <- memories ::
                memories[m] == if m in predecessors then old(memories)[m].(until := Some(start)) else old(memories)[m]
    {
      var rest := predecessors;
      while rest != {}
        invariant rest <= predecessors
        invariant memories.Keys == old(memories).Keys
        invariant forall m <- memories ::
                    memories[m] == if m in predecessors - rest then old(memories)[m].(until := Some(start))
                                   else old(memories)[m]
        decreases rest
      {
        var m :| m in rest;
        var closeAt := Max(start, memories[m].from + 1);
        var raised := CloseValidity(m, closeAt);
        rest := rest - {m};
      }
    }

    /** The write transaction of `_apply_plan`: insert the memory, then `finalize`; it is rolled back when
        the job item does not refer to an existing row. */
    method Apply(p: Plan, id: MemoryId) returns (committed: bool, start: Time)
      requires id !in memories
      modifies this
      ensures committed <==> Admitted(old(State()), p)
      ensures committed ==> IsStart(old(State()), p, start) && State() == CommitAt(old(State()), p, id, start)
      ensures !committed ==> State() == old(State())
    {
      var before, rows := memories, manifest;
      start := Insert(p, id);
      var sourceId := if p.key in manifest then manifest[p.key].id else p.source;
      manifest := manifest[p.key := Row(sourceId, p.source, id, p.path)];
      committed := exists k <- manifest :: manifest[k].id == p.source;
      SourceIsThere(Store(before, rows), p, id);
      if !committed {
        memories, manifest := before, rows;
      }
    }

    /** The new memory, at a start past its predecessors', and their ends. */
    method Insert(p: Plan, id: MemoryId) returns (start: Time)
      requires id !in memories
      modifies this`memories
      ensures IsStart(old(State()), p, start)
      ensures memories == CommitAt(old(State()), p, id, start).memories
    {
      ghost var before := State();
      memories := memories[id := Memory(p.source, p.importedAt, None, p.path)];
      // re-read the subject: the plan was prepared outside this transaction
      var predecessors := set m | m in memories && m != id && memories[m].until.None?
                                  && (p.prior == Some(m) || memories[m].subject == p.source);
      assert predecessors == Predecessors(before, p);
      start := FindStart(p.importedAt, predecessors);
      if start != p.importedAt {
        memories := memories[id := Memory(p.source, start, None, p.path)];
      }
      CloseAll(predecessors, start);
      assert memories == CommitAt(before, p, id, start).memories;
    }
  }

  lemma SourceIsThere(s: Store, p: Plan, id: MemoryId)
    ensures (exists k <- Upserted(s, p, id) :: Upserted(s, p, id)[k].id == p.source) <==> Admitted(s, p)
  {
    var rows := Upserted(s, p, id);
    assert p.key in rows;
    if Owned(s, p.source) {
      var k :| k in s.manifest && s.manifest[k].id == p.source;
      assert rows[k].id == p.source;
    }
  }

  // ---------- any number of importers ----------

  /** `seen` holds every row the manifest ever showed, so whatever a scan may still be working with. */
  datatype World = World(store: Store, plans: seq<Plan>, used: set<SourceId>, seen: set<(Key, Row)>)

  datatype Step =
    | PlanNew(key: Key, minted: SourceId, clock: Time)               // no row was seen, or a conflict branch
    | PlanUpdate(key: Key, row: Row, path: Path, prior: MemoryId, clock: Time)   // a row was seen, perhaps moved
    | WriteBack(key: Key, row: Row, path: Path)   // a skipped, refused or failed note stores the scanned row
    | Commit(i: nat, id: MemoryId)
    | Abandon(i: nat)

  /** `_live_subject_memory` of the row that was scanned, else the memory that row names. */
  predicate PicksPrior(s: Store, row: Row, prior: MemoryId) {
    LiveFor(s, prior, row.subject) || (prior == row.memory && forall m <- s.memories :: !LiveFor(s, m, row.subject))
  }

  function Without(plans: seq<Plan>, i: nat): seq<Plan>
    requires i < |plans|
  {
    plans[..i] + plans[i + 1..]
  }

  ghost predicate Next(w: World, s: Step, w': World) {
    match s
    case PlanNew(key, minted, clock) =>
      && minted !in w.used
      && w' == w.(plans := w.plans + [Plan(key, minted, None, clock, key.path)], used := w.used + {minted})
    case PlanUpdate(key, row, path, prior, clock) =>
      && (key, row) in w.seen && PicksPrior(w.store, row, prior)
      && w' == w.(plans := w.plans + [Plan(key, row.id, Some(prior), RevisionTime(w.store, Some(prior), clock), path)])
    case WriteBack(key, row, path) =>
      && (key, row) in w.seen && key in w.store.manifest
      && var back := row.(id := w.store.manifest[key].id, path := path);
         w' == w.(store := w.store.(manifest := w.store.manifest[key := back]), seen := w.seen + {(key, back)})
    case Commit(i, id) =>
      && i < |w.plans| && Commits(w.store, w.plans[i], id, w'.store)
      && var p := w.plans[i];
         w' == w.(store := w'.store, plans := Without(w.plans, i),
                  seen := if p.key in w'.store.manifest then w.seen + {(p.key, w'.store.manifest[p.key])} else w.seen)
    case Abandon(i) => i < |w.plans| && w' == w.(plans := Without(w.plans, i))
  }

  const NOTHING := World(Store(map[], map[]), [], {}, {})

  ghost predicate Run(ws: seq<World>, steps: seq<Step>) {
    |ws| == |steps| + 1 && ws[0] == NOTHING
    && forall i :: 0 <= i < |steps| ==> Next(ws[i], steps[i], ws[i + 1])
  }

  // ---------- what holds after every commit ----------

  predicate Before(a: Memory, b: Memory) {
    a.until.Some? && a.until.value <= b.from
  }

  predicate ExactlyOneLive(s: Store, x: SourceId) {
    && (exists m <- s.memories :: LiveFor(s, m, x))
    && forall m <- s.memories, n <- s.memories | LiveFor(s, m, x) && LiveFor(s, n, x) :: m == n
  }

  predicate PositiveIntervals(s: Store) {
    forall m <- s.memories :: s.memories[m].until.Some? ==> s.memories[m].from < s.memories[m].until.value
  }

  predicate Apart(memories: map<MemoryId, Memory>, m: MemoryId, n: MemoryId)
    requires m in memories && n in memories
  {
    Before(memories[m], memories[n]) || Before(memories[n], memories[m])
  }

  predicate DisjointIntervals(s: Store) {
    forall m <- s.memories, n <- s.memories | m != n && s.memories[m].subject == s.memories[n].subject ::
      Apart(s.memories, m, n)
  }

  predicate StartsAt(s: Store, n: MemoryId, t: Time) {
    n in s.memories && s.memories[n].from == t
  }

  /** Every closed revision ends exactly where a later one of the same subject starts. */
  predicate SuccessorsMeet(s: Store) {
    forall m <- s.memories :: s.memories[m].until.Some? ==> HasSuccessor(s, m)
  }

  predicate HasSuccessor(s: Store, m: MemoryId)
    requires m in s.memories && s.memories[m].until.Some?
  {
    exists n <- s.memories ::
      StartsAt(s, n, s.memories[m].until.value) && s.memories[n].subject == s.memories[m].subject
  }

  predicate OwnersLive(s: Store) {
    forall k <- s.manifest :: ExactlyOneLive(s, s.manifest[k].id)
  }

  predicate Timeline(s: Store) {
    PositiveIntervals(s) && DisjointIntervals(s) && SuccessorsMeet(s) && OwnersLive(s)
  }

  // ---------- the invariant ----------

  predicate RowIsSound(w: World, k: Key, row: Row) {
    && k in w.store.manifest && w.store.manifest[k].id == row.id == row.subject && row.id in w.used
    && row.memory in w.store.memories && w.store.memories[row.memory].subject == row.id
  }

  /** A plan is for the source that owns the row under its key, or for one nobody else knows. */
  predicate PlanIsSound(w: World, i: nat)
    requires i < |w.plans|
  {
    var p := w.plans[i];
    && p.source in w.used
    && (p.prior.Some? ==> p.prior.value in w.store.memories && w.store.memories[p.prior.value].subject == p.source)
    && (if Owned(w.store, p.source)
        then p.key in w.store.manifest && w.store.manifest[p.key].id == p.source
        else p.prior.None? && forall j | 0 <= j < |w.plans| && j != i :: w.plans[j].source != p.source)
  }

  predicate Sound(w: World) {
    && (forall m <- w.store.memories :: Owned(w.store, w.store.memories[m].subject))
    && (forall j <- w.store.manifest, k <- w.store.manifest |
              w.store.manifest[j].id == w.store.manifest[k].id :: j == k)
    && (forall k <- w.store.manifest :: (k, w.store.manifest[k]) in w.seen)
    && (forall e <- w.seen :: RowIsSound(w, e.0, e.1))
    && (forall i: nat | i < |w.plans| :: PlanIsSound(w, i))
  }

  /** A transaction is admitted exactly when its key is new or the row there is the plan's own. */
  lemma AdmittedExactlyWhen(w: World, i: nat)
    requires Sound(w) && i < |w.plans|
    ensures var p := w.plans[i];
            Admitted(w.store, p) <==> p.key !in w.store.manifest || w.store.manifest[p.key].id == p.source
  {
    assert PlanIsSound(w, i);
  }

  // ---------- planning, storing rows back, giving up ----------

  /** The step is a transaction that the store admits. */
  predicate Admits(w: World, s: Step) {
    s.Commit? && s.i < |w.plans| && Admitted(w.store, w.plans[s.i])
  }

  /** A refused transaction changes nothing but that its plan is over. */
  lemma RefusedIsAbandoned(w: World, s: Step, w': World)
    requires Sound(w) && Next(w, s, w') && s.Commit? && !Admits(w, s)
    ensures w' == w.(plans := Without(w.plans, s.i)) && Next(w, Abandon(s.i), w')
  {
    var p := w.plans[s.i];
    assert (p.key, w.store.manifest[p.key]) in w.seen;
    assert w.seen + {(p.key, w.store.manifest[p.key])} == w.seen;
  }

  lemma PlanningIsSound(w: World, s: Step, w': World)
    requires Sound(w) && Next(w, s, w') && !Admits(w, s)
    ensures Sound(w') && w'.store.memories == w.store.memories
    ensures w'.store.manifest.Keys == w.store.manifest.Keys
    ensures forall k <- w.store.manifest :: w'.store.manifest[k].id == w.store.manifest[k].id
  {
    if s.WriteBack? {
      WriteBackIsSound(w, s, w');
    } else {
      if s.Commit? {
        RefusedIsAbandoned(w, s, w');
      }
      forall e <- w'.seen ensures RowIsSound(w', e.0, e.1) {
        assert RowIsSound(w, e.0, e.1);
      }
      forall i: nat | i < |w'.plans| ensures PlanIsSound(w', i) {
        PlannedIsSound(w, if s.Commit? then Abandon(s.i) else s, w', i);
      }
    }
  }

  lemma PlannedIsSound(w: World, s: Step, w': World, i: nat)
    requires Sound(w) && Next(w, s, w') && !s.Commit? && !s.WriteBack? && i < |w'.plans|
    ensures PlanIsSound(w', i)
  {
    match s {
      case Abandon(a) =>
        var origin := if i < a then i else i + 1;
        assert w'.plans[i] == w.plans[origin] && PlanIsSound(w, origin);
        assert forall j | 0 <= j < |w'.plans| :: w'.plans[j] == w.plans[if j < a then j else j + 1];
      case PlanUpdate(key, row, _, _, _) =>
        assert RowIsSound(w, key, row);
        if i < |w.plans| {
          assert PlanIsSound(w, i);
        }
      case PlanNew(_, minted, _) =>
        MintedIsNew(w, minted);
        if i < |w.plans| {
          assert PlanIsSound(w, i);
        }
    }
  }

  lemma MintedIsNew(w: World, minted: SourceId)
    requires Sound(w) && minted !in w.used
    ensures !Owned(w.store, minted) && forall j: nat | j < |w.plans| :: w.plans[j].source != minted
  {
    forall k <- w.store.manifest ensures w.store.manifest[k].id != minted {
      assert RowIsSound(w, k, w.store.manifest[k]);
    }
    forall j: nat | j < |w.plans| ensures w.plans[j].source != minted {
      assert PlanIsSound(w, j);
    }
  }

  /** The rows keep their ids, and the row that is stored back is a sound one. */
  lemma WriteBackIsSound(w: World, s: Step, w': World)
    requires Sound(w) && Next(w, s, w') && s.WriteBack?
    ensures Sound(w') && w'.store.memories == w.store.memories
    ensures w'.store.manifest.Keys == w.store.manifest.Keys
    ensures forall k <- w.store.manifest :: w'.store.manifest[k].id == w.store.manifest[k].id
  {
    assert RowIsSound(w, s.key, s.row);
    SameIds(w.store, w'.store);
    forall e <- w'.seen ensures RowIsSound(w', e.0, e.1) {
      assert e in w.seen ==> RowIsSound(w, e.0, e.1);
    }
    forall i: nat | i < |w'.plans| ensures PlanIsSound(w', i) {
      assert PlanIsSound(w, i);
    }
  }

  lemma SameIds(s: Store, s': Store)
    requires s.manifest.Keys == s'.manifest.Keys
    requires forall k <- s.manifest :: s'.manifest[k].id == s.manifest[k].id
    ensures forall x :: Owned(s', x) <==> Owned(s, x)
  {
    forall x | Owned(s, x) ensures Owned(s', x) {
      var k :| k in s.manifest && s.manifest[k].id == x;
      assert s'.manifest[k].id == x;
    }
  }

  lemma SameMemoriesKeepTimeline(s: Store, s': Store)
    requires Timeline(s) && s'.memories == s.memories && s.manifest.Keys == s'.manifest.Keys
    requires forall k <- s.manifest :: s'.manifest[k].id == s.manifest[k].id
    ensures Timeline(s')
  {
    forall m <- s'.memories | s'.memories[m].until.Some? ensures HasSuccessor(s', m) {
      assert HasSuccessor(s, m);
      var n :| n in s.memories && StartsAt(s, n, s.memories[m].until.value)
               && s.memories[n].subject == s.memories[m].subject;
      assert StartsAt(s', n, s'.memories[m].until.value);
    }
    forall k <- s'.manifest ensures ExactlyOneLive(s', s'.manifest[k].id) {
      SameLive(s, s', s.manifest[k].id);
    }
  }

  lemma SameLive(s: Store, s': Store, x: SourceId)
    requires s'.memories == s.memories && ExactlyOneLive(s, x)
    ensures ExactlyOneLive(s', x)
  {
    var m :| m in s.memories && LiveFor(s, m, x);
    assert LiveFor(s', m, x);
    forall a <- s'.memories | LiveFor(s', a, x) ensures LiveFor(s, a, x) {
    }
  }

  // ---------- one commit ----------

  lemma PredecessorsOf(w: World, i: nat, m: MemoryId)
    requires Sound(w) && i < |w.plans| && m in w.store.memories
    ensures m in Predecessors(w.store, w.plans[i]) <==>
              Live(w.store, m) && w.store.memories[m].subject == w.plans[i].source
  {
    assert PlanIsSound(w, i);
  }

  lemma OwnershipGrows(w: World, s: Step, w': World)
    requires Next(w, s, w') && Admits(w, s)
    ensures forall x | Owned(w.store, x) :: Owned(w'.store, x)
    ensures forall x | Owned(w'.store, x) && !Owned(w.store, x) :: x == w.plans[s.i].source
    ensures Owned(w'.store, w.plans[s.i].source)
  {
    forall x | Owned(w.store, x) ensures Owned(w'.store, x) {
      var k :| k in w.store.manifest && w.store.manifest[k].id == x;
      assert k in w'.store.manifest && w'.store.manifest[k].id == x;
    }
    assert w.plans[s.i].key in w'.store.manifest;
  }

  lemma RowsStaySound(w: World, s: Step, w': World, e: (Key, Row))
    requires Sound(w) && Next(w, s, w') && Admits(w, s) && e in w'.seen
    ensures RowIsSound(w', e.0, e.1)
  {
    var p := w.plans[s.i];
    assert PlanIsSound(w, s.i);
    AdmittedExactlyWhen(w, s.i);
    if e in w.seen {
      assert RowIsSound(w, e.0, e.1);
    }
  }

  lemma PlansStaySound(w: World, s: Step, w': World, i: nat)
    requires Sound(w) && Next(w, s, w') && Admits(w, s) && i < |w'.plans|
    ensures PlanIsSound(w', i)
  {
    var origin := if i < s.i then i else i + 1;
    var p := w.plans[origin];
    OwnershipGrows(w, s, w');
    assert w'.plans[i] == p && PlanIsSound(w, origin);
    assert forall j | 0 <= j < |w'.plans| :: w'.plans[j] == w.plans[if j < s.i then j else j + 1];
    assert !Owned(w.store, p.source) ==> w.plans[s.i].source != p.source;
  }

  lemma MemoriesStayOwned(w: World, s: Step, w': World)
    requires Sound(w) && Next(w, s, w') && Admits(w, s)
    ensures forall m <- w'.store.memories :: Owned(w'.store, w'.store.memories[m].subject)
  {
    OwnershipGrows(w, s, w');
    forall m <- w'.store.memories ensures Owned(w'.store, w'.store.memories[m].subject) {
      assert m != s.id ==> Owned(w.store, w.store.memories[m].subject);
    }
  }

  lemma CommitIsSound(w: World, s: Step, w': World)
    requires Sound(w) && Next(w, s, w') && Admits(w, s)
    ensures Sound(w')
  {
    MemoriesStayOwned(w, s, w');
    forall e <- w'.seen ensures RowIsSound(w', e.0, e.1) {
      RowsStaySound(w, s, w', e);
    }
    forall i: nat | i < |w'.plans| ensures PlanIsSound(w', i) {
      PlansStaySound(w, s, w', i);
    }
    RowIdsStayDistinct(w, s, w');
  }

  lemma RowIdsStayDistinct(w: World, s: Step, w': World)
    requires Sound(w) && Next(w, s, w') && Admits(w, s)
    ensures forall j <- w'.store.manifest, k <- w'.store.manifest |
              w'.store.manifest[j].id == w'.store.manifest[k].id :: j == k
  {
    var p := w.plans[s.i];
    assert PlanIsSound(w, s.i);
    if p.key !in w.store.manifest {
      assert forall k <- w.store.manifest :: w.store.manifest[k].id != p.source;
    }
  }

  // ---------- the timeline of every subject ----------

  lemma IntervalsStayPositive(w: World, s: Step, w': World)
    requires Sound(w) && PositiveIntervals(w.store) && Next(w, s, w') && Admits(w, s)
    ensures PositiveIntervals(w'.store)
  {
  }

  lemma IntervalsStayDisjoint(w: World, s: Step, w': World)
    requires Sound(w) && Timeline(w.store) && Next(w, s, w') && Admits(w, s)
    ensures DisjointIntervals(w'.store)
  {
    var p := w.plans[s.i];
    var t :| IsStart(w.store, p, t) && w'.store == CommitAt(w.store, p, s.id, t);
    CommitStaysDisjoint(w.store, p, s.id, t);
  }

  lemma CommitStaysDisjoint(s: Store, p: Plan, id: MemoryId, t: Time)
    requires DisjointIntervals(s) && OwnersLive(s) && (forall m <- s.memories :: Owned(s, s.memories[m].subject))
    requires id !in s.memories && IsStart(s, p, t)
    ensures DisjointIntervals(CommitAt(s, p, id, t))
  {
    forall m <- s.memories | s.memories[m].subject == p.source
      ensures Before(CommitAt(s, p, id, t).memories[m], CommitAt(s, p, id, t).memories[id])
    {
      EarlierRevisionsEnd(s, p, id, m, t);
    }
    forall m <- s.memories, n <- s.memories | m != n && s.memories[m].subject == s.memories[n].subject
      ensures Apart(CommitAt(s, p, id, t).memories, m, n)
    {
      OldStayDisjoint(s, p, id, m, n, t);
    }
    AllApart(s, p, id, t);
  }

  lemma AllApart(s: Store, p: Plan, id: MemoryId, t: Time)
    requires id !in s.memories
    requires forall m <- s.memories | s.memories[m].subject == p.source ::
               Before(CommitAt(s, p, id, t).memories[m], CommitAt(s, p, id, t).memories[id])
    requires forall m <- s.memories, n <- s.memories | m != n && s.memories[m].subject == s.memories[n].subject ::
               Apart(CommitAt(s, p, id, t).memories, m, n)
    ensures DisjointIntervals(CommitAt(s, p, id, t))
  {
    var c := CommitAt(s, p, id, t).memories;
    forall m <- c, n <- c | m != n && c[m].subject == c[n].subject ensures Apart(c, m, n) {
      if m != id && n != id {
        assert s.memories[m].subject == s.memories[n].subject;
      }
    }
  }

  lemma OldStayDisjoint(s: Store, p: Plan, id: MemoryId, m: MemoryId, n: MemoryId, t: Time)
    requires DisjointIntervals(s) && id !in s.memories && IsStart(s, p, t)
    requires m in s.memories && n in s.memories && m != n && s.memories[m].subject == s.memories[n].subject
    ensures Apart(CommitAt(s, p, id, t).memories, m, n)
  {
    assert Apart(s.memories, m, n);
  }

  /** Whatever the subject had before ends no later than the new revision starts. */
  lemma EarlierRevisionsEnd(s: Store, p: Plan, id: MemoryId, m: MemoryId, t: Time)
    requires DisjointIntervals(s) && OwnersLive(s) && Owned(s, p.source)
    requires id !in s.memories && IsStart(s, p, t) && m in s.memories && s.memories[m].subject == p.source
    ensures Before(CommitAt(s, p, id, t).memories[m], CommitAt(s, p, id, t).memories[id])
  {
    if s.memories[m].until.Some? {
      var live := LiveOf(s, p.source);
      assert Apart(s.memories, m, live);
      assert live in Predecessors(s, p);
    } else {
      assert m in Predecessors(s, p);
    }
  }

  lemma LiveOf(s: Store, x: SourceId) returns (m: MemoryId)
    requires OwnersLive(s) && Owned(s, x)
    ensures m in s.memories && LiveFor(s, m, x)
  {
    var k :| k in s.manifest && s.manifest[k].id == x;
    assert ExactlyOneLive(s, s.manifest[k].id);
    m :| m in s.memories && LiveFor(s, m, x);
  }

  /** After a commit the new memory is the only live revision of its subject. */
  lemma CommittedRevisionIsLive(w: World, s: Step, w': World)
    requires Next(w, s, w') && Admits(w, s)
    ensures ExactlyOneLive(w'.store, w.plans[s.i].source) && LiveFor(w'.store, s.id, w.plans[s.i].source)
  {
    var p := w.plans[s.i];
    assert LiveFor(w'.store, s.id, p.source);
    forall m <- w'.store.memories | LiveFor(w'.store, m, p.source) ensures m == s.id {
    }
  }

  lemma OwnersStayLive(w: World, s: Step, w': World)
    requires Sound(w) && OwnersLive(w.store) && Next(w, s, w') && Admits(w, s)
    ensures OwnersLive(w'.store)
  {
    var p := w.plans[s.i];
    CommittedRevisionIsLive(w, s, w');
    forall k <- w'.store.manifest ensures ExactlyOneLive(w'.store, w'.store.manifest[k].id) {
      var x := w'.store.manifest[k].id;
      if x != p.source {
        assert k in w.store.manifest && ExactlyOneLive(w.store, x);
        OthersStayLive(w, s, w', x);
      }
    }
  }

  lemma OthersStayLive(w: World, s: Step, w': World, x: SourceId)
    requires Sound(w) && Next(w, s, w') && Admits(w, s) && x != w.plans[s.i].source && ExactlyOneLive(w.store, x)
    ensures ExactlyOneLive(w'.store, x)
  {
    var m :| m in w.store.memories && LiveFor(w.store, m, x);
    PredecessorsOf(w, s.i, m);
    assert LiveFor(w'.store, m, x);
    forall a <- w'.store.memories | LiveFor(w'.store, a, x) ensures LiveFor(w.store, a, x) {
    }
  }

  lemma SuccessorsStillMeet(w: World, s: Step, w': World)
    requires Sound(w) && SuccessorsMeet(w.store) && Next(w, s, w') && Admits(w, s)
    ensures SuccessorsMeet(w'.store)
  {
    var p := w.plans[s.i];
    forall m <- w'.store.memories | w'.store.memories[m].until.Some?
      ensures HasSuccessor(w'.store, m)
    {
      PredecessorsOf(w, s.i, m);
      if m in Predecessors(w.store, p) {
        assert StartsAt(w'.store, s.id, w'.store.memories[m].until.value);
      } else {
        var n :| n in w.store.memories && StartsAt(w.store, n, w.store.memories[m].until.value)
                 && w.store.memories[n].subject == w.store.memories[m].subject;
        assert StartsAt(w'.store, n, w'.store.memories[m].until.value);
      }
    }
  }

  lemma StepKeepsTimeline(w: World, s: Step, w': World)
    requires Sound(w) && Timeline(w.store) && Next(w, s, w')
    ensures Sound(w') && Timeline(w'.store)
  {
    if Admits(w, s) {
      CommitIsSound(w, s, w');
      IntervalsStayPositive(w, s, w');
      IntervalsStayDisjoint(w, s, w');
      SuccessorsStillMeet(w, s, w');
      OwnersStayLive(w, s, w');
    } else {
      PlanningIsSound(w, s, w');
      SameMemoriesKeepTimeline(w.store, w'.store);
    }
  }

  lemma {:induction false} RunKeepsTimeline(ws: seq<World>, steps: seq<Step>, i: nat)
    requires Run(ws, steps) && i <= |steps|
    ensures Sound(ws[i]) && Timeline(ws[i].store)
  {
    if i > 0 {
      RunKeepsTimeline(ws, steps, i - 1);
      StepKeepsTimeline(ws[i - 1], steps[i - 1], ws[i]);
    }
  }

  // ---------- an importer that nobody disturbs ----------

  /** When an update commits right after it was planned, its memory starts at the importer's clock, or just after
      the revision it replaces if the clock is not past that; that revision ends there, the row names the new
      memory at its path, and nothing else changes. */
  lemma UndisturbedUpdate(w: World, s: Step, w1: World, c: Step, w2: World)
    requires Sound(w) && Timeline(w.store) && s.PlanUpdate? && Next(w, s, w1)
    requires c.Commit? && c.i == |w.plans| && Next(w1, c, w2)
    ensures s.prior in w.store.memories
    ensures
      var prior := w.store.memories[s.prior];
      var start := if s.clock > prior.from then s.clock else prior.from + 1;
      && w2.store.memories
         == w.store.memories[s.prior := prior.(until := Some(start))][c.id := Memory(s.row.id, start, None, s.path)]
      && w2.store.manifest == w.store.manifest[s.key := Row(s.row.id, s.row.id, c.id, s.path)]
  {
    var plan := w1.plans[c.i];
    assert RowIsSound(w, s.key, s.row);
    assert Owned(w.store, s.row.id);
    PriorIsTheLiveOne(w.store, s.row, s.prior);
    OnlyPredecessor(w.store, plan, s.prior);
    assert Admitted(w1.store, plan) && Commits(w1.store, plan, c.id, w2.store);
    var t :| IsStart(w.store, plan, t) && w2.store == CommitAt(w.store, plan, c.id, t);
    CommitsOverOne(w.store, plan, s.prior, c.id, t);
  }

  lemma OnlyPredecessor(s: Store, p: Plan, prior: MemoryId)
    requires p.prior == Some(prior) && LiveFor(s, prior, p.source)
    requires forall m <- s.memories :: LiveFor(s, m, p.source) ==> m == prior
    ensures Predecessors(s, p) == {prior}
  {
  }

  lemma CommitsOverOne(s: Store, p: Plan, prior: MemoryId, id: MemoryId, t: Time)
    requires Predecessors(s, p) == {prior} && id !in s.memories && IsStart(s, p, t)
    ensures prior in s.memories
    ensures t == if p.importedAt > s.memories[prior].from then p.importedAt else s.memories[prior].from + 1
    ensures CommitAt(s, p, id, t).memories
         == s.memories[prior := s.memories[prior].(until := Some(t))][id := Memory(p.source, t, None, p.path)]
  {
    assert prior in Predecessors(s, p);
  }

  lemma PriorIsTheLiveOne(s: Store, row: Row, prior: MemoryId)
    requires OwnersLive(s) && Owned(s, row.subject) && PicksPrior(s, row, prior)
    ensures LiveFor(s, prior, row.subject) && forall m <- s.memories :: LiveFor(s, m, row.subject) ==> m == prior
  {
    var m := LiveOf(s, row.subject);
    var k :| k in s.manifest && s.manifest[k].id == row.subject;
    assert ExactlyOneLive(s, s.manifest[k].id);
  }

  /** A new note that commits right after it was planned, under a key nobody has taken, starts at the clock. */
  lemma UndisturbedImport(w: World, s: Step, w1: World, c: Step, w2: World)
    requires Sound(w) && s.PlanNew? && s.key !in w.store.manifest && Next(w, s, w1)
    requires c.Commit? && c.i == |w.plans| && Next(w1, c, w2)
    ensures w2.store.memories == w.store.memories[c.id := Memory(s.minted, s.clock, None, s.key.path)]
    ensures w2.store.manifest == w.store.manifest[s.key := Row(s.minted, s.minted, c.id, s.key.path)]
  {
    var plan := w1.plans[c.i];
    MintedIsNew(w, s.minted);
    assert Predecessors(w.store, plan) == {};
    var t :| IsStart(w.store, plan, t) && w2.store == CommitAt(w.store, plan, c.id, t);
  }

  /** Rows and live memories correspond one to one: the row of a key owns one live memory, and every
      memory belongs to the source of one row. */
  predicate OneLivePerRow(s: Store) {
    && (forall k <- s.manifest :: ExactlyOneLive(s, s.manifest[k].id))
    && (forall m <- s.memories :: Owned(s, s.memories[m].subject))
    && (forall j <- s.manifest, k <- s.manifest | s.manifest[j].id == s.manifest[k].id :: j == k)
  }

  /** However many importers plan concurrently, from rows however old, and whatever their clocks say:
      after every step the intervals of a subject are disjoint and positive and a closed one meets its
      successor, each key has exactly one live memory, and a transaction either makes its memory the live
      one of its subject or changes nothing. */
  lemma EveryRunIsTemporallySound(ws: seq<World>, steps: seq<Step>, i: nat)
    requires Run(ws, steps) && i < |steps|
    ensures Timeline(ws[i + 1].store) && OneLivePerRow(ws[i + 1].store)
    ensures steps[i].Commit? ==>
              if Admits(ws[i], steps[i])
              then LiveFor(ws[i + 1].store, steps[i].id, ws[i].plans[steps[i].i].source)
              else ws[i + 1].store == ws[i].store
  {
    RunKeepsTimeline(ws, steps, i);
    RunKeepsTimeline(ws, steps, i + 1);
    assert Next(ws[i], steps[i], ws[i + 1]);
    if Admits(ws[i], steps[i]) {
      CommittedRevisionIsLive(ws[i], steps[i], ws[i + 1]);
    }
  }

  // ---------- who gets a key ----------

  lemma {:induction false} RowsKeepTheirIds(ws: seq<World>, steps: seq<Step>, i: nat, j: nat, k: Key)
    requires Run(ws, steps) && i <= j <= |steps| && k in ws[i].store.manifest
    ensures k in ws[j].store.manifest && ws[j].store.manifest[k].id == ws[i].store.manifest[k].id
    decreases j
  {
    if i < j {
      RowsKeepTheirIds(ws, steps, i, j - 1, k);
      RunKeepsTimeline(ws, steps, j - 1);
      assert Next(ws[j - 1], steps[j - 1], ws[j]);
    }
  }

  /** First come, first served: once a key has a row, only plans for the source of that row are ever
      admitted under it. */
  lemma KeyStaysTaken(ws: seq<World>, steps: seq<Step>, i: nat, j: nat)
    requires Run(ws, steps) && i <= j < |steps| && steps[j].Commit? && steps[j].i < |ws[j].plans|
    requires ws[j].plans[steps[j].i].key in ws[i].store.manifest
    ensures var p := ws[j].plans[steps[j].i];
            Admits(ws[j], steps[j]) <==> p.source == ws[i].store.manifest[p.key].id
  {
    var p := ws[j].plans[steps[j].i];
    RowsKeepTheirIds(ws, steps, i, j, p.key);
    RunKeepsTimeline(ws, steps, j);
    AdmittedExactlyWhen(ws[j], steps[j].i);
  }

  /** So a note that is planned as new under a key with a row is never imported. */
  lemma NewNoteIsRefused(ws: seq<World>, steps: seq<Step>, i: nat, j: nat)
    requires Run(ws, steps) && i < j < |steps| && steps[i].PlanNew? && steps[i].key in ws[i].store.manifest
    requires steps[j].Commit? && steps[j].i < |ws[j].plans|
    requires ws[j].plans[steps[j].i].key == steps[i].key && ws[j].plans[steps[j].i].source == steps[i].minted
    ensures ws[j + 1].store == ws[j].store
  {
    RunKeepsTimeline(ws, steps, i);
    assert Next(ws[i], steps[i], ws[i + 1]) && Next(ws[j], steps[j], ws[j + 1]);
    assert RowIsSound(ws[i], steps[i].key, ws[i].store.manifest[steps[i].key]);
    KeyStaysTaken(ws, steps, i, j);
  }

  // ---------- one live memory per path ----------

  predicate LiveAt(s: Store, m: MemoryId, x: Path) {
    Live(s, m) && s.memories[m].path == x
  }

  predicate OneAt(s: Store, x: Path) {
    forall m <- s.memories, n <- s.memories | LiveAt(s, m, x) && LiveAt(s, n, x) :: m == n
  }

  /** What a finalizer could check first: nothing of another source is live at the note's path. */
  predicate Unshared(s: Store, p: Plan) {
    forall m <- s.memories | LiveAt(s, m, p.path) :: s.memories[m].subject == p.source
  }

  predicate AdmitsAt(w: World, s: Step, x: Path) {
    Admits(w, s) && w.plans[s.i].path == x
  }

  /** A commit leaves its own memory live and, wherever they are, those of the other sources. */
  lemma WhatACommitLeaves(w: World, s: Step, w': World, m: MemoryId, x: Path)
    requires Sound(w) && Next(w, s, w') && Admits(w, s)
    ensures var p := w.plans[s.i];
            LiveAt(w'.store, m, x) <==>
              if m == s.id then x == p.path else LiveAt(w.store, m, x) && w.store.memories[m].subject != p.source
  {
    if m in w.store.memories {
      PredecessorsOf(w, s.i, m);
    }
  }

  /** A commit leaves one live memory at its path exactly when it found none of another source there. */
  lemma OneAtExactlyWhen(w: World, s: Step, w': World)
    requires Sound(w) && Next(w, s, w') && Admits(w, s)
    ensures OneAt(w'.store, w.plans[s.i].path) <==> Unshared(w.store, w.plans[s.i])
  {
    var p := w.plans[s.i];
    WhatACommitLeaves(w, s, w', s.id, p.path);
    forall m <- w.store.memories
      ensures LiveAt(w'.store, m, p.path) <==>
                LiveAt(w.store, m, p.path) && w.store.memories[m].subject != p.source
    {
      WhatACommitLeaves(w, s, w', m, p.path);
    }
    forall m <- w'.store.memories | m != s.id ensures m in w.store.memories {
    }
  }

  lemma OtherPathsKeepOne(w: World, s: Step, w': World, x: Path)
    requires Sound(w) && Next(w, s, w') && OneAt(w.store, x) && !AdmitsAt(w, s, x)
    ensures OneAt(w'.store, x)
  {
    forall m <- w'.store.memories | LiveAt(w'.store, m, x) ensures m in w.store.memories && LiveAt(w.store, m, x) {
      if Admits(w, s) {
        WhatACommitLeaves(w, s, w', m, x);
      } else {
        PlanningIsSound(w, s, w');
      }
    }
  }

  /** Every admitted commit at `x` finds nothing of another source live there. */
  predicate AlwaysUnshared(ws: seq<World>, steps: seq<Step>, x: Path)
    requires |ws| > |steps|
  {
    forall i | 0 <= i < |steps| && AdmitsAt(ws[i], steps[i], x) :: Unshared(ws[i].store, ws[i].plans[steps[i].i])
  }

  lemma {:induction false} OneUpTo(ws: seq<World>, steps: seq<Step>, x: Path, i: nat)
    requires Run(ws, steps) && AlwaysUnshared(ws, steps, x) && i <= |steps|
    ensures OneAt(ws[i].store, x)
  {
    if i > 0 {
      var w, s, w' := ws[i - 1], steps[i - 1], ws[i];
      OneUpTo(ws, steps, x, i - 1);
      RunKeepsTimeline(ws, steps, i - 1);
      assert Next(w, s, w');
      if AdmitsAt(w, s, x) {
        OneAtExactlyWhen(w, s, w');
      } else {
        OtherPathsKeepOne(w, s, w', x);
      }
    }
  }

  /** Over every run of any number of importers: a path has one live memory at most all along exactly
      when every commit there finds nothing of another source live. */
  lemma OneLivePerPathExactlyWhen(ws: seq<World>, steps: seq<Step>, x: Path)
    requires Run(ws, steps)
    ensures (forall i | 0 <= i <= |steps| :: OneAt(ws[i].store, x)) <==> AlwaysUnshared(ws, steps, x)
  {
    if AlwaysUnshared(ws, steps, x) {
      forall i | 0 <= i <= |steps| ensures OneAt(ws[i].store, x) {
        OneUpTo(ws, steps, x, i);
      }
    } else {
      var i :| 0 <= i < |steps| && AdmitsAt(ws[i], steps[i], x) && !Unshared(ws[i].store, ws[i].plans[steps[i].i]);
      RunKeepsTimeline(ws, steps, i);
      assert Next(ws[i], steps[i], ws[i + 1]);
      OneAtExactlyWhen(ws[i], steps[i], ws[i + 1]);
    }
  }

  /** The step plans neither a moved note nor one beside a diverged one. */
  predicate Stays(s: Step) {
    && (s.PlanNew? ==> s.key.branch.None?)
    && (s.PlanUpdate? ==> s.path == s.key.path && s.key.branch.None?)
  }

  /** Everything is under the key of its own path. */
  predicate AtHome(w: World) {
    && (forall p <- w.plans :: p.key == Key(p.path, None))
    && (forall m <- w.store.memories :: IsHome(w.store, m))
  }

  predicate IsHome(s: Store, m: MemoryId)
    requires m in s.memories
  {
    Key(s.memories[m].path, None) in s.manifest && s.manifest[Key(s.memories[m].path, None)].id == s.memories[m].subject
  }

  lemma CommitsAtHome(w: World, s: Step, w': World, m: MemoryId)
    requires Sound(w) && AtHome(w) && Next(w, s, w') && Admits(w, s) && m in w'.store.memories
    ensures IsHome(w'.store, m)
  {
    AdmittedExactlyWhen(w, s.i);
    assert w.plans[s.i] in w.plans;
    if m != s.id {
      assert m in w.store.memories && IsHome(w.store, m);
    }
  }

  lemma PlansStayHome(w: World, s: Step, w': World, i: nat)
    requires AtHome(w) && Next(w, s, w') && Stays(s) && i < |w'.plans|
    ensures w'.plans[i].key == Key(w'.plans[i].path, None)
  {
    if s.Commit? || s.Abandon? {
      assert w'.plans[i] == w.plans[if i < s.i then i else i + 1];
    } else if i < |w.plans| {
      assert w'.plans[i] == w.plans[i];
    }
  }

  lemma StaysAtHome(w: World, s: Step, w': World)
    requires Sound(w) && AtHome(w) && Next(w, s, w') && Stays(s)
    ensures AtHome(w')
  {
    forall i: nat | i < |w'.plans| ensures w'.plans[i].key == Key(w'.plans[i].path, None) {
      PlansStayHome(w, s, w', i);
    }
    if Admits(w, s) {
      forall m <- w'.store.memories ensures IsHome(w'.store, m) {
        CommitsAtHome(w, s, w', m);
      }
    } else {
      PlanningIsSound(w, s, w');
      forall m <- w'.store.memories ensures IsHome(w'.store, m) {
        assert IsHome(w.store, m);
      }
    }
  }

  lemma {:induction false} HomeUpTo(ws: seq<World>, steps: seq<Step>, i: nat)
    requires Run(ws, steps) && i <= |steps| && forall s <- steps :: Stays(s)
    ensures AtHome(ws[i])
  {
    if i > 0 {
      HomeUpTo(ws, steps, i - 1);
      RunKeepsTimeline(ws, steps, i - 1);
      StaysAtHome(ws[i - 1], steps[i - 1], ws[i]);
    }
  }

  /** As long as no note moves and none is kept beside a diverged one, a path has one live memory at most,
      however many importers race. */
  lemma OneLivePerPathWithoutMoves(ws: seq<World>, steps: seq<Step>, i: nat, x: Path)
    requires Run(ws, steps) && i <= |steps| && forall s <- steps :: Stays(s)
    ensures OneAt(ws[i].store, x)
  {
    var s := ws[i].store;
    HomeUpTo(ws, steps, i);
    RunKeepsTimeline(ws, steps, i);
    forall m <- s.memories, n <- s.memories | LiveAt(s, m, x) && LiveAt(s, n, x) ensures m == n {
      assert IsHome(s, m) && IsHome(s, n);
      assert ExactlyOneLive(s, s.manifest[Key(x, None)].id);
      assert LiveFor(s, m, s.memories[m].subject) && LiveFor(s, n, s.memories[m].subject);
    }
  }

  // ---------- two runs with a moved note ----------

  const A: Key := Key(1, None)
  const B: Key := Key(2, None)

  function Imported(clock: Time): Store {
    Store(map[0 := Memory(100, clock, None, 1)], map[A := Row(100, 100, 0, 1)])
  }

  function Moved(clock: Time): Store {
    Store(map[0 := Memory(100, clock, Some(clock + 1), 1), 1 := Memory(100, clock + 1, None, 2)],
          map[A := Row(100, 100, 1, 2)])
  }

  function Shared(clock: Time): Store {
    Store(Moved(clock).memories[2 := Memory(200, clock, None, 2)], Moved(clock).manifest[B := Row(200, 200, 2, 2)])
  }

  lemma ImportCommits(clock: Time)
    ensures Commits(Store(map[], map[]), Plan(A, 100, None, clock, 1), 0, Imported(clock))
  {
    var s, p := Store(map[], map[]), Plan(A, 100, None, clock, 1);
    assert IsStart(s, p, clock);
    assert CommitAt(s, p, 0, clock).memories == Imported(clock).memories;
  }

  lemma MoveCommits(clock: Time)
    ensures Commits(Imported(clock), Plan(A, 100, Some(0), clock + 1, 2), 1, Moved(clock))
    ensures Admitted(Imported(clock), Plan(A, 100, Some(0), clock + 1, 2))
  {
    var s, p := Imported(clock), Plan(A, 100, Some(0), clock + 1, 2);
    assert s.manifest[A].id == 100;
    assert Predecessors(s, p) == {0};
    assert IsStart(s, p, clock + 1);
    assert CommitAt(s, p, 1, clock + 1).memories == Moved(clock).memories;
  }

  lemma NewCommits(clock: Time)
    ensures Commits(Moved(clock), Plan(B, 200, None, clock, 2), 2, Shared(clock))
  {
    var s, p := Moved(clock), Plan(B, 200, None, clock, 2);
    assert Predecessors(s, p) == {};
    assert IsStart(s, p, clock);
    assert CommitAt(s, p, 2, clock).memories == Shared(clock).memories;
  }

  lemma RunSnoc(ws: seq<World>, steps: seq<Step>, s: Step, w: World)
    requires Run(ws, steps) && Next(ws[|steps|], s, w)
    ensures Run(ws + [w], steps + [s])
  {
    forall i | 0 <= i < |steps| + 1 ensures Next((ws + [w])[i], (steps + [s])[i], (ws + [w])[i + 1]) {
      if i < |steps| {
        assert Next(ws[i], steps[i], ws[i + 1]);
      }
    }
  }

  const FIRST := Row(100, 100, 0, 1)
  const SECOND := Row(100, 100, 1, 2)

  /** A note is imported at path 1, and an importer that sees it at path 2 plans its move. */
  lemma PlansAMove(clock: Time) returns (ws: seq<World>, steps: seq<Step>)
    ensures Run(ws, steps) && |steps| == 3
    ensures ws[3] == World(Imported(clock), [Plan(A, 100, Some(0), clock + 1, 2)], {100}, {(A, FIRST)})
  {
    ImportCommits(clock);
    var planned := World(Store(map[], map[]), [Plan(A, 100, None, clock, 1)], {100}, {});
    var imported := World(Imported(clock), [], {100}, {(A, FIRST)});
    var moving := World(Imported(clock), [Plan(A, 100, Some(0), clock + 1, 2)], {100}, {(A, FIRST)});
    RunSnoc([NOTHING], [], PlanNew(A, 100, clock), planned);
    RunSnoc([NOTHING, planned], [PlanNew(A, 100, clock)], Commit(0, 0), imported);
    steps := [PlanNew(A, 100, clock), Commit(0, 0)];
    RunSnoc([NOTHING, planned, imported], steps, PlanUpdate(A, FIRST, 2, 0, clock), moving);
    ws, steps := [NOTHING, planned, imported, moving], steps + [PlanUpdate(A, FIRST, 2, 0, clock)];
  }

  /** A second importer, after an edit, plans a new note at the path the first one moves it to. */
  lemma PlansBoth(clock: Time) returns (ws: seq<World>, steps: seq<Step>)
    ensures Run(ws, steps) && |steps| == 4
    ensures ws[4].store == Imported(clock) && ws[4].used == {100, 200} && ws[4].seen == {(A, FIRST)}
    ensures ws[4].plans == [Plan(A, 100, Some(0), clock + 1, 2), Plan(B, 200, None, clock, 2)]
  {
    var x, y := Plan(A, 100, Some(0), clock + 1, 2), Plan(B, 200, None, clock, 2);
    var both := World(Imported(clock), [x, y], {100, 200}, {(A, FIRST)});
    ws, steps := PlansAMove(clock);
    RunSnoc(ws, steps, PlanNew(B, 200, clock), both);
    ws, steps := ws + [both], steps + [PlanNew(B, 200, clock)];
  }

  /** The move is committed first. */
  lemma MovesFirst(clock: Time) returns (ws: seq<World>, steps: seq<Step>)
    ensures Run(ws, steps) && |steps| == 5 && Admits(ws[4], steps[4])
    ensures ws[5] == World(Moved(clock), [Plan(B, 200, None, clock, 2)], {100, 200}, {(A, FIRST), (A, SECOND)})
  {
    var y := Plan(B, 200, None, clock, 2);
    var moved := World(Moved(clock), [y], {100, 200}, {(A, FIRST), (A, SECOND)});
    MoveCommits(clock);
    ws, steps := PlansBoth(clock);
    assert Without(ws[4].plans, 0) == [y];
    RunSnoc(ws, steps, Commit(0, 1), moved);
    ws, steps := ws + [moved], steps + [Commit(0, 1)];
  }

  /** One importer sees a note moved, another, after an edit, a new note at the same path.  Both commits
      are admitted, and the path has two live memories. */
  lemma MoveSharesAPath(clock: Time) returns (ws: seq<World>, steps: seq<Step>)
    ensures Run(ws, steps) && |steps| == 6 && !OneAt(ws[6].store, 2)
    ensures Admits(ws[4], steps[4]) && Admits(ws[5], steps[5])
  {
    var shared := World(Shared(clock), [], {100, 200}, {(A, FIRST), (A, SECOND), (B, Row(200, 200, 2, 2))});
    NewCommits(clock);
    ws, steps := MovesFirst(clock);
    RunSnoc(ws, steps, Commit(0, 2), shared);
    ws, steps := ws + [shared], steps + [Commit(0, 2)];
    BothAreLive(clock);
  }

  lemma BothAreLive(clock: Time)
    ensures !OneAt(Shared(clock), 2)
  {
    assert LiveAt(Shared(clock), 1, 2) && LiveAt(Shared(clock), 2, 2);
  }

  lemma MovesAlone(clock: Time) returns (ws: seq<World>, steps: seq<Step>)
    ensures Run(ws, steps) && |steps| == 4
    ensures ws[4] == World(Moved(clock), [], {100}, {(A, FIRST), (A, SECOND)})
  {
    var moved := World(Moved(clock), [], {100}, {(A, FIRST), (A, SECOND)});
    MoveCommits(clock);
    ws, steps := PlansAMove(clock);
    RunSnoc(ws, steps, Commit(0, 1), moved);
    ws, steps := ws + [moved], steps + [Commit(0, 1)];
  }

  /** A note moves, and a new note appears at the path it left: the importer, on its own, can never
      import it, because the moved note still holds the key of that path. */
  lemma MoveBlocksThePath(clock: Time) returns (ws: seq<World>, steps: seq<Step>)
    ensures Run(ws, steps) && |steps| == 6 && steps[4] == PlanNew(A, 300, clock) && steps[5].Commit?
    ensures ws[6].store == ws[4].store && forall m <- ws[6].store.memories :: !LiveAt(ws[6].store, m, A.path)
  {
    var y := Plan(A, 300, None, clock, 1);
    var planned := World(Moved(clock), [y], {100, 300}, {(A, FIRST), (A, SECOND)});
    var refused := World(Moved(clock), [], {100, 300}, {(A, FIRST), (A, SECOND)});
    assert !Admitted(Moved(clock), y);
    ws, steps := MovesAlone(clock);
    RunSnoc(ws, steps, PlanNew(A, 300, clock), planned);
    ws, steps := ws + [planned], steps + [PlanNew(A, 300, clock)];
    RunSnoc(ws, steps, Commit(0, 2), refused);
    ws, steps := ws + [refused], steps + [Commit(0, 2)];
  }
}
