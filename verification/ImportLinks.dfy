/**
 The link reconciler of `obsidian_import.py` (`_reconcile_links`): derived links are added in
 batched transactions while the notes are walked, and what no note supports any more is retired
 at the end.  It can be cancelled or killed between any two writes.

 The string work of `_reference_paths` is done before this model starts: a reference carries the
 case-folded candidate paths it resolves to, in order, and the case-folded stem of the last one.
 */
module ImportLinks {
  import opened Prelude

  type MemoryId = nat
  type Path = nat
  type Key = nat        // a case-folded path, path without suffix, stem, title or alias

  datatype Relation = References | Embeds

  datatype Ref = Ref(paths: seq<Key>, stem: Key, embedded: bool)

  datatype Note = Note(path: Path, names: set<Key>, refs: seq<Ref>)

  /** A row of `mem_links`; `mine` when its reason is this importer's. */
  datatype Row = Row(a: MemoryId, b: MemoryId, relation: Relation, mine: bool, semantic: bool, live: bool)

  type Pair = (MemoryId, MemoryId)

  function PairKey(a: MemoryId, b: MemoryId): Pair {
    if a <= b then (a, b) else (b, a)
  }

  /** The notes of a complete scan, the memories of the complete manifest by path, and the keys
      a path can be referred to by. */
  datatype Scan = Scan(notes: seq<Note>, memory: map<Path, MemoryId>, keysOf: Path -> set<Key>)

  predicate DistinctPaths(s: Scan) {
    forall i, j :: 0 <= i < j < |s.notes| ==> s.notes[i].path != s.notes[j].path
  }

  // ---------- which links the scan supports ----------

  function ExactAmong(notes: seq<Note>, keysOf: Path -> set<Key>, k: Key): set<Path> {
    set n | n in notes && k in keysOf(n.path) :: n.path
  }

  function NamesAmong(notes: seq<Note>, k: Key): set<Path> {
    set n | n in notes && k in n.names :: n.path
  }

  function ExactMatches(s: Scan, k: Key): set<Path> {
    ExactAmong(s.notes, s.keysOf, k)
  }

  function NameMatches(s: Scan, k: Key): set<Path> {
    NamesAmong(s.notes, k)
  }

  /** The first candidate path that any note answers to decides. */
  function FirstExact(s: Scan, paths: seq<Key>): set<Path> {
    if paths == [] then {}
    else if ExactMatches(s, paths[0]) != {} then ExactMatches(s, paths[0])
    else FirstExact(s, paths[1..])
  }

  function Candidates(s: Scan, r: Ref): set<Path> {
    if FirstExact(s, r.paths) != {} then FirstExact(s, r.paths)
    else if r.paths != [] then NameMatches(s, r.stem)
    else {}
  }

  /** The reference of the note names exactly one other imported note. */
  predicate Supports(s: Scan, n: Note, r: Ref, target: Path) {
    && n.path in s.memory && Candidates(s, r) == {target}
    && target in s.memory && s.memory[target] != s.memory[n.path]
  }

  function Supported(s: Scan, n: Note, r: Ref): set<Pair> {
    set t | t in Candidates(s, r) && Supports(s, n, r, t) :: PairKey(s.memory[n.path], s.memory[t])
  }

  function AllDesired(s: Scan): set<Pair> {
    set n, r, p | n in s.notes && r in n.refs && p in Supported(s, n, r) :: p
  }

  /** The memories behind the notes of the scan. */
  function CurrentSources(s: Scan): set<MemoryId> {
    set n | n in s.notes && n.path in s.memory :: s.memory[n.path]
  }

  predicate Touches(s: Scan, p: Pair) {
    p.0 in CurrentSources(s) || p.1 in CurrentSources(s)
  }

  // ---------- the table ----------

  predicate Joins(row: Row, a: MemoryId, b: MemoryId) {
    (row.a == a && row.b == b) || (row.a == b && row.b == a)
  }

  function LivePairs(rows: seq<Row>): set<Pair> {
    set row | row in rows && row.live && row.mine :: PairKey(row.a, row.b)
  }

  predicate Matches(row: Row, a: MemoryId, b: MemoryId, relation: Relation) {
    row.live && row.relation == relation && Joins(row, a, b)
  }

  /** The last live row of the pair and relation, or -1. */
  function LastLive(rows: seq<Row>, a: MemoryId, b: MemoryId, relation: Relation): (i: int)
    ensures -1 <= i < |rows|
    ensures i >= 0 ==> Matches(rows[i], a, b, relation)
    ensures forall j :: i < j < |rows| ==> !Matches(rows[j], a, b, relation)
  {
    if rows == [] then -1
    else if Matches(rows[|rows| - 1], a, b, relation) then |rows| - 1
    else LastLive(rows[..|rows| - 1], a, b, relation)
  }

  /** `Store.add_link` with this importer's reason: idempotent per pair and relation; a live row
      with other metadata is expired and replaced. */
  function AddLink(rows: seq<Row>, a: MemoryId, b: MemoryId, relation: Relation): seq<Row> {
    var i := LastLive(rows, a, b, relation);
    if i < 0 then rows + [Row(a, b, relation, true, true, true)]
    else if rows[i].mine && rows[i].semantic then rows
    else rows[i := rows[i].(live := false)] + [rows[i].(mine := true, semantic := true)]
  }

  /** The UPDATE of `retire_unsupported_links`. */
  function RetirePair(rows: seq<Row>, p: Pair): seq<Row> {
    seq(|rows|, i requires 0 <= i < |rows| =>
      if rows[i].mine && rows[i].live && Joins(rows[i], p.0, p.1) then rows[i].(live := false) else rows[i])
  }

  lemma AddLinkAddsThePair(rows: seq<Row>, a: MemoryId, b: MemoryId, relation: Relation)
    ensures LivePairs(AddLink(rows, a, b, relation)) == LivePairs(rows) + {PairKey(a, b)}
  {
    var i := LastLive(rows, a, b, relation);
    var rows' := AddLink(rows, a, b, relation);
    assert PairKey(a, b) in LivePairs(rows') by {
      var k := if i >= 0 && rows' == rows then i else |rows'| - 1;
      assert rows'[k] in rows' && rows'[k].live && rows'[k].mine;
    }
    forall row <- rows | row.live && row.mine ensures PairKey(row.a, row.b) in LivePairs(rows') {
      var k :| 0 <= k < |rows| && rows[k] == row;
      if k == i && rows' != rows {
        assert rows'[|rows'| - 1] in rows';
      } else {
        assert rows'[k] == row;
      }
    }
    forall row <- rows' | row.live && row.mine ensures PairKey(row.a, row.b) in LivePairs(rows) + {PairKey(a, b)} {
      var k :| 0 <= k < |rows'| && rows'[k] == row;
      if k < |rows| {
        assert rows[k] in rows;
      }
    }
  }

  type Link = (MemoryId, MemoryId, Relation)

  function PairsOf(links: seq<Link>): set<Pair> {
    set l | l in links :: PairKey(l.0, l.1)
  }

  function AddAll(rows: seq<Row>, links: seq<Link>): seq<Row>
    decreases |links|
  {
    if links == [] then rows
    else
      var last := links[|links| - 1];
      AddLink(AddAll(rows, links[..|links| - 1]), last.0, last.1, last.2)
  }

  lemma {:induction false} AddAllAddsThePairs(rows: seq<Row>, links: seq<Link>)
    ensures LivePairs(AddAll(rows, links)) == LivePairs(rows) + PairsOf(links)
    decreases |links|
  {
    if links != [] {
      var but, last := links[..|links| - 1], links[|links| - 1];
      AddAllAddsThePairs(rows, but);
      AddLinkAddsThePair(AddAll(rows, but), last.0, last.1, last.2);
      assert links == but + [last];
      assert PairsOf(links) == PairsOf(but) + {PairKey(last.0, last.1)};
    }
  }

  /** Retiring a whole set of pairs. */
  function RetireAll(rows: seq<Row>, pairs: set<Pair>): seq<Row> {
    seq(|rows|, i requires 0 <= i < |rows| =>
      if rows[i].mine && rows[i].live && PairKey(rows[i].a, rows[i].b) in pairs
      then rows[i].(live := false) else rows[i])
  }

  lemma RetireAllRemovesThePairs(rows: seq<Row>, pairs: set<Pair>)
    ensures LivePairs(RetireAll(rows, pairs)) == LivePairs(rows) - pairs
  {
    var rows' := RetireAll(rows, pairs);
    forall row <- rows | row.live && row.mine && PairKey(row.a, row.b) !in pairs ensures row in rows' {
      var k :| 0 <= k < |rows| && rows[k] == row;
      assert rows'[k] == row;
    }
    forall row <- rows' | row.live && row.mine ensures row in rows && PairKey(row.a, row.b) !in pairs {
      var k :| 0 <= k < |rows'| && rows'[k] == row;
      assert rows[k] == row;
    }
  }

  lemma OneMoreRetired(rows: seq<Row>, pairs: set<Pair>, p: Pair)
    requires p.0 <= p.1
    ensures RetirePair(RetireAll(rows, pairs), p) == RetireAll(rows, pairs + {p})
  {
    var all := RetireAll(rows, pairs);
    forall i | 0 <= i < |rows| ensures RetirePair(all, p)[i] == RetireAll(rows, pairs + {p})[i] {
      assert Joins(rows[i], p.0, p.1) <==> PairKey(rows[i].a, rows[i].b) == p;
    }
  }

  /** Pairs that are not live can be marked for retirement without any effect. */
  lemma OnlyLivePairsMatter(rows: seq<Row>, pairs: set<Pair>)
    ensures RetireAll(rows, pairs) == RetireAll(rows, pairs * LivePairs(rows))
  {
    forall i | 0 <= i < |rows| && rows[i].mine && rows[i].live
      ensures PairKey(rows[i].a, rows[i].b) in LivePairs(rows)
    {
      assert rows[i] in rows;
    }
  }

  // ---------- the links of a scan, in the order they are added ----------

  ghost function RefLinks(s: Scan, n: Note, r: Ref): (links: seq<Link>)
    ensures PairsOf(links) == Supported(s, n, r)
  {
    if n.path in s.memory && |Candidates(s, r)| == 1 then
      var t :| t in Candidates(s, r);
      OneCandidate(s, n, r, t);
      if t in s.memory && s.memory[t] != s.memory[n.path]
      then [(s.memory[n.path], s.memory[t], if r.embedded then Embeds else References)]
      else []
    else
      NoSupport(s, n, r); []
  }

  ghost function NotePlan(s: Scan, n: Note): (parts: seq<seq<Link>>)
    ensures |parts| == |n.refs|
  {
    seq(|n.refs|, j requires 0 <= j < |n.refs| => RefLinks(s, n, n.refs[j]))
  }

  ghost function ScanPlan(s: Scan): (plan: seq<seq<seq<Link>>>)
    ensures |plan| == |s.notes|
  {
    seq(|s.notes|, i requires 0 <= i < |s.notes| => NotePlan(s, s.notes[i]))
  }

  function Flat<T>(parts: seq<seq<T>>): seq<T>
    decreases |parts|
  {
    if parts == [] then [] else Flat(parts[..|parts| - 1]) + parts[|parts| - 1]
  }

  ghost function Links(s: Scan): seq<Link> {
    Flat(Flat(ScanPlan(s)))
  }

  lemma {:induction false} FlatHolds<T>(parts: seq<seq<T>>, x: T)
    ensures x in Flat(parts) <==> exists part <- parts :: x in part
    decreases |parts|
  {
    if parts != [] {
      FlatHolds(parts[..|parts| - 1], x);
      assert parts == parts[..|parts| - 1] + [parts[|parts| - 1]];
    }
  }

  lemma {:induction false} FlatBoth<T>(left: seq<seq<T>>, right: seq<seq<T>>)
    ensures Flat(left + right) == Flat(left) + Flat(right)
    decreases |right|
  {
    if right == [] {
      assert left + right == left;
    } else {
      FlatBoth(left, right[..|right| - 1]);
      assert (left + right)[..|left + right| - 1] == left + right[..|right| - 1];
    }
  }

  lemma FlatStep<T>(parts: seq<seq<T>>, i: nat)
    requires i < |parts|
    ensures Flat(parts[..i + 1]) == Flat(parts[..i]) + parts[i]
  {
    assert parts[..i + 1][..i] == parts[..i];
  }

  lemma PairsOfBoth(left: seq<Link>, right: seq<Link>)
    ensures PairsOf(left + right) == PairsOf(left) + PairsOf(right)
  {
  }

  lemma LinkIsPlanned(s: Scan, link: Link)
    ensures link in Links(s) <==> exists n <- s.notes, r <- n.refs :: link in RefLinks(s, n, r)
  {
    var plan := ScanPlan(s);
    FlatHolds(Flat(plan), link);
    forall part: seq<Link> {
      FlatHolds(plan, part);
    }
    if link in Links(s) {
      var part :| part in Flat(plan) && link in part;
      FlatHolds(plan, part);
      var parts :| parts in plan && part in parts;
      var i :| 0 <= i < |plan| && plan[i] == parts;
      var j :| 0 <= j < |parts| && parts[j] == part;
      assert s.notes[i] in s.notes && s.notes[i].refs[j] in s.notes[i].refs;
    }
    forall n <- s.notes, r <- n.refs | link in RefLinks(s, n, r) ensures link in Links(s) {
      var i :| 0 <= i < |s.notes| && s.notes[i] == n;
      var j :| 0 <= j < |n.refs| && n.refs[j] == r;
      assert plan[i] in plan && plan[i][j] in plan[i];
      FlatHolds(plan, plan[i][j]);
    }
  }

  /** The links added one by one are, as pairs, exactly those the scan supports. */
  lemma LinksAreDesired(s: Scan)
    ensures PairsOf(Links(s)) == AllDesired(s)
  {
    forall p <- PairsOf(Links(s)) ensures p in AllDesired(s) {
      var link :| link in Links(s) && PairKey(link.0, link.1) == p;
      LinkIsPlanned(s, link);
      var n, r :| n in s.notes && r in n.refs && link in RefLinks(s, n, r);
      assert p in PairsOf(RefLinks(s, n, r));
    }
    forall p <- AllDesired(s) ensures p in PairsOf(Links(s)) {
      var n, r :| n in s.notes && r in n.refs && p in Supported(s, n, r);
      assert p in PairsOf(RefLinks(s, n, r));
      var link :| link in RefLinks(s, n, r) && PairKey(link.0, link.1) == p;
      LinkIsPlanned(s, link);
    }
  }

  // ---------- what a run leaves ----------

  /** The live pairs of this importer after a complete run. */
  function Reconciled(s: Scan, live: set<Pair>): set<Pair> {
    AllDesired(s) + set p | p in live && !Touches(s, p)
  }

  /** Live pairs of a current source that no note supports. */
  function Unsupported(s: Scan, rows: seq<Row>): set<Pair> {
    set p | p in LivePairs(rows) && Touches(s, p) && p !in AllDesired(s)
  }

  /** The table after a complete run. */
  ghost function Outcome(s: Scan, rows: seq<Row>): seq<Row> {
    var linked := AddAll(rows, Links(s));
    RetireAll(linked, Unsupported(s, linked))
  }

  /** What an interrupted run can leave: some supported pairs added, some unsupported ones of a
      current source retired. */
  predicate Between(s: Scan, before: set<Pair>, after: set<Pair>) {
    && after <= before + AllDesired(s)
    && forall p <- before | p !in after :: Touches(s, p) && p !in AllDesired(s)
  }

  // ---------- properties of a complete run ----------

  /** What a run leaves live: every supported pair, and every earlier pair unless it touches a
      current source and has no support. */
  lemma OutcomeIsReconciled(s: Scan, rows: seq<Row>)
    ensures LivePairs(Outcome(s, rows)) == Reconciled(s, LivePairs(rows))
    ensures forall p :: p in LivePairs(rows) - LivePairs(Outcome(s, rows)) <==> p in Unsupported(s, rows)
  {
    var linked := AddAll(rows, Links(s));
    LinksAreDesired(s);
    AddAllAddsThePairs(rows, Links(s));
    RetireAllRemovesThePairs(linked, Unsupported(s, linked));
  }

  /** Wherever an earlier run was interrupted, a complete run converges to the same links. */
  lemma InterruptionIsForgotten(s: Scan, before: seq<Row>, after: seq<Row>)
    requires Between(s, LivePairs(before), LivePairs(after))
    ensures LivePairs(Outcome(s, after)) == LivePairs(Outcome(s, before))
  {
    OutcomeIsReconciled(s, before);
    OutcomeIsReconciled(s, after);
    forall p | p in LivePairs(before) && !Touches(s, p) ensures p in LivePairs(after) {
    }
    forall p <- AllDesired(s) ensures Touches(s, p) {
      DesiredPairsTouch(s, p);
    }
  }

  lemma DesiredPairsTouch(s: Scan, p: Pair)
    requires p in AllDesired(s)
    ensures Touches(s, p)
  {
    var n, r :| n in s.notes && r in n.refs && p in Supported(s, n, r);
    assert s.memory[n.path] in CurrentSources(s);
  }

  /** The order in which the notes are visited is irrelevant. */
  lemma OrderIsIrrelevant(s: Scan, t: Scan)
    requires s.memory == t.memory && s.keysOf == t.keysOf && forall n :: n in s.notes <==> n in t.notes
    ensures AllDesired(s) == AllDesired(t) && CurrentSources(s) == CurrentSources(t)
    ensures forall live :: Reconciled(s, live) == Reconciled(t, live)
  {
    forall n <- s.notes, r <- n.refs ensures Supported(s, n, r) == Supported(t, n, r) {
      SameCandidates(s, t, r.paths);
      assert NameMatches(s, r.stem) == NameMatches(t, r.stem);
    }
  }

  lemma {:induction false} SameCandidates(s: Scan, t: Scan, paths: seq<Key>)
    requires s.keysOf == t.keysOf && forall n :: n in s.notes <==> n in t.notes
    ensures FirstExact(s, paths) == FirstExact(t, paths)
  {
    if paths != [] {
      assert ExactMatches(s, paths[0]) == ExactMatches(t, paths[0]);
      SameCandidates(s, t, paths[1..]);
    }
  }

  // ---------- a second run writes nothing ----------

  /** The row for this triple is the one a repeated `add_link` would find and leave alone. */
  predicate Settled(rows: seq<Row>, a: MemoryId, b: MemoryId, relation: Relation) {
    var i := LastLive(rows, a, b, relation);
    i >= 0 && rows[i].mine && rows[i].semantic
  }

  lemma AddedIsSettled(rows: seq<Row>, link: Link)
    ensures Settled(AddLink(rows, link.0, link.1, link.2), link.0, link.1, link.2)
  {
  }

  lemma AddingKeepsSettled(rows: seq<Row>, link: Link, other: Link)
    requires Settled(rows, other.0, other.1, other.2)
    ensures Settled(AddLink(rows, link.0, link.1, link.2), other.0, other.1, other.2)
  {
    var i := LastLive(rows, other.0, other.1, other.2);
    var k := LastLive(rows, link.0, link.1, link.2);
    var rows' := AddLink(rows, link.0, link.1, link.2);
    if k != i {
      assert Matches(rows'[i], other.0, other.1, other.2);
    }
  }

  lemma {:induction false} AllAddedAreSettled(rows: seq<Row>, links: seq<Link>, link: Link)
    requires link in links
    ensures Settled(AddAll(rows, links), link.0, link.1, link.2)
    decreases |links|
  {
    var but, last := links[..|links| - 1], links[|links| - 1];
    if link == last {
      AddedIsSettled(AddAll(rows, but), last);
    } else {
      assert links == but + [last];
      AllAddedAreSettled(rows, but, link);
      AddingKeepsSettled(AddAll(rows, but), last, link);
    }
  }

  lemma RetiringOthersKeepsSettled(rows: seq<Row>, pairs: set<Pair>, link: Link)
    requires Settled(rows, link.0, link.1, link.2) && PairKey(link.0, link.1) !in pairs
    ensures Settled(RetireAll(rows, pairs), link.0, link.1, link.2)
  {
    var i := LastLive(rows, link.0, link.1, link.2);
    assert Matches(RetireAll(rows, pairs)[i], link.0, link.1, link.2);
  }

  lemma {:induction false} AddingSettledIsNothing(rows: seq<Row>, links: seq<Link>)
    requires forall link <- links :: Settled(rows, link.0, link.1, link.2)
    ensures AddAll(rows, links) == rows
    decreases |links|
  {
    if links != [] {
      assert links[|links| - 1] in links;
      AddingSettledIsNothing(rows, links[..|links| - 1]);
    }
  }

  /** A rerun over an unchanged scan leaves every row of the table as it is. */
  lemma RerunChangesNothing(s: Scan, rows: seq<Row>)
    ensures Outcome(s, Outcome(s, rows)) == Outcome(s, rows)
  {
    var linked, outcome := AddAll(rows, Links(s)), Outcome(s, rows);
    LinksAreDesired(s);
    forall link <- Links(s) ensures Settled(outcome, link.0, link.1, link.2) {
      AllAddedAreSettled(rows, Links(s), link);
      assert PairKey(link.0, link.1) in AllDesired(s);
      RetiringOthersKeepsSettled(linked, Unsupported(s, linked), link);
    }
    AddingSettledIsNothing(outcome, Links(s));
    OutcomeIsReconciled(s, rows);
    RetireNone(outcome, Unsupported(s, outcome));
  }

  lemma RetireNone(rows: seq<Row>, pairs: set<Pair>)
    requires pairs == {}
    ensures RetireAll(rows, pairs) == rows
  {
  }

  // ---------- what a link means ----------

  /** Some note can be referred to by this key as its path. */
  predicate Answers(s: Scan, k: Key, path: Path) {
    exists n <- s.notes :: n.path == path && k in s.keysOf(path)
  }

  /** Some note has this stem, title or alias. */
  predicate IsNamed(s: Scan, k: Key, path: Path) {
    exists n <- s.notes :: n.path == path && k in n.names
  }

  predicate Unanswered(s: Scan, k: Key) {
    forall n <- s.notes :: !Answers(s, k, n.path)
  }

  /** The `k`-th candidate path is the first that any note answers to. */
  predicate PathDecides(s: Scan, r: Ref, k: nat) {
    && k < |r.paths| && !Unanswered(s, r.paths[k])
    && forall j :: 0 <= j < k ==> Unanswered(s, r.paths[j])
  }

  /** No candidate path is answered to, so the stem decides. */
  predicate StemDecides(s: Scan, r: Ref) {
    r.paths != [] && forall k <- r.paths :: Unanswered(s, k)
  }

  predicate RefersTo(s: Scan, r: Ref, path: Path) {
    || (exists k :: 0 <= k < |r.paths| && PathDecides(s, r, k) && Answers(s, r.paths[k], path))
    || (StemDecides(s, r) && IsNamed(s, r.stem, path))
  }

  lemma MatchesAre(s: Scan, k: Key)
    ensures forall path :: path in ExactMatches(s, k) <==> Answers(s, k, path)
    ensures forall path :: path in NameMatches(s, k) <==> IsNamed(s, k, path)
    ensures ExactMatches(s, k) == {} <==> Unanswered(s, k)
  {
    if path :| path in ExactMatches(s, k) {
      assert Answers(s, k, path);
    }
  }

  lemma {:induction false} FirstExactIsThe(s: Scan, paths: seq<Key>, k: nat)
    requires k < |paths| && ExactMatches(s, paths[k]) != {}
    requires forall j :: 0 <= j < k ==> ExactMatches(s, paths[j]) == {}
    ensures FirstExact(s, paths) == ExactMatches(s, paths[k])
  {
    if k > 0 {
      FirstExactIsThe(s, paths[1..], k - 1);
    }
  }

  lemma {:induction false} NoExactMatch(s: Scan, paths: seq<Key>)
    requires forall k <- paths :: ExactMatches(s, k) == {}
    ensures FirstExact(s, paths) == {}
  {
    if paths != [] {
      assert paths[0] in paths;
      NoExactMatch(s, paths[1..]);
    }
  }

  /** Either one position decides or the stem does, or there is nothing to look for. */
  lemma {:induction false} WhatDecides(s: Scan, r: Ref) returns (k: nat)
    ensures k <= |r.paths| && (k < |r.paths| ==> PathDecides(s, r, k))
    ensures k == |r.paths| ==> forall key <- r.paths :: Unanswered(s, key)
  {
    k := 0;
    while k < |r.paths| && Unanswered(s, r.paths[k])
      invariant k <= |r.paths| && forall j :: 0 <= j < k ==> Unanswered(s, r.paths[j])
    {
      k := k + 1;
    }
  }

  /** What a reference names: the notes answering to its first answered path, and only when none is answered,
      the notes with its stem. */
  lemma CandidatesAre(s: Scan, r: Ref, path: Path)
    ensures path in Candidates(s, r) <==> RefersTo(s, r, path)
  {
    var k := WhatDecides(s, r);
    MatchesAre(s, r.stem);
    forall key <- r.paths {
      MatchesAre(s, key);
    }
    if k < |r.paths| {
      FirstExactIsThe(s, r.paths, k);
      OnePathDecides(s, r, k, path);
    } else {
      NoExactMatch(s, r.paths);
    }
  }

  lemma OnePathDecides(s: Scan, r: Ref, k: nat, path: Path)
    requires PathDecides(s, r, k)
    ensures RefersTo(s, r, path) <==> Answers(s, r.paths[k], path)
  {
    assert r.paths[k] in r.paths && !StemDecides(s, r);
    if j :| 0 <= j < |r.paths| && PathDecides(s, r, j) && Answers(s, r.paths[j], path) {
      assert j == k;
    }
  }

  /** The reference names exactly this note. */
  ghost predicate NamesOnly(s: Scan, r: Ref, path: Path) {
    RefersTo(s, r, path) && forall other :: RefersTo(s, r, other) ==> other == path
  }

  /** The pair is the one the reference of the note stands for: its own memory and another one's. */
  ghost predicate StandsFor(s: Scan, n: Note, r: Ref, p: Pair) {
    exists path <- s.memory ::
      n.path in s.memory && NamesOnly(s, r, path) && s.memory[path] != s.memory[n.path]
      && p == PairKey(s.memory[n.path], s.memory[path])
  }

  lemma SupportedIs(s: Scan, n: Note, r: Ref, p: Pair)
    ensures p in Supported(s, n, r) <==> StandsFor(s, n, r, p)
  {
    forall path {
      CandidatesAre(s, r, path);
    }
    if p in Supported(s, n, r) {
      var path :| path in Candidates(s, r) && Supports(s, n, r, path)
                  && p == PairKey(s.memory[n.path], s.memory[path]);
      assert NamesOnly(s, r, path);
    }
    if StandsFor(s, n, r, p) {
      var path :| path in s.memory && n.path in s.memory && NamesOnly(s, r, path)
                  && s.memory[path] != s.memory[n.path] && p == PairKey(s.memory[n.path], s.memory[path]);
      assert Candidates(s, r) == {path};
    }
  }

  /** After a complete run a pair is linked exactly when a reference of a note stands for it, or it was linked
      before and neither end is the memory of a note of the scan. */
  lemma LinkedExactlyWhen(s: Scan, rows: seq<Row>, p: Pair)
    ensures p in LivePairs(Outcome(s, rows)) <==>
              || (exists n <- s.notes, r <- n.refs :: StandsFor(s, n, r, p))
              || (p in LivePairs(rows)
                  && forall n <- s.notes :: n.path in s.memory ==> s.memory[n.path] !in {p.0, p.1})
  {
    OutcomeIsReconciled(s, rows);
    forall n <- s.notes, r <- n.refs ensures p in Supported(s, n, r) <==> StandsFor(s, n, r, p) {
      SupportedIs(s, n, r, p);
    }
    assert p in AllDesired(s) <==> exists n <- s.notes, r <- n.refs :: p in Supported(s, n, r);
  }

  /** When one note with another memory answers to the first answered path of a reference, the two are linked. */
  lemma PathReferenceLinks(s: Scan, rows: seq<Row>, n: Note, r: Ref, k: nat, path: Path)
    requires n in s.notes && r in n.refs && n.path in s.memory && PathDecides(s, r, k)
    requires Answers(s, r.paths[k], path) && forall other :: Answers(s, r.paths[k], other) ==> other == path
    requires path in s.memory && s.memory[path] != s.memory[n.path]
    ensures PairKey(s.memory[n.path], s.memory[path]) in LivePairs(Outcome(s, rows))
  {
    forall other {
      OnePathDecides(s, r, k, other);
    }
    assert StandsFor(s, n, r, PairKey(s.memory[n.path], s.memory[path]));
    LinkedExactlyWhen(s, rows, PairKey(s.memory[n.path], s.memory[path]));
  }

  /** A reference whose first answered path two notes answer to stands for nothing, whatever its stem. */
  lemma AmbiguousPathLinksNothing(s: Scan, n: Note, r: Ref, k: nat, one: Path, two: Path, p: Pair)
    requires PathDecides(s, r, k) && Answers(s, r.paths[k], one) && Answers(s, r.paths[k], two) && one != two
    ensures !StandsFor(s, n, r, p)
  {
    OnePathDecides(s, r, k, one);
    OnePathDecides(s, r, k, two);
  }

  /** The stem is looked at exactly when no candidate path is answered to. */
  lemma StemLooksUp(s: Scan, r: Ref, path: Path)
    requires r.paths != []
    ensures StemDecides(s, r) <==> !exists k :: 0 <= k < |r.paths| && PathDecides(s, r, k)
    ensures StemDecides(s, r) ==> (RefersTo(s, r, path) <==> IsNamed(s, r.stem, path))
  {
    var k := WhatDecides(s, r);
    if k < |r.paths| {
      assert r.paths[k] in r.paths;
    }
  }

  /** Rows are only ever ended or added. */
  predicate OnlyEnds(before: seq<Row>, after: seq<Row>) {
    && |before| <= |after|
    && forall i :: 0 <= i < |before| ==>
         after[i].(live := before[i].live) == before[i] && (after[i].live ==> before[i].live)
  }

  /** No pair has two live rows of one relation. */
  predicate OneLiveRow(rows: seq<Row>) {
    forall i, j :: 0 <= i < j < |rows| && rows[i].live && rows[j].live && rows[i].relation == rows[j].relation ==>
      !Joins(rows[j], rows[i].a, rows[i].b)
  }

  lemma AddingKeepsHistory(rows: seq<Row>, a: MemoryId, b: MemoryId, relation: Relation)
    ensures OnlyEnds(rows, AddLink(rows, a, b, relation))
    ensures OneLiveRow(rows) ==> OneLiveRow(AddLink(rows, a, b, relation))
    ensures forall i :: 0 <= i < |rows| && !Matches(rows[i], a, b, relation) ==>
              AddLink(rows, a, b, relation)[i] == rows[i]
  {
    var i := LastLive(rows, a, b, relation);
    var rows' := AddLink(rows, a, b, relation);
    if OneLiveRow(rows) && |rows'| > |rows| {
      forall j | 0 <= j < |rows| && rows'[j].live && rows'[j].relation == relation
        ensures !Joins(rows'[|rows|], rows'[j].a, rows'[j].b)
      {
        assert rows'[j] == rows[j] && j != i;
        if j < i {
          assert !Joins(rows[i], rows[j].a, rows[j].b);
        }
      }
    }
  }

  lemma {:induction false} AddingAllKeepsHistory(rows: seq<Row>, links: seq<Link>)
    ensures OnlyEnds(rows, AddAll(rows, links)) && (OneLiveRow(rows) ==> OneLiveRow(AddAll(rows, links)))
    ensures forall i :: 0 <= i < |rows| && PairKey(rows[i].a, rows[i].b) !in PairsOf(links) ==>
              AddAll(rows, links)[i] == rows[i]
    decreases |links|
  {
    if links != [] {
      var but, last := links[..|links| - 1], links[|links| - 1];
      AddingAllKeepsHistory(rows, but);
      AddingKeepsHistory(AddAll(rows, but), last.0, last.1, last.2);
      assert links == but + [last];
      assert PairsOf(links) == PairsOf(but) + {PairKey(last.0, last.1)};
    }
  }

  /** A run ends rows and adds rows and does nothing else to the table; the rows of other importers, of pairs the
      notes do not ask for, and those no longer live stay as they are. */
  lemma OthersAreLeftAlone(s: Scan, rows: seq<Row>, i: nat)
    requires i < |rows|
    ensures OnlyEnds(rows, Outcome(s, rows)) && (OneLiveRow(rows) ==> OneLiveRow(Outcome(s, rows)))
    ensures !rows[i].mine && PairKey(rows[i].a, rows[i].b) !in AllDesired(s) ==> Outcome(s, rows)[i] == rows[i]
    ensures !rows[i].live ==> Outcome(s, rows)[i] == rows[i]
  {
    AddingAllKeepsHistory(rows, Links(s));
    LinksAreDesired(s);
  }

  /** The row that links two notes says whether the reference embeds its target. */
  lemma RelationIsKept(s: Scan, rows: seq<Row>, n: Note, r: Ref, path: Path)
    requires n in s.notes && r in n.refs && n.path in s.memory && path in s.memory
    requires NamesOnly(s, r, path) && s.memory[path] != s.memory[n.path]
    ensures exists row <- Outcome(s, rows) ::
              && row.live && row.mine && row.semantic && row.relation == (if r.embedded then Embeds else References)
              && PairKey(row.a, row.b) == PairKey(s.memory[n.path], s.memory[path])
  {
    var link := (s.memory[n.path], s.memory[path], if r.embedded then Embeds else References);
    var linked := AddAll(rows, Links(s));
    LinkOfReference(s, n, r, path);
    LinkIsPlanned(s, link);
    LinksAreDesired(s);
    AllAddedAreSettled(rows, Links(s), link);
    assert PairKey(link.0, link.1) in AllDesired(s);
    RetiringOthersKeepsSettled(linked, Unsupported(s, linked), link);
    var row := Outcome(s, rows)[LastLive(Outcome(s, rows), link.0, link.1, link.2)];
    assert row in Outcome(s, rows);
  }

  lemma LinkOfReference(s: Scan, n: Note, r: Ref, path: Path)
    requires n.path in s.memory && path in s.memory && NamesOnly(s, r, path) && s.memory[path] != s.memory[n.path]
    ensures RefLinks(s, n, r) == [(s.memory[n.path], s.memory[path], if r.embedded then Embeds else References)]
  {
    forall other {
      CandidatesAre(s, r, other);
    }
    assert Candidates(s, r) == {path};
  }

  // ---------- the run ----------

  ghost predicate Indexes(s: Scan, count: nat, exact: map<Key, set<Path>>, names: map<Key, set<Path>>)
    requires count <= |s.notes|
  {
    && (forall k :: Entry(exact, k) == ExactAmong(s.notes[..count], s.keysOf, k))
    && (forall k :: Entry(names, k) == NamesAmong(s.notes[..count], k))
    && (forall k <- exact :: exact[k] != {})
  }

  lemma OneMoreIndexed(s: Scan, count: nat, exact: map<Key, set<Path>>, names: map<Key, set<Path>>)
    requires count < |s.notes| && Indexes(s, count, exact, names)
    ensures
      var n := s.notes[count];
      Indexes(s, count + 1, AddPath(exact, s.keysOf(n.path), n.path), AddPath(names, n.names, n.path))
  {
    var n := s.notes[count];
    assert s.notes[..count + 1] == s.notes[..count] + [n];
    forall k
      ensures Entry(AddPath(exact, s.keysOf(n.path), n.path), k) == ExactAmong(s.notes[..count + 1], s.keysOf, k)
    {
      assert Entry(exact, k) == ExactAmong(s.notes[..count], s.keysOf, k);
    }
    forall k ensures Entry(AddPath(names, n.names, n.path), k) == NamesAmong(s.notes[..count + 1], k) {
      assert Entry(names, k) == NamesAmong(s.notes[..count], k);
    }
  }

  /** The two lookup tables of the run, filled note by note. */
  method BuildIndex(s: Scan) returns (exact: map<Key, set<Path>>, names: map<Key, set<Path>>)
    ensures IsIndex(s, exact, names)
  {
    exact, names := map[], map[];
    var i := 0;
    while i < |s.notes|
      invariant 0 <= i <= |s.notes|
      invariant Indexes(s, i, exact, names)
    {
      var n := s.notes[i];
      OneMoreIndexed(s, i, exact, names);
      exact := AddPath(exact, s.keysOf(n.path), n.path);
      names := AddPath(names, n.names, n.path);
      i := i + 1;
    }
    assert s.notes[..i] == s.notes;
  }

  function Entry(table: map<Key, set<Path>>, k: Key): set<Path> {
    if k in table then table[k] else {}
  }

  ghost predicate IsIndex(s: Scan, exact: map<Key, set<Path>>, names: map<Key, set<Path>>) {
    && (forall k :: Entry(exact, k) == ExactMatches(s, k))
    && (forall k :: Entry(names, k) == NameMatches(s, k))
    && (forall k <- exact :: exact[k] != {})
  }

  function AddPath(table: map<Key, set<Path>>, keys: set<Key>, path: Path): (r: map<Key, set<Path>>)
    ensures forall k :: Entry(r, k) == if k in keys then Entry(table, k) + {path} else Entry(table, k)
    ensures (forall k <- table :: table[k] != {}) ==> forall k <- r :: r[k] != {}
  {
    map k | k in table.Keys + keys :: if k in keys then Entry(table, k) + {path} else Entry(table, k)
  }

  method Resolve(s: Scan, exact: map<Key, set<Path>>, names: map<Key, set<Path>>, r: Ref)
    returns (candidates: set<Path>)
    requires IsIndex(s, exact, names)
    ensures candidates == Candidates(s, r)
  {
    candidates := {};
    var i := 0;
    while i < |r.paths|
      invariant 0 <= i <= |r.paths|
      invariant candidates == {}
      invariant FirstExact(s, r.paths) == FirstExact(s, r.paths[i..])
    {
      assert Entry(exact, r.paths[i]) == ExactMatches(s, r.paths[i]);
      if r.paths[i] in exact {
        candidates := exact[r.paths[i]];
        break;
      }
      i := i + 1;
    }
    if candidates == {} && r.paths != [] {
      assert Entry(names, r.stem) == NameMatches(s, r.stem);
      candidates := Entry(names, r.stem);
    }
  }

  /** One connection to the shared database.  `stops` says at which of its steps the run is
      cancelled, fails or is killed. */
  class LinkStore {
    var committed: seq<Row>
    var working: seq<Row>
    var open: bool
    var writes: nat
    var clock: nat
    const stops: nat -> bool

    /** Outside a batch nothing is pending, and a batch never grows to 128 writes. */
    ghost predicate Valid()
      reads this
    {
      (!open ==> working == committed) && writes < 128
    }

    constructor (rows: seq<Row>, stops: nat -> bool)
      ensures Valid() && committed == rows && !open && clock == 0 && this.stops == stops
    {
      committed, working, open, writes, clock := rows, rows, false, 0, 0;
      this.stops := stops;
    }

    /** A cancellation check, or the point at which a write fails or the process dies: what was
        not committed is gone. */
    method Continue() returns (ok: bool)
      requires Valid()
      modifies this
      ensures Valid() && ok == !stops(old(clock)) && clock == old(clock) + 1
      ensures committed == old(committed) && writes == old(writes)
      ensures ok ==> working == old(working) && open == old(open)
      ensures !ok ==> working == committed && !open
    {
      ok := !stops(clock);
      clock := clock + 1;
      if !ok {
        working, open := committed, false;
      }
    }

    method Flush()
      requires !open ==> working == committed
      modifies this
      ensures Valid() && working == old(working) && committed == working && !open
      ensures clock == old(clock)
    {
      if open {
        committed := working;
      }
      open, writes := false, 0;
    }

    method Link(a: MemoryId, b: MemoryId, relation: Relation)
      requires Valid()
      modifies this
      ensures Valid() && clock == old(clock)
      ensures working == AddLink(old(working), a, b, relation)
      ensures committed == old(committed) || committed == working
    {
      open := true;
      working := AddLink(working, a, b, relation);
      writes := writes + 1;
      if writes >= 128 {
        Flush();
      }
    }

    method Retire(p: Pair)
      requires Valid()
      modifies this
      ensures Valid() && clock == old(clock)
      ensures working == RetirePair(old(working), p)
      ensures committed == old(committed) || committed == working
    {
      open := true;
      ghost var before := working;
      writes := writes
        + |set i | 0 <= i < |working| && working[i].mine && working[i].live && Joins(working[i], p.0, p.1)|;
      working := RetirePair(working, p);
      if writes >= 128 {
        Flush();
      }
    }

    /** The run ended at a stop: nothing uncommitted is left. */
    ghost predicate Stopped()
      reads this
    {
      Valid() && !open && clock > 0 && stops(clock - 1)
    }

    /** Where the linking phase stands after `links`. */
    ghost predicate Linked(sources: set<MemoryId>, rows: seq<Row>, links: seq<Link>,
                           desired: set<Pair>, retire: set<Pair>)
      reads this
    {
      && Valid()
      && working == AddAll(rows, links)
      && desired == PairsOf(links)
      && (forall p <- retire :: p.0 <= p.1 && (p.0 in sources || p.1 in sources))
      && LivePairs(rows) <= LivePairs(committed) <= LivePairs(rows) + desired
    }

    /** One reference: a single candidate is linked, anything else is marked for retirement. */
    method LinkReference(s: Scan, exact: map<Key, set<Path>>, names: map<Key, set<Path>>, n: Note, r: Ref,
                         desired0: set<Pair>, retire0: set<Pair>,
                         ghost sources: set<MemoryId>, ghost rows: seq<Row>,
                         ghost links: seq<Link>, ghost part: seq<Link>)
      returns (desired: set<Pair>, retire: set<Pair>)
      requires n.path in s.memory && s.memory[n.path] in sources && part == RefLinks(s, n, r)
      requires IsIndex(s, exact, names)
      requires Linked(sources, rows, links, desired0, retire0)
      modifies this
      ensures Linked(sources, rows, links + part, desired, retire)
    {
      var source := s.memory[n.path];
      desired, retire := desired0, retire0;
      var candidates := Resolve(s, exact, names, r);
      if |candidates| != 1 {
        retire := retire + MarkedBy(s, source, r, candidates);
        assert links + [] == links;
      } else {
        var t :| t in candidates;
        OneCandidate(s, n, r, t);
        if t in s.memory && s.memory[t] != source {
          ghost var link := (source, s.memory[t], if r.embedded then Embeds else References);
          OneMoreLink(rows, links, link);
          desired := desired + {PairKey(source, s.memory[t])};
          Link(source, s.memory[t], if r.embedded then Embeds else References);
          AddAllAddsThePairs(rows, links + [link]);
          assert RefLinks(s, n, r) == [link];
        } else {
          assert links + [] == links;
        }
      }
    }

    /** The references of one note; `parts` are the links each of them supports. */
    method LinkNote(s: Scan, exact: map<Key, set<Path>>, names: map<Key, set<Path>>, n: Note,
                    desired0: set<Pair>, retire0: set<Pair>,
                    ghost sources: set<MemoryId>, ghost rows: seq<Row>,
                    ghost links: seq<Link>, ghost parts: seq<seq<Link>>)
      returns (completed: bool, desired: set<Pair>, retire: set<Pair>)
      requires n.path in s.memory && s.memory[n.path] in sources
      requires |parts| == |n.refs| && forall j :: 0 <= j < |parts| ==> parts[j] == RefLinks(s, n, n.refs[j])
      requires IsIndex(s, exact, names)
      requires Linked(sources, rows, links, desired0, retire0)
      modifies this
      ensures completed ==> Linked(sources, rows, links + Flat(parts), desired, retire)
      ensures !completed ==> Stopped()
      ensures !completed ==>
        LivePairs(rows) <= LivePairs(committed) <= LivePairs(rows) + PairsOf(links + Flat(parts))
    {
      desired, retire := desired0, retire0;
      var i := 0;
      ghost var done := links;
      assert links == links + Flat(parts[..0]);
      while i < |n.refs|
        invariant 0 <= i <= |n.refs|
        invariant done == links + Flat(parts[..i])
        invariant Linked(sources, rows, done, desired, retire)
      {
        PartOfAll(links, parts, i);
        completed := Continue();
        if !completed {
          return;
        }
        desired, retire := LinkReference(s, exact, names, n, n.refs[i], desired, retire, sources, rows, done, parts[i]);
        done := done + parts[i];
        i := i + 1;
      }
      assert parts[..i] == parts;
      completed := true;
    }

    /** The walk over the notes, adding what they support. */
    method LinkAll(s: Scan, ghost plan: seq<seq<seq<Link>>>)
      returns (completed: bool, desired: set<Pair>, retire: set<Pair>)
      requires Valid() && !open
      requires plan == ScanPlan(s)
      modifies this
      ensures completed ==> Linked(CurrentSources(s), old(committed), Flat(Flat(plan)), desired, retire)
      ensures !completed ==> Stopped()
      ensures !completed ==>
        LivePairs(old(committed)) <= LivePairs(committed) <= LivePairs(old(committed)) + PairsOf(Flat(Flat(plan)))
    {
      var exact, names := BuildIndex(s);
      desired, retire := {}, {};
      var i := 0;
      ghost var sources, done := CurrentSources(s), [];
      while i < |s.notes|
        invariant 0 <= i <= |s.notes|
        invariant done == Flat(Flat(plan[..i]))
        invariant Linked(sources, old(committed), done, desired, retire)
      {
        NoteOfAll(plan, i);
        completed := Continue();
        if !completed {
          return;
        }
        ghost var parts := NotePlan(s, s.notes[i]);
        if s.notes[i].path in s.memory {
          completed, desired, retire :=
            LinkNote(s, exact, names, s.notes[i], desired, retire, sources, old(committed), done, parts);
          if !completed {
            return;
          }
        } else {
          NothingToFlatten(parts);
          assert done + [] == done;
        }
        done := done + Flat(parts);
        i := i + 1;
      }
      assert plan[..i] == plan;
      completed := true;
    }

    /** The UPDATE for every pair still to retire. */
    method RetireEach(s: Scan, pairs: set<Pair>, ghost before: set<Pair>) returns (completed: bool)
      requires Valid()
      requires forall p <- pairs :: p.0 <= p.1 && Touches(s, p) && p !in AllDesired(s)
      requires Between(s, before, LivePairs(committed)) && Between(s, before, LivePairs(working))
      modifies this
      ensures completed ==> Valid() && working == RetireAll(old(working), pairs)
      ensures !completed ==> Stopped()
      ensures Between(s, before, LivePairs(committed))
    {
      var todo := pairs;
      assert working == RetireAll(working, pairs - todo);
      while todo != {}
        invariant Valid() && todo <= pairs
        invariant working == RetireAll(old(working), pairs - todo)
        invariant Between(s, before, LivePairs(committed))
      {
        completed := Continue();
        if !completed {
          return;
        }
        var p :| p in todo;
        OneMoreRetired(old(working), pairs - todo, p);
        assert pairs - todo + {p} == pairs - (todo - {p});
        todo := todo - {p};
        RetireAllRemovesThePairs(old(working), pairs - todo);
        Retire(p);
      }
      assert pairs - todo == pairs;
      completed := true;
    }

    /** `_reconcile_links`.  A manifest cut off by the paging bound is never reconciled against. */
    method Reconcile(s: Scan, manifestComplete: bool) returns (completed: bool)
      requires Valid() && !open && DistinctPaths(s)
      modifies this
      ensures completed ==> manifestComplete
      ensures completed ==> Valid() && !open && committed == working == Outcome(s, old(committed))
      ensures !manifestComplete ==> committed == working == old(committed)
      ensures manifestComplete && !completed ==>
                Stopped() && Between(s, LivePairs(old(committed)), LivePairs(committed))
    {
      if !manifestComplete {
        return false;
      }
      var desired, retire;
      completed, desired, retire := LinkAll(s, ScanPlan(s));
      LinksAreDesired(s);
      if !completed {
        return;
      }
      AddAllAddsThePairs(old(committed), Links(s));
      completed := RetireUnsupported(s, desired, retire, LivePairs(old(committed)));
    }

    /** Collects the unsupported live pairs of the current sources, and retires them together with
        the pairs marked during the walk. */
    method RetireUnsupported(s: Scan, desired: set<Pair>, marked: set<Pair>, ghost before: set<Pair>)
      returns (completed: bool)
      requires Valid() && desired == AllDesired(s)
      requires forall p <- marked :: Touches(s, p)
      requires forall p <- LivePairs(working) + marked :: p.0 <= p.1
      requires Between(s, before, LivePairs(committed)) && Between(s, before, LivePairs(working))
      modifies this
      ensures completed ==>
                Valid() && !open && committed == working == RetireAll(old(working), Unsupported(s, old(working)))
      ensures !completed ==> Stopped() && Between(s, before, LivePairs(committed))
    {
      var live := LivePairs(working);
      var retire := marked + set p | p in live && Touches(s, p) && p !in desired;
      assert (retire - desired) * live == Unsupported(s, working);
      OnlyLivePairsMatter(working, retire - desired);
      OnlyLivePairsMatter(working, Unsupported(s, working));
      completed := RetireEach(s, retire - desired, before);
      if completed {
        Flush();
      }
    }
  }

  lemma PartOfAll(links: seq<Link>, parts: seq<seq<Link>>, i: nat)
    requires i < |parts|
    ensures links + Flat(parts[..i]) + parts[i] == links + Flat(parts[..i + 1])
    ensures PairsOf(links + Flat(parts[..i])) <= PairsOf(links + Flat(parts))
  {
    FlatStep(parts, i);
    FlatSplit(parts, i);
    Regrouped(links, Flat(parts[..i]), parts[i]);
    FirstPairs(links, Flat(parts[..i]), Flat(parts[i..]));
  }

  lemma FlatSplit<T>(parts: seq<seq<T>>, i: nat)
    requires i <= |parts|
    ensures Flat(parts) == Flat(parts[..i]) + Flat(parts[i..])
  {
    FlatBoth(parts[..i], parts[i..]);
    assert parts[..i] + parts[i..] == parts;
  }

  lemma Regrouped<T>(a: seq<T>, b: seq<T>, c: seq<T>)
    ensures a + b + c == a + (b + c)
  {
  }

  lemma FirstPairs(links: seq<Link>, first: seq<Link>, second: seq<Link>)
    ensures PairsOf(links + first) <= PairsOf(links + (first + second))
  {
    PairsOfBoth(links, first);
    PairsOfBoth(first, second);
    PairsOfBoth(links, first + second);
  }

  lemma NoteOfAll(plan: seq<seq<seq<Link>>>, i: nat)
    requires i < |plan|
    ensures Flat(Flat(plan[..i])) + Flat(plan[i]) == Flat(Flat(plan[..i + 1]))
    ensures PairsOf(Flat(Flat(plan[..i]))) <= PairsOf(Flat(Flat(plan)))
    ensures PairsOf(Flat(Flat(plan[..i])) + Flat(plan[i])) <= PairsOf(Flat(Flat(plan)))
  {
    FlatStep(plan, i);
    FlatBoth(Flat(plan[..i]), plan[i]);
    FlatBoth(plan[..i + 1], plan[i + 1..]);
    assert plan[..i + 1] + plan[i + 1..] == plan;
    FlatBoth(Flat(plan[..i + 1]), Flat(plan[i + 1..]));
  }

  lemma {:induction false} NothingToFlatten(parts: seq<seq<Link>>)
    requires forall j :: 0 <= j < |parts| ==> parts[j] == []
    ensures Flat(parts) == []
    decreases |parts|
  {
    if parts != [] {
      NothingToFlatten(parts[..|parts| - 1]);
    }
  }

  lemma OneMoreLink(rows: seq<Row>, links: seq<Link>, link: Link)
    ensures AddAll(rows, links + [link]) == AddLink(AddAll(rows, links), link.0, link.1, link.2)
    ensures PairsOf(links + [link]) == PairsOf(links) + {PairKey(link.0, link.1)}
  {
    assert (links + [link])[..|links|] == links;
  }

  lemma NoSupport(s: Scan, n: Note, r: Ref)
    requires n.path !in s.memory || |Candidates(s, r)| != 1
    ensures Supported(s, n, r) == {}
  {
  }

  lemma OneCandidate(s: Scan, n: Note, r: Ref, t: Path)
    requires |Candidates(s, r)| == 1 && t in Candidates(s, r) && n.path in s.memory
    ensures Candidates(s, r) == {t}
    ensures Supported(s, n, r) ==
      if t in s.memory && s.memory[t] != s.memory[n.path] then {PairKey(s.memory[n.path], s.memory[t])} else {}
  {
    forall u <- Candidates(s, r) ensures u == t {
      assert |Candidates(s, r) - {t}| == 0;
      assert u !in Candidates(s, r) - {t};
    }
  }

  /** The pairs an ambiguous reference, or one that only old manifest paths answer to, marks for
      retirement. */
  function MarkedBy(s: Scan, source: MemoryId, r: Ref, candidates: set<Path>): (marked: set<Pair>)
    ensures forall p <- marked :: p.0 <= p.1 && (p.0 == source || p.1 == source)
  {
    var targets :=
      if candidates != {} then set t | t in candidates && t in s.memory :: s.memory[t]
      else set t, k | t in s.memory && k in r.paths && k in s.keysOf(t) :: s.memory[t];
    set t | t in targets && t != source :: PairKey(source, t)
  }
}
