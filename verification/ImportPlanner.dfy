/**
 The planner of `obsidian_import.py` (`_plan`): every scanned note is matched against the rows of
 the durable manifest, by path first and then, for rows whose path has vanished, by content.

 Paths, case-folded paths, source keys, hashes and ids are numbers; hash 0 is the empty hash.
 */
module ImportPlanner {
  import opened Prelude

  type Path = nat
  type Hash = nat
  type SourceKey = nat

  datatype State = Imported | Unchanged | Renamed | Skipped | Missing | Conflict | Other

  datatype Item = Item(id: nat, key: SourceKey, path: Path, hash: Hash, sameImporter: bool, state: State, seen: int)

  datatype Note = Note(path: Path, fold: nat, hash: Hash)

  datatype Action = Skip | Update | Rename | Import | Conflicted

  datatype Reason = Same | SourceChanged | LineageDiverged | UniqueMove | AmbiguousRename | NewSource

  datatype Plan = Plan(note: Note, action: Action, item: Option<Item>, reason: Reason)

  /** One planning call: the notes and rejected paths of the scan, whether a path lies under an
      unreadable directory, the manifest, and whether a row's memory is still the current one. */
  datatype Problem = Problem(notes: seq<Note>, rejected: set<Path>, unreadable: Path -> bool,
                             items: seq<Item>, inspect: bool, current: Item -> bool)

  /** What the scan and the store guarantee: one note a path, one row an id and a source key. */
  ghost predicate WellFormed(p: Problem) {
    && (forall i, j :: 0 <= i < j < |p.notes| ==> p.notes[i].path != p.notes[j].path)
    && (forall i, j :: 0 <= i < j < |p.items| ==> p.items[i].id != p.items[j].id && p.items[i].key != p.items[j].key)
  }

  // ---------- visiting order ----------

  /** Inserts after every note with an equal key, so sorting is stable. */
  function Insert(notes: seq<Note>, n: Note): (r: seq<Note>)
    ensures multiset(r) == multiset(notes) + multiset{n}
    decreases |notes|
  {
    if notes == [] || notes[|notes| - 1].fold <= n.fold then notes + [n]
    else
      var but, last := notes[..|notes| - 1], notes[|notes| - 1];
      assert notes == but + [last];
      Insert(but, n) + [last]
  }

  /** `sorted(scan.notes, key=casefolded path)`. */
  function Sorted(notes: seq<Note>): (r: seq<Note>)
    ensures multiset(r) == multiset(notes)
    decreases |notes|
  {
    if notes == [] then []
    else
      assert notes == notes[..|notes| - 1] + [notes[|notes| - 1]];
      Insert(Sorted(notes[..|notes| - 1]), notes[|notes| - 1])
  }

  predicate Ordered(notes: seq<Note>) {
    forall i, j :: 0 <= i < j < |notes| ==> notes[i].fold <= notes[j].fold
  }

  lemma {:induction false} InsertKeepsOrder(notes: seq<Note>, n: Note)
    requires Ordered(notes)
    ensures Ordered(Insert(notes, n))
    decreases |notes|
  {
    if notes != [] && notes[|notes| - 1].fold > n.fold {
      var but, last := notes[..|notes| - 1], notes[|notes| - 1];
      InsertKeepsOrder(but, n);
      InsertedBelow(but, n, last.fold);
    }
  }

  lemma InsertedBelow(notes: seq<Note>, n: Note, high: nat)
    requires n.fold <= high && forall i :: 0 <= i < |notes| ==> notes[i].fold <= high
    ensures forall i :: 0 <= i < |Insert(notes, n)| ==> Insert(notes, n)[i].fold <= high
  {
    var r := Insert(notes, n);
    forall i | 0 <= i < |r| ensures r[i].fold <= high {
      assert r[i] in multiset(r);
      assert r[i] in notes || r[i] == n;
    }
  }

  lemma {:induction false} SortedIsOrdered(notes: seq<Note>)
    ensures Ordered(Sorted(notes))
    decreases |notes|
  {
    if notes != [] {
      SortedIsOrdered(notes[..|notes| - 1]);
      InsertKeepsOrder(Sorted(notes[..|notes| - 1]), notes[|notes| - 1]);
    }
  }

  function OfFold(notes: seq<Note>, fold: nat): seq<Note>
    decreases |notes|
  {
    if notes == [] then []
    else OfFold(notes[..|notes| - 1], fold) + if notes[|notes| - 1].fold == fold then [notes[|notes| - 1]] else []
  }

  lemma OfFoldThen(notes: seq<Note>, n: Note, fold: nat)
    ensures OfFold(notes + [n], fold) == OfFold(notes, fold) + if n.fold == fold then [n] else []
  {
    assert (notes + [n])[..|notes|] == notes;
  }

  lemma {:induction false} InsertedLast(notes: seq<Note>, n: Note, fold: nat)
    ensures OfFold(Insert(notes, n), fold) == OfFold(notes, fold) + if n.fold == fold then [n] else []
    decreases |notes|
  {
    if notes == [] || notes[|notes| - 1].fold <= n.fold {
      OfFoldThen(notes, n, fold);
    } else {
      var but, last := notes[..|notes| - 1], notes[|notes| - 1];
      InsertedLast(but, n, fold);
      OfFoldThen(Insert(but, n), last, fold);
      OfFoldThen(but, last, fold);
      assert notes == but + [last];
    }
  }

  /** Notes whose paths differ only in case keep the order of the scan. */
  lemma {:induction false} SortingIsStable(notes: seq<Note>, fold: nat)
    ensures OfFold(Sorted(notes), fold) == OfFold(notes, fold)
    decreases |notes|
  {
    if notes != [] {
      SortingIsStable(notes[..|notes| - 1], fold);
      InsertedLast(Sorted(notes[..|notes| - 1]), notes[|notes| - 1], fold);
    }
  }

  // ---------- which row a note gets ----------

  predicate Later(a: Item, b: Item) {
    a.seen < b.seen || (a.seen == b.seen && a.id < b.id)
  }

  predicate IsNewest(rows: set<Item>, r: Item) {
    r in rows && forall q <- rows :: q == r || Later(q, r)
  }

  ghost function Newest(rows: set<Item>): Option<Item> {
    if exists r <- rows :: IsNewest(rows, r) then
      var r :| IsNewest(rows, r); Some(r)
    else None
  }

  function NotePaths(notes: seq<Note>): set<Path> {
    set n | n in notes :: n.path
  }

  /** Paths that must not be taken for vanished ones. */
  function ScanPaths(p: Problem): set<Path> {
    NotePaths(p.notes) + p.rejected + set r | r in p.items && p.unreadable(r.path) :: r.path
  }

  function AtPath(items: seq<Item>, path: Path): set<Item> {
    set r | r in items && r.path == path
  }

  function ExactRows(rows: set<Item>, hash: Hash): set<Item> {
    set r | r in rows && r.hash == hash && r.sameImporter && r.state != Conflict
  }

  function ActiveRows(rows: set<Item>): set<Item> {
    set r | r in rows && r.state in {Imported, Unchanged, Renamed, Skipped}
  }

  predicate CanMove(paths: set<Path>, r: Item) {
    r.path !in paths && r.hash != 0 && r.state != Conflict
  }

  function MovableAmong(items: seq<Item>, paths: set<Path>, hash: Hash): set<Item> {
    set r | r in items && CanMove(paths, r) && r.hash == hash
  }

  /** The vanished rows with this content. */
  function Movable(p: Problem, hash: Hash): set<Item> {
    MovableAmong(p.items, ScanPaths(p), hash)
  }

  function Unused(rows: set<Item>, used: set<SourceKey>): set<Item> {
    set r | r in rows && r.key !in used
  }

  ghost function PathRow(rows: set<Item>, hash: Hash): Option<Item> {
    if ExactRows(rows, hash) != {} then Newest(ExactRows(rows, hash))
    else if ActiveRows(rows) != {} then Newest(ActiveRows(rows))
    else Newest(rows)
  }

  function Claims(plan: Plan): set<SourceKey> {
    if plan.item.Some? then {plan.item.value.key} else {}
  }

  function Checked(p: Problem, n: Note, r: Item, action: Action, reason: Reason): Plan {
    if p.inspect && !p.current(r) then Plan(n, Conflicted, Some(r), LineageDiverged)
    else Plan(n, action, Some(r), reason)
  }

  /** The plan of a note with these rows at its path and these free rows to move. */
  ghost predicate PlanFrom(p: Problem, rows: set<Item>, moves: set<Item>, n: Note, plan: Plan) {
    match PathRow(rows, n.hash)
    case Some(r) =>
      if ExactRows(rows, n.hash) != {} then plan == Checked(p, n, r, Skip, Same)
      else plan == Checked(p, n, r, Update, SourceChanged)
    case None =>
      if |moves| == 1 then exists r <- moves :: plan == Checked(p, n, r, Rename, UniqueMove)
      else if |moves| > 1 then plan == Plan(n, Conflicted, None, AmbiguousRename)
      else plan == Plan(n, Import, None, NewSource)
  }

  /** The plan of one note when the rows in `used` are taken. */
  ghost predicate IsPlanFor(p: Problem, used: set<SourceKey>, n: Note, plan: Plan) {
    PlanFrom(p, AtPath(p.items, n.path), Unused(Movable(p, n.hash), used), n, plan)
  }

  function UsedBy(plans: seq<Plan>): set<SourceKey> {
    set i, k | 0 <= i < |plans| && k in Claims(plans[i]) :: k
  }

  /** The plans of a whole scan, in visiting order. */
  ghost predicate ArePlans(p: Problem, notes: seq<Note>, plans: seq<Plan>) {
    && |plans| == |notes|
    && forall i :: 0 <= i < |plans| ==> IsPlanFor(p, UsedBy(plans[..i]), notes[i], plans[i])
  }

  predicate IsMissing(p: Problem, used: set<SourceKey>, r: Item) {
    r.path !in ScanPaths(p) && r.key !in used && r.state !in {State.Missing, Conflict}
  }

  // ---------- the planning run ----------

  ghost predicate DistinctIds(rows: set<Item>) {
    forall a <- rows, b <- rows :: a.id == b.id ==> a == b
  }

  lemma NewestOfMore(rows: set<Item>, r: Item, q: Item)
    requires IsNewest(rows, r) && q.id != r.id
    ensures IsNewest(rows + {q}, if Later(r, q) then q else r)
  {
  }

  /** `_newest`: the maximum by (last seen, id). */
  method FindNewest(rows: set<Item>) returns (r: Option<Item>)
    requires DistinctIds(rows)
    ensures r == Newest(rows)
    ensures rows != {} ==> r.Some?
  {
    r := None;
    var todo := rows;
    while todo != {}
      invariant todo <= rows
      invariant r.None? ==> todo == rows
      invariant r.Some? ==> IsNewest(rows - todo, r.value)
    {
      var q :| q in todo;
      if r.Some? {
        NewestOfMore(rows - todo, r.value, q);
      }
      assert rows - (todo - {q}) == rows - todo + {q};
      if r.None? || Later(r.value, q) {
        r := Some(q);
      }
      todo := todo - {q};
    }
    assert rows - todo == rows;
  }

  function Entry(table: map<nat, set<Item>>, k: nat): set<Item> {
    if k in table then table[k] else {}
  }

  function Add(table: map<nat, set<Item>>, k: nat, r: Item): map<nat, set<Item>> {
    table[k := Entry(table, k) + {r}]
  }

  method IndexByPath(p: Problem) returns (byPath: map<Path, set<Item>>, paths: set<Path>)
    ensures forall path :: Entry(byPath, path) == AtPath(p.items, path)
    ensures paths == ScanPaths(p)
  {
    byPath, paths := map[], NotePaths(p.notes) + p.rejected;
    var i := 0;
    while i < |p.items|
      invariant 0 <= i <= |p.items|
      invariant forall path :: Entry(byPath, path) == AtPath(p.items[..i], path)
      invariant paths == NotePaths(p.notes) + p.rejected + set r | r in p.items[..i] && p.unreadable(r.path) :: r.path
    {
      var r := p.items[i];
      assert p.items[..i + 1] == p.items[..i] + [r];
      forall path ensures Entry(Add(byPath, r.path, r), path) == AtPath(p.items[..i + 1], path) {
        assert Entry(byPath, path) == AtPath(p.items[..i], path);
      }
      byPath := Add(byPath, r.path, r);
      if p.unreadable(r.path) {
        paths := paths + {r.path};
      }
      i := i + 1;
    }
    assert p.items[..i] == p.items;
  }

  lemma MovableGrows(items: seq<Item>, r: Item, paths: set<Path>, moves: map<Hash, set<Item>>)
    requires forall hash :: Entry(moves, hash) == MovableAmong(items, paths, hash)
    ensures forall hash ::
      Entry(if CanMove(paths, r) then Add(moves, r.hash, r) else moves, hash) == MovableAmong(items + [r], paths, hash)
  {
    forall hash
      ensures Entry(if CanMove(paths, r) then Add(moves, r.hash, r) else moves, hash)
           == MovableAmong(items + [r], paths, hash)
    {
      assert Entry(moves, hash) == MovableAmong(items, paths, hash);
    }
  }

  method IndexByContent(p: Problem, paths: set<Path>) returns (moves: map<Hash, set<Item>>)
    requires paths == ScanPaths(p)
    ensures forall hash :: Entry(moves, hash) == Movable(p, hash)
  {
    moves := map[];
    var i := 0;
    while i < |p.items|
      invariant 0 <= i <= |p.items|
      invariant forall hash :: Entry(moves, hash) == MovableAmong(p.items[..i], paths, hash)
    {
      var r := p.items[i];
      assert p.items[..i + 1] == p.items[..i] + [r];
      MovableGrows(p.items[..i], r, paths, moves);
      if CanMove(paths, r) {
        moves := Add(moves, r.hash, r);
      }
      i := i + 1;
    }
    assert p.items[..i] == p.items;
  }

  /** The row a note has at its own path. */
  method FindPathRow(rows: set<Item>, hash: Hash) returns (selected: Option<Item>)
    requires DistinctIds(rows)
    ensures selected == PathRow(rows, hash)
  {
    var exact := ExactRows(rows, hash);
    if exact != {} {
      selected := FindNewest(exact);
    } else {
      selected := FindNewest(ActiveRows(rows));
      if selected.None? && rows != {} {
        selected := FindNewest(rows);
      }
    }
  }

  method PlanNote(p: Problem, rows: set<Item>, movable: set<Item>, used: set<SourceKey>, n: Note) returns (plan: Plan)
    requires rows == AtPath(p.items, n.path) && movable == Movable(p, n.hash)
    requires DistinctIds(rows)
    ensures IsPlanFor(p, used, n, plan)
  {
    var selected := FindPathRow(rows, n.hash);
    if selected.Some? {
      if ExactRows(rows, n.hash) != {} {
        plan := Checked(p, n, selected.value, Skip, Same);
      } else {
        plan := Checked(p, n, selected.value, Update, SourceChanged);
      }
      return;
    }
    var moves := Unused(movable, used);
    if |moves| == 1 {
      var r :| r in moves;
      plan := Checked(p, n, r, Rename, UniqueMove);
    } else if |moves| > 1 {
      plan := Plan(n, Conflicted, None, AmbiguousRename);
    } else {
      plan := Plan(n, Import, None, NewSource);
    }
  }

  lemma ItemsHaveDistinctIds(p: Problem, path: Path)
    requires WellFormed(p)
    ensures DistinctIds(AtPath(p.items, path))
  {
    forall a <- AtPath(p.items, path), b <- AtPath(p.items, path) | a.id == b.id ensures a == b {
      var i :| 0 <= i < |p.items| && p.items[i] == a;
      var j :| 0 <= j < |p.items| && p.items[j] == b;
    }
  }

  lemma OneMoreUsed(plans: seq<Plan>, plan: Plan)
    ensures UsedBy(plans + [plan]) == UsedBy(plans) + Claims(plan)
  {
    var more := plans + [plan];
    forall k <- UsedBy(plans) + Claims(plan) ensures k in UsedBy(more) {
      if k in UsedBy(plans) {
        var i :| 0 <= i < |plans| && k in Claims(plans[i]);
        assert more[i] == plans[i];
      } else {
        assert more[|plans|] == plan;
      }
    }
    forall k <- UsedBy(more) ensures k in UsedBy(plans) + Claims(plan) {
      var i :| 0 <= i < |more| && k in Claims(more[i]);
      assert i < |plans| ==> plans[i] == more[i];
    }
  }

  method PlanNotes(p: Problem, notes: seq<Note>, byPath: map<Path, set<Item>>, moves: map<Hash, set<Item>>)
    returns (plans: seq<Plan>, used: set<SourceKey>)
    requires WellFormed(p)
    requires forall path :: Entry(byPath, path) == AtPath(p.items, path)
    requires forall hash :: Entry(moves, hash) == Movable(p, hash)
    ensures ArePlans(p, notes, plans) && used == UsedBy(plans)
  {
    plans, used := [], {};
    var i := 0;
    while i < |notes|
      invariant 0 <= i <= |notes|
      invariant ArePlans(p, notes[..i], plans) && used == UsedBy(plans)
    {
      var n := notes[i];
      ItemsHaveDistinctIds(p, n.path);
      var plan := PlanNote(p, Entry(byPath, n.path), Entry(moves, n.hash), used, n);
      OneMoreUsed(plans, plan);
      PlansGrow(p, notes[..i], plans, n, plan);
      assert notes[..i + 1] == notes[..i] + [n];
      plans, used := plans + [plan], used + Claims(plan);
      i := i + 1;
    }
    assert notes[..i] == notes;
  }

  lemma PlansGrow(p: Problem, notes: seq<Note>, plans: seq<Plan>, n: Note, plan: Plan)
    requires ArePlans(p, notes, plans) && IsPlanFor(p, UsedBy(plans), n, plan)
    ensures ArePlans(p, notes + [n], plans + [plan])
  {
    var more := plans + [plan];
    forall i | 0 <= i < |more| ensures IsPlanFor(p, UsedBy(more[..i]), (notes + [n])[i], more[i]) {
      assert more[..i] == plans[..i];
      if i == |plans| {
        assert plans[..i] == plans;
      }
    }
  }

  /** `_plan`. */
  method MakePlan(p: Problem) returns (plans: seq<Plan>, missing: seq<Item>)
    requires WellFormed(p)
    ensures ArePlans(p, Sorted(p.notes), plans)
    ensures forall r :: r in missing <==> r in p.items && IsMissing(p, UsedBy(plans), r)
  {
    var byPath, paths := IndexByPath(p);
    var moves := IndexByContent(p, paths);
    var used;
    plans, used := PlanNotes(p, Sorted(p.notes), byPath, moves);
    missing := [];
    for i := 0 to |p.items|
      invariant forall r :: r in missing <==> r in p.items[..i] && IsMissing(p, used, r)
    {
      var r := p.items[i];
      assert p.items[..i + 1] == p.items[..i] + [r];
      if r.path !in paths && r.key !in used && r.state !in {State.Missing, Conflict} {
        missing := missing + [r];
      }
    }
    assert p.items[..|p.items|] == p.items;
  }

  // ---------- what every planning run guarantees ----------

  lemma NewestIsMember(rows: set<Item>)
    ensures Newest(rows).Some? ==> Newest(rows).value in rows
  {
  }

  lemma {:induction false} NewestExists(rows: set<Item>)
    requires DistinctIds(rows) && rows != {}
    ensures exists r <- rows :: IsNewest(rows, r)
    decreases |rows|
  {
    var q :| q in rows;
    var rest := rows - {q};
    if rest == {} {
      assert rows == {q};
      assert IsNewest(rows, q);
    } else {
      NewestExists(rest);
      var r :| r in rest && IsNewest(rest, r);
      NewestOfMore(rest, r, q);
      assert rest + {q} == rows;
    }
  }

  lemma PathRowIsThere(rows: set<Item>, hash: Hash)
    ensures PathRow(rows, hash).Some? ==> PathRow(rows, hash).value in rows
    ensures DistinctIds(rows) ==> (PathRow(rows, hash).None? <==> rows == {})
  {
    var exact, active := ExactRows(rows, hash), ActiveRows(rows);
    NewestIsMember(rows);
    NewestIsMember(exact);
    NewestIsMember(active);
    if DistinctIds(rows) {
      if exact != {} { NewestExists(exact); }
      if active != {} { NewestExists(active); }
      if rows != {} { NewestExists(rows); }
    }
  }

  lemma ClaimsComeFrom(p: Problem, rows: set<Item>, moves: set<Item>, n: Note, plan: Plan)
    requires PlanFrom(p, rows, moves, n, plan)
    ensures plan.note == n
    ensures plan.item.Some? ==> plan.item.value in if PathRow(rows, n.hash).Some? then rows else moves
    ensures PathRow(rows, n.hash).Some? ==> plan.item.Some?
  {
    PathRowIsThere(rows, n.hash);
  }

  /** A row is claimed by the note at its own path, or moves to a note with its content when its
      path has vanished. */
  lemma ClaimsAreJustified(p: Problem, used: set<SourceKey>, n: Note, plan: Plan)
    requires IsPlanFor(p, used, n, plan) && plan.item.Some?
    ensures plan.item.value in p.items
    ensures
      var r := plan.item.value;
      r.path == n.path || (r.path !in ScanPaths(p) && r.hash == n.hash != 0 && r.state != Conflict && r.key !in used)
  {
    ClaimsComeFrom(p, AtPath(p.items, n.path), Unused(Movable(p, n.hash), used), n, plan);
  }

  lemma SameKeySameRow(p: Problem, a: Item, b: Item)
    requires WellFormed(p) && a in p.items && b in p.items && a.key == b.key
    ensures a == b
  {
    var i :| 0 <= i < |p.items| && p.items[i] == a;
    var j :| 0 <= j < |p.items| && p.items[j] == b;
  }

  lemma LaterClaimsDiffer(p: Problem, usedFirst: set<SourceKey>, m: Note, first: Plan,
                          used: set<SourceKey>, n: Note, second: Plan)
    requires WellFormed(p)
    requires IsPlanFor(p, usedFirst, m, first) && IsPlanFor(p, used, n, second)
    requires Claims(first) <= used && m.path != n.path
    requires m.path in ScanPaths(p) && n.path in ScanPaths(p)
    ensures Claims(first) !! Claims(second)
  {
    if first.item.Some? && second.item.Some? && first.item.value.key == second.item.value.key {
      ClaimsAreJustified(p, usedFirst, m, first);
      ClaimsAreJustified(p, used, n, second);
      SameKeySameRow(p, first.item.value, second.item.value);
    }
  }

  /** No manifest row is claimed by two plans. */
  lemma NoRowIsClaimedTwice(p: Problem, plans: seq<Plan>, i: nat, j: nat)
    requires WellFormed(p) && ArePlans(p, Sorted(p.notes), plans)
    requires i < j < |plans|
    ensures Claims(plans[i]) !! Claims(plans[j])
  {
    var notes := Sorted(p.notes);
    SortedKeepsPathsDistinct(p.notes);
    VisitedPathsAreScanned(p, i);
    VisitedPathsAreScanned(p, j);
    assert plans[..j][i] == plans[i];
    assert Claims(plans[i]) <= UsedBy(plans[..j]);
    LaterClaimsDiffer(p, UsedBy(plans[..i]), notes[i], plans[i], UsedBy(plans[..j]), notes[j], plans[j]);
  }

  /** One plan for every note, in the visiting order. */
  lemma EveryNoteIsPlannedOnce(p: Problem, plans: seq<Plan>)
    requires ArePlans(p, Sorted(p.notes), plans)
    ensures seq(|plans|, i requires 0 <= i < |plans| => plans[i].note) == Sorted(p.notes)
    ensures multiset(seq(|plans|, i requires 0 <= i < |plans| => plans[i].note)) == multiset(p.notes)
    ensures Ordered(Sorted(p.notes))
  {
    var notes := Sorted(p.notes);
    SortedIsOrdered(p.notes);
    forall i | 0 <= i < |plans| ensures plans[i].note == notes[i] {
      ClaimsComeFrom(p, AtPath(p.items, notes[i].path), Unused(Movable(p, notes[i].hash), UsedBy(plans[..i])),
                     notes[i], plans[i]);
    }
    assert seq(|plans|, i requires 0 <= i < |plans| => plans[i].note) == notes;
  }

  // ---------- what each action means ----------

  /** The manifest already records this note as it is. */
  predicate Records(r: Item, n: Note) {
    r.path == n.path && r.hash == n.hash && r.sameImporter && r.state != Conflict
  }

  predicate NoLaterThan(q: Item, r: Item) {
    q.seen < r.seen || (q.seen == r.seen && q.id <= r.id)
  }

  /** The scan accounts for this path: a note, a rejected file, or a row under a directory it could not read. */
  predicate Accounted(p: Problem, path: Path) {
    || (exists n <- p.notes :: n.path == path)
    || path in p.rejected
    || p.unreadable(path)
  }

  predicate ClaimedBefore(plans: seq<Plan>, i: nat, key: SourceKey)
    requires i <= |plans|
  {
    exists j :: 0 <= j < i && plans[j].item.Some? && plans[j].item.value.key == key
  }

  /** A row with this content whose path has vanished and that no earlier note has claimed. */
  predicate FreeRow(p: Problem, plans: seq<Plan>, i: nat, hash: Hash, r: Item)
    requires i <= |plans|
  {
    && r in p.items && !Accounted(p, r.path) && !ClaimedBefore(plans, i, r.key)
    && r.hash == hash && hash != 0 && r.state != Conflict
  }

  predicate OnlyFreeRow(p: Problem, plans: seq<Plan>, i: nat, hash: Hash, r: Item)
    requires i <= |plans|
  {
    FreeRow(p, plans, i, hash, r) && forall q <- p.items :: FreeRow(p, plans, i, hash, q) ==> q == r
  }

  lemma ScanPathsAreAccounted(p: Problem, r: Item)
    requires r in p.items
    ensures r.path in ScanPaths(p) <==> Accounted(p, r.path)
  {
  }

  lemma UsedIsClaimed(plans: seq<Plan>, i: nat, key: SourceKey)
    requires i <= |plans|
    ensures key in UsedBy(plans[..i]) <==> ClaimedBefore(plans, i, key)
  {
    if ClaimedBefore(plans, i, key) {
      var j :| 0 <= j < i && plans[j].item.Some? && plans[j].item.value.key == key;
      assert key in Claims(plans[..i][j]);
    }
    if key in UsedBy(plans[..i]) {
      var j :| 0 <= j < i && key in Claims(plans[..i][j]);
      assert plans[..i][j] == plans[j];
    }
  }

  /** A claimed row that is not the current revision of its memory turns the action into a conflict. */
  predicate Passes(p: Problem, plan: Plan) {
    plan.item.Some? && (!p.inspect || p.current(plan.item.value))
  }

  lemma RowsAtThePath(p: Problem, n: Note)
    ensures AtPath(p.items, n.path) != {} <==> exists r <- p.items :: r.path == n.path
    ensures ExactRows(AtPath(p.items, n.path), n.hash) != {} <==> exists r <- p.items :: Records(r, n)
  {
    var rows := AtPath(p.items, n.path);
    if r :| r in p.items && r.path == n.path {
      assert r in rows;
    }
    if r :| r in p.items && Records(r, n) {
      assert r in ExactRows(rows, n.hash);
    }
    if exact :| exact in ExactRows(rows, n.hash) {
      assert Records(exact, n);
    }
    if row :| row in rows {
      assert row.path == n.path;
    }
  }

  /** A note with a row at its path is skipped when a row records it as it is, and updated otherwise, unless the
      claimed row fails the lineage check; the claimed row is the latest that records the note, else the latest
      active one at its path, else the latest one there. */
  lemma PathDecides(p: Problem, plans: seq<Plan>, i: nat)
    requires WellFormed(p) && ArePlans(p, Sorted(p.notes), plans) && i < |plans|
    requires exists r <- p.items :: r.path == Sorted(p.notes)[i].path
    ensures
      var n, plan := Sorted(p.notes)[i], plans[i];
      var recorded := exists r <- p.items :: Records(r, n);
      && plan.note == n && plan.item.Some? && plan.item.value in p.items && plan.item.value.path == n.path
      && (plan.action == Skip <==> recorded && Passes(p, plan))
      && (plan.action == Update <==> !recorded && Passes(p, plan))
      && (plan.action == Conflicted <==> !Passes(p, plan))
      && plan.reason == (if !Passes(p, plan) then LineageDiverged else if recorded then Same else SourceChanged)
    ensures ClaimsTheLatest(p, Sorted(p.notes)[i], plans[i].item.value)
  {
    var n := Sorted(p.notes)[i];
    var rows := AtPath(p.items, n.path);
    RowsAtThePath(p, n);
    ItemsHaveDistinctIds(p, n.path);
    PathRowIsThere(rows, n.hash);
    PathRowIsLatest(p, n);
  }

  predicate ClaimsTheLatest(p: Problem, n: Note, r: Item) {
    && (forall q <- p.items :: Records(q, n) ==> Records(r, n) && NoLaterThan(q, r))
    && (forall q <- p.items :: q.path == n.path && q.state in {Imported, Unchanged, Renamed, Skipped} ==>
          Records(r, n) || (r.state in {Imported, Unchanged, Renamed, Skipped} && NoLaterThan(q, r)))
    && (forall q <- p.items :: q.path == n.path ==>
          Records(r, n) || r.state in {Imported, Unchanged, Renamed, Skipped} || NoLaterThan(q, r))
  }

  lemma PathRowIsLatest(p: Problem, n: Note)
    requires WellFormed(p) && AtPath(p.items, n.path) != {}
    ensures PathRow(AtPath(p.items, n.path), n.hash).Some?
    ensures ClaimsTheLatest(p, n, PathRow(AtPath(p.items, n.path), n.hash).value)
  {
    var rows := AtPath(p.items, n.path);
    ItemsHaveDistinctIds(p, n.path);
    PathRowIsThere(rows, n.hash);
    var r := PathRow(rows, n.hash).value;
    var exact, active := ExactRows(rows, n.hash), ActiveRows(rows);
    if exact != {} {
      NewestExists(exact);
    } else if active != {} {
      NewestExists(active);
    } else {
      NewestExists(rows);
    }
    assert IsNewest(if exact != {} then exact else if active != {} then active else rows, r);
    forall q <- p.items | Records(q, n) ensures Records(r, n) && NoLaterThan(q, r) {
      assert q in exact;
    }
    forall q <- p.items | q.path == n.path && q.state in {Imported, Unchanged, Renamed, Skipped}
      ensures Records(r, n) || (r.state in {Imported, Unchanged, Renamed, Skipped} && NoLaterThan(q, r))
    {
      assert q in active;
    }
    forall q <- p.items | q.path == n.path
      ensures Records(r, n) || r.state in {Imported, Unchanged, Renamed, Skipped} || NoLaterThan(q, r)
    {
      assert q in rows;
    }
  }

  /** A note with nothing at its path takes over the one free row with its content, is ambiguous when there are
      several, and is new when there is none. */
  lemma ContentDecides(p: Problem, plans: seq<Plan>, i: nat)
    requires WellFormed(p) && ArePlans(p, Sorted(p.notes), plans) && i < |plans|
    requires !exists r <- p.items :: r.path == Sorted(p.notes)[i].path
    ensures
      var n, plan := Sorted(p.notes)[i], plans[i];
      && plan.note == n
      && (plan.action == Import <==> forall r <- p.items :: !FreeRow(p, plans, i, n.hash, r))
      && (forall r <- p.items :: OnlyFreeRow(p, plans, i, n.hash, r) <==> plan.item == Some(r))
      && (plan.item.Some? ==> plan.item.value in p.items)
      && (plan.action == Rename <==> Passes(p, plan))
      && (plan.action == Conflicted <==> !Passes(p, plan) && plan.action != Import)
      && plan.reason == (if plan.action == Import then NewSource else if plan.item.None? then AmbiguousRename
                         else if Passes(p, plan) then UniqueMove else LineageDiverged)
  {
    var n := Sorted(p.notes)[i];
    NothingAtThePath(p, n);
    FreeRowsAre(p, plans, i, n.hash);
    SeekerIsPlanned(p, UsedBy(plans[..i]), n, plans[i]);
    var free := Unused(Movable(p, n.hash), UsedBy(plans[..i]));
    NoFreeRow(p, plans, i, n.hash, free);
    forall r <- p.items ensures OnlyFreeRow(p, plans, i, n.hash, r) <==> plans[i].item == Some(r) {
      OneFreeRow(p, plans, i, n.hash, free, r);
      if plans[i].item.Some? {
        Only(free, plans[i].item.value);
      }
    }
  }

  lemma NothingAtThePath(p: Problem, n: Note)
    requires !exists r <- p.items :: r.path == n.path
    ensures LooksFor(p, n, n.hash)
  {
    RowsAtThePath(p, n);
  }

  lemma NoFreeRow(p: Problem, plans: seq<Plan>, i: nat, hash: Hash, free: set<Item>)
    requires i <= |plans| && forall r <- free :: r in p.items
    requires forall r <- p.items :: FreeRow(p, plans, i, hash, r) <==> r in free
    ensures |free| == 0 <==> forall r <- p.items :: !FreeRow(p, plans, i, hash, r)
  {
    if free != {} {
      var r :| r in free;
    }
  }

  lemma OneFreeRow(p: Problem, plans: seq<Plan>, i: nat, hash: Hash, free: set<Item>, r: Item)
    requires i <= |plans| && forall r <- free :: r in p.items
    requires forall r <- p.items :: FreeRow(p, plans, i, hash, r) <==> r in free
    requires r in p.items
    ensures OnlyFreeRow(p, plans, i, hash, r) <==> free == {r}
  {
    if OnlyFreeRow(p, plans, i, hash, r) {
      forall q <- free ensures q == r {
        assert FreeRow(p, plans, i, hash, q);
      }
    }
  }

  lemma SeekerIsPlanned(p: Problem, used: set<SourceKey>, n: Note, plan: Plan)
    requires IsPlanFor(p, used, n, plan) && LooksFor(p, n, n.hash)
    ensures var free := Unused(Movable(p, n.hash), used);
            && plan.note == n && (plan.action == Import <==> |free| == 0) && (plan.item.Some? <==> |free| == 1)
            && (plan.item.Some? ==> plan.item.value in free)
            && (plan.action == Rename <==> Passes(p, plan))
            && (plan.action == Conflicted <==> !Passes(p, plan) && plan.action != Import)
            && plan.reason == (if plan.action == Import then NewSource else if plan.item.None? then AmbiguousRename
                               else if Passes(p, plan) then UniqueMove else LineageDiverged)
  {
    SeekerPlan(p, used, n, plan);
    PlanFromMoves(p, Unused(Movable(p, n.hash), used), n, plan);
  }

  lemma PlanFromMoves(p: Problem, moves: set<Item>, n: Note, plan: Plan)
    requires if |moves| == 1 then exists r <- moves :: plan == Checked(p, n, r, Rename, UniqueMove)
             else if |moves| > 1 then plan == Plan(n, Conflicted, None, AmbiguousRename)
             else plan == Plan(n, Import, None, NewSource)
    ensures plan.note == n && (plan.action == Import <==> |moves| == 0) && (plan.item.Some? <==> |moves| == 1)
    ensures plan.item.Some? ==> plan.item.value in moves
    ensures plan.action == Rename <==> Passes(p, plan)
    ensures plan.action == Conflicted <==> !Passes(p, plan) && plan.action != Import
    ensures plan.reason == (if plan.action == Import then NewSource else if plan.item.None? then AmbiguousRename
                            else if Passes(p, plan) then UniqueMove else LineageDiverged)
  {
  }

  lemma FreeRowsAre(p: Problem, plans: seq<Plan>, i: nat, hash: Hash)
    requires i <= |plans|
    ensures forall r <- p.items :: FreeRow(p, plans, i, hash, r) <==> r in Unused(Movable(p, hash), UsedBy(plans[..i]))
    ensures Unused(Movable(p, hash), UsedBy(plans[..i])) <= set r | r in p.items
  {
    forall r <- p.items
      ensures FreeRow(p, plans, i, hash, r) <==> r in Unused(Movable(p, hash), UsedBy(plans[..i]))
    {
      ScanPathsAreAccounted(p, r);
      UsedIsClaimed(plans, i, r.key);
    }
  }

  /** A row is reported missing exactly when the scan does not account for its path, no note took it over, and it
      is not already missing or in conflict. */
  lemma MissingExactlyWhen(p: Problem, plans: seq<Plan>, r: Item)
    requires r in p.items
    ensures IsMissing(p, UsedBy(plans), r)
       <==> !Accounted(p, r.path) && !ClaimedBefore(plans, |plans|, r.key) && r.state !in {State.Missing, Conflict}
  {
    ScanPathsAreAccounted(p, r);
    UsedIsClaimed(plans, |plans|, r.key);
    assert plans[..|plans|] == plans;
  }

  /** The note looks for a moved row: nothing is recorded at its path, and this is its content. */
  predicate LooksFor(p: Problem, n: Note, hash: Hash) {
    AtPath(p.items, n.path) == {} && n.hash == hash
  }

  lemma OnlySeekersMove(p: Problem, used: set<SourceKey>, n: Note, plan: Plan, r: Item)
    requires WellFormed(p) && IsPlanFor(p, used, n, plan) && n.path in ScanPaths(p)
    requires r in Movable(p, r.hash) && r.key in Claims(plan)
    ensures LooksFor(p, n, r.hash) && r.key !in used && Unused(Movable(p, r.hash), used) == {r}
  {
    var rows, moves := AtPath(p.items, n.path), Unused(Movable(p, n.hash), used);
    ItemsHaveDistinctIds(p, n.path);
    PathRowIsThere(rows, n.hash);
    ClaimsComeFrom(p, rows, moves, n, plan);
    SameKeySameRow(p, plan.item.value, r);
    assert r !in rows;
    Only(moves, r);
  }

  lemma Only(rows: set<Item>, r: Item)
    requires |rows| == 1 && r in rows
    ensures rows == {r}
  {
    forall q <- rows ensures q == r {
      assert |rows - {r}| == 0;
      assert q !in rows - {r};
    }
  }

  lemma SharedRowsStep(p: Problem, used: set<SourceKey>, n: Note, plan: Plan, a: Item, b: Item)
    requires WellFormed(p) && IsPlanFor(p, used, n, plan) && n.path in ScanPaths(p)
    requires a != b && a.hash == b.hash && a in Movable(p, a.hash) && b in Movable(p, a.hash)
    requires b.key !in used
    ensures a.key !in Claims(plan)
  {
    assert b in Unused(Movable(p, a.hash), used);
    if a.key in Claims(plan) {
      OnlySeekersMove(p, used, n, plan, a);
    }
  }

  predicate StaysFree(plans: seq<Plan>, j: nat, k: SourceKey, l: SourceKey)
    requires j < |plans|
  {
    k !in UsedBy(plans[..j]) && l !in UsedBy(plans[..j]) ==> k !in Claims(plans[j]) && l !in Claims(plans[j])
  }

  lemma {:induction false} NeverUsed(plans: seq<Plan>, k: SourceKey, l: SourceKey, count: nat)
    requires count <= |plans|
    requires forall j :: 0 <= j < |plans| ==> StaysFree(plans, j, k, l)
    ensures k !in UsedBy(plans[..count]) && l !in UsedBy(plans[..count])
  {
    if count > 0 {
      NeverUsed(plans, k, l, count - 1);
      assert StaysFree(plans, count - 1, k, l);
      UsedAfter(plans, count - 1, k);
      UsedAfter(plans, count - 1, l);
    }
  }

  /** Rows sharing their content stay unclaimed. */
  lemma SharedRowsStayFree(p: Problem, plans: seq<Plan>, a: Item, b: Item, count: nat)
    requires WellFormed(p) && ArePlans(p, Sorted(p.notes), plans) && count <= |plans|
    requires a != b && a.hash == b.hash && a in Movable(p, a.hash) && b in Movable(p, a.hash)
    ensures a.key !in UsedBy(plans[..count]) && b.key !in UsedBy(plans[..count])
  {
    forall j | 0 <= j < |plans| ensures StaysFree(plans, j, a.key, b.key) {
      if a.key !in UsedBy(plans[..j]) && b.key !in UsedBy(plans[..j]) {
        VisitedPathsAreScanned(p, j);
        SharedRowsStep(p, UsedBy(plans[..j]), Sorted(p.notes)[j], plans[j], a, b);
        SharedRowsStep(p, UsedBy(plans[..j]), Sorted(p.notes)[j], plans[j], b, a);
      }
    }
    NeverUsed(plans, a.key, b.key, count);
  }

  lemma SeekerPlan(p: Problem, used: set<SourceKey>, n: Note, plan: Plan)
    requires IsPlanFor(p, used, n, plan) && LooksFor(p, n, n.hash)
    ensures
      var moves := Unused(Movable(p, n.hash), used);
      if |moves| == 1 then exists r <- moves :: plan == Checked(p, n, r, Rename, UniqueMove)
      else if |moves| > 1 then plan == Plan(n, Conflicted, None, AmbiguousRename)
      else plan == Plan(n, Import, None, NewSource)
  {
    PathRowIsThere({}, n.hash);
  }

  /** A content hash shared by two or more vanished rows never yields a rename: no plan claims one of
      them, and every note looking for that content is reported as ambiguous. */
  lemma SharedContentNeverMoves(p: Problem, plans: seq<Plan>, a: Item, b: Item, i: nat)
    requires WellFormed(p) && ArePlans(p, Sorted(p.notes), plans) && i < |plans|
    requires a != b && a.hash == b.hash && a in Movable(p, a.hash) && b in Movable(p, a.hash)
    ensures a.key !in UsedBy(plans)
    ensures LooksFor(p, Sorted(p.notes)[i], a.hash) ==>
              plans[i] == Plan(Sorted(p.notes)[i], Conflicted, None, AmbiguousRename)
  {
    SharedRowsStayFree(p, plans, a, b, |plans|);
    assert plans[..|plans|] == plans;
    SharedRowsStayFree(p, plans, a, b, i);
    if LooksFor(p, Sorted(p.notes)[i], a.hash) {
      SeekerPlan(p, UsedBy(plans[..i]), Sorted(p.notes)[i], plans[i]);
      TwoMembers(Unused(Movable(p, a.hash), UsedBy(plans[..i])), a, b);
    }
  }

  lemma TwoMembers(rows: set<Item>, a: Item, b: Item)
    requires a in rows && b in rows && a != b
    ensures |rows| > 1
  {
    assert {a, b} <= rows;
    assert |rows - {a, b}| == |rows| - |{a, b}|;
  }

  predicate FirstSeeker(p: Problem, i: nat, hash: Hash) {
    && i < |Sorted(p.notes)| && LooksFor(p, Sorted(p.notes)[i], hash)
    && forall j :: 0 <= j < i ==> !LooksFor(p, Sorted(p.notes)[j], hash)
  }

  lemma TheOnlyRowMoves(p: Problem, used: set<SourceKey>, n: Note, plan: Plan, r: Item)
    requires IsPlanFor(p, used, n, plan) && LooksFor(p, n, r.hash)
    requires Movable(p, r.hash) == {r} && r.key !in used
    ensures plan == Checked(p, n, r, Rename, UniqueMove) && Claims(plan) == {r.key}
  {
    assert Unused(Movable(p, r.hash), used) == {r};
    SeekerPlan(p, used, n, plan);
  }

  lemma UniqueRowStep(p: Problem, used: set<SourceKey>, n: Note, plan: Plan, r: Item)
    requires WellFormed(p) && IsPlanFor(p, used, n, plan) && n.path in ScanPaths(p)
    requires Movable(p, r.hash) == {r}
    ensures r.key in Claims(plan) <==> LooksFor(p, n, r.hash) && r.key !in used
  {
    assert r in Movable(p, r.hash);
    if r.key in Claims(plan) {
      OnlySeekersMove(p, used, n, plan, r);
    } else if LooksFor(p, n, r.hash) && r.key !in used {
      TheOnlyRowMoves(p, used, n, plan, r);
    }
  }

  lemma UsedAfter(plans: seq<Plan>, count: nat, k: SourceKey)
    requires count < |plans|
    ensures k in UsedBy(plans[..count + 1]) <==> k in UsedBy(plans[..count]) || k in Claims(plans[count])
  {
    assert plans[..count + 1] == plans[..count] + [plans[count]];
    OneMoreUsed(plans[..count], plans[count]);
  }

  lemma {:induction false} UsedFromTheFirst(plans: seq<Plan>, seeks: seq<bool>, k: SourceKey, i: nat, count: nat)
    requires i < |seeks| == |plans| && count <= |plans|
    requires seeks[i] && forall j :: 0 <= j < i ==> !seeks[j]
    requires forall j :: 0 <= j < |plans| ==> (k in Claims(plans[j]) <==> seeks[j] && k !in UsedBy(plans[..j]))
    ensures k in UsedBy(plans[..count]) <==> i < count
  {
    if count > 0 {
      UsedFromTheFirst(plans, seeks, k, i, count - 1);
      UsedAfter(plans, count - 1, k);
    }
  }

  lemma UniqueRowIsFreeUntil(p: Problem, plans: seq<Plan>, r: Item, i: nat, count: nat)
    requires WellFormed(p) && ArePlans(p, Sorted(p.notes), plans)
    requires Movable(p, r.hash) == {r} && FirstSeeker(p, i, r.hash) && count <= |plans|
    ensures r.key in UsedBy(plans[..count]) <==> i < count
  {
    var notes := Sorted(p.notes);
    var seeks := seq(|notes|, j requires 0 <= j < |notes| => LooksFor(p, notes[j], r.hash));
    forall j | 0 <= j < |plans| ensures r.key in Claims(plans[j]) <==> seeks[j] && r.key !in UsedBy(plans[..j]) {
      VisitedPathsAreScanned(p, j);
      UniqueRowStep(p, UsedBy(plans[..j]), notes[j], plans[j], r);
    }
    UsedFromTheFirst(plans, seeks, r.key, i, count);
  }

  /** A content hash of exactly one vanished row moves that row to the first note in sorted order
      that looks for it; the later ones are imported as new. */
  lemma UniqueContentMovesToTheFirst(p: Problem, plans: seq<Plan>, r: Item, i: nat, j: nat)
    requires WellFormed(p) && ArePlans(p, Sorted(p.notes), plans) && j < |plans|
    requires Movable(p, r.hash) == {r} && FirstSeeker(p, i, r.hash)
    ensures plans[i] == Checked(p, Sorted(p.notes)[i], r, Rename, UniqueMove)
    ensures r.key in Claims(plans[j]) <==> j == i
    ensures j != i && LooksFor(p, Sorted(p.notes)[j], r.hash) ==>
              plans[j] == Plan(Sorted(p.notes)[j], Import, None, NewSource)
  {
    UniqueRowIsFreeUntil(p, plans, r, i, i);
    TheOnlyRowMoves(p, UsedBy(plans[..i]), Sorted(p.notes)[i], plans[i], r);
    if j < i {
      NoRowIsClaimedTwice(p, plans, j, i);
    } else if i < j {
      NoRowIsClaimedTwice(p, plans, i, j);
      UniqueRowIsFreeUntil(p, plans, r, i, j);
      assert Unused(Movable(p, r.hash), UsedBy(plans[..j])) == {};
      if LooksFor(p, Sorted(p.notes)[j], r.hash) {
        SeekerPlan(p, UsedBy(plans[..j]), Sorted(p.notes)[j], plans[j]);
      }
    }
  }

  /** Every manifest row is claimed by exactly one plan, or reported missing, or preserved, and never
      two of these; a preserved row was seen by the scan or is already out of play. */
  lemma ManifestIsPartitioned(p: Problem, plans: seq<Plan>, r: Item)
    requires WellFormed(p) && ArePlans(p, Sorted(p.notes), plans) && r in p.items
    ensures
      var claimed, missing := r.key in UsedBy(plans), IsMissing(p, UsedBy(plans), r);
      && !(claimed && missing)
      && (!claimed && !missing ==> r.path in ScanPaths(p) || r.state in {State.Missing, Conflict})
      && (claimed <==> exists i :: 0 <= i < |plans| && r.key in Claims(plans[i]))
    ensures forall i, j :: 0 <= i < j < |plans| ==> !(r.key in Claims(plans[i]) && r.key in Claims(plans[j]))
  {
    forall i, j | 0 <= i < j < |plans| ensures !(r.key in Claims(plans[i]) && r.key in Claims(plans[j])) {
      NoRowIsClaimedTwice(p, plans, i, j);
    }
  }

  lemma VisitedPathsAreScanned(p: Problem, i: nat)
    requires i < |Sorted(p.notes)|
    ensures Sorted(p.notes)[i].path in ScanPaths(p)
  {
    assert Sorted(p.notes)[i] in multiset(p.notes);
  }

  lemma SortedKeepsPathsDistinct(notes: seq<Note>)
    requires forall i, j :: 0 <= i < j < |notes| ==> notes[i].path != notes[j].path
    ensures forall i, j :: 0 <= i < j < |Sorted(notes)| ==> Sorted(notes)[i].path != Sorted(notes)[j].path
  {
    var sorted := Sorted(notes);
    forall i, j | 0 <= i < j < |sorted| ensures sorted[i].path != sorted[j].path {
      if sorted[i].path == sorted[j].path {
        assert sorted[i] in multiset(notes) && sorted[j] in multiset(notes);
        var a :| 0 <= a < |notes| && notes[a] == sorted[i];
        var b :| 0 <= b < |notes| && notes[b] == sorted[j];
        assert a == b;
        TwiceIn(sorted, i, j);
        OnceIn(notes, a);
      }
    }
  }

  lemma TwiceIn(notes: seq<Note>, i: nat, j: nat)
    requires i < j < |notes| && notes[i] == notes[j]
    ensures multiset(notes)[notes[i]] >= 2
  {
    assert notes == notes[..j] + [notes[j]] + notes[j + 1..];
    assert notes[..j][i] in notes[..j];
  }

  lemma OnceIn(notes: seq<Note>, i: nat)
    requires i < |notes| && forall j :: 0 <= j < |notes| && j != i ==> notes[j] != notes[i]
    ensures multiset(notes)[notes[i]] == 1
  {
    assert notes == notes[..i] + [notes[i]] + notes[i + 1..];
    assert notes[i] !in notes[..i] && notes[i] !in notes[i + 1..];
  }
}
