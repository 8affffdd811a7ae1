/**
 The capability registry of `mcp_server.py` (`_issue_capability`, `_prune_capabilities`,
 `_resolve_capability`): a bounded, time-limited, ordered table, revalidated around a callback that
 runs without the lock.

 The keyed digest that names a capability is a parameter.
 */
module CapabilityRegistry {
  import opened Prelude

  type Id = nat
  type ActionId = nat
  type Digest = nat

  const TTL: real := 900.0
  const MAX_ENTRIES: nat := 256

  datatype Entry = Entry(action: ActionId, digest: Digest, at: real)

  /** A row of the ordered table. */
  datatype Row = Row(id: Id, entry: Entry)

  /** The process constants: the current schema digest of every action, and the capability names. */
  datatype Policy = Policy(digest: map<ActionId, Digest>, sign: (ActionId, Digest) -> Id)

  // ---------- the table as a value ----------

  predicate Distinct(table: seq<Row>) {
    forall i, j :: 0 <= i < j < |table| ==> table[i].id != table[j].id
  }

  function Find(table: seq<Row>, id: Id): (i: int)
    ensures -1 <= i < |table| && (i >= 0 ==> table[i].id == id)
    ensures i < 0 ==> forall j :: 0 <= j < |table| ==> table[j].id != id
  {
    if table == [] then -1
    else if table[|table| - 1].id == id then |table| - 1
    else Find(table[..|table| - 1], id)
  }

  predicate IsExpired(e: Entry, now: real) {
    now - e.at > TTL
  }

  function Pruned(table: seq<Row>, now: real): seq<Row> {
    if table == [] then []
    else
      var last := table[|table| - 1];
      Pruned(table[..|table| - 1], now) + if IsExpired(last.entry, now) then [] else [last]
  }

  function Evicted(table: seq<Row>): seq<Row> {
    if |table| >= MAX_ENTRIES then table[|table| - MAX_ENTRIES + 1..] else table
  }

  /** Assignment to an ordered dictionary: in place for a key it has, at the end for a new one. */
  function Put(table: seq<Row>, row: Row): seq<Row> {
    var i := Find(table, row.id);
    if i >= 0 then table[i := row] else table + [row]
  }

  function Without(table: seq<Row>, id: Id): seq<Row> {
    var i := Find(table, id);
    if i >= 0 then table[..i] + table[i + 1..] else table
  }

  function MovedToEnd(table: seq<Row>, id: Id): seq<Row> {
    var i := Find(table, id);
    if i >= 0 then table[..i] + table[i + 1..] + [table[i]] else table
  }

  function Issued(p: Policy, table: seq<Row>, action: ActionId, now: real): seq<Row>
    requires action in p.digest
  {
    Put(Evicted(Pruned(table, now)), Row(p.sign(action, p.digest[action]), Entry(action, p.digest[action], now)))
  }

  /** A resolution that passed its first check and now waits for the callback. */
  datatype Pending = Pending(id: Id, entry: Entry)

  /** The first locked section. */
  function Looked(p: Policy, table: seq<Row>, id: Id, digest: Digest, now: real): (seq<Row>, Option<Pending>) {
    var i := Find(table, id);
    if i < 0 then (table, None)
    else
      var e := table[i].entry;
      if IsExpired(e, now) then (Without(table, id), None)
      else if e.action !in p.digest || e.digest != digest || p.digest[e.action] != digest
              || id != p.sign(e.action, digest)
      then (table, None)
      else (table, Some(Pending(id, e)))
  }

  /** The second locked section, after the callback said the action is available. */
  function Confirmed(table: seq<Row>, pending: Pending, now: real): (seq<Row>, bool) {
    var i := Find(table, pending.id);
    if i < 0 || table[i].entry != pending.entry then (table, false)
    else if IsExpired(pending.entry, now) then (Without(table, pending.id), false)
    else (MovedToEnd(table, pending.id), true)
  }

  class Registry {
    var table: seq<Row>
    const p: Policy

    constructor (p: Policy)
      ensures this.p == p && table == []
    {
      this.p, table := p, [];
    }

    method Prune(now: real)
      modifies this
      ensures table == Pruned(old(table), now)
    {
      var kept := [];
      for i := 0 to |table|
        invariant kept == Pruned(table[..i], now) && table == old(table)
      {
        assert table[..i + 1][..i] == table[..i];
        if !IsExpired(table[i].entry, now) {
          kept := kept + [table[i]];
        }
      }
      assert table[..|table|] == table;
      table := kept;
    }

    /** `_issue_capability`. */
    method Issue(action: ActionId, now: real) returns (id: Id)
      requires action in p.digest
      modifies this
      ensures id == p.sign(action, p.digest[action]) && table == Issued(p, old(table), action, now)
    {
      id := p.sign(action, p.digest[action]);
      Prune(now);
      ghost var pruned := table;
      while |table| >= MAX_ENTRIES
        invariant Evicted(table) == Evicted(pruned)
      {
        table := table[1..];
      }
      table := Put(table, Row(id, Entry(action, p.digest[action], now)));
    }

    method Look(id: Id, digest: Digest, now: real) returns (pending: Option<Pending>)
      modifies this
      ensures (table, pending) == Looked(p, old(table), id, digest, now)
    {
      var i := Find(table, id);
      if i < 0 {
        return None;
      }
      var entry := table[i].entry;
      if IsExpired(entry, now) {
        table := Without(table, id);
        return None;
      }
      if entry.action !in p.digest || entry.digest != digest || p.digest[entry.action] != digest
         || id != p.sign(entry.action, digest) {
        return None;
      }
      pending := Some(Pending(id, entry));
    }

    method Confirm(pending: Pending, now: real) returns (ok: bool)
      modifies this
      ensures (table, ok) == Confirmed(old(table), pending, now)
    {
      var i := Find(table, pending.id);
      if i < 0 || table[i].entry != pending.entry {
        return false;
      }
      if IsExpired(pending.entry, now) {
        table := Without(table, pending.id);
        return false;
      }
      table := MovedToEnd(table, pending.id);
      ok := true;
    }
  }

  // ---------- what the two sections mean ----------

  predicate IsIn(table: seq<Row>, id: Id, e: Entry) {
    exists i :: 0 <= i < |table| && table[i] == Row(id, e)
  }

  /** A resolution goes on exactly with an entry under its name that is at most 900 seconds old, whose digest is the
      asked one and still the action's, and whose name it is; an older entry is dropped and nothing else changes. */
  lemma LooksExactlyWhen(p: Policy, table: seq<Row>, id: Id, digest: Digest, now: real, e: Entry)
    requires Distinct(table)
    ensures
      var (after, pending) := Looked(p, table, id, digest, now);
      && (pending == Some(Pending(id, e)) <==>
            && IsIn(table, id, e) && now - e.at <= 900.0 && e.digest == digest
            && e.action in p.digest && p.digest[e.action] == digest && id == p.sign(e.action, digest))
      && (pending.Some? ==> pending.value.id == id && after == table)
      && (forall row <- table :: (row in after <==> row.id != id || now - row.entry.at <= 900.0))
  {
    var i := Find(table, id);
    forall j | 0 <= j < |table| && table[j].id == id ensures j == i {
      FindIs(table, j);
    }
    RemovingKeepsTable(table, id);
    RemovingKeepsOthers(table, id);
  }

  lemma RemovingKeepsOthers(table: seq<Row>, id: Id)
    ensures forall row <- table | row.id != id :: row in Without(table, id)
  {
    var i := Find(table, id);
    if i >= 0 {
      assert table == table[..i] + [table[i]] + table[i + 1..];
    }
  }

  /** The second look succeeds exactly when the very entry is still there and still at most 900 seconds old. */
  lemma ConfirmsExactlyWhen(table: seq<Row>, pending: Pending, now: real)
    requires Distinct(table)
    ensures Confirmed(table, pending, now).1
       <==> IsIn(table, pending.id, pending.entry) && now - pending.entry.at <= 900.0
    ensures forall row <- table ::
              (row in Confirmed(table, pending, now).0
               <==> row != Row(pending.id, pending.entry) || now - row.entry.at <= 900.0)
  {
    var i := Find(table, pending.id);
    forall j | 0 <= j < |table| && table[j].id == pending.id ensures j == i {
      FindIs(table, j);
    }
    RemovingKeepsTable(table, pending.id);
    RemovingKeepsOthers(table, pending.id);
    MovingKeepsAll(table, pending.id);
  }

  lemma MovingKeepsAll(table: seq<Row>, id: Id)
    ensures forall row <- table :: row in MovedToEnd(table, id)
  {
    var i := Find(table, id);
    if i >= 0 {
      assert table == table[..i] + [table[i]] + table[i + 1..];
    }
  }

  /** A capability that was just issued resolves, for 900 seconds, as its action under its current digest, if
      nothing else touches the table meanwhile. */
  lemma IssuedResolves(p: Policy, table: seq<Row>, action: ActionId, issued: real, looked: real, confirmed: real)
    requires Distinct(table) && action in p.digest && looked - issued <= 900.0 && confirmed - issued <= 900.0
    ensures
      var digest := p.digest[action];
      var id, entry := p.sign(action, digest), Entry(action, digest, issued);
      var after := Issued(p, table, action, issued);
      && Looked(p, after, id, digest, looked) == (after, Some(Pending(id, entry)))
      && Confirmed(after, Pending(id, entry), confirmed).1
  {
    var digest := p.digest[action];
    var row := Row(p.sign(action, digest), Entry(action, digest, issued));
    var after := Issued(p, table, action, issued);
    IssuingKeepsTable(p, table, action, issued);
    var i := PutIsThere(Evicted(Pruned(table, issued)), row);
    FindIs(after, i);
  }

  lemma PutIsThere(table: seq<Row>, row: Row) returns (i: nat)
    ensures i < |Put(table, row)| && Put(table, row)[i] == row
  {
    i := if Find(table, row.id) >= 0 then Find(table, row.id) else |table|;
  }

  // ---------- interleavings ----------

  type Call = nat

  /** A step of any caller: issuing, starting to resolve, or coming back from the callback. */
  datatype Step =
    | Issue(action: ActionId, now: real)
    | Begin(call: Call, id: Id, digest: Digest, now: real)
    | Finish(call: Call, available: bool, now: real)

  datatype Answer = Nothing | Resolved(action: ActionId, digest: Digest)

  datatype World = World(table: seq<Row>, pending: map<Call, Pending>)

  const START := World([], map[])

  function Perform(p: Policy, w: World, s: Step): (World, Answer) {
    match s
    case Issue(action, now) =>
      if action in p.digest then (w.(table := Issued(p, w.table, action, now)), Nothing) else (w, Nothing)
    case Begin(call, id, digest, now) =>
      var (table, pending) := Looked(p, w.table, id, digest, now);
      (World(table, if pending.Some? then w.pending[call := pending.value] else w.pending - {call}), Nothing)
    case Finish(call, available, now) =>
      if call !in w.pending then (w, Nothing)
      else
        var pending := w.pending[call];
        if !available then (w.(pending := w.pending - {call}), Nothing)
        else
          var (table, ok) := Confirmed(w.table, pending, now);
          (World(table, w.pending - {call}),
           if ok then Resolved(pending.entry.action, pending.entry.digest) else Nothing)
  }

  function Run(p: Policy, steps: seq<Step>): World
    decreases |steps|
  {
    if steps == [] then START else Perform(p, Run(p, steps[..|steps| - 1]), steps[|steps| - 1]).0
  }

  /** The step issued this entry. */
  predicate Issues(p: Policy, s: Step, id: Id, e: Entry) {
    && s.Issue? && s.action == e.action && s.now == e.at
    && e.action in p.digest && e.digest == p.digest[e.action] && id == p.sign(e.action, e.digest)
  }

  predicate WasIssued(p: Policy, steps: seq<Step>, id: Id, e: Entry) {
    exists i :: 0 <= i < |steps| && Issues(p, steps[i], id, e)
  }

  /** The caller of this resolution asked for this name and digest. */
  predicate WasAsked(steps: seq<Step>, call: Call, id: Id, digest: Digest) {
    exists i :: 0 <= i < |steps| && Asks(steps[i], call, id, digest)
  }

  predicate Asks(s: Step, call: Call, id: Id, digest: Digest) {
    s.Begin? && s.call == call && s.id == id && s.digest == digest
  }

  predicate RowsIssued(p: Policy, steps: seq<Step>, table: seq<Row>) {
    forall i :: 0 <= i < |table| ==> WasIssued(p, steps, table[i].id, table[i].entry)
  }

  /** In every reachable state the table is bounded, its names are distinct, and whatever it holds, or
      a resolution in flight carries, was issued under that name. */
  ghost predicate Sound(p: Policy, steps: seq<Step>, w: World) {
    && Distinct(w.table) && |w.table| <= MAX_ENTRIES && RowsIssued(p, steps, w.table)
    && forall call <- w.pending ::
         (WasIssued(p, steps, w.pending[call].id, w.pending[call].entry)
          && WasAsked(steps, call, w.pending[call].id, w.pending[call].entry.digest))
  }

  lemma FindIs(table: seq<Row>, i: nat)
    requires Distinct(table) && i < |table|
    ensures Find(table, table[i].id) == i
  {
  }

  lemma {:induction false} PrunedIsPart(table: seq<Row>, now: real)
    ensures |Pruned(table, now)| <= |table|
    ensures forall row <- Pruned(table, now) :: row in table
    ensures Distinct(table) ==> Distinct(Pruned(table, now))
    ensures forall row <- table | !IsExpired(row.entry, now) :: row in Pruned(table, now)
  {
    if table != [] {
      var but, last := table[..|table| - 1], table[|table| - 1];
      PrunedIsPart(but, now);
      assert table == but + [last];
      if Distinct(table) {
        forall i | 0 <= i < |Pruned(but, now)| ensures Pruned(but, now)[i].id != last.id {
          assert Pruned(but, now)[i] in but;
        }
      }
    }
  }

  lemma IssuingKeepsTable(p: Policy, table: seq<Row>, action: ActionId, now: real)
    requires Distinct(table) && action in p.digest
    ensures
      var t := Issued(p, table, action, now);
      && Distinct(t) && |t| <= MAX_ENTRIES
      && forall row <- t ::
           row in table || row == Row(p.sign(action, p.digest[action]), Entry(action, p.digest[action], now))
  {
    PrunedIsPart(table, now);
    var t := Evicted(Pruned(table, now));
    assert forall row <- t :: row in Pruned(table, now);
    PuttingKeepsDistinct(t, Row(p.sign(action, p.digest[action]), Entry(action, p.digest[action], now)));
  }

  lemma PuttingKeepsDistinct(table: seq<Row>, row: Row)
    requires Distinct(table)
    ensures Distinct(Put(table, row)) && forall r <- Put(table, row) :: r in table || r == row
  {
  }

  lemma RemovingKeepsTable(table: seq<Row>, id: Id)
    requires Distinct(table)
    ensures Distinct(Without(table, id)) && |Without(table, id)| <= |table|
    ensures forall row <- Without(table, id) :: row in table && row.id != id
  {
    var i := Find(table, id);
    if i >= 0 {
      var t := table[..i] + table[i + 1..];
      forall k | 0 <= k < |t| ensures t[k] == table[if k < i then k else k + 1] {
      }
    }
  }

  lemma MovingKeepsTable(table: seq<Row>, id: Id)
    requires Distinct(table)
    ensures Distinct(MovedToEnd(table, id)) && |MovedToEnd(table, id)| == |table|
    ensures forall row <- MovedToEnd(table, id) :: row in table
  {
    RemovingKeepsTable(table, id);
    var i := Find(table, id);
    if i >= 0 {
      var t := Without(table, id);
      forall k | 0 <= k < |t| ensures t[k].id != id {
        assert t[k] in t;
      }
      assert MovedToEnd(table, id) == t + [table[i]];
    }
  }

  lemma IssuedStays(p: Policy, steps: seq<Step>, s: Step, id: Id, e: Entry)
    requires WasIssued(p, steps, id, e)
    ensures WasIssued(p, steps + [s], id, e)
  {
    var i :| 0 <= i < |steps| && Issues(p, steps[i], id, e);
    assert (steps + [s])[i] == steps[i];
  }

  lemma AskedStays(steps: seq<Step>, s: Step, call: Call, id: Id, digest: Digest)
    requires WasAsked(steps, call, id, digest)
    ensures WasAsked(steps + [s], call, id, digest)
  {
    var i :| 0 <= i < |steps| && Asks(steps[i], call, id, digest);
    assert (steps + [s])[i] == steps[i];
  }

  lemma RowsStayIssued(p: Policy, steps: seq<Step>, s: Step, table: seq<Row>, later: seq<Row>)
    requires RowsIssued(p, steps, table)
    requires forall row <- later :: row in table || Issues(p, s, row.id, row.entry)
    ensures RowsIssued(p, steps + [s], later)
  {
    forall i | 0 <= i < |later| ensures WasIssued(p, steps + [s], later[i].id, later[i].entry) {
      assert later[i] in later;
      if later[i] in table {
        IssuedStays(p, steps, s, later[i].id, later[i].entry);
      } else {
        assert (steps + [s])[|steps|] == s;
      }
    }
  }

  lemma PendingStays(p: Policy, steps: seq<Step>, s: Step, w: World, call: Call)
    requires Sound(p, steps, w) && call in w.pending
    ensures WasIssued(p, steps + [s], w.pending[call].id, w.pending[call].entry)
    ensures WasAsked(steps + [s], call, w.pending[call].id, w.pending[call].entry.digest)
  {
    IssuedStays(p, steps, s, w.pending[call].id, w.pending[call].entry);
    AskedStays(steps, s, call, w.pending[call].id, w.pending[call].entry.digest);
  }

  lemma LookingKeeps(p: Policy, steps: seq<Step>, w: World, s: Step)
    requires Sound(p, steps, w) && s.Begin?
    ensures Sound(p, steps + [s], Perform(p, w, s).0)
  {
    var (table, pending) := Looked(p, w.table, s.id, s.digest, s.now);
    RemovingKeepsTable(w.table, s.id);
    RowsStayIssued(p, steps, s, w.table, table);
    var after := Perform(p, w, s).0;
    forall call <- after.pending
      ensures WasIssued(p, steps + [s], after.pending[call].id, after.pending[call].entry)
      ensures WasAsked(steps + [s], call, after.pending[call].id, after.pending[call].entry.digest) {
      if call == s.call {
        var i := Find(w.table, s.id);
        IssuedStays(p, steps, s, s.id, w.table[i].entry);
        assert (steps + [s])[|steps|] == s;
      } else {
        PendingStays(p, steps, s, w, call);
      }
    }
  }

  lemma FinishingKeeps(p: Policy, steps: seq<Step>, w: World, s: Step)
    requires Sound(p, steps, w) && s.Finish?
    ensures Sound(p, steps + [s], Perform(p, w, s).0)
  {
    var after := Perform(p, w, s).0;
    if s.call in w.pending {
      RemovingKeepsTable(w.table, w.pending[s.call].id);
      MovingKeepsTable(w.table, w.pending[s.call].id);
    }
    RowsStayIssued(p, steps, s, w.table, after.table);
    forall call <- after.pending
      ensures WasIssued(p, steps + [s], after.pending[call].id, after.pending[call].entry)
      ensures WasAsked(steps + [s], call, after.pending[call].id, after.pending[call].entry.digest) {
      PendingStays(p, steps, s, w, call);
    }
  }

  lemma IssuingKeeps(p: Policy, steps: seq<Step>, w: World, s: Step)
    requires Sound(p, steps, w) && s.Issue?
    ensures Sound(p, steps + [s], Perform(p, w, s).0)
  {
    var after := Perform(p, w, s).0;
    if s.action in p.digest {
      IssuingKeepsTable(p, w.table, s.action, s.now);
    }
    RowsStayIssued(p, steps, s, w.table, after.table);
    forall call <- after.pending
      ensures WasIssued(p, steps + [s], after.pending[call].id, after.pending[call].entry)
      ensures WasAsked(steps + [s], call, after.pending[call].id, after.pending[call].entry.digest) {
      PendingStays(p, steps, s, w, call);
    }
  }

  /** Every run keeps the registry sound. */
  lemma {:induction false} EveryRunIsSound(p: Policy, steps: seq<Step>)
    ensures Sound(p, steps, Run(p, steps))
    decreases |steps|
  {
    if steps != [] {
      var but, s := steps[..|steps| - 1], steps[|steps| - 1];
      assert steps == but + [s];
      EveryRunIsSound(p, but);
      match s
      case Issue(_, _) => IssuingKeeps(p, but, Run(p, but), s);
      case Begin(_, _, _, _) => LookingKeeps(p, but, Run(p, but), s);
      case Finish(_, _, _) => FinishingKeeps(p, but, Run(p, but), s);
    }
  }

  /** A resolution succeeds exactly when it is in flight, the callback agrees, and the very entry it
      started from is still in the table and no older than the lifetime. */
  lemma ResolvesExactlyWhen(p: Policy, steps: seq<Step>, s: Step)
    requires s.Finish?
    ensures
      var w := Run(p, steps);
      Perform(p, w, s).1.Resolved? <==>
        (s.call in w.pending && s.available
         && Row(w.pending[s.call].id, w.pending[s.call].entry) in w.table
         && s.now - w.pending[s.call].entry.at <= TTL)
  {
    var w := Run(p, steps);
    EveryRunIsSound(p, steps);
    if s.call in w.pending {
      var pending := w.pending[s.call];
      if Row(pending.id, pending.entry) in w.table {
        var i :| 0 <= i < |w.table| && w.table[i] == Row(pending.id, pending.entry);
        FindIs(w.table, i);
      }
    }
  }

  /** Whatever interleaves with the callback, a resolution yields only an action and digest that were
      issued, under the name asked for, no longer than the lifetime before. */
  lemma ResolvedWasIssuedRecently(p: Policy, steps: seq<Step>, s: Step) returns (i: nat)
    requires s.Finish? && Perform(p, Run(p, steps), s).1.Resolved?
    ensures
      var answer := Perform(p, Run(p, steps), s).1;
      && i < |steps| && steps[i].Issue? && steps[i].action == answer.action
      && s.now - steps[i].now <= TTL
      && answer.action in p.digest && answer.digest == p.digest[answer.action]
      && WasAsked(steps, s.call, p.sign(answer.action, answer.digest), answer.digest)
  {
    var w := Run(p, steps);
    EveryRunIsSound(p, steps);
    ResolvesExactlyWhen(p, steps, s);
    var pending := w.pending[s.call];
    i :| 0 <= i < |steps| && Issues(p, steps[i], pending.id, pending.entry);
  }

  // ---------- eviction ----------

  lemma {:induction false} NothingPruned(table: seq<Row>, now: real)
    requires forall row <- table :: !IsExpired(row.entry, now)
    ensures Pruned(table, now) == table
  {
    if table != [] {
      NothingPruned(table[..|table| - 1], now);
      assert table[|table| - 1] in table;
    }
  }

  /** Issuing a name again while it is in the table renews its lifetime but not its place: unlike a
      successful resolution it does not protect the entry, and in a full table the oldest row goes. */
  lemma ReissueKeepsItsPlace(p: Policy, table: seq<Row>, action: ActionId, now: real, i: nat)
    requires Distinct(table) && |table| <= MAX_ENTRIES && action in p.digest && i < |table|
    requires table[i].id == p.sign(action, p.digest[action])
    requires forall row <- table :: !IsExpired(row.entry, now)
    ensures
      var renewed := Row(table[i].id, Entry(action, p.digest[action], now));
      Issued(p, table, action, now)
      == if |table| < MAX_ENTRIES then table[i := renewed]
         else if i == 0 then table[1..] + [renewed]
         else table[1..][i - 1 := renewed]
  {
    NothingPruned(table, now);
    if |table| < MAX_ENTRIES {
      FindIs(table, i);
    } else if i > 0 {
      FindIs(table[1..], i - 1);
    }
  }

  predicate Has(table: seq<Row>, id: Id) {
    exists row <- table :: row.id == id
  }

  lemma PutHas(table: seq<Row>, row: Row, id: Id)
    ensures Has(Put(table, row), id) <==> Has(table, id) || id == row.id
    ensures |Put(table, row)| == |table| + if Has(table, row.id) then 0 else 1
  {
    var i := Find(table, row.id);
    var after := Put(table, row);
    assert after[if i >= 0 then i else |table|] == row;
    if Has(table, id) {
      var k :| 0 <= k < |table| && table[k].id == id;
      assert after[k].id == id;
    }
    if Has(after, id) {
      var k :| 0 <= k < |after| && after[k].id == id;
      assert id == row.id || table[k] in table;
    }
  }

  lemma EvictedHas(table: seq<Row>, id: Id)
    requires Distinct(table) && |table| <= MAX_ENTRIES
    ensures Has(Evicted(table), id) <==> Has(table, id) && !(|table| == MAX_ENTRIES && table[0].id == id)
  {
    if |table| == MAX_ENTRIES {
      assert table == [table[0]] + table[1..];
      assert Evicted(table) == table[1..];
    }
  }

  /** Issuing costs a live name exactly when the table is full after the sweep and its oldest name is
      another one, whether or not the issued name is new; the oldest is then the only one lost.  When the
      name was there, the table is left one row short. */
  lemma EvictsExactlyWhen(p: Policy, table: seq<Row>, action: ActionId, now: real, id: Id)
    requires Distinct(table) && |table| <= MAX_ENTRIES && action in p.digest
    ensures
      var live, after, issued := Pruned(table, now), Issued(p, table, action, now), p.sign(action, p.digest[action]);
      && (Has(live, id) && !Has(after, id) <==>
            |live| == MAX_ENTRIES && live[0].id == id && id != issued)
      && (|live| == MAX_ENTRIES && Has(live, issued) && live[0].id != issued ==> |after| == MAX_ENTRIES - 1)
  {
    PrunedIsPart(table, now);
    var live, issued := Pruned(table, now), p.sign(action, p.digest[action]);
    var row := Row(issued, Entry(action, p.digest[action], now));
    EvictedHas(live, id);
    EvictedHas(live, issued);
    PutHas(Evicted(live), row, id);
    if |live| == MAX_ENTRIES {
      assert live[0] in live;
    }
  }

  // ---------- the order of eviction ----------

  /** Uses of a name: it is issued, or resolved. */
  predicate UsesName(p: Policy, w: World, s: Step, id: Id) {
    || (s.Issue? && s.action in p.digest && p.sign(s.action, p.digest[s.action]) == id)
    || (s.Finish? && s.call in w.pending && Perform(p, w, s).1.Resolved? && w.pending[s.call].id == id)
  }

  /** When the name was last used, counting steps from 1; 0 for never. */
  function LastUse(p: Policy, steps: seq<Step>, id: Id): (n: nat)
    ensures n <= |steps|
    decreases |steps|
  {
    if steps == [] then 0
    else if UsesName(p, Run(p, steps[..|steps| - 1]), steps[|steps| - 1], id) then |steps|
    else LastUse(p, steps[..|steps| - 1], id)
  }

  function LastUses(p: Policy, steps: seq<Step>): Id -> nat {
    (id: Id) => LastUse(p, steps, id)
  }

  /** The rows stand in the order of these values. */
  predicate Ordered(table: seq<Row>, use: Id -> nat) {
    forall i, j :: 0 <= i < j < |table| ==> use(table[i].id) < use(table[j].id)
  }

  predicate InOrder(p: Policy, steps: seq<Step>) {
    Ordered(Run(p, steps).table, LastUses(p, steps))
  }

  /** The step issues a name whose row stays where it is although others were used later. */
  predicate OutOfTurn(p: Policy, table: seq<Row>, s: Step) {
    && s.Issue? && s.action in p.digest
    && var kept := Evicted(Pruned(table, s.now));
       0 <= Find(kept, p.sign(s.action, p.digest[s.action])) < |kept| - 1
  }

  lemma {:induction false} PrunedStaysOrdered(table: seq<Row>, now: real, use: Id -> nat)
    requires Ordered(table, use)
    ensures Ordered(Pruned(table, now), use)
  {
    if table != [] {
      var but, last := table[..|table| - 1], table[|table| - 1];
      PrunedStaysOrdered(but, now, use);
      PrunedIsPart(but, now);
      forall i | 0 <= i < |Pruned(but, now)| ensures use(Pruned(but, now)[i].id) < use(last.id) {
        assert Pruned(but, now)[i] in but;
      }
    }
  }

  lemma WithoutStaysOrdered(table: seq<Row>, id: Id, use: Id -> nat)
    requires Ordered(table, use)
    ensures Ordered(Without(table, id), use)
  {
    var i := Find(table, id);
    var t := Without(table, id);
    if i >= 0 {
      assert forall k | 0 <= k < |t| :: t[k] == table[if k < i then k else k + 1];
    }
  }

  /** One name is used later than all others. */
  ghost predicate Newest(before: Id -> nat, use: Id -> nat, id: Id, n: nat) {
    use(id) == n && (forall k :: k != id ==> use(k) == before(k)) && forall k :: before(k) < n
  }

  lemma MovingOrders(table: seq<Row>, id: Id, before: Id -> nat, use: Id -> nat, n: nat)
    requires Distinct(table) && Ordered(table, before) && Newest(before, use, id, n) && Find(table, id) >= 0
    ensures Ordered(MovedToEnd(table, id), use)
  {
    var t := Without(table, id);
    WithoutStaysOrdered(table, id, before);
    RemovingKeepsTable(table, id);
    assert forall k | 0 <= k < |t| :: t[k] in t;
    assert MovedToEnd(table, id) == t + [table[Find(table, id)]];
  }

  lemma PuttingOrders(kept: seq<Row>, row: Row, before: Id -> nat, use: Id -> nat, n: nat)
    requires Distinct(kept) && Ordered(kept, before) && Newest(before, use, row.id, n)
    ensures Ordered(Put(kept, row), use) <==> !(0 <= Find(kept, row.id) < |kept| - 1)
  {
    var i, after := Find(kept, row.id), Put(kept, row);
    if 0 <= i < |kept| - 1 {
      assert after[|kept| - 1] == kept[|kept| - 1] && after[i] == row;
    } else {
      forall k | 0 <= k < |after| - 1 ensures after[k] == kept[k] && after[k].id != row.id {
      }
    }
  }

  lemma LastUseSteps(p: Policy, steps: seq<Step>, s: Step, id: Id)
    ensures LastUse(p, steps + [s], id)
         == if UsesName(p, Run(p, steps), s, id) then |steps| + 1 else LastUse(p, steps, id)
  {
    assert (steps + [s])[..|steps|] == steps;
  }

  lemma RunSteps(p: Policy, steps: seq<Step>, s: Step)
    ensures Run(p, steps + [s]) == Perform(p, Run(p, steps), s).0
  {
    assert (steps + [s])[..|steps|] == steps;
  }

  /** The step uses this name and no other. */
  lemma UsedNow(p: Policy, steps: seq<Step>, s: Step, id: Id)
    requires forall k :: UsesName(p, Run(p, steps), s, k) <==> k == id
    ensures Newest(LastUses(p, steps), LastUses(p, steps + [s]), id, |steps| + 1)
  {
    forall k ensures LastUses(p, steps + [s])(k) == if k == id then |steps| + 1 else LastUses(p, steps)(k) {
      LastUseSteps(p, steps, s, k);
    }
  }

  lemma NothingUsed(p: Policy, steps: seq<Step>, s: Step, table: seq<Row>)
    requires forall k :: !UsesName(p, Run(p, steps), s, k)
    requires Ordered(table, LastUses(p, steps))
    ensures Ordered(table, LastUses(p, steps + [s]))
  {
    forall row <- table ensures LastUses(p, steps + [s])(row.id) == LastUses(p, steps)(row.id) {
      LastUseSteps(p, steps, s, row.id);
    }
    assert forall i | 0 <= i < |table| :: table[i] in table;
  }

  lemma IssuedOrders(p: Policy, table: seq<Row>, s: Step, before: Id -> nat, use: Id -> nat, n: nat)
    requires s.Issue? && s.action in p.digest && Distinct(table) && Ordered(table, before)
    requires Newest(before, use, p.sign(s.action, p.digest[s.action]), n)
    ensures Ordered(Issued(p, table, s.action, s.now), use) <==> !OutOfTurn(p, table, s)
  {
    var row := Row(p.sign(s.action, p.digest[s.action]), Entry(s.action, p.digest[s.action], s.now));
    PrunedIsPart(table, s.now);
    PrunedStaysOrdered(table, s.now, before);
    PuttingOrders(Evicted(Pruned(table, s.now)), row, before, use, n);
  }

  lemma IssueOrders(p: Policy, steps: seq<Step>, s: Step)
    requires s.Issue? && InOrder(p, steps)
    ensures InOrder(p, steps + [s]) <==> !OutOfTurn(p, Run(p, steps).table, s)
  {
    var table := Run(p, steps).table;
    RunSteps(p, steps, s);
    if s.action in p.digest {
      EveryRunIsSound(p, steps);
      UsedNow(p, steps, s, p.sign(s.action, p.digest[s.action]));
      IssuedOrders(p, table, s, LastUses(p, steps), LastUses(p, steps + [s]), |steps| + 1);
    } else {
      NothingUsed(p, steps, s, table);
    }
  }

  lemma BeginOrders(p: Policy, steps: seq<Step>, s: Step)
    requires s.Begin? && InOrder(p, steps)
    ensures InOrder(p, steps + [s])
  {
    var w := Run(p, steps);
    RunSteps(p, steps, s);
    WithoutStaysOrdered(w.table, s.id, LastUses(p, steps));
    NothingUsed(p, steps, s, Perform(p, w, s).0.table);
  }

  lemma FinishOrders(p: Policy, steps: seq<Step>, s: Step)
    requires s.Finish? && InOrder(p, steps)
    ensures InOrder(p, steps + [s])
  {
    var w := Run(p, steps);
    RunSteps(p, steps, s);
    if Perform(p, w, s).1.Resolved? {
      var id := w.pending[s.call].id;
      EveryRunIsSound(p, steps);
      UsedNow(p, steps, s, id);
      MovingOrders(w.table, id, LastUses(p, steps), LastUses(p, steps + [s]), |steps| + 1);
    } else {
      if s.call in w.pending {
        WithoutStaysOrdered(w.table, w.pending[s.call].id, LastUses(p, steps));
      }
      NothingUsed(p, steps, s, Perform(p, w, s).0.table);
    }
  }

  predicate AlwaysInOrder(p: Policy, steps: seq<Step>) {
    forall n | 0 <= n <= |steps| :: InOrder(p, steps[..n])
  }

  predicate NeverOutOfTurn(p: Policy, steps: seq<Step>) {
    forall n | 0 <= n < |steps| :: !OutOfTurn(p, Run(p, steps[..n]).table, steps[n])
  }

  lemma {:induction false} InOrderUpTo(p: Policy, steps: seq<Step>, n: nat)
    requires NeverOutOfTurn(p, steps) && n <= |steps|
    ensures InOrder(p, steps[..n])
  {
    if n > 0 {
      InOrderUpTo(p, steps, n - 1);
      StepOrders(p, steps, n - 1);
    }
  }

  lemma StepOrders(p: Policy, steps: seq<Step>, n: nat)
    requires n < |steps| && InOrder(p, steps[..n])
    ensures InOrder(p, steps[..n + 1]) <==> !OutOfTurn(p, Run(p, steps[..n]).table, steps[n])
  {
    assert steps[..n + 1] == steps[..n] + [steps[n]];
    match steps[n]
    case Issue(_, _) => IssueOrders(p, steps[..n], steps[n]);
    case Begin(_, _, _, _) => BeginOrders(p, steps[..n], steps[n]);
    case Finish(_, _, _) => FinishOrders(p, steps[..n], steps[n]);
  }

  /** Over every interleaving: the table is evicted in the order of last use all along exactly when no
      step issues a name that is already there and not the newest. */
  lemma EvictionIsByLastUseExactlyWhen(p: Policy, steps: seq<Step>)
    ensures AlwaysInOrder(p, steps) <==> NeverOutOfTurn(p, steps)
  {
    if NeverOutOfTurn(p, steps) {
      forall n | 0 <= n <= |steps| ensures InOrder(p, steps[..n]) {
        InOrderUpTo(p, steps, n);
      }
    } else {
      var n :| 0 <= n < |steps| && OutOfTurn(p, Run(p, steps[..n]).table, steps[n]);
      if AlwaysInOrder(p, steps) {
        assert InOrder(p, steps[..n]) && InOrder(p, steps[..n + 1]);
        StepOrders(p, steps, n);
      }
    }
  }

  // ---------- whether the table fills up ----------

  /** The names that the actions of this process can be issued under. */
  function Names(p: Policy): set<Id> {
    set action <- p.digest :: p.sign(action, p.digest[action])
  }

  function IdsOf(table: seq<Row>): set<Id> {
    set row <- table :: row.id
  }

  lemma IdsOfMore(table: seq<Row>, row: Row)
    ensures IdsOf(table + [row]) == IdsOf(table) + {row.id}
  {
  }

  lemma {:induction false} DistinctIds(table: seq<Row>)
    requires Distinct(table)
    ensures |IdsOf(table)| == |table|
  {
    if table != [] {
      var but, last := table[..|table| - 1], table[|table| - 1];
      DistinctIds(but);
      assert table == but + [last];
      IdsOfMore(but, last);
      assert last.id !in IdsOf(but);
    }
  }

  lemma SmallerSet<T>(a: set<T>, b: set<T>)
    requires a <= b
    ensures |a| <= |b|
  {
    assert b == a + (b - a);
  }

  /** No run holds more rows than the process has names. */
  lemma TableIsBoundedByNames(p: Policy, steps: seq<Step>)
    ensures |Run(p, steps).table| <= |Names(p)|
  {
    var table := Run(p, steps).table;
    EveryRunIsSound(p, steps);
    DistinctIds(table);
    forall row <- table ensures row.id in Names(p) {
      var i :| 0 <= i < |table| && table[i] == row;
      assert WasIssued(p, steps, table[i].id, table[i].entry);
    }
    SmallerSet(IdsOf(table), Names(p));
  }

  /** Issuing these names one after the other, all at time zero. */
  lemma {:induction false} IssueAll(p: Policy, names: set<Id>) returns (steps: seq<Step>)
    requires names <= Names(p) && |names| <= MAX_ENTRIES
    ensures |Run(p, steps).table| == |names| && IdsOf(Run(p, steps).table) == names
    ensures forall row <- Run(p, steps).table :: row.entry.at == 0.0
    decreases |names|
  {
    if names == {} {
      steps := [];
    } else {
      var name :| name in names;
      var action :| action in p.digest && p.sign(action, p.digest[action]) == name;
      var first := IssueAll(p, names - {name});
      var s := Issue(action, 0.0);
      steps := first + [s];
      RunSteps(p, first, s);
      assert forall row <- Run(p, first).table :: row.id in IdsOf(Run(p, first).table);
      AppendsNew(p, Run(p, first).table, action, 0.0);
      IdsOfMore(Run(p, first).table, Row(name, Entry(action, p.digest[action], 0.0)));
    }
  }

  lemma AppendsNew(p: Policy, table: seq<Row>, action: ActionId, now: real)
    requires action in p.digest && |table| < MAX_ENTRIES
    requires forall row <- table :: !IsExpired(row.entry, now) && row.id != p.sign(action, p.digest[action])
    ensures Issued(p, table, action, now)
         == table + [Row(p.sign(action, p.digest[action]), Entry(action, p.digest[action], now))]
  {
    NothingPruned(table, now);
  }

  /** A step of the run drops a live name other than the one it issues. */
  predicate Drops(p: Policy, steps: seq<Step>, s: Step, id: Id) {
    && s.Issue? && s.action in p.digest && id != p.sign(s.action, p.digest[s.action])
    && Has(Pruned(Run(p, steps).table, s.now), id) && !Has(Perform(p, Run(p, steps), s).0.table, id)
  }

  lemma {:induction false} PartOf<T>(all: set<T>, count: nat) returns (part: set<T>)
    requires count <= |all|
    ensures part <= all && |part| == count
  {
    if count == |all| {
      part := all;
    } else {
      var x :| x in all;
      part := PartOf(all - {x}, count);
    }
  }

  /** With fewer names than rows no run ever drops a live name.  Otherwise even issuing a name that is
      already in the table does in some run. */
  lemma DropsExactlyWhen(p: Policy)
    ensures (exists steps, s, id :: Drops(p, steps, s, id)) <==> |Names(p)| >= MAX_ENTRIES
    ensures |Names(p)| >= MAX_ENTRIES ==>
              exists steps, s, id ::
                Drops(p, steps, s, id) && Has(Run(p, steps).table, p.sign(s.action, p.digest[s.action]))
  {
    if |Names(p)| >= MAX_ENTRIES {
      var steps, s, id := DropsForARenewal(p);
    } else {
      forall steps, s, id ensures !Drops(p, steps, s, id) {
        var table := Run(p, steps).table;
        EveryRunIsSound(p, steps);
        TableIsBoundedByNames(p, steps);
        if s.Issue? && s.action in p.digest {
          PrunedIsPart(table, s.now);
          EvictsExactlyWhen(p, table, s.action, s.now, id);
        }
      }
    }
  }

  lemma DropsForARenewal(p: Policy) returns (steps: seq<Step>, s: Step, id: Id)
    requires |Names(p)| >= MAX_ENTRIES
    ensures Drops(p, steps, s, id) && Has(Run(p, steps).table, p.sign(s.action, p.digest[s.action]))
  {
    var names := PartOf(Names(p), MAX_ENTRIES);
    steps := IssueAll(p, names);
    var table := Run(p, steps).table;
    EveryRunIsSound(p, steps);
    id := table[0].id;
    assert table[1] in table && table[1].id in names;
    var action :| action in p.digest && p.sign(action, p.digest[action]) == table[1].id;
    s := Issue(action, 0.0);
    NothingPruned(table, 0.0);
    EvictsExactlyWhen(p, table, action, 0.0, id);
    assert table[0] in table;
  }
}
