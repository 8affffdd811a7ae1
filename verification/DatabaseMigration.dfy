/**
 The first-run migration of `config.py`: the pre-1.0 database and its auth companion are copied
 into staging files, hard-linked into place (the primary last, as commit marker) and cleaned up.
 The process can be killed between any two filesystem operations, and any operation can raise.
 Runs are serialized by the migration lock.
 */
module DatabaseMigration {
  import opened Prelude

  // ---------- the filesystem ----------

  datatype Kind = Primary | Auth

  datatype Name =
    | Legacy(kind: Kind)                 // engraphis.db, engraphis.db.users.db next to site-packages
    | Target(kind: Kind)                 // the same two files in the user's data directory
    | Stage(kind: Kind, nonce: nat)      // .<target>.migrating-<uuid>

  /** A database file: torn while a backup is being written, else its logical content. */
  datatype Content = Torn | Whole(value: int)

  type Inode = nat

  /** `next` is an inode number that was never used. */
  datatype Fs = Fs(names: map<Name, Inode>, data: map<Inode, Content>, next: Inode)

  predicate Present(fs: Fs, n: Name) {
    n in fs.names
  }

  predicate Sane(fs: Fs) {
    && (forall n <- fs.names :: fs.names[n] in fs.data)
    && (forall i <- fs.data :: i < fs.next)
  }

  /** `st_nlink == 1`: no other name leads to the same inode. */
  predicate SoleName(fs: Fs, n: Name)
    requires n in fs.names
  {
    forall m <- fs.names :: fs.names[m] == fs.names[n] ==> m == n
  }

  function ContentOf(fs: Fs, n: Name): Content
    requires n in fs.names && Sane(fs)
  {
    fs.data[fs.names[n]]
  }

  predicate Holds(fs: Fs, n: Name, value: int) {
    n in fs.names && fs.names[n] in fs.data && fs.data[fs.names[n]] == Whole(value)
  }

  predicate SameIdentity(fs: Fs, a: Name, b: Name) {
    a in fs.names && b in fs.names && fs.names[a] == fs.names[b]
  }

  function Created(fs: Fs, n: Name): Fs {
    Fs(fs.names[n := fs.next], fs.data[fs.next := Torn], fs.next + 1)
  }

  function Filled(fs: Fs, n: Name, c: Content): Fs
    requires n in fs.names
  {
    fs.(data := fs.data[fs.names[n] := c])
  }

  function Linked(fs: Fs, source: Name, destination: Name): Fs
    requires source in fs.names
  {
    fs.(names := fs.names[destination := fs.names[source]])
  }

  function Unlinked(fs: Fs, n: Name): Fs {
    fs.(names := fs.names - {n})
  }

  // ---------- what every reachable state satisfies ----------

  /** The preserved legacy data: the primary database and, if there is one, its companion. */
  datatype Originals = Originals(primary: int, auth: Option<int>)

  predicate LegacyIntact(fs: Fs, o: Originals) {
    && Holds(fs, Legacy(Primary), o.primary) && SoleName(fs, Legacy(Primary))
    && (o.auth.None? ==> !Present(fs, Legacy(Auth)))
    && (o.auth.Some? ==> Holds(fs, Legacy(Auth), o.auth.value) && SoleName(fs, Legacy(Auth)))
  }

  /** What has been published is the legacy data. */
  predicate TargetsIntact(fs: Fs, o: Originals) {
    && (Present(fs, Target(Primary)) ==> Holds(fs, Target(Primary), o.primary))
    && (Present(fs, Target(Auth)) ==> o.auth.Some? && Holds(fs, Target(Auth), o.auth.value))
  }

  /** Two names share an inode only as a stage and the target it was linked to. */
  predicate OnlyStagesShare(fs: Fs) {
    forall m <- fs.names, n <- fs.names | m != n && fs.names[m] == fs.names[n] ::
      || (m.Stage? && n == Target(m.kind))
      || (n.Stage? && m == Target(n.kind))
  }

  /** No step of a run, whatever fails, ends this. */
  predicate Intact(fs: Fs, o: Originals) {
    Sane(fs) && LegacyIntact(fs, o) && TargetsIntact(fs, o) && OnlyStagesShare(fs)
  }

  /** The primary, the commit marker, is published without the companion it needs. */
  predicate Halved(fs: Fs, o: Originals) {
    Present(fs, Target(Primary)) && o.auth.Some? && !Present(fs, Target(Auth))
  }

  predicate Recoverable(fs: Fs, o: Originals) {
    Intact(fs, o) && !Halved(fs, o)
  }

  function StageNames(fs: Fs): set<Name> {
    set n | n in fs.names && n.Stage?
  }

  /** Both copies in place, nothing left over. */
  predicate Complete(fs: Fs, o: Originals) {
    Recoverable(fs, o) && Present(fs, Target(Primary)) && StageNames(fs) == {}
  }

  // ---------- single operations keep it ----------

  predicate SameTargets(a: Fs, b: Fs) {
    forall k :: Present(a, Target(k)) <==> Present(b, Target(k))
  }

  lemma CreateKeeps(fs: Fs, o: Originals, k: Kind, nonce: nat)
    requires Intact(fs, o) && Stage(k, nonce) !in fs.names
    ensures Intact(Created(fs, Stage(k, nonce)), o) && SameTargets(fs, Created(fs, Stage(k, nonce)))
    ensures SoleName(Created(fs, Stage(k, nonce)), Stage(k, nonce))
  {
  }

  lemma FillKeeps(fs: Fs, o: Originals, k: Kind, nonce: nat, c: Content)
    requires Intact(fs, o) && Stage(k, nonce) in fs.names && SoleName(fs, Stage(k, nonce))
    ensures Intact(Filled(fs, Stage(k, nonce), c), o) && SameTargets(fs, Filled(fs, Stage(k, nonce), c))
  {
  }

  /** Linking a finished stage into place: the primary only once its companion is there. */
  lemma LinkKeeps(fs: Fs, o: Originals, k: Kind, nonce: nat)
    requires Recoverable(fs, o) && Target(k) !in fs.names
    requires Stage(k, nonce) in fs.names && SoleName(fs, Stage(k, nonce))
    requires k.Primary? ==> Holds(fs, Stage(k, nonce), o.primary) && (o.auth.Some? ==> Present(fs, Target(Auth)))
    requires k.Auth? ==> o.auth.Some? && Holds(fs, Stage(k, nonce), o.auth.value)
    ensures Recoverable(Linked(fs, Stage(k, nonce), Target(k)), o)
  {
  }

  /** Nothing but a legacy file is needed to stay intact. */
  lemma UnlinkKeeps(fs: Fs, o: Originals, n: Name)
    requires Intact(fs, o) && !n.Legacy?
    ensures Intact(Unlinked(fs, n), o)
  {
  }

  lemma UnlinkStageKeeps(fs: Fs, o: Originals, k: Kind, nonce: nat)
    requires Intact(fs, o)
    ensures Intact(Unlinked(fs, Stage(k, nonce)), o) && SameTargets(fs, Unlinked(fs, Stage(k, nonce)))
    ensures StageNames(Unlinked(fs, Stage(k, nonce))) == StageNames(fs) - {Stage(k, nonce)}
  {
    UnlinkKeeps(fs, o, Stage(k, nonce));
  }

  /** The cleanup's test misses no leftover: a stage is its inode's only name or is linked to
      its own target. */
  lemma LeftoverIsRecognised(fs: Fs, o: Originals, n: Name)
    requires Intact(fs, o) && n in StageNames(fs)
    ensures SoleName(fs, n) || SameIdentity(fs, n, Target(n.kind))
  {
  }

  /** Before the first run: the legacy files, nothing published, nothing staged. */
  predicate FirstRun(fs: Fs, o: Originals) {
    && Sane(fs) && fs.names.Keys == {Legacy(Primary)} + (if o.auth.Some? then {Legacy(Auth)} else {})
    && Holds(fs, Legacy(Primary), o.primary) && (o.auth.Some? ==> Holds(fs, Legacy(Auth), o.auth.value))
    && (o.auth.Some? ==> fs.names[Legacy(Primary)] != fs.names[Legacy(Auth)])
  }

  predicate Untouched(fs: Fs) {
    StageNames(fs) == {} && !Present(fs, Target(Primary)) && !Present(fs, Target(Auth))
  }

  lemma FirstRunIsRecoverable(fs: Fs, o: Originals)
    requires FirstRun(fs, o)
    ensures Recoverable(fs, o) && Untouched(fs)
  {
  }

  // ---------- the migration ----------

  /** What happens at one filesystem operation. */
  datatype Event = Ok | Fail | Kill

  datatype Outcome = Done | Raised | Killed

  datatype Result = Returned | Error | Interrupted

  /** A finished backup of one legacy database, not yet published. */
  predicate Staged(fs: Fs, o: Originals, k: Kind, nonce: nat) {
    var n := Stage(k, nonce);
    && n in fs.names && SoleName(fs, n)
    && match k
       case Primary => Holds(fs, n, o.primary)
       case Auth => o.auth.Some? && Holds(fs, n, o.auth.value)
  }

  /** The pairs still to migrate: the companion first, the primary last. */
  predicate IsPlan(fs: Fs, o: Originals, pairs: seq<Kind>) {
    && Target(Primary) !in fs.names
    && (pairs == [Primary] || (pairs == [Auth, Primary] && o.auth.Some? && Target(Auth) !in fs.names))
    && (pairs == [Primary] && o.auth.Some? ==> Present(fs, Target(Auth)))
  }

  function StagesOf(pairs: seq<Kind>, nonce: Kind -> nat): set<Name> {
    set k | k in pairs :: Stage(k, nonce(k))
  }

  lemma StagesOfPlans(nonce: Kind -> nat)
    ensures StagesOf([Primary], nonce) == {Stage(Primary, nonce(Primary))}
    ensures StagesOf([Auth, Primary], nonce) == {Stage(Auth, nonce(Auth)), Stage(Primary, nonce(Primary))}
  {
    assert Primary in [Primary] && Primary in [Auth, Primary] && Auth in [Auth, Primary];
  }

  lemma TargetsAreSole(fs: Fs, o: Originals)
    requires Intact(fs, o)
    ensures StageNames(fs) == {} ==> forall k :: Target(k) in fs.names ==> SoleName(fs, Target(k))
  {
    forall k, m | StageNames(fs) == {} && Target(k) in fs.names && m in fs.names && fs.names[m] == fs.names[Target(k)]
      ensures m == Target(k)
    {
      assert m !in StageNames(fs);
    }
  }

  /** The filesystem after a finished backup, and after a finished publication. */
  function BackedUp(fs: Fs, k: Kind, nonce: nat): Fs
    requires Sane(fs) && Legacy(k) in fs.names
  {
    Filled(Created(fs, Stage(k, nonce)), Stage(k, nonce), ContentOf(fs, Legacy(k)))
  }

  function Published(fs: Fs, k: Kind, nonce: nat): Fs
    requires Stage(k, nonce) in fs.names
  {
    Unlinked(Linked(fs, Stage(k, nonce), Target(k)), Stage(k, nonce))
  }

  lemma BackupKeeps(fs: Fs, o: Originals, k: Kind, nonce: nat)
    requires Intact(fs, o) && Legacy(k) in fs.names && Stage(k, nonce) !in fs.names
    ensures Intact(BackedUp(fs, k, nonce), o) && Staged(BackedUp(fs, k, nonce), o, k, nonce)
    ensures SameTargets(fs, BackedUp(fs, k, nonce))
    ensures StageNames(BackedUp(fs, k, nonce)) == StageNames(fs) + {Stage(k, nonce)}
    ensures forall j, m | j != k && Staged(fs, o, j, m) :: Staged(BackedUp(fs, k, nonce), o, j, m)
  {
    CreateKeeps(fs, o, k, nonce);
    FillKeeps(Created(fs, Stage(k, nonce)), o, k, nonce, ContentOf(fs, Legacy(k)));
  }

  /** Every state a publication can be killed in is recoverable. */
  lemma PublishKeeps(fs: Fs, o: Originals, k: Kind, nonce: nat)
    requires Recoverable(fs, o) && Staged(fs, o, k, nonce) && Target(k) !in fs.names
    requires k.Primary? && o.auth.Some? ==> Present(fs, Target(Auth))
    ensures Recoverable(Linked(fs, Stage(k, nonce), Target(k)), o)
    ensures Recoverable(Published(fs, k, nonce), o)
    ensures Recoverable(Unlinked(fs, Stage(k, nonce)), o)
  {
    LinkKeeps(fs, o, k, nonce);
    UnlinkStageKeeps(Linked(fs, Stage(k, nonce), Target(k)), o, k, nonce);
    UnlinkStageKeeps(fs, o, k, nonce);
  }

  /** The states a publication can leave. */
  predicate PublishState(before: Fs, after: Fs, k: Kind, nonce: nat)
    requires Stage(k, nonce) in before.names
  {
    || after == before || after == Unlinked(before, Stage(k, nonce))
    || after == Linked(before, Stage(k, nonce), Target(k)) || after == Published(before, k, nonce)
  }

  /** Only this stage is gone; other finished stages are still there. */
  ghost predicate AllButStage(before: Fs, after: Fs, o: Originals, k: Kind, nonce: nat) {
    && StageNames(after) == StageNames(before) - {Stage(k, nonce)}
    && forall j, m | j != k && Staged(before, o, j, m) :: Staged(after, o, j, m)
  }

  lemma PublishReaches(before: Fs, after: Fs, o: Originals, k: Kind, nonce: nat)
    requires Recoverable(before, o) && Staged(before, o, k, nonce) && Target(k) !in before.names
    requires k.Primary? && o.auth.Some? ==> Present(before, Target(Auth))
    requires PublishState(before, after, k, nonce)
    ensures Recoverable(after, o)
    ensures forall j | j != k :: Present(after, Target(j)) == Present(before, Target(j))
    ensures after == Published(before, k, nonce) ==> AllButStage(before, after, o, k, nonce)
  {
    PublishKeeps(before, o, k, nonce);
    PublishedShape(before, o, k, nonce);
  }

  lemma PublishedShape(fs: Fs, o: Originals, k: Kind, nonce: nat)
    requires Staged(fs, o, k, nonce)
    ensures AllButStage(fs, Published(fs, k, nonce), o, k, nonce)
  {
  }

  lemma UndoingTheLink(fs: Fs, source: Name, destination: Name)
    requires source in fs.names && destination !in fs.names && source != destination
    ensures Unlinked(Linked(fs, source, destination), destination) == fs
    ensures Unlinked(Unlinked(Linked(fs, source, destination), source), destination) == Unlinked(fs, source)
  {
    assert Unlinked(Linked(fs, source, destination), destination).names == fs.names;
    assert Unlinked(Unlinked(Linked(fs, source, destination), source), destination).names == Unlinked(fs, source).names;
  }

  /** An attempt of a run to remove a file it had published. */
  datatype Removal = Removal(kind: Kind, event: Event)

  /** Attempts to remove these files, the last first, and perhaps not all of them. */
  predicate AreRemovals(tried: seq<Removal>, published: seq<Kind>) {
    |tried| <= |published| && forall i | 0 <= i < |tried| :: tried[i].kind == published[|published| - 1 - i]
  }

  /** The removals of a run that splits the pair: the primary stays, its companion goes. */
  const SPLIT := [Removal(Primary, Fail), Removal(Auth, Ok)]

  /** The next `n` operations succeed; beyond the script all do. */
  predicate Lucky(script: seq<Event>, n: nat) {
    forall i | 0 <= i < n && i < |script| :: script[i].Ok?
  }

  function Skip(script: seq<Event>, n: nat): seq<Event> {
    if n <= |script| then script[n..] else []
  }

  function Head(script: seq<Event>): Event {
    if script == [] then Ok else script[0]
  }

  /** The next publication links its file, and then neither the flush nor the undoing succeeds. */
  predicate Unlucky(script: seq<Event>) {
    [Ok, Ok, Fail, Fail] <= script
  }

  /** The next publication succeeds and the one after it is unlucky. */
  predicate UnluckySecond(script: seq<Event>) {
    [Ok, Ok, Ok, Ok, Ok, Fail, Fail] <= script
  }

  /** Both backups and the companion's publication succeed; the primary's directory flush fails, then the
      removal of the primary fails, then the removal of the companion succeeds. */
  const UNLUCKY := [Ok, Ok, Ok, Ok, Ok, Ok, Ok, Ok, Ok, Fail, Fail, Ok]

  lemma LuckyParts(script: seq<Event>, a: nat, b: nat)
    ensures Skip(Skip(script, a), b) == Skip(script, a + b)
    ensures Lucky(script, a + b) ==> Lucky(script, a) && Lucky(Skip(script, a), b)
  {
  }

  lemma UnluckyParts(script: seq<Event>)
    requires UnluckySecond(script)
    ensures Lucky(script, 3) && Unlucky(Skip(script, 3)) && Skip(Skip(script, 3), 4) == Skip(script, 7)
  {
    var rest := script[7..];
    assert script == [Ok, Ok, Ok, Ok, Ok, Fail, Fail] + rest;
    assert Skip(script, 3) == [Ok, Ok, Fail, Fail] + rest;
  }

  /** Two backups succeed, then such publications follow, then one removal succeeds. */
  predicate UnluckyRun(script: seq<Event>) {
    Lucky(script, 4) && UnluckySecond(Skip(script, 4)) && Skip(Skip(script, 4), 7) == [Ok]
  }

  lemma UnluckyStart()
    ensures UnluckyRun(UNLUCKY)
  {
  }

  lemma SplitIs(first: seq<Removal>, tried: seq<Removal>)
    requires |first| <= 1 && |tried| <= 1
    ensures first + tried == SPLIT <==> first == [Removal(Primary, Fail)] && tried == [Removal(Auth, Ok)]
  {
    if first + tried == SPLIT {
      assert first == SPLIT[..1] && tried == SPLIT[1..];
    }
  }

  /** The filesystem, what will go wrong with the next operations (after `script` is used up nothing
      does), the removals of published files so far, and whether the process has been killed: then it does
      nothing more. */
  class Machine {
    var fs: Fs
    var script: seq<Event>
    var removals: seq<Removal>
    ghost var dead: bool

    constructor (fs: Fs)
      ensures this.fs == fs && script == [] && removals == [] && !dead
    {
      this.fs, script, removals, dead := fs, [], [], false;
    }

    method Tick() returns (e: Event)
      requires !dead
      modifies this`script, this`dead
      ensures e == Head(old(script)) && script == Skip(old(script), 1) && (dead <==> e.Kill?)
    {
      if script == [] {
        return Ok;
      }
      e := script[0];
      script := script[1..];
      dead := e.Kill?;
    }

    method Create(n: Name) returns (e: Event)
      requires !dead
      modifies this`fs, this`script, this`dead
      ensures fs == if e.Ok? then Created(old(fs), n) else old(fs)
      ensures e == Head(old(script)) && script == Skip(old(script), 1) && (dead <==> e.Kill?)
    {
      e := Tick();
      if e.Ok? {
        fs := Fs(fs.names[n := fs.next], fs.data[fs.next := Torn], fs.next + 1);
      }
    }

    method Fill(n: Name, c: Content) returns (e: Event)
      requires !dead
      requires n in fs.names
      modifies this`fs, this`script, this`dead
      ensures fs == if e.Ok? then Filled(old(fs), n, c) else old(fs)
      ensures e == Head(old(script)) && script == Skip(old(script), 1) && (dead <==> e.Kill?)
    {
      e := Tick();
      if e.Ok? {
        fs := fs.(data := fs.data[fs.names[n] := c]);
      }
    }

    method Link(source: Name, destination: Name) returns (e: Event)
      requires !dead
      requires source in fs.names
      modifies this`fs, this`script, this`dead
      ensures fs == if e.Ok? then Linked(old(fs), source, destination) else old(fs)
      ensures e == Head(old(script)) && script == Skip(old(script), 1) && (dead <==> e.Kill?)
    {
      e := Tick();
      if e.Ok? {
        fs := fs.(names := fs.names[destination := fs.names[source]]);
      }
    }

    method Unlink(n: Name) returns (e: Event)
      requires !dead
      modifies this`fs, this`script, this`dead
      ensures fs == if e.Ok? then Unlinked(old(fs), n) else old(fs)
      ensures e == Head(old(script)) && script == Skip(old(script), 1) && (dead <==> e.Kill?)
    {
      e := Tick();
      if e.Ok? {
        fs := fs.(names := fs.names - {n});
      }
    }

    /** `_unlink_if_identity` of a file this run published. */
    method Remove(k: Kind) returns (e: Event)
      requires !dead
      modifies this
      ensures fs == if e.Ok? then Unlinked(old(fs), Target(k)) else old(fs)
      ensures e == Head(old(script)) && script == Skip(old(script), 1) && (dead <==> e.Kill?)
      ensures removals == old(removals) + [Removal(k, e)]
    {
      e := Unlink(Target(k));
      removals := removals + [Removal(k, e)];
    }

    /** `_cleanup_stale_migration_stages` for one target. */
    method CleanStages(k: Kind, ghost o: Originals) returns (killed: bool)
      requires !dead
      requires Intact(fs, o)
      modifies this`fs, this`script, this`dead
      ensures dead <==> killed
      ensures Intact(fs, o) && SameTargets(fs, old(fs)) && StageNames(fs) <= old(StageNames(fs))
      ensures old(script) == [] ==> !killed && script == [] && forall n <- StageNames(fs) :: n.kind != k
      ensures old(StageNames(fs)) == {} ==> !killed && script == old(script) && fs == old(fs)
    {
      var entries := set n | n in fs.names && n.Stage? && n.kind == k;
      while entries != {}
        invariant !dead && Intact(fs, o) && SameTargets(fs, old(fs)) && StageNames(fs) <= old(StageNames(fs))
        invariant forall n <- entries :: n in StageNames(fs) && n.kind == k
        invariant old(script) == [] ==> script == [] && forall n <- StageNames(fs) :: n.kind == k ==> n in entries
        invariant old(StageNames(fs)) == {} ==> script == old(script) && fs == old(fs)
        decreases entries
      {
        var entry :| entry in entries;
        entries := entries - {entry};
        LeftoverIsRecognised(fs, o, entry);
        UnlinkStageKeeps(fs, o, k, entry.nonce);
        if SoleName(fs, entry) || SameIdentity(fs, entry, Target(k)) {
          var e := Unlink(entry);
          if e.Kill? {
            return true;
          }
        }
      }
      killed := false;
    }

    /** `_backup_sqlite` of one legacy database into a new stage. */
    method Backup(k: Kind, nonce: nat) returns (r: Outcome)
      requires !dead
      requires Sane(fs) && Legacy(k) in fs.names && SoleName(fs, Legacy(k))
      modifies this`fs, this`script, this`dead
      ensures dead <==> r.Killed?
      ensures r.Done? ==> Stage(k, nonce) !in old(fs.names) && fs == BackedUp(old(fs), k, nonce)
      ensures !r.Done? ==>
                fs == old(fs) || (Stage(k, nonce) !in old(fs.names) && fs == Created(old(fs), Stage(k, nonce)))
      ensures Lucky(old(script), 2) && Stage(k, nonce) !in old(fs.names) ==> r.Done? && script == Skip(old(script), 2)
    {
      if Stage(k, nonce) in fs.names {
        return Raised;
      }
      var content := ContentOf(fs, Legacy(k));
      var e := Create(Stage(k, nonce));
      if !e.Ok? {
        return if e.Kill? then Killed else Raised;
      }
      e := Fill(Stage(k, nonce), content);
      if !e.Ok? {
        return if e.Kill? then Killed else Raised;
      }
      r := Done;
    }

    /** `_publish_no_replace`: link, unlink the stage, flush; undo the link if that fails. */
    method Publish(k: Kind, nonce: nat) returns (r: Outcome)
      requires !dead
      requires Stage(k, nonce) in fs.names && Target(k) !in fs.names && SoleName(fs, Stage(k, nonce))
      modifies this
      ensures dead <==> r.Killed?
      ensures r.Done? ==> fs == Published(old(fs), k, nonce) && removals == old(removals)
      ensures r.Raised? ==>
                || (removals == old(removals) && fs == old(fs))
                || (removals == old(removals) + [Removal(k, Ok)]
                    && (fs == old(fs) || fs == Unlinked(old(fs), Stage(k, nonce))))
                || (removals == old(removals) + [Removal(k, Fail)]
                    && (fs == Linked(old(fs), Stage(k, nonce), Target(k)) || fs == Published(old(fs), k, nonce)))
      ensures r.Killed? ==>
                && (fs == old(fs) || fs == Linked(old(fs), Stage(k, nonce), Target(k))
                    || fs == Published(old(fs), k, nonce))
                && (removals == old(removals) || removals == old(removals) + [Removal(k, Kill)])
      ensures PublishState(old(fs), fs, k, nonce)
      ensures Lucky(old(script), 3) ==> r.Done? && script == Skip(old(script), 3)
      ensures Unlucky(old(script)) ==>
                r.Raised? && removals == old(removals) + [Removal(k, Fail)] && script == Skip(old(script), 4)
    {
      UndoingTheLink(fs, Stage(k, nonce), Target(k));
      var e := Link(Stage(k, nonce), Target(k));
      if !e.Ok? {
        return if e.Kill? then Killed else Raised;
      }
      e := Unlink(Stage(k, nonce));
      if e.Kill? {
        return Killed;
      }
      if e.Ok? {
        e := Tick();                                  // the directory flush
        if !e.Fail? {
          return if e.Kill? then Killed else Done;
        }
      }
      e := Remove(k);
      r := if e.Kill? then Killed else Raised;
    }

    /** The rollback of `_prepare_installed_db_default_unlocked`: remove what was published, the
        last first, then the stages. */
    method Rollback(published: seq<Kind>, staged: seq<Kind>, nonce: Kind -> nat, ghost o: Originals)
      returns (killed: bool, ghost tried: seq<Removal>)
      requires !dead
      requires Intact(fs, o)
      modifies this
      ensures dead <==> killed
      ensures Intact(fs, o) && removals == old(removals) + tried && AreRemovals(tried, published)
      ensures forall k :: Present(fs, Target(k)) <==> old(Present(fs, Target(k))) && Removal(k, Ok) !in tried
      ensures published != [] ==> |tried| > 0 && tried[0].event == Head(old(script))
      ensures Kill !in old(script) ==> !killed
    {
      killed, tried := RemovePublished(published, o);
      if !killed {
        killed := RemoveStages(staged, nonce, o);
      }
    }

    method RemovePublished(published: seq<Kind>, ghost o: Originals) returns (killed: bool, ghost tried: seq<Removal>)
      requires !dead
      requires Intact(fs, o)
      modifies this
      ensures dead <==> killed
      ensures Intact(fs, o) && removals == old(removals) + tried && AreRemovals(tried, published)
      ensures forall k :: Present(fs, Target(k)) <==> old(Present(fs, Target(k))) && Removal(k, Ok) !in tried
      ensures published != [] ==> |tried| > 0 && tried[0].event == Head(old(script))
      ensures Kill !in old(script) ==> !killed && Kill !in script
    {
      tried := [];
      var i := |published|;
      while i > 0
        invariant !dead && 0 <= i <= |published| && |tried| == |published| - i
        invariant Intact(fs, o) && removals == old(removals) + tried && AreRemovals(tried, published)
        invariant forall k :: Present(fs, Target(k)) <==> old(Present(fs, Target(k))) && Removal(k, Ok) !in tried
        invariant if tried == [] then script == old(script) else tried[0].event == Head(old(script))
        invariant Kill !in old(script) ==> Kill !in script
      {
        i := i - 1;
        UnlinkKeeps(fs, o, Target(published[i]));
        var e := Remove(published[i]);
        tried := tried + [Removal(published[i], e)];
        if e.Kill? {
          return true, tried;
        }
      }
      killed := false;
    }

    method RemoveStages(staged: seq<Kind>, nonce: Kind -> nat, ghost o: Originals) returns (killed: bool)
      requires !dead
      requires Intact(fs, o)
      modifies this`fs, this`script, this`dead
      ensures dead <==> killed
      ensures Intact(fs, o) && SameTargets(fs, old(fs))
      ensures Kill !in old(script) ==> !killed
    {
      for i := 0 to |staged|
        invariant !dead
        invariant Intact(fs, o) && SameTargets(fs, old(fs))
        invariant Kill !in old(script) ==> Kill !in script
      {
        UnlinkStageKeeps(fs, o, staged[i], nonce(staged[i]));
        var e := Unlink(Stage(staged[i], nonce(staged[i])));
        if e.Kill? {
          return true;
        }
      }
      killed := false;
    }

    /** The staging loop: one or two backups. */
    method StageAll(pairs: seq<Kind>, nonce: Kind -> nat, ghost o: Originals) returns (outcome: Outcome, staged: nat)
      requires !dead
      requires Recoverable(fs, o) && IsPlan(fs, o, pairs)
      modifies this`fs, this`script, this`dead
      ensures dead <==> outcome.Killed?
      ensures staged <= |pairs| && Recoverable(fs, o) && IsPlan(fs, o, pairs)
      ensures outcome.Done? ==> staged == |pairs| && forall k <- pairs :: Staged(fs, o, k, nonce(k))
      ensures Lucky(old(script), 2 * |pairs|) && old(StageNames(fs)) == {} ==>
                outcome.Done? && script == Skip(old(script), 2 * |pairs|) && StageNames(fs) == StagesOf(pairs, nonce)
    {
      staged := 0;
      StagesOfPlans(nonce);
      LuckyParts(script, 2, 2);
      if pairs == [Auth, Primary] {
        outcome := StageOne(Auth, nonce(Auth), o);
        staged := 1;
        if !outcome.Done? {
          return;
        }
      }
      outcome := StageOne(Primary, nonce(Primary), o);
      staged := |pairs|;
    }

    method StageOne(k: Kind, nonce: nat, ghost o: Originals) returns (outcome: Outcome)
      requires !dead
      requires Intact(fs, o) && Legacy(k) in fs.names
      modifies this`fs, this`script, this`dead
      ensures dead <==> outcome.Killed?
      ensures Intact(fs, o) && SameTargets(fs, old(fs))
      ensures outcome.Done? ==> Staged(fs, o, k, nonce)
      ensures outcome.Done? ==> forall j, m | j != k && Staged(old(fs), o, j, m) :: Staged(fs, o, j, m)
      ensures Lucky(old(script), 2) && Stage(k, nonce) !in old(StageNames(fs)) ==>
                && outcome.Done? && script == Skip(old(script), 2)
                && StageNames(fs) == old(StageNames(fs)) + {Stage(k, nonce)}
    {
      assert Stage(k, nonce) in StageNames(fs) <==> Stage(k, nonce) in fs.names;
      if Stage(k, nonce) !in fs.names {
        BackupKeeps(fs, o, k, nonce);
        CreateKeeps(fs, o, k, nonce);
      }
      outcome := Backup(k, nonce);
    }

    /** The publishing loop: the companion first, the primary last. */
    method PublishAll(pairs: seq<Kind>, nonce: Kind -> nat, ghost o: Originals)
      returns (outcome: Outcome, published: nat)
      requires !dead
      requires Recoverable(fs, o) && IsPlan(fs, o, pairs) && removals == []
      requires forall k <- pairs :: Staged(fs, o, k, nonce(k))
      modifies this
      ensures dead <==> outcome.Killed?
      ensures published <= |pairs| && Recoverable(fs, o) && |removals| <= 1
      ensures outcome.Done? ==> published == |pairs| && Present(fs, Target(Primary))
      ensures outcome.Raised? ==> published < |pairs|
      ensures outcome.Raised? ==>
                pairs[..published] == [] || (pairs[..published] == [Auth] && Present(fs, Target(Auth)))
      ensures outcome.Raised? ==> (Present(fs, Target(Primary)) <==> removals == [Removal(Primary, Fail)])
      ensures Lucky(old(script), 3 * |pairs|) && old(StageNames(fs)) == StagesOf(pairs, nonce) ==>
                outcome.Done? && script == Skip(old(script), 3 * |pairs|) && StageNames(fs) == {}
      ensures pairs == [Auth, Primary] && UnluckySecond(old(script)) ==>
                && outcome.Raised? && pairs[..published] == [Auth] && script == Skip(old(script), 7)
                && removals == [Removal(Primary, Fail)]
    {
      if pairs == [Auth, Primary] {
        outcome, published := PublishBoth(nonce, o);
      } else {
        StagesOfPlans(nonce);
        assert Staged(fs, o, Primary, nonce(Primary)) && pairs == [Primary];
        outcome := PublishOne(Primary, nonce(Primary), o);
        published := if outcome.Done? then 1 else 0;
      }
    }

    method PublishBoth(nonce: Kind -> nat, ghost o: Originals) returns (outcome: Outcome, published: nat)
      requires !dead
      requires Recoverable(fs, o) && IsPlan(fs, o, [Auth, Primary]) && removals == []
      requires Staged(fs, o, Auth, nonce(Auth)) && Staged(fs, o, Primary, nonce(Primary))
      modifies this
      ensures dead <==> outcome.Killed?
      ensures published <= 2 && Recoverable(fs, o) && |removals| <= 1
      ensures outcome.Done? ==> published == 2 && Present(fs, Target(Primary))
      ensures outcome.Raised? ==> published < 2 && (published == 1 ==> Present(fs, Target(Auth)))
      ensures outcome.Raised? ==> (Present(fs, Target(Primary)) <==> removals == [Removal(Primary, Fail)])
      ensures Lucky(old(script), 6) && old(StageNames(fs)) == StagesOf([Auth, Primary], nonce) ==>
                outcome.Done? && script == Skip(old(script), 6) && StageNames(fs) == {}
      ensures UnluckySecond(old(script)) ==>
                && outcome.Raised? && published == 1 && script == Skip(old(script), 7)
                && removals == [Removal(Primary, Fail)]
    {
      published := 0;
      StagesOfPlans(nonce);
      LuckyParts(script, 3, 3);
      if UnluckySecond(script) {
        UnluckyParts(script);
      }
      outcome := PublishOne(Auth, nonce(Auth), o);
      if !outcome.Done? {
        return;
      }
      published := 1;
      assert Staged(fs, o, Primary, nonce(Primary));
      outcome := PublishOne(Primary, nonce(Primary), o);
      if outcome.Done? {
        published := 2;
      }
    }

    method PublishOne(k: Kind, nonce: nat, ghost o: Originals) returns (outcome: Outcome)
      requires !dead
      requires Recoverable(fs, o) && Staged(fs, o, k, nonce) && Target(k) !in fs.names && removals == []
      requires k.Primary? && o.auth.Some? ==> Present(fs, Target(Auth))
      modifies this
      ensures dead <==> outcome.Killed?
      ensures Recoverable(fs, o)
      ensures forall j | j != k :: Present(fs, Target(j)) == old(Present(fs, Target(j)))
      ensures removals == [] || (|removals| == 1 && removals[0].kind == k)
      ensures outcome.Done? ==> Present(fs, Target(k)) && removals == [] && AllButStage(old(fs), fs, o, k, nonce)
      ensures outcome.Raised? ==> (Present(fs, Target(k)) <==> removals == [Removal(k, Fail)])
      ensures Lucky(old(script), 3) ==> outcome.Done? && script == Skip(old(script), 3)
      ensures Unlucky(old(script)) ==>
                outcome.Raised? && removals == [Removal(k, Fail)] && script == Skip(old(script), 4)
    {
      ghost var before := fs;
      outcome := Publish(k, nonce);
      PublishReaches(before, fs, o, k, nonce);
    }

    method StageAndPublish(pairs: seq<Kind>, nonce: Kind -> nat, ghost o: Originals) returns (r: Result)
      requires !dead
      requires Recoverable(fs, o) && IsPlan(fs, o, pairs) && removals == []
      modifies this
      ensures dead <==> r.Interrupted?
      ensures Intact(fs, o) && (Halved(fs, o) <==> removals == SPLIT)
      ensures r.Returned? ==> Present(fs, Target(Primary)) && !Halved(fs, o)
      ensures old(script) == [] && old(StageNames(fs)) == {} ==> r.Returned? && Complete(fs, o) && script == []
      ensures UnluckyRun(old(script)) && old(StageNames(fs)) == {} && pairs == [Auth, Primary] ==>
                r.Error? && removals == SPLIT
    {
      var outcome, staged, published := TryAll(pairs, nonce, o);
      match outcome {
        case Done => r := Returned;
        case Killed => r := Interrupted;
        case Raised => r := GiveUp(pairs[..published], pairs[..staged], nonce, o);
      }
    }

    /** The `try` block: all backups, then all publications. */
    method TryAll(pairs: seq<Kind>, nonce: Kind -> nat, ghost o: Originals)
      returns (outcome: Outcome, staged: nat, published: nat)
      requires !dead
      requires Recoverable(fs, o) && IsPlan(fs, o, pairs) && removals == []
      modifies this
      ensures dead <==> outcome.Killed?
      ensures Recoverable(fs, o) && |removals| <= 1 && staged <= |pairs| && published <= |pairs|
      ensures outcome.Done? ==> Present(fs, Target(Primary))
      ensures outcome.Raised? ==>
                pairs[..published] == [] || (pairs[..published] == [Auth] && Present(fs, Target(Auth)))
      ensures outcome.Raised? ==> (Present(fs, Target(Primary)) <==> removals == [Removal(Primary, Fail)])
      ensures old(script) == [] && old(StageNames(fs)) == {} ==> outcome.Done? && script == [] && StageNames(fs) == {}
      ensures UnluckyRun(old(script)) && old(StageNames(fs)) == {} && pairs == [Auth, Primary] ==>
                && outcome.Raised? && script == [Ok] && removals == [Removal(Primary, Fail)]
                && pairs[..published] == [Auth]
    {
      published := 0;
      outcome, staged := StageAll(pairs, nonce, o);
      if outcome.Done? {
        outcome, published := PublishAll(pairs, nonce, o);
      }
    }

    /** The `except` branch: the primary was never published, or could not be taken back. */
    method GiveUp(published: seq<Kind>, staged: seq<Kind>, nonce: Kind -> nat, ghost o: Originals)
      returns (r: Result)
      requires !dead
      requires Recoverable(fs, o) && |removals| <= 1
      requires Present(fs, Target(Primary)) <==> removals == [Removal(Primary, Fail)]
      requires published == [] || (published == [Auth] && Present(fs, Target(Auth)))
      modifies this
      ensures dead <==> r.Interrupted?
      ensures Intact(fs, o) && (Halved(fs, o) <==> removals == SPLIT) && !r.Returned?
      ensures published == [Auth] && old(script) == [Ok] && old(removals) == [Removal(Primary, Fail)] ==>
                r.Error? && removals == SPLIT
    {
      ghost var before := removals;
      var killed, tried := Rollback(published, staged, nonce, o);
      SplitIs(before, tried);
      assert published == [Auth] ==> tried == [Removal(Auth, tried[0].event)];
      r := if killed then Interrupted else Error;
    }

    /** `_prepare_installed_db_default_unlocked`.  Whatever the script does to it, the legacy files and
        what is published stay intact.  The pair is split exactly when the removal of the published primary
        fails and the rollback then removes the companion; from then on no run returns.  In every other
        state an undisturbed run finishes the migration.  It is interrupted exactly when it is killed, and then
        does nothing more. */
    method Prepare(nonce: Kind -> nat, ghost o: Originals) returns (r: Result)
      requires Intact(fs, o)
      modifies this
      ensures dead <==> r.Interrupted?
      ensures Intact(fs, o) && (Halved(fs, o) <==> old(Halved(fs, o)) || removals == SPLIT)
      ensures r.Returned? ==> Present(fs, Target(Primary)) && !Halved(fs, o)
      ensures old(script) == [] ==> script == []
      ensures old(script) == [] ==> if old(Halved(fs, o)) then r.Error? else r.Returned? && Complete(fs, o)
      ensures UnluckyRun(old(script)) && old(Untouched(fs)) && o.auth.Some? ==> r.Error? && removals == SPLIT
    {
      removals, dead := [], false;
      var killed := CleanStages(Primary, o);
      if killed {
        return Interrupted;
      }
      killed := CleanStages(Auth, o);
      if killed {
        return Interrupted;
      }
      assert old(script) == [] ==> StageNames(fs) == {} && script == [];
      TargetsAreSole(fs, o);
      if (Present(fs, Target(Primary)) && !SoleName(fs, Target(Primary)))
         || (Present(fs, Target(Auth)) && !SoleName(fs, Target(Auth))) {
        return Error;
      }
      if Present(fs, Target(Primary)) {
        if Present(fs, Legacy(Auth)) && !Present(fs, Target(Auth)) {
          return Error;
        }
        return Returned;
      }
      var pairs := [Primary];
      if Present(fs, Target(Auth)) {
        if !Present(fs, Legacy(Auth)) || ContentOf(fs, Target(Auth)) != ContentOf(fs, Legacy(Auth)) {
          return Error;
        }
      } else if Present(fs, Legacy(Auth)) {
        pairs := [Auth, Primary];
      }
      r := StageAndPublish(pairs, nonce, o);
    }

    /** Any number of runs, each killed or failing anywhere, and then one that is left alone: it completes
        the migration unless one of the runs split the pair, and then it refuses. */
    method CrashThenRecover(scripts: seq<seq<Event>>, nonce: (nat, Kind) -> nat, ghost o: Originals)
      returns (r: Result, history: seq<seq<Removal>>)
      requires Recoverable(fs, o)
      modifies this
      ensures Intact(fs, o) && |history| == |scripts|
      ensures if SPLIT in history then r.Error? && Halved(fs, o) else r.Returned? && Complete(fs, o)
    {
      history := [];
      for i := 0 to |scripts|
        invariant Intact(fs, o) && |history| == i
        invariant Halved(fs, o) <==> SPLIT in history
      {
        script := scripts[i];
        r := Prepare(k => nonce(i, k), o);
        history := history + [removals];
      }
      script := [];
      r := Prepare(k => nonce(|scripts|, k), o);
    }

    /** A first run that splits the pair, and whatever is run after it: the legacy files stay, but no run
        ever returns, and one that nothing disturbs reports the missing companion. */
    method SplitForGood(scripts: seq<seq<Event>>, nonce: (nat, Kind) -> nat, ghost o: Originals)
      returns (results: seq<Result>)
      requires FirstRun(fs, o) && o.auth.Some?
      modifies this
      ensures Intact(fs, o) && Halved(fs, o)
      ensures |results| == |scripts| + 1 && results[0].Error?
      ensures forall i | 0 <= i < |scripts| ::
                !results[i + 1].Returned? && (scripts[i] == [] ==> results[i + 1].Error?)
    {
      FirstRunIsRecoverable(fs, o);
      UnluckyStart();
      script := UNLUCKY;
      var first := Prepare(k => nonce(0, k), o);
      var later := RunAll(scripts, (i, k) => nonce(i + 1, k), o);
      results := [first] + later;
    }

    method RunAll(scripts: seq<seq<Event>>, nonce: (nat, Kind) -> nat, ghost o: Originals)
      returns (results: seq<Result>)
      requires Intact(fs, o) && Halved(fs, o)
      modifies this
      ensures Intact(fs, o) && Halved(fs, o) && |results| == |scripts|
      ensures forall i | 0 <= i < |scripts| :: !results[i].Returned? && (scripts[i] == [] ==> results[i].Error?)
    {
      results := [];
      for i := 0 to |scripts|
        invariant Intact(fs, o) && Halved(fs, o) && |results| == i
        invariant forall j | 0 <= j < i :: !results[j].Returned? && (scripts[j] == [] ==> results[j].Error?)
      {
        script := scripts[i];
        var next := Prepare(k => nonce(i, k), o);
        results := results + [next];
      }
    }
  }
}
