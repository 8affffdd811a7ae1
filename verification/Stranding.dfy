/**
 The converse of `RotationProtocol.NoCredentialIsReplayed`.  A window that closes with the credential
 it spent still on disk leaves it for the next process: every process that has not fenced it sends it
 again.  Together they say which runs are safe, over every interleaving and every failing write.
 */
module Stranding {
  import opened Prelude
  import opened CloudSession
  import opened RotationProtocol

  /** An environment without a credential, and an outside world that raises no objection. */
  const CALM := Environment("", None, None, Named(Member))
  const REACHABLE := Reach(true, true, true)

  /** A process that has fenced nothing would send the credential of this record. */
  predicate Sendable(r: Record) {
    PersistedSelected(r) && Decide(r, {}, CALM, false, REACHABLE).Send?
  }

  lemma SentOnceIsSendable(r: Record, fence: set<Digest>, env: Environment, requireCompute: bool, reach: Reach)
    requires PersistedSelected(r) && Decide(r, fence, env, requireCompute, reach).Send?
    ensures Sendable(r)
  {
  }

  lemma UnfencedSends(r: Record, fence: set<Digest>)
    requires Sendable(r) && Digest(Persisted(r)) !in fence
    ensures Decide(r, fence, CALM, false, REACHABLE).Send?
    ensures Decide(r, fence, CALM, false, REACHABLE).call.refresh == Persisted(r)
  {
  }

  lemma DeniedIsSendable(r: Record)
    ensures Sendable(DeniedRecord(r)) <==> Sendable(r)
  {
    DenialKeepsTheFamily(r, {}, CALM, false, REACHABLE);
  }

  // ---------- what every reachable state knows about a spent credential ----------

  predicate SpentOnDisk(w: World) {
    Persisted(w.disk) != "" && SpentIn(w.log, Persisted(w.disk))
  }

  ghost predicate WindowsAreSpent(w: World) {
    forall p: nat :: InWindow(PhaseOf(w, p)) ==> SpentIn(w.log, PhaseOf(w, p).call.refresh)
  }

  ghost predicate ReadyIsSendable(w: World) {
    forall p: nat :: PhaseOf(w, p).Ready? && PersistedSelected(PhaseOf(w, p).saved) ==>
      Sendable(PhaseOf(w, p).saved)
  }

  /** A spent credential on disk got there unspent, was sent from there, and can be sent again. */
  ghost predicate Accounted(w: World) {
    WindowsAreSpent(w) && ReadyIsSendable(w) && (SpentOnDisk(w) ==> Sendable(w.disk))
  }

  lemma StartIsAccounted(w: World)
    requires Start(w)
    ensures Accounted(w)
  {
    forall p ensures PhaseOf(w, p).Idle? || PhaseOf(w, p).Dead? {
    }
  }

  lemma SpentStays(w: World, s: Step, c: string)
    requires Enabled(w, s) && SpentIn(w.log, c)
    ensures SpentIn(Next(w, s).log, c)
  {
    LogGrows(w, s);
  }

  lemma OpenedWindowIsSpent(w: World, s: Step)
    requires Enabled(w, s) && s.SendPost? && InWindow(PhaseOf(Next(w, s), s.p))
    ensures SpentIn(Next(w, s).log, PhaseOf(Next(w, s), s.p).call.refresh)
  {
    var phase := PhaseOf(w, s.p);
    var entry := Post(s.p, phase.call, PersistedSelected(phase.saved), true);
    assert Next(w, s).log == w.log + [entry];
    assert entry in Next(w, s).log;
  }

  lemma WindowStaysOpen(w: World, s: Step)
    requires Enabled(w, s) && !s.SendPost? && InWindow(PhaseOf(Next(w, s), s.p))
    ensures InWindow(PhaseOf(w, s.p))
  {
  }

  lemma WindowsStaySpent(w: World, s: Step)
    requires Enabled(w, s) && WindowsAreSpent(w)
    ensures WindowsAreSpent(Next(w, s))
  {
    forall p: nat | InWindow(PhaseOf(Next(w, s), p))
      ensures SpentIn(Next(w, s).log, PhaseOf(Next(w, s), p).call.refresh)
    {
      if p != s.p {
        OthersKeepTheirPhase(w, s, p);
        SpentStays(w, s, PhaseOf(w, p).call.refresh);
      } else if s.SendPost? {
        OpenedWindowIsSpent(w, s);
      } else {
        WindowStaysOpen(w, s);
        SameCallInWindow(w, s);
        SpentStays(w, s, PhaseOf(w, p).call.refresh);
      }
    }
  }

  lemma ReadyStaysSendable(w: World, s: Step)
    requires Enabled(w, s) && ReadyIsSendable(w)
    ensures ReadyIsSendable(Next(w, s))
  {
    forall p: nat | PhaseOf(Next(w, s), p).Ready? && PersistedSelected(PhaseOf(Next(w, s), p).saved)
      ensures Sendable(PhaseOf(Next(w, s), p).saved)
    {
      if p != s.p {
        OthersKeepTheirPhase(w, s, p);
      } else {
        OnlyChoosingMakesReady(w, s);
        SentOnceIsSendable(w.disk, w.procs[p].fence, s.env, s.requireCompute, s.reach);
      }
    }
  }

  /** A step keeps the record, denies it, or changes the stored credential. */
  lemma KeptCredential(w: World, s: Step)
    requires Basic(w) && Enabled(w, s)
    ensures || Next(w, s).disk == w.disk || Next(w, s).disk == DeniedRecord(w.disk)
            || Persisted(w.disk) == "" || Persisted(Next(w, s).disk) != Persisted(w.disk)
  {
    DiskWrites(w, s);
    assert PhaseIsSound(w, s.p);
    if s.SaveRotation? {
      assert Next(w, s).disk == w.disk || Next(w, s).disk == PhaseOf(w, s.p).updated;
    } else if s.SaveRetirement? {
      assert Next(w, s).disk == w.disk || Next(w, s).disk.refresh == Missing;
    } else if s.Bootstrap? {
      assert Persisted(s.value) !in w.issued;
    }
  }

  lemma DiskStaysSendable(w: World, s: Step)
    requires Basic(w) && Enabled(w, s) && Accounted(w) && SpentOnDisk(Next(w, s))
    ensures Sendable(Next(w, s).disk)
  {
    var c := Persisted(Next(w, s).disk);
    SpentGrows(w, s, c);
    DiskCredential(w, s);
    DiskWrites(w, s);
    if SpentIn(w.log, c) {
      KeptCredential(w, s);
      DeniedIsSendable(w.disk);
    } else {
      assert PhaseIsSound(w, s.p);
    }
  }

  lemma AccountedStep(w: World, s: Step)
    requires Basic(w) && Enabled(w, s) && Accounted(w)
    ensures Accounted(Next(w, s))
  {
    WindowsStaySpent(w, s);
    ReadyStaysSendable(w, s);
    if SpentOnDisk(Next(w, s)) {
      DiskStaysSendable(w, s);
    }
  }

  // ---------- one step strands a credential exactly when ... ----------

  /** No process in a window when the lock is free or its holder is elsewhere. */
  lemma WindowsAreTheHolders(w: World, p: nat)
    requires Exclusive(w) && InWindow(PhaseOf(w, p))
    ensures w.lock == Some(p)
  {
    assert HoldsLock(PhaseOf(w, p)) <==> w.lock == Some(p);
  }

  lemma StrandingLeavesIt(w: World, s: Step)
    requires Basic(w) && Enabled(w, s) && Accounted(w) && Strands(w, s)
    ensures !DiskIsUnspent(Next(w, s))
    ensures Next(w, s).log == w.log && Next(w, s).disk == w.disk && Next(w, s).lock.None?
  {
    var w' := Next(w, s);
    WindowsAreTheHolders(w, s.p);
    assert PhaseIsSound(w, s.p);
    OnlyTheHolderMoves(w, s);
    forall p: nat ensures !InWindow(PhaseOf(w', p)) {
      assert HoldsLock(PhaseOf(w', p)) <==> w'.lock == Some(p);
    }
  }

  /** What is on disk stays unspent, or in the care of a window, exactly as long as no window closes
      over it. */
  lemma StrandsExactlyWhen(w: World, s: Step)
    requires Basic(w) && Enabled(w, s) && Accounted(w) && DiskIsUnspent(w)
    ensures DiskIsUnspent(Next(w, s)) <==> !Strands(w, s)
  {
    if Strands(w, s) {
      StrandingLeavesIt(w, s);
    } else {
      DiskStaysUnspent(w, s);
    }
  }

  // ---------- a stranded credential is sent again ----------

  function Resending(q: nat): (steps: seq<Step>)
    ensures forall s <- steps :: SaveLands(s) && !s.Die? && (s.Choose? ==> s.env == CALM)
  {
    [Enter(q), Choose(q, CALM, false, REACHABLE), SendPost(q, OtherHttpFailure, false)]
  }

  lemma RepeatsASpentPost(log: seq<Post>, e: Post, c: string)
    requires SpentIn(log, c) && e.call.refresh == c
    ensures !NoReplay(log + [e])
  {
    var first :| first in log && first.spent && first.call.refresh == c;
    var i :| 0 <= i < |log| && log[i] == first;
    var all := log + [e];
    assert all[i] == first && all[|log|] == e;
  }

  lemma CallIsChosen(w: World, q: nat) returns (chosen: World, call: Call)
    requires w.lock.None? && PhaseOf(w, q).Idle? && Sendable(w.disk)
    requires Digest(Persisted(w.disk)) !in w.procs[q].fence
    ensures Enabled(w, Enter(q))
    ensures Enabled(Next(w, Enter(q)), Choose(q, CALM, false, REACHABLE))
    ensures Next(Next(w, Enter(q)), Choose(q, CALM, false, REACHABLE)) == chosen
    ensures PhaseOf(chosen, q) == Ready(w.disk, call) && call.refresh == Persisted(w.disk) && chosen.log == w.log
  {
    UnfencedSends(w.disk, w.procs[q].fence);
    call := Decide(w.disk, w.procs[q].fence, CALM, false, REACHABLE).call;
    chosen := Next(Next(w, Enter(q)), Choose(q, CALM, false, REACHABLE));
  }

  lemma CallIsPosted(w: World, q: nat)
    requires PhaseOf(w, q).Ready?
    ensures Enabled(w, SendPost(q, OtherHttpFailure, false))
    ensures Next(w, SendPost(q, OtherHttpFailure, false)).log
         == w.log + [Post(q, PhaseOf(w, q).call, PersistedSelected(PhaseOf(w, q).saved), false)]
  {
    assert !MayHaveConsumed(OtherHttpFailure);
  }

  lemma CalmHasNoCredential()
    ensures CredentialText(CALM.credential) == ""
  {
    assert CALM.credential == "";
  }

  lemma CalmRun(steps: seq<Step>)
    requires forall s <- steps :: s.Choose? ==> s.env == CALM
    ensures NoBootstrapRun(steps)
  {
    CalmHasNoCredential();
  }

  /** Every idle process that has not fenced the credential repeats its POST, and no write fails and
      nobody dies for that. */
  lemma AnyUnfencedProcessReplays(w: World, q: nat)
    requires w.lock.None? && PhaseOf(w, q).Idle? && SpentOnDisk(w) && Sendable(w.disk)
    requires Digest(Persisted(w.disk)) !in w.procs[q].fence
    ensures Valid(w, Resending(q)) && NoBootstrapRun(Resending(q)) && DurableRun(w, Resending(q))
    ensures !NoReplay(Final(w, Resending(q)).log)
  {
    var chosen, call := CallIsChosen(w, q);
    CallIsPosted(chosen, q);
    CalmRun(Resending(q));
    ThreeSteps(w, Resending(q), Next(w, Enter(q)), chosen, Next(chosen, SendPost(q, OtherHttpFailure, false)));
    RepeatsASpentPost(w.log, Post(q, call, PersistedSelected(w.disk), false), Persisted(w.disk));
  }

  lemma ThreeSteps(w: World, steps: seq<Step>, a: World, b: World, c: World)
    requires |steps| == 3
    requires Enabled(w, steps[0]) && Next(w, steps[0]) == a
    requires Enabled(a, steps[1]) && Next(a, steps[1]) == b
    requires Enabled(b, steps[2]) && Next(b, steps[2]) == c
    requires forall s <- steps :: SaveLands(s) && !s.Die?
    ensures Valid(w, steps) && DurableRun(w, steps) && Final(w, steps) == c
  {
    var two, one := steps[1..], steps[2..];
    assert one == two[1..] && one[1..] == [] && two[0] == steps[1] && one[0] == steps[2];
    assert Valid(c, []) && DurableRun(c, []) && Final(c, []) == c;
    assert Valid(b, one) && DurableRun(b, one) && Final(b, one) == c;
    assert Valid(a, two) && DurableRun(a, two) && Final(a, two) == c;
  }

  /** Some continuation that strands nothing further repeats a spent credential. */
  ghost predicate Replayable(w: World) {
    exists more ::
      Valid(w, more) && NoBootstrapRun(more) && StrandsNothing(w, more) && !NoReplay(Final(w, more).log)
  }

  lemma ReplayableAfter(w: World, s: Step)
    requires Enabled(w, s) && NoBootstrapCredential(s) && !Strands(w, s) && Replayable(Next(w, s))
    ensures Replayable(w)
  {
    var w' := Next(w, s);
    var more :|
      Valid(w', more) && NoBootstrapRun(more) && StrandsNothing(w', more) && !NoReplay(Final(w', more).log);
    var all := [s] + more;
    assert all[0] == s && all[1..] == more;
    assert NoBootstrapRun(all) by {
      assert forall x <- all :: x == s || x in more;
    }
    assert Valid(w, all) && StrandsNothing(w, all) && Final(w, all) == Final(w', more);
  }

  /** With the lock free, a process that starts now will do. */
  lemma FreeLockReplays(w: World)
    requires w.lock.None? && SpentOnDisk(w) && Sendable(w.disk)
    ensures Replayable(w)
  {
    var q := Unused(w.procs.Keys);
    assert q !in w.procs;
    var spawned := Next(w, Spawn(q));
    assert spawned.procs[q] == Process(Idle, {});
    AnyUnfencedProcessReplays(spawned, q);
    DurableStrandsNothing(spawned, Resending(q));
    assert PhaseOf(w, q).Dead?;
    ReplayableAfter(w, Spawn(q));
  }

  lemma StrandedIsReplayable(w: World)
    requires Basic(w) && Accounted(w) && !DiskIsUnspent(w)
    ensures Replayable(w)
  {
    if w.lock.None? {
      FreeLockReplays(w);
    } else {
      var h := w.lock.value;
      assert HoldsLock(PhaseOf(w, h)) <==> w.lock == Some(h);
      assert !Strands(w, Die(h));
      FreeLockReplays(Next(w, Die(h)));
      ReplayableAfter(w, Die(h));
    }
  }

  // ---------- which states, and which runs, are safe ----------

  lemma {:induction false} AccountedRun(w: World, steps: seq<Step>)
    requires Basic(w) && Accounted(w) && ReadyFromSaved(w) && Valid(w, steps) && NoBootstrapRun(steps)
    ensures Basic(Final(w, steps)) && Accounted(Final(w, steps)) && ReadyFromSaved(Final(w, steps))
    decreases |steps|
  {
    if steps != [] {
      BasicStep(w, steps[0]);
      AccountedStep(w, steps[0]);
      ReadyStaysFromSaved(w, steps[0]);
      AccountedRun(Next(w, steps[0]), steps[1..]);
    }
  }

  /** A process about to send holds the lock, so nobody else is in a window. */
  lemma UnspentDiskMeansUnspentReady(w: World)
    requires Basic(w) && DiskIsUnspent(w)
    ensures ReadyIsUnspent(w)
  {
    forall p: nat | PhaseOf(w, p).Ready? && PersistedSelected(PhaseOf(w, p).saved)
      ensures !SpentIn(w.log, PhaseOf(w, p).call.refresh)
    {
      assert PhaseIsSound(w, p);
      assert forall q: nat :: HoldsLock(PhaseOf(w, q)) <==> w.lock == Some(q);
    }
  }

  lemma UnspentIsNotReplayable(w: World)
    requires Basic(w) && DiskIsUnspent(w) && ReadyFromSaved(w) && NoReplay(w.log)
    ensures !Replayable(w)
  {
    UnspentDiskMeansUnspentReady(w);
    forall more | Valid(w, more) && NoBootstrapRun(more) && StrandsNothing(w, more)
      ensures NoReplay(Final(w, more).log)
    {
      SafeRunInvariant(w, more);
    }
  }

  /** Wherever a run has got to, with whatever failures: a replay can still follow without a further
      stranding exactly when a spent credential is on disk and no process in its window answers for it. */
  lemma ReplayableExactlyWhen(start: World, steps: seq<Step>)
    requires Start(start) && Valid(start, steps) && NoBootstrapRun(steps)
    requires NoReplay(Final(start, steps).log)
    ensures var w := Final(start, steps);
            Replayable(w) <==>
              SpentOnDisk(w) &&
              forall p: nat :: InWindow(PhaseOf(w, p)) ==> PhaseOf(w, p).call.refresh != Persisted(w.disk)
  {
    var w := Final(start, steps);
    StartIsBasic(start);
    StartIsAccounted(start);
    AccountedRun(start, steps);
    if DiskIsUnspent(w) {
      UnspentIsNotReplayable(w);
    } else {
      StrandedIsReplayable(w);
    }
  }

  /** From no point of the run could a replay follow; in particular none has happened. */
  ghost predicate NeverReplayable(w: World, steps: seq<Step>)
    requires Valid(w, steps)
    decreases |steps|
  {
    !Replayable(w) && (steps == [] || NeverReplayable(Next(w, steps[0]), steps[1..]))
  }

  lemma NowReplayable(w: World, steps: seq<Step>)
    requires Valid(w, steps) && Replayable(w)
    ensures !NeverReplayable(w, steps)
  {
  }

  lemma {:induction false} SafeFromHere(w: World, steps: seq<Step>)
    requires Basic(w) && Accounted(w) && DiskIsUnspent(w) && ReadyFromSaved(w) && NoReplay(w.log)
    requires Valid(w, steps) && NoBootstrapRun(steps)
    ensures NeverReplayable(w, steps) <==> StrandsNothing(w, steps)
    decreases |steps|
  {
    UnspentIsNotReplayable(w);
    if steps != [] {
      var s, w' := steps[0], Next(w, steps[0]);
      BasicStep(w, s);
      AccountedStep(w, s);
      StrandsExactlyWhen(w, s);
      if Strands(w, s) {
        StrandedIsReplayable(w');
        NowReplayable(w', steps[1..]);
      } else {
        UnspentDiskMeansUnspentReady(w);
        ReadyStaysFromSaved(w, s);
        PostKeepsNoReplay(w, s);
        SafeFromHere(w', steps[1..]);
      }
    }
  }

  /** Over every interleaving and every failure: a run is safe, now and in everything that may follow
      any of its steps, exactly when none of its windows strands the credential it spent. */
  lemma RunIsSafeExactlyWhen(start: World, steps: seq<Step>)
    requires Start(start) && Valid(start, steps) && NoBootstrapRun(steps)
    ensures NeverReplayable(start, steps) <==> StrandsNothing(start, steps)
  {
    StartIsBasic(start);
    StartIsAccounted(start);
    SafeFromHere(start, steps);
  }
}
