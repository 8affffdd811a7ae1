/**
 Many processes share one session file and one lock (`_refresh_lock`).  A run is any
 interleaving of the steps below: a process may be stopped between any two of them, every
 write may fail before or after landing, and the control plane may consume a credential while
 its reply is lost.  What must never happen is that a credential whose POST was consumed, or
 may have been, is POSTed again.
 */
module RotationProtocol {
  import opened Prelude
  import opened CloudSession

  // ---------- state ----------

  datatype Phase =
    | Idle
    | Entered                                              // lock held, record not read yet
    | Ready(saved: Record, call: Call)                     // decided, about to POST
    | MustSave(saved: Record, call: Call, updated: Record)   // answered with a rotation
    | MustFence(saved: Record, call: Call)                 // spent or ambiguous, not fenced yet
    | MustRetire(saved: Record, call: Call)                // fenced, retirement not written yet
    | MustDeny(saved: Record)                              // billing denial, record read
    | Dead

  datatype Process = Process(phase: Phase, fence: set<Digest>)

  /** One POST as the control plane saw it; `spent` when it was consumed or may have been. */
  datatype Post = Post(sender: nat, call: Call, fromSaved: bool, spent: bool)

  datatype World = World(
    disk: Record, lock: Option<nat>, procs: map<nat, Process>, log: seq<Post>,
    issued: set<string>)   // every credential that was ever stored or sent

  datatype Step =
    | Spawn(p: nat)
    | Enter(p: nat)
    | Choose(p: nat, env: Environment, requireCompute: bool, reach: Reach)
    | SendPost(p: nat, reply: Reply, consumed: bool)
    | SaveRotation(p: nat, w: Write)
    | Fence(p: nat)
    | SaveRetirement(p: nat, w: Write)
    | ReadForDenial(p: nat)
    | SaveDenial(p: nat, w: Write)
    | Bootstrap(p: nat, value: Record, w: Write)
    | Die(p: nat)

  function PhaseOf(w: World, p: nat): Phase {
    if p in w.procs then w.procs[p].phase else Dead
  }

  function WithPhase(w: World, p: nat, phase: Phase): World
    requires p in w.procs
  {
    w.(procs := w.procs[p := w.procs[p].(phase := phase)])
  }

  /** The process leaves its critical section. */
  function Leave(w: World, p: nat): World
    requires p in w.procs
  {
    WithPhase(w, p, Idle).(lock := None)
  }

  function OutcomeOf(phase: Phase, reply: Reply): Outcome
    requires phase.Ready?
  {
    Classify(reply, phase.call.subject, phase.saved.organization)
  }

  predicate Enabled(w: World, s: Step) {
    match s
    case Spawn(p) => p !in w.procs
    case Enter(p) => PhaseOf(w, p).Idle? && w.lock.None?
    case Choose(p, _, _, _) => PhaseOf(w, p).Entered?
    case SendPost(p, reply, consumed) =>
      && PhaseOf(w, p).Ready?
      // Some replies show that nothing was consumed ...
      && (consumed ==> MayHaveConsumed(reply))
      // ... and a rotation is a credential the control plane never issued before.
      && (IsRotation(reply, PhaseOf(w, p).call.subject, PhaseOf(w, p).saved.organization) ==>
            CredentialField(reply.refresh) !in w.issued)
    case SaveRotation(p, _) => PhaseOf(w, p).MustSave?
    case Fence(p) => PhaseOf(w, p).MustFence?
    case SaveRetirement(p, _) => PhaseOf(w, p).MustRetire?
    case ReadForDenial(p) => PhaseOf(w, p).Entered?
    case SaveDenial(p, _) => PhaseOf(w, p).MustDeny?
    case Bootstrap(p, value, _) =>
      PhaseOf(w, p).Entered? && PersistedSelected(value) && CredentialText(value.refresh.text) != ""
      && CredentialText(value.refresh.text) !in w.issued
    case Die(p) => p in w.procs && !PhaseOf(w, p).Dead?
  }

  /** The world after `p` has decided. */
  function Chosen(w: World, p: nat, d: Decision): World
    requires p in w.procs
  {
    match d
    case Refuse(_) => Leave(w, p)
    case Send(call) => WithPhase(w, p, Ready(w.disk, call)).(issued := w.issued + {call.refresh})
  }

  /** The world after the POST of `p` and its outcome. */
  function Sent(w: World, p: nat, outcome: Outcome, spent: bool): World
    requires PhaseOf(w, p).Ready?
  {
    var phase := PhaseOf(w, p);
    var entry := Post(p, phase.call, PersistedSelected(phase.saved), spent);
    var sent := w.(log := w.log + [entry]);
    match outcome
    case Unspent(_) => Leave(sent, p)
    case Spent(_, _) => WithPhase(sent, p, MustFence(phase.saved, phase.call))
    case Rotated(_, _, refresh, _) =>
      var updated := RotatedRecord(phase.saved, phase.call, outcome);
      WithPhase(sent, p, MustSave(phase.saved, phase.call, updated)).(issued := w.issued + {refresh})
  }

  function Next(w: World, s: Step): World
    requires Enabled(w, s)
  {
    match s
    case Spawn(p) => w.(procs := w.procs[p := Process(Idle, {})])
    case Enter(p) => WithPhase(w, p, Entered).(lock := Some(p))
    case Choose(p, env, requireCompute, reach) =>
      Chosen(w, p, Decide(w.disk, w.procs[p].fence, env, requireCompute, reach))
    case SendPost(p, reply, consumed) =>
      Sent(w, p, OutcomeOf(PhaseOf(w, p), reply), consumed || MayHaveConsumed(reply))
    case SaveRotation(p, write) =>
      var phase := PhaseOf(w, p);
      var saved := w.(disk := Written(w.disk, phase.updated, write));
      if write.Landed? then Leave(saved, p) else WithPhase(saved, p, MustFence(phase.saved, phase.call))
    case Fence(p) =>
      var phase := PhaseOf(w, p);
      var fence := w.procs[p].fence + {Digest(phase.call.refresh)};
      w.(procs := w.procs[p := Process(MustRetire(phase.saved, phase.call), fence)])
    case SaveRetirement(p, write) =>
      var phase := PhaseOf(w, p);
      Leave(w.(disk := Written(w.disk, RetiredRecord(phase.saved, phase.call.refresh), write)), p)
    case ReadForDenial(p) => if w.disk == EmptyRecord then Leave(w, p) else WithPhase(w, p, MustDeny(w.disk))
    case SaveDenial(p, write) => Leave(w.(disk := Written(w.disk, DeniedRecord(PhaseOf(w, p).saved), write)), p)
    case Bootstrap(p, value, write) =>
      Leave(w.(disk := Written(w.disk, value, write), issued := w.issued + {CredentialText(value.refresh.text)}), p)
    case Die(p) =>
      WithPhase(w, p, Dead).(lock := if w.lock == Some(p) then None else w.lock)
  }

  predicate Valid(w: World, steps: seq<Step>)
    decreases |steps|
  {
    steps == [] || (Enabled(w, steps[0]) && Valid(Next(w, steps[0]), steps[1..]))
  }

  function Final(w: World, steps: seq<Step>): World
    requires Valid(w, steps)
    decreases |steps|
  {
    if steps == [] then w else Final(Next(w, steps[0]), steps[1..])
  }

  /** The credential the record would send, if any. */
  function Persisted(r: Record): string {
    StoredCredential(r.refresh)
  }

  function StoredCredential(f: Field): string {
    if NonBlank(f) then CredentialText(f.text) else ""
  }

  predicate Start(w: World) {
    && w.lock.None? && w.log == [] && w.issued == {Persisted(w.disk)}
    && forall p <- w.procs :: w.procs[p] == Process(Idle, {})
  }

  // ---------- the hypotheses a run may satisfy ----------

  /** After the POST and before its consequence is durable. */
  predicate InWindow(phase: Phase) {
    phase.MustSave? || phase.MustFence? || phase.MustRetire?
  }

  predicate SaveLands(s: Step) {
    (s.SaveRotation? || s.SaveRetirement? || s.SaveDenial? || s.Bootstrap?) ==> s.w.Landed?
  }

  predicate NoDeathInWindow(w: World, s: Step) {
    s.Die? ==> !InWindow(PhaseOf(w, s.p))
  }

  /** No bootstrap credential is left in the environment. */
  predicate NoBootstrapCredential(s: Step) {
    s.Choose? ==> CredentialText(s.env.credential) == ""
  }

  /** Every write lands and no process dies in its window; the environment is arbitrary. */
  predicate DurableRun(w: World, steps: seq<Step>)
    requires Valid(w, steps)
    decreases |steps|
  {
    steps == [] || (
      SaveLands(steps[0]) && NoDeathInWindow(w, steps[0]) && DurableRun(Next(w, steps[0]), steps[1..]))
  }

  predicate NoBootstrapRun(steps: seq<Step>) {
    forall s <- steps :: NoBootstrapCredential(s)
  }

  /** The window closes, by a death or by a retirement that was not written, while the credential it
      spent is still the one on disk. */
  predicate Strands(w: World, s: Step) {
    && InWindow(PhaseOf(w, s.p)) && PhaseOf(w, s.p).call.refresh == Persisted(w.disk)
    && (s.Die? || (s.SaveRetirement? && s.w.NotLanded?))
  }

  predicate StrandsNothing(w: World, steps: seq<Step>)
    requires Valid(w, steps)
    decreases |steps|
  {
    steps == [] || (!Strands(w, steps[0]) && StrandsNothing(Next(w, steps[0]), steps[1..]))
  }

  /** Durable writes and no death in a window are more than is needed. */
  lemma {:induction false} DurableStrandsNothing(w: World, steps: seq<Step>)
    requires Valid(w, steps) && DurableRun(w, steps)
    ensures StrandsNothing(w, steps)
    decreases |steps|
  {
    if steps != [] {
      DurableStrandsNothing(Next(w, steps[0]), steps[1..]);
    }
  }

  // ---------- no replay, for every process ----------

  predicate SpentIn(log: seq<Post>, c: string) {
    exists e :: e in log && e.spent && e.call.refresh == c
  }

  /** A spent or possibly spent credential is never POSTed again, by anyone. */
  predicate NoReplay(log: seq<Post>) {
    forall i, j :: 0 <= i < j < |log| && log[i].spent ==> log[j].call.refresh != log[i].call.refresh
  }

  predicate HoldsLock(phase: Phase) {
    !phase.Idle? && !phase.Dead?
  }

  ghost predicate Exclusive(w: World) {
    forall p: nat :: HoldsLock(PhaseOf(w, p)) <==> w.lock == Some(p)
  }

  /** The record that the process holding the lock has read is still the one on disk. */
  predicate Fresh(w: World, phase: Phase) {
    (phase.Ready? || phase.MustSave? || phase.MustDeny?) ==> phase.saved == w.disk
  }

  predicate Known(w: World) {
    && (Persisted(w.disk) != "" ==> Persisted(w.disk) in w.issued)
    && forall e <- w.log :: e.sender in w.procs && e.call.refresh != "" && e.call.refresh in w.issued
  }

  /** Facts that hold in every reachable state, whatever fails. */
  ghost predicate Basic(w: World) {
    && Exclusive(w) && Known(w)
    && forall p: nat :: PhaseIsSound(w, p)
  }

  predicate PhaseIsSound(w: World, p: nat) {
    var phase := PhaseOf(w, p);
    && Fresh(w, phase)
    && (phase.Ready? || InWindow(phase) ==> phase.call.refresh != "" && phase.call.refresh in w.issued)
    && (phase.Ready? ==> Digest(phase.call.refresh) !in w.procs[p].fence)
    && (phase.Ready? && PersistedSelected(phase.saved) ==> phase.call.refresh == Persisted(phase.saved))
    && (phase.MustSave? ==> RotationIsNew(w, Persisted(phase.updated)))
  }

  /** The rotation waiting to be saved was never sent and is not what the disk holds. */
  predicate RotationIsNew(w: World, c: string) {
    && c != "" && c in w.issued && c != Persisted(w.disk)
    && forall e <- w.log :: e.call.refresh != c
  }

  lemma StartIsBasic(w: World)
    requires Start(w)
    ensures Basic(w)
  {
    forall p ensures PhaseOf(w, p).Idle? || PhaseOf(w, p).Dead? {
    }
  }

  lemma RotatedIsPersisted(saved: Record, call: Call, o: Outcome)
    requires o.Rotated? && o.refresh != "" && CredentialText(o.refresh) == o.refresh
    ensures Persisted(RotatedRecord(saved, call, o)) == o.refresh
  {
    assert Strip(o.refresh) != "";
  }

  lemma RotationStored(saved: Record, call: Call, reply: Reply)
    requires Classify(reply, call.subject, saved.organization).Rotated?
    ensures var o := Classify(reply, call.subject, saved.organization);
            o.refresh != "" && Persisted(RotatedRecord(saved, call, o)) == o.refresh
  {
    var o := Classify(reply, call.subject, saved.organization);
    CredentialTextStable(reply.refresh.text);
    RotatedIsPersisted(saved, call, o);
  }

  lemma RotationIsUnissued(w: World, p: nat, reply: Reply, consumed: bool)
    requires Enabled(w, SendPost(p, reply, consumed)) && OutcomeOf(PhaseOf(w, p), reply).Rotated?
    ensures OutcomeOf(PhaseOf(w, p), reply).refresh !in w.issued
  {
    var phase := PhaseOf(w, p);
    ClassifiedBy(reply, phase.call.subject, phase.saved.organization);
    RotationParts(reply, phase.call.subject, phase.saved.organization);
  }

  /** A POST that may have been consumed opens a window. */
  lemma SpentPostOpensWindow(w: World, s: Step)
    requires Enabled(w, s) && s.SendPost? && (s.consumed || MayHaveConsumed(s.reply))
    ensures var phase := PhaseOf(Next(w, s), s.p);
            (phase.MustSave? || phase.MustFence?) && phase.call == PhaseOf(w, s.p).call
  {
    var phase := PhaseOf(w, s.p);
    ClassifiedBy(s.reply, phase.call.subject, phase.saved.organization);
  }

  lemma OthersKeepTheirPhase(w: World, s: Step, q: nat)
    requires Enabled(w, s) && q != s.p
    ensures PhaseOf(Next(w, s), q) == PhaseOf(w, q)
    ensures q in w.procs ==> Next(w, s).procs[q] == w.procs[q]
  {
  }

  lemma OnlyTheHolderMoves(w: World, s: Step)
    requires Basic(w) && Enabled(w, s)
    ensures Exclusive(Next(w, s))
    ensures !s.Spawn? && !s.Enter? && !s.Die? ==> w.lock == Some(s.p)
  {
    var w' := Next(w, s);
    assert HoldsLock(PhaseOf(w, s.p)) <==> w.lock == Some(s.p);
    forall q: nat ensures HoldsLock(PhaseOf(w', q)) <==> w'.lock == Some(q) {
      if q != s.p {
        OthersKeepTheirPhase(w, s, q);
        assert HoldsLock(PhaseOf(w, q)) <==> w.lock == Some(q);
      }
    }
  }

  predicate WritesDisk(s: Step) {
    s.SaveRotation? || s.SaveRetirement? || s.SaveDenial? || s.Bootstrap?
  }

  lemma DiskWrites(w: World, s: Step)
    requires Enabled(w, s)
    ensures !WritesDisk(s) ==> Next(w, s).disk == w.disk
    ensures WritesDisk(s) && s.w.NotLanded? ==> Next(w, s).disk == w.disk
  {
  }

  /** A step leaves the stored credential alone, removes it, or stores one never sent before. */
  lemma DiskCredential(w: World, s: Step)
    requires Basic(w) && Enabled(w, s)
    ensures var c := Persisted(Next(w, s).disk);
            c == Persisted(w.disk) || c == "" ||
            (!s.SendPost? && c in Next(w, s).issued && forall e <- w.log :: e.call.refresh != c)
  {
    DiskWrites(w, s);
    assert PhaseIsSound(w, s.p);
    if s.Bootstrap? {
      assert Persisted(s.value) !in w.issued;
      assert Persisted(s.value) in Next(w, s).issued;
    } else if s.SaveDenial? {
      assert Next(w, s).disk.refresh == w.disk.refresh;
    } else if s.SaveRetirement? {
      assert Next(w, s).disk == w.disk || Next(w, s).disk.refresh == Missing;
    } else if s.SaveRotation? {
      assert Next(w, s).disk == w.disk || Next(w, s).disk == PhaseOf(w, s.p).updated;
    }
  }

  lemma LogGrows(w: World, s: Step)
    requires Enabled(w, s)
    ensures w.issued <= Next(w, s).issued
    ensures if s.SendPost? then
              Next(w, s).log == w.log + [Post(s.p, PhaseOf(w, s.p).call, PersistedSelected(PhaseOf(w, s.p).saved),
                                              s.consumed || MayHaveConsumed(s.reply))]
            else Next(w, s).log == w.log
  {
  }

  lemma ProcessesStay(w: World, s: Step)
    requires Enabled(w, s)
    ensures w.procs.Keys <= Next(w, s).procs.Keys
  {
  }

  lemma LogStaysKnown(w: World, s: Step)
    requires Basic(w) && Enabled(w, s)
    ensures forall e <- Next(w, s).log ::
              e.sender in Next(w, s).procs && e.call.refresh != "" && e.call.refresh in Next(w, s).issued
  {
    assert PhaseIsSound(w, s.p);
    ProcessesStay(w, s);
    LogGrows(w, s);
  }

  lemma DiskStaysKnown(w: World, s: Step)
    requires Basic(w) && Enabled(w, s)
    ensures Persisted(Next(w, s).disk) != "" ==> Persisted(Next(w, s).disk) in Next(w, s).issued
  {
    DiskCredential(w, s);
    LogGrows(w, s);
  }

  lemma KnownStep(w: World, s: Step)
    requires Basic(w) && Enabled(w, s)
    ensures Known(Next(w, s))
  {
    LogStaysKnown(w, s);
    DiskStaysKnown(w, s);
  }

  lemma ChosenCallIsSound(w: World, s: Step)
    requires Basic(w) && Enabled(w, s) && s.Choose?
    ensures PhaseIsSound(Next(w, s), s.p)
  {
    if Decide(w.disk, w.procs[s.p].fence, s.env, s.requireCompute, s.reach).Send? {
      SendIsUsable(w.disk, w.procs[s.p].fence, s.env, s.requireCompute, s.reach);
    }
  }

  lemma PostedCallIsSound(w: World, s: Step)
    requires Basic(w) && Enabled(w, s) && s.SendPost?
    ensures PhaseIsSound(Next(w, s), s.p)
  {
    var phase := PhaseOf(w, s.p);
    assert PhaseIsSound(w, s.p);
    if OutcomeOf(phase, s.reply).Rotated? {
      RotationStored(phase.saved, phase.call, s.reply);
      RotationIsUnissued(w, s.p, s.reply, s.consumed);
    }
    SentIsSound(w, s.p, OutcomeOf(phase, s.reply), s.consumed || MayHaveConsumed(s.reply));
  }

  lemma SentIsSound(w: World, p: nat, o: Outcome, spent: bool)
    requires Known(w) && PhaseIsSound(w, p) && PhaseOf(w, p).Ready?
    requires var phase := PhaseOf(w, p);
             o.Rotated? ==> o.refresh != "" && o.refresh !in w.issued
                            && Persisted(RotatedRecord(phase.saved, phase.call, o)) == o.refresh
    ensures PhaseIsSound(Sent(w, p, o, spent), p)
  {
  }

  lemma ActorIsSound(w: World, s: Step)
    requires Basic(w) && Enabled(w, s)
    ensures PhaseIsSound(Next(w, s), s.p)
  {
    assert PhaseIsSound(w, s.p);
    if s.Choose? {
      ChosenCallIsSound(w, s);
    } else if s.SendPost? {
      PostedCallIsSound(w, s);
    }
  }

  lemma BasicStep(w: World, s: Step)
    requires Basic(w) && Enabled(w, s)
    ensures Basic(Next(w, s))
  {
    OnlyTheHolderMoves(w, s);
    KnownStep(w, s);
    ActorIsSound(w, s);
    forall q: nat | q != s.p ensures PhaseIsSound(Next(w, s), q) {
      OthersKeepTheirPhase(w, s, q);
      assert PhaseIsSound(w, q);
      assert HoldsLock(PhaseOf(w, q)) <==> w.lock == Some(q);
    }
  }

  // ---------- no window strands its credential ----------

  /** If the credential on disk was spent, the process holding the lock is about to replace it. */
  ghost predicate DiskIsUnspent(w: World) {
    Persisted(w.disk) != "" && SpentIn(w.log, Persisted(w.disk)) ==>
      exists p: nat :: InWindow(PhaseOf(w, p)) && PhaseOf(w, p).call.refresh == Persisted(w.disk)
  }

  ghost predicate ReadyIsUnspent(w: World) {
    forall p: nat :: PhaseOf(w, p).Ready? && PersistedSelected(PhaseOf(w, p).saved) ==>
      !SpentIn(w.log, PhaseOf(w, p).call.refresh)
  }

  lemma SpentGrows(w: World, s: Step, c: string)
    requires Enabled(w, s)
    requires SpentIn(Next(w, s).log, c)
    ensures SpentIn(w.log, c) || (s.SendPost? && c == PhaseOf(w, s.p).call.refresh)
  {
    var e :| e in Next(w, s).log && e.spent && e.call.refresh == c;
    assert e in w.log || s.SendPost?;
  }

  lemma WindowClosesDurably(w: World, s: Step)
    requires Basic(w) && Enabled(w, s) && !Strands(w, s)
    requires InWindow(PhaseOf(w, s.p)) && !InWindow(PhaseOf(Next(w, s), s.p))
    requires PhaseOf(w, s.p).call.refresh == Persisted(w.disk)
    ensures Persisted(Next(w, s).disk) == "" || !SpentIn(Next(w, s).log, Persisted(Next(w, s).disk))
  {
    assert PhaseIsSound(w, s.p);
  }

  /** A spent credential on disk stays the business of the process in its window. */
  lemma WindowPersists(w: World, s: Step, p: nat)
    requires Basic(w) && Enabled(w, s) && !Strands(w, s)
    requires InWindow(PhaseOf(w, p)) && PhaseOf(w, p).call.refresh == Persisted(w.disk)
    ensures || (InWindow(PhaseOf(Next(w, s), p)) && PhaseOf(Next(w, s), p).call == PhaseOf(w, p).call)
            || Persisted(Next(w, s).disk) == "" || !SpentIn(Next(w, s).log, Persisted(Next(w, s).disk))
  {
    if p != s.p {
      OthersKeepTheirPhase(w, s, p);
    } else if InWindow(PhaseOf(Next(w, s), p)) {
      SameCallInWindow(w, s);
    } else {
      WindowClosesDurably(w, s);
    }
  }

  lemma PostOpensWindow(w: World, s: Step, c: string)
    requires Enabled(w, s) && s.SendPost? && SpentIn(Next(w, s).log, c)
    ensures SpentIn(w.log, c) || (InWindow(PhaseOf(Next(w, s), s.p)) && PhaseOf(Next(w, s), s.p).call.refresh == c)
  {
    SpentGrows(w, s, c);
    if !SpentIn(w.log, c) {
      NewEntryIsSpent(w, s, c);
      SpentPostOpensWindow(w, s);
    }
  }

  lemma NewEntryIsSpent(w: World, s: Step, c: string)
    requires Enabled(w, s) && s.SendPost? && SpentIn(Next(w, s).log, c) && !SpentIn(w.log, c)
    ensures s.consumed || MayHaveConsumed(s.reply)
  {
    var e :| e in Next(w, s).log && e.spent && e.call.refresh == c;
    LogGrows(w, s);
    assert e !in w.log;
  }

  lemma DiskStaysUnspent(w: World, s: Step)
    requires Basic(w) && Enabled(w, s) && !Strands(w, s) && DiskIsUnspent(w)
    ensures DiskIsUnspent(Next(w, s))
  {
    var c := Persisted(Next(w, s).disk);
    if c != "" && SpentIn(Next(w, s).log, c) {
      SpentGrows(w, s, c);
      DiskCredential(w, s);
      if SpentIn(w.log, c) {
        assert c == Persisted(w.disk);
        var p: nat :| InWindow(PhaseOf(w, p)) && PhaseOf(w, p).call.refresh == c;
        WindowPersists(w, s, p);
      } else {
        PostOpensWindow(w, s, c);
      }
    }
  }

  lemma SameCallInWindow(w: World, s: Step)
    requires Enabled(w, s) && InWindow(PhaseOf(w, s.p)) && InWindow(PhaseOf(Next(w, s), s.p))
    ensures PhaseOf(Next(w, s), s.p).call == PhaseOf(w, s.p).call
  {
  }

  lemma ReadyStaysUnspent(w: World, s: Step)
    requires Basic(w) && Enabled(w, s) && DiskIsUnspent(w) && ReadyIsUnspent(w)
    ensures ReadyIsUnspent(Next(w, s))
  {
    var w' := Next(w, s);
    forall p: nat | PhaseOf(w', p).Ready? && PersistedSelected(PhaseOf(w', p).saved)
      ensures !SpentIn(w'.log, PhaseOf(w', p).call.refresh)
    {
      assert HoldsLock(PhaseOf(w, p)) <==> w.lock == Some(p);
      OnlyTheHolderMoves(w, s);
      LogGrows(w, s);
      if p != s.p {
        OthersKeepTheirPhase(w, s, p);
      } else {
        OnlyChoosingMakesReady(w, s);
        ChosenFromDiskIsUnspent(w, p, s.env, s.requireCompute, s.reach);
      }
    }
  }

  lemma OnlyChoosingMakesReady(w: World, s: Step)
    requires Enabled(w, s) && PhaseOf(Next(w, s), s.p).Ready?
    ensures s.Choose? && Next(w, s).log == w.log
    ensures Decide(w.disk, w.procs[s.p].fence, s.env, s.requireCompute, s.reach)
         == Send(PhaseOf(Next(w, s), s.p).call) && PhaseOf(Next(w, s), s.p).saved == w.disk
  {
  }

  /** While some process is choosing, nobody is in a window, so what is on disk is unspent. */
  lemma ChosenFromDiskIsUnspent(w: World, p: nat, env: Environment, requireCompute: bool, reach: Reach)
    requires Basic(w) && DiskIsUnspent(w) && PhaseOf(w, p).Entered? && PersistedSelected(w.disk)
    requires Decide(w.disk, w.procs[p].fence, env, requireCompute, reach).Send?
    ensures !SpentIn(w.log, Decide(w.disk, w.procs[p].fence, env, requireCompute, reach).call.refresh)
  {
    SendIsUsable(w.disk, w.procs[p].fence, env, requireCompute, reach);
    assert forall q: nat :: HoldsLock(PhaseOf(w, q)) <==> w.lock == Some(q);
  }

  lemma {:induction false} UnstrandedRunInvariant(w: World, steps: seq<Step>)
    requires Basic(w) && DiskIsUnspent(w) && ReadyIsUnspent(w)
    requires Valid(w, steps) && StrandsNothing(w, steps)
    ensures Basic(Final(w, steps)) && DiskIsUnspent(Final(w, steps)) && ReadyIsUnspent(Final(w, steps))
    decreases |steps|
  {
    if steps != [] {
      BasicStep(w, steps[0]);
      DiskStaysUnspent(w, steps[0]);
      ReadyStaysUnspent(w, steps[0]);
      UnstrandedRunInvariant(Next(w, steps[0]), steps[1..]);
    }
  }

  /** When no window strands its credential, the only way to send a spent credential is the fallback
      to one that was left in the environment. */
  lemma ReplayExactlyWhen(start: World, steps: seq<Step>, p: nat, env: Environment, requireCompute: bool, reach: Reach)
    requires Start(start) && Valid(start, steps) && StrandsNothing(start, steps)
    requires PhaseOf(Final(start, steps), p).Entered?
    requires Decide(Final(start, steps).disk, Final(start, steps).procs[p].fence, env, requireCompute, reach).Send?
    ensures var w := Final(start, steps);
            var call := Decide(w.disk, w.procs[p].fence, env, requireCompute, reach).call;
            SpentIn(w.log, call.refresh) <==>
              !PersistedSelected(w.disk) && SpentIn(w.log, CredentialText(env.credential))
  {
    StartIsBasic(start);
    UnstrandedRunInvariant(start, steps);
    var w := Final(start, steps);
    SendIsUsable(w.disk, w.procs[p].fence, env, requireCompute, reach);
    if PersistedSelected(w.disk) {
      ChosenFromDiskIsUnspent(w, p, env, requireCompute, reach);
    }
  }

  ghost predicate ReadyFromSaved(w: World) {
    forall p: nat :: PhaseOf(w, p).Ready? ==> PersistedSelected(PhaseOf(w, p).saved)
  }

  lemma ReadyStaysFromSaved(w: World, s: Step)
    requires Enabled(w, s) && NoBootstrapCredential(s) && ReadyFromSaved(w)
    ensures ReadyFromSaved(Next(w, s))
  {
    forall p: nat | PhaseOf(Next(w, s), p).Ready? ensures PersistedSelected(PhaseOf(Next(w, s), p).saved) {
      if p != s.p {
        OthersKeepTheirPhase(w, s, p);
      } else if s.Choose? {
        SendIsUsable(w.disk, w.procs[p].fence, s.env, s.requireCompute, s.reach);
      }
    }
  }

  lemma PostKeepsNoReplay(w: World, s: Step)
    requires Basic(w) && Enabled(w, s) && ReadyIsUnspent(w) && ReadyFromSaved(w) && NoReplay(w.log)
    ensures NoReplay(Next(w, s).log)
  {
    LogGrows(w, s);
  }

  lemma {:induction false} SafeRunInvariant(w: World, steps: seq<Step>)
    requires Basic(w) && DiskIsUnspent(w) && ReadyIsUnspent(w) && ReadyFromSaved(w) && NoReplay(w.log)
    requires Valid(w, steps) && StrandsNothing(w, steps) && NoBootstrapRun(steps)
    ensures NoReplay(Final(w, steps).log)
    decreases |steps|
  {
    if steps != [] {
      BasicStep(w, steps[0]);
      DiskStaysUnspent(w, steps[0]);
      ReadyStaysUnspent(w, steps[0]);
      ReadyStaysFromSaved(w, steps[0]);
      PostKeepsNoReplay(w, steps[0]);
      SafeRunInvariant(Next(w, steps[0]), steps[1..]);
    }
  }

  /** Over every interleaving, whatever writes fail: as long as no window strands its credential, one
      whose POST was consumed, or may have been, is never POSTed again by any process. */
  lemma NoCredentialIsReplayed(start: World, steps: seq<Step>)
    requires Start(start) && Valid(start, steps) && StrandsNothing(start, steps) && NoBootstrapRun(steps)
    ensures NoReplay(Final(start, steps).log)
  {
    StartIsBasic(start);
    SafeRunInvariant(start, steps);
  }

  // ---------- any write may fail ----------

  /** No process re-sends what it itself sent and spent. */
  predicate NoSelfReplay(log: seq<Post>) {
    forall i, j :: 0 <= i < j < |log| && log[i].spent && log[j].sender == log[i].sender ==>
      log[j].call.refresh != log[i].call.refresh
  }

  /** The sender of a spent credential has fenced it, is about to, or can no longer find it. */
  predicate SenderIsGuarded(w: World, e: Post) {
    var phase := PhaseOf(w, e.sender);
    || phase.Dead?
    || Digest(e.call.refresh) in w.procs[e.sender].fence
    || ((phase.MustSave? || phase.MustFence?) && phase.call.refresh == e.call.refresh)
    || Persisted(w.disk) != e.call.refresh
  }

  predicate Guarded(w: World) {
    forall e <- w.log :: e.spent ==> SenderIsGuarded(w, e)
  }

  lemma GuardPersists(w: World, s: Step, e: Post)
    requires Basic(w) && Enabled(w, s) && e in w.log && e.spent && SenderIsGuarded(w, e)
    ensures SenderIsGuarded(Next(w, s), e)
  {
    DiskCredential(w, s);
    if s.p != e.sender {
      OthersKeepTheirPhase(w, s, e.sender);
    } else {
      OwnGuardPersists(w, s, e);
    }
  }

  lemma FenceGrows(w: World, s: Step)
    requires Enabled(w, s) && s.p in w.procs
    ensures w.procs[s.p].fence <= Next(w, s).procs[s.p].fence
    ensures s.Fence? ==> Digest(PhaseOf(w, s.p).call.refresh) in Next(w, s).procs[s.p].fence
  {
  }

  lemma GuardedPhaseMoves(w: World, s: Step)
    requires Enabled(w, s) && (PhaseOf(w, s.p).MustSave? || PhaseOf(w, s.p).MustFence?)
    ensures var phase := PhaseOf(Next(w, s), s.p);
            || phase.Dead? || s.Fence?
            || (phase.MustFence? && phase.call == PhaseOf(w, s.p).call)
            || (s.SaveRotation? && Next(w, s).disk == PhaseOf(w, s.p).updated)
  {
  }

  lemma OwnGuardPersists(w: World, s: Step, e: Post)
    requires Basic(w) && Enabled(w, s) && e in w.log && SenderIsGuarded(w, e) && s.p == e.sender
    requires Persisted(w.disk) != e.call.refresh ==> Persisted(Next(w, s).disk) != e.call.refresh
    ensures SenderIsGuarded(Next(w, s), e)
  {
    var phase := PhaseOf(w, s.p);
    FenceGrows(w, s);
    if (phase.MustSave? || phase.MustFence?) && phase.call.refresh == e.call.refresh {
      GuardedPhaseMoves(w, s);
      assert PhaseIsSound(w, s.p);
    }
  }

  lemma GuardedStep(w: World, s: Step)
    requires Basic(w) && Enabled(w, s) && Guarded(w)
    ensures Guarded(Next(w, s))
  {
    LogGrows(w, s);
    forall e <- Next(w, s).log | e.spent ensures SenderIsGuarded(Next(w, s), e) {
      if e in w.log {
        GuardPersists(w, s, e);
      } else {
        PostIsGuarded(w, s, e);
      }
    }
  }

  lemma PostIsGuarded(w: World, s: Step, e: Post)
    requires Basic(w) && Enabled(w, s) && e in Next(w, s).log && e !in w.log && e.spent
    ensures SenderIsGuarded(Next(w, s), e)
  {
    LogGrows(w, s);
    SpentPostOpensWindow(w, s);
  }

  lemma GuardedPostIsNew(w: World, s: Step)
    requires Basic(w) && Enabled(w, s) && Guarded(w) && ReadyFromSaved(w) && NoSelfReplay(w.log)
    ensures NoSelfReplay(Next(w, s).log)
  {
    LogGrows(w, s);
    if s.SendPost? {
      assert PhaseIsSound(w, s.p);
      forall e <- w.log | e.spent && e.sender == s.p ensures e.call.refresh != PhaseOf(w, s.p).call.refresh {
        assert SenderIsGuarded(w, e);
      }
    }
  }

  lemma {:induction false} GuardedRun(w: World, steps: seq<Step>)
    requires Basic(w) && Guarded(w) && ReadyFromSaved(w) && NoSelfReplay(w.log)
    requires Valid(w, steps) && NoBootstrapRun(steps)
    ensures NoSelfReplay(Final(w, steps).log)
    decreases |steps|
  {
    if steps != [] {
      BasicStep(w, steps[0]);
      GuardedStep(w, steps[0]);
      GuardedPostIsNew(w, steps[0]);
      ReadyStaysFromSaved(w, steps[0]);
      GuardedRun(Next(w, steps[0]), steps[1..]);
    }
  }

  /** Whatever writes fail and whoever dies, the process that made a POST never repeats it. */
  lemma SenderNeverReplays(start: World, steps: seq<Step>)
    requires Start(start) && Valid(start, steps) && NoBootstrapRun(steps)
    ensures NoSelfReplay(Final(start, steps).log)
  {
    StartIsBasic(start);
    GuardedRun(start, steps);
  }
}
