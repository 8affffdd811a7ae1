/**
 What a saved credential family is bound to along a run; that one call of the session class is
 one undisturbed run of the protocol; and the two runs that show why the hypotheses of
 `RotationProtocol.NoCredentialIsReplayed` are needed.
 */
module SessionFamily {
  import opened Prelude
  import opened CloudSession
  import opened RotationProtocol

  // ---------- the binding ----------

  predicate BoundTo(r: Record, control: Url, subject: Subject) {
    PersistedSelected(r) ==>
      && r.control.Some? && Normalize(r.control.value) == control
      && r.subject == Named(subject)
  }

  predicate PhaseIsBound(phase: Phase, control: Url, subject: Subject) {
    && (phase.Ready? ==> phase.call.control == control && phase.call.subject == subject)
    && (phase.MustSave? ==> BoundTo(phase.updated, control, subject))
  }

  ghost predicate FamilyBound(w: World, control: Url, subject: Subject) {
    && BoundTo(w.disk, control, subject)
    && (forall p: nat :: PhaseIsBound(PhaseOf(w, p), control, subject))
    && (forall e <- w.log :: e.call.control == control && e.call.subject == subject)
  }

  /** The family is not replaced: no bootstrap, and no credential taken from the environment
      once the saved one is gone.  The environment's URLs and subject are arbitrary. */
  predicate FamilyRun(w: World, steps: seq<Step>)
    requires Valid(w, steps)
    decreases |steps|
  {
    steps == [] || (
      && !steps[0].Bootstrap?
      && (steps[0].Choose? && !PersistedSelected(w.disk) ==> CredentialText(steps[0].env.credential) == "")
      && FamilyRun(Next(w, steps[0]), steps[1..]))
  }

  lemma BoundDecision(saved: Record, fence: set<Digest>, env: Environment, requireCompute: bool, reach: Reach,
                      control: Url, subject: Subject)
    requires BoundTo(saved, control, subject)
    requires PersistedSelected(saved) || CredentialText(env.credential) == ""
    requires Decide(saved, fence, env, requireCompute, reach).Send?
    ensures var call := Decide(saved, fence, env, requireCompute, reach).call;
            call.control == control && call.subject == subject
  {
    SendIsUsable(saved, fence, env, requireCompute, reach);
    assert PersistedSelected(saved);
    assert saved.subject == Named(subject);
  }

  lemma BoundRotation(saved: Record, call: Call, o: Outcome, control: Url, subject: Subject)
    requires o.Rotated? && call.control == control && call.subject == subject
    requires Normalize(control) == control
    ensures BoundTo(RotatedRecord(saved, call, o), control, subject)
  {
  }

  lemma ActorStaysBound(w: World, s: Step, control: Url, subject: Subject)
    requires Basic(w) && FamilyBound(w, control, subject) && Enabled(w, s)
    requires Normalize(control) == control
    requires s.Choose? && !PersistedSelected(w.disk) ==> CredentialText(s.env.credential) == ""
    ensures PhaseIsBound(PhaseOf(Next(w, s), s.p), control, subject)
  {
    if s.SendPost? {
      var phase := PhaseOf(w, s.p);
      if OutcomeOf(phase, s.reply).Rotated? {
        BoundRotation(phase.saved, phase.call, OutcomeOf(phase, s.reply), control, subject);
      }
    } else if PhaseOf(Next(w, s), s.p).Ready? {
      OnlyChoosingMakesReady(w, s);
      BoundDecision(w.disk, w.procs[s.p].fence, s.env, s.requireCompute, s.reach, control, subject);
    }
  }

  lemma DiskStaysBound(w: World, s: Step, control: Url, subject: Subject)
    requires Basic(w) && FamilyBound(w, control, subject) && Enabled(w, s) && !s.Bootstrap?
    ensures BoundTo(Next(w, s).disk, control, subject)
  {
    DiskWrites(w, s);
    assert PhaseIsSound(w, s.p) && PhaseIsBound(PhaseOf(w, s.p), control, subject);
    if s.SaveRetirement? {
      assert Next(w, s).disk == w.disk || Next(w, s).disk.refresh == Missing;
    } else if s.SaveRotation? {
      assert Next(w, s).disk == w.disk || Next(w, s).disk == PhaseOf(w, s.p).updated;
    }
  }

  lemma {:induction false} FamilyInvariant(w: World, steps: seq<Step>, control: Url, subject: Subject)
    requires Basic(w) && FamilyBound(w, control, subject) && Valid(w, steps) && FamilyRun(w, steps)
    requires Normalize(control) == control
    ensures FamilyBound(Final(w, steps), control, subject)
    decreases |steps|
  {
    if steps != [] {
      BasicStep(w, steps[0]);
      FamilyStep(w, steps[0], control, subject);
      FamilyInvariant(Next(w, steps[0]), steps[1..], control, subject);
    }
  }

  lemma FamilyStep(w: World, s: Step, control: Url, subject: Subject)
    requires Basic(w) && FamilyBound(w, control, subject) && Enabled(w, s) && !s.Bootstrap?
    requires s.Choose? && !PersistedSelected(w.disk) ==> CredentialText(s.env.credential) == ""
    requires Normalize(control) == control
    ensures FamilyBound(Next(w, s), control, subject)
  {
    ActorStaysBound(w, s, control, subject);
    DiskStaysBound(w, s, control, subject);
    LogGrows(w, s);
    assert PhaseIsBound(PhaseOf(w, s.p), control, subject);
    forall p: nat ensures PhaseIsBound(PhaseOf(Next(w, s), p), control, subject) {
      if p != s.p {
        OthersKeepTheirPhase(w, s, p);
      }
    }
  }

  /** Whatever the environments hold and whatever writes fail, every POST of one saved family
      goes to the control URL and presents the subject that the family was saved with. */
  lemma FamilyKeepsItsBinding(start: World, steps: seq<Step>, url: Url, subject: Subject)
    requires Start(start) && Valid(start, steps) && FamilyRun(start, steps)
    requires PersistedSelected(start.disk) && start.disk.control == Some(url)
    requires start.disk.subject == Named(subject)
    ensures forall e <- Final(start, steps).log ::
              e.call.control == Normalize(url) && e.call.subject == subject
  {
    StartIsBasic(start);
    NormalizeIdempotent(url);
    FamilyInvariant(start, steps, Normalize(url), subject);
  }

  // ---------- one call of the class is one run ----------

  /** The steps of one undisturbed `access_for_workspace` by process `p`. */
  function AccessSteps(w: World, p: nat, env: Environment, requireCompute: bool, reach: Reach,
                       reply: Reply, consumed: bool, first: Write, second: Write): seq<Step>
    requires p in w.procs
  {
    var begin := [Enter(p), Choose(p, env, requireCompute, reach)];
    match Decide(w.disk, w.procs[p].fence, env, requireCompute, reach)
    case Refuse(_) => begin
    case Send(call) =>
      begin + [SendPost(p, reply, consumed)]
            + Tail(p, Classify(reply, call.subject, w.disk.organization), first, second)
  }

  lemma RunConcat(w: World, a: seq<Step>, b: seq<Step>)
    requires Valid(w, a) && Valid(Final(w, a), b)
    ensures Valid(w, a + b) && Final(w, a + b) == Final(Final(w, a), b)
    decreases |a|
  {
    if a == [] {
      assert a + b == b;
    } else {
      assert (a + b)[0] == a[0] && (a + b)[1..] == a[1..] + b;
      RunConcat(Next(w, a[0]), a[1..], b);
    }
  }

  lemma RunOne(w: World, s: Step)
    requires Enabled(w, s)
    ensures Valid(w, [s]) && Final(w, [s]) == Next(w, s)
  {
    assert [s][1..] == [];
  }

  lemma RunSnoc(w: World, a: seq<Step>, s: Step)
    requires Valid(w, a) && Enabled(Final(w, a), s)
    ensures Valid(w, a + [s]) && Final(w, a + [s]) == Next(Final(w, a), s)
  {
    RunOne(Final(w, a), s);
    RunConcat(w, a, [s]);
  }

  lemma RunTwo(w: World, a: Step, b: Step)
    requires Enabled(w, a) && Enabled(Next(w, a), b)
    ensures Valid(w, [a, b]) && Final(w, [a, b]) == Next(Next(w, a), b)
  {
    RunOne(w, a);
    RunSnoc(w, [a], b);
    assert [a, b] == [a] + [b];
  }

  /** The world in which `p` is about to POST. */
  function AboutToPost(w: World, p: nat, call: Call): World
    requires p in w.procs
  {
    w.(lock := Some(p), procs := w.procs[p := w.procs[p].(phase := Ready(w.disk, call))],
       issued := w.issued + {call.refresh})
  }

  lemma Enters(w: World, p: nat)
    requires p in w.procs && PhaseOf(w, p).Idle? && w.lock.None?
    ensures Enabled(w, Enter(p))
    ensures Next(w, Enter(p)) == w.(lock := Some(p), procs := w.procs[p := w.procs[p].(phase := Entered)])
  {
  }

  lemma ChosenAfterEntering(w: World, p: nat, d: Decision)
    requires p in w.procs && PhaseOf(w, p).Idle? && w.lock.None?
    ensures var inside := w.(lock := Some(p), procs := w.procs[p := w.procs[p].(phase := Entered)]);
            Chosen(inside, p, d) == if d.Refuse? then w else AboutToPost(w, p, d.call)
  {
    var inside := w.(lock := Some(p), procs := w.procs[p := w.procs[p].(phase := Entered)]);
    assert Chosen(inside, p, d).procs == (if d.Refuse? then w else AboutToPost(w, p, d.call)).procs;
  }

  lemma Chooses(w: World, p: nat, env: Environment, requireCompute: bool, reach: Reach)
    requires p in w.procs && PhaseOf(w, p).Idle? && w.lock.None?
    ensures var d := Decide(w.disk, w.procs[p].fence, env, requireCompute, reach);
            && Enabled(Next(w, Enter(p)), Choose(p, env, requireCompute, reach))
            && Next(Next(w, Enter(p)), Choose(p, env, requireCompute, reach))
            == if d.Refuse? then w else AboutToPost(w, p, d.call)
  {
    Enters(w, p);
    ChosenAfterEntering(w, p, Decide(w.disk, w.procs[p].fence, env, requireCompute, reach));
  }

  lemma ReachesThePost(w: World, p: nat, env: Environment, requireCompute: bool, reach: Reach)
    requires p in w.procs && PhaseOf(w, p).Idle? && w.lock.None?
    ensures var begin := [Enter(p), Choose(p, env, requireCompute, reach)];
            var d := Decide(w.disk, w.procs[p].fence, env, requireCompute, reach);
            && Valid(w, begin)
            && Final(w, begin) == if d.Refuse? then w else AboutToPost(w, p, d.call)
  {
    Enters(w, p);
    Chooses(w, p, env, requireCompute, reach);
    RunTwo(w, Enter(p), Choose(p, env, requireCompute, reach));
  }

  /** The world after a window of `p` has been settled. */
  function Settled(w: World, p: nat, disk: Record, fence: set<Digest>): World
    requires p in w.procs
  {
    w.(disk := disk, lock := None, procs := w.procs[p := Process(Idle, fence)])
  }

  lemma RetiresTheCredential(w: World, p: nat, second: Write)
    requires PhaseOf(w, p).MustFence?
    ensures var phase := PhaseOf(w, p);
            var tail := [Fence(p), SaveRetirement(p, second)];
            && Valid(w, tail)
            && Final(w, tail) == Settled(w, p, Written(w.disk, RetiredRecord(phase.saved, phase.call.refresh), second),
                                         w.procs[p].fence + {Digest(phase.call.refresh)})
  {
    var s0, s1 := Fence(p), SaveRetirement(p, second);
    RunOne(w, s0);
    RunSnoc(w, [s0], s1);
    assert [s0, s1] == [s0] + [s1];
    var phase := PhaseOf(w, p);
    assert Next(Next(w, s0), s1).procs == w.procs[p := Process(Idle, w.procs[p].fence + {Digest(phase.call.refresh)})];
  }

  lemma SavesTheRotation(w: World, p: nat, first: Write, second: Write)
    requires PhaseOf(w, p).MustSave?
    ensures var phase := PhaseOf(w, p);
            var tail := if first.Landed? then [SaveRotation(p, first)]
                        else [SaveRotation(p, first)] + [Fence(p), SaveRetirement(p, second)];
            && Valid(w, tail)
            && Final(w, tail) ==
                 if first.Landed? then Settled(w, p, phase.updated, w.procs[p].fence)
                 else Settled(w, p, Written(Written(w.disk, phase.updated, first),
                                            RetiredRecord(phase.saved, phase.call.refresh), second),
                              w.procs[p].fence + {Digest(phase.call.refresh)})
  {
    var s0 := SaveRotation(p, first);
    var phase := PhaseOf(w, p);
    RunOne(w, s0);
    if first.Landed? {
      assert Next(w, s0) == Settled(w, p, phase.updated, w.procs[p].fence);
    } else {
      RetiresTheCredential(Next(w, s0), p, second);
      RunConcat(w, [s0], [Fence(p), SaveRetirement(p, second)]);
    }
  }

  lemma SentFacts(w: World, p: nat, call: Call, o: Outcome, spent: bool)
    requires p in w.procs
    ensures var sent := Sent(AboutToPost(w, p, call), p, o, spent);
            && sent.disk == w.disk
            && sent.log == w.log + [Post(p, call, PersistedSelected(w.disk), spent)]
            && p in sent.procs && sent.procs[p].fence == w.procs[p].fence
            && (o.Unspent? ==> sent.procs == w.procs[p := Process(Idle, w.procs[p].fence)] && sent.lock.None?)
            && (o.Spent? ==> PhaseOf(sent, p) == MustFence(w.disk, call))
            && (o.Rotated? ==> PhaseOf(sent, p) == MustSave(w.disk, call, RotatedRecord(w.disk, call, o)))
            && (forall fence :: sent.procs[p := Process(Idle, fence)] == w.procs[p := Process(Idle, fence)])
  {
  }

  /** The world just after the POST of `AboutToPost`. */
  lemma Posts(w: World, p: nat, call: Call, reply: Reply, consumed: bool)
    requires p in w.procs && Enabled(AboutToPost(w, p, call), SendPost(p, reply, consumed))
    ensures var o := Classify(reply, call.subject, w.disk.organization);
            var sent := Next(AboutToPost(w, p, call), SendPost(p, reply, consumed));
            && sent.disk == w.disk
            && sent.log
            == w.log + [Post(p, call, PersistedSelected(w.disk), consumed || MayHaveConsumed(reply))]
            && p in sent.procs && sent.procs[p].fence == w.procs[p].fence
            && (o.Unspent? ==> sent.procs == w.procs[p := Process(Idle, w.procs[p].fence)] && sent.lock.None?)
            && (o.Spent? ==> PhaseOf(sent, p) == MustFence(w.disk, call))
            && (o.Rotated? ==> PhaseOf(sent, p) == MustSave(w.disk, call, RotatedRecord(w.disk, call, o)))
            && (forall fence :: sent.procs[p := Process(Idle, fence)] == w.procs[p := Process(Idle, fence)])
  {
    SentFacts(w, p, call, Classify(reply, call.subject, w.disk.organization), consumed || MayHaveConsumed(reply));
  }

  /** What the class method computes for its file and fence is what the protocol's steps do. */
  lemma AccessIsARun(w: World, p: nat, env: Environment, requireCompute: bool, reach: Reach,
                     reply: Reply, consumed: bool, first: Write, second: Write, lateAfter: bool)
    requires p in w.procs && PhaseOf(w, p).Idle? && w.lock.None?
    requires var d := Decide(w.disk, w.procs[p].fence, env, requireCompute, reach);
             d.Send? ==> Enabled(AboutToPost(w, p, d.call), SendPost(p, reply, consumed))
    ensures var steps := AccessSteps(w, p, env, requireCompute, reach, reply, consumed, first, second);
            var effect := AccessEffect(w.disk, w.procs[p].fence, env, requireCompute, reach, reply,
                                       first, second, lateAfter);
            && Valid(w, steps)
            && EndsIn(Final(w, steps), w, p, effect,
                      effect.posted.Some? && (consumed || MayHaveConsumed(reply)))
  {
    var d := Decide(w.disk, w.procs[p].fence, env, requireCompute, reach);
    var begin := [Enter(p), Choose(p, env, requireCompute, reach)];
    ReachesThePost(w, p, env, requireCompute, reach);
    if d.Send? {
      PostIsARun(w, p, d.call, begin, reply, consumed, first, second, lateAfter);
    } else {
      assert w.procs == w.procs[p := Process(Idle, w.procs[p].fence)];
    }
  }

  /** `end` is `w` with the effect of one call by `p`, and its POST in the log. */
  predicate EndsIn(end: World, w: World, p: nat, effect: Effect, spent: bool) {
    && end.disk == effect.record && end.lock.None?
    && end.procs == w.procs[p := Process(Idle, effect.fence)]
    && end.log == w.log + (if effect.posted.None? then []
                           else [Post(p, effect.posted.value, PersistedSelected(w.disk), spent)])
  }

  function Tail(p: nat, o: Outcome, first: Write, second: Write): seq<Step> {
    if o.Unspent? then []
    else if o.Spent? then [Fence(p), SaveRetirement(p, second)]
    else if first.Landed? then [SaveRotation(p, first)]
    else [SaveRotation(p, first)] + [Fence(p), SaveRetirement(p, second)]
  }

  lemma PostIsARun(w: World, p: nat, call: Call, begin: seq<Step>, reply: Reply, consumed: bool,
                   first: Write, second: Write, lateAfter: bool)
    requires p in w.procs && Enabled(AboutToPost(w, p, call), SendPost(p, reply, consumed))
    requires Valid(w, begin) && Final(w, begin) == AboutToPost(w, p, call)
    ensures var o := Classify(reply, call.subject, w.disk.organization);
            var steps := begin + [SendPost(p, reply, consumed)] + Tail(p, o, first, second);
            && Valid(w, steps)
            && EndsIn(Final(w, steps), w, p, SettleEffect(w.disk, w.procs[p].fence, call, o, first, second, lateAfter),
                      consumed || MayHaveConsumed(reply))
  {
    var o := Classify(reply, call.subject, w.disk.organization);
    var post := SendPost(p, reply, consumed);
    var sent := Next(AboutToPost(w, p, call), post);
    RunSnoc(w, begin, post);
    Posts(w, p, call, reply, consumed);
    FinishIsARun(w, sent, p, call, o, consumed || MayHaveConsumed(reply), first, second, lateAfter);
    RunConcat(w, begin + [post], Tail(p, o, first, second));
  }

  /** From the POST on. */
  lemma FinishIsARun(w: World, sent: World, p: nat, call: Call, o: Outcome, spent: bool, first: Write, second: Write,
                     lateAfter: bool)
    requires p in w.procs && p in sent.procs && sent.procs[p].fence == w.procs[p].fence && sent.disk == w.disk
    requires sent.log == w.log + [Post(p, call, PersistedSelected(w.disk), spent)]
    requires o.Unspent? ==> sent.procs == w.procs[p := Process(Idle, w.procs[p].fence)] && sent.lock.None?
    requires o.Spent? ==> PhaseOf(sent, p) == MustFence(w.disk, call)
    requires o.Rotated? ==> PhaseOf(sent, p) == MustSave(w.disk, call, RotatedRecord(w.disk, call, o))
    requires forall fence :: sent.procs[p := Process(Idle, fence)] == w.procs[p := Process(Idle, fence)]
    ensures Valid(sent, Tail(p, o, first, second))
    ensures EndsIn(Final(sent, Tail(p, o, first, second)), w, p,
                   SettleEffect(w.disk, w.procs[p].fence, call, o, first, second, lateAfter), spent)
  {
    if o.Spent? {
      RetiresTheCredential(sent, p, second);
    } else if o.Rotated? {
      SavesTheRotation(sent, p, first, second);
    }
  }

  /** A billing denial in the protocol does to the file what the class method does. */
  lemma DenialIsARun(w: World, p: nat, write: Write) returns (steps: seq<Step>)
    requires p in w.procs && PhaseOf(w, p).Idle? && w.lock.None?
    ensures Valid(w, steps)
    ensures Final(w, steps)
         == w.(disk := if w.disk == EmptyRecord then w.disk else Written(w.disk, DeniedRecord(w.disk), write))
  {
    Enters(w, p);
    var inside := Next(w, Enter(p));
    RunOne(w, Enter(p));
    RunSnoc(w, [Enter(p)], ReadForDenial(p));
    steps := [Enter(p)] + [ReadForDenial(p)];
    var read := Next(inside, ReadForDenial(p));
    BackToIdle(w, p);
    if w.disk != EmptyRecord {
      RunSnoc(w, steps, SaveDenial(p, write));
      steps := steps + [SaveDenial(p, write)];
    }
  }

  /** A bootstrap in the protocol replaces the record like the class method. */
  lemma BootstrapIsARun(w: World, p: nat, value: Record, write: Write) returns (steps: seq<Step>)
    requires p in w.procs && PhaseOf(w, p).Idle? && w.lock.None?
    requires PersistedSelected(value) && CredentialText(value.refresh.text) != ""
    requires CredentialText(value.refresh.text) !in w.issued
    ensures Valid(w, steps)
    ensures Final(w, steps)
         == w.(disk := Written(w.disk, value, write), issued := w.issued + {CredentialText(value.refresh.text)})
  {
    Enters(w, p);
    RunOne(w, Enter(p));
    BackToIdle(w, p);
    RunSnoc(w, [Enter(p)], Bootstrap(p, value, write));
    steps := [Enter(p)] + [Bootstrap(p, value, write)];
  }

  lemma BackToIdle(w: World, p: nat)
    requires p in w.procs && PhaseOf(w, p).Idle?
    ensures forall phase: Phase ::
      w.procs[p := w.procs[p].(phase := phase)][p := w.procs[p].(phase := phase).(phase := Idle)] == w.procs
  {
  }

  // ---------- why the hypotheses are needed ----------

  const SITE := Url("https://cloud", "")
  const UP := Reach(true, true, true)

  function Blank(): Environment {
    Environment("", None, None, Unset)
  }

  function Saved(credential: string): Record {
    Record(Text(credential), None, Some(SITE), None, "org", Named(Member), map[])
  }

  /** A credential that survives validation unchanged. */
  predicate Plain(c: string) {
    c != "" && VisibleAscii(c) && |c| <= MAX_CREDENTIAL_BYTES && Strip(c) == c
  }

  lemma OneLetterIsPlain(c: string)
    requires |c| == 1 && 'a' <= c[0] <= 'z'
    ensures Plain(c)
  {
    StripKeeps(c);
  }

  lemma PlainDecision(saved: Record, c: string, fence: set<Digest>, env: Environment)
    requires Plain(c) && Digest(c) !in fence && saved.retired != Some(Digest(c))
    requires saved.refresh == Text(c) || (saved.refresh == Missing && env.credential == c)
    requires saved.control == Some(SITE) || (saved.refresh == Missing && env.control == Some(SITE))
    requires saved.refresh == Missing ==> env.control != None ==> env.control == Some(SITE)
    requires saved.compute == None && env.compute == None && env.subject == Unset
    requires saved.subject in {Unset, Named(Member)}
    ensures Decide(saved, fence, env, false, UP) == Send(Call(c, SITE, None, Member))
  {
    assert CredentialText(c) == c;
  }

  function Rotation(c: string): Reply {
    Body(Text(c), Text(c), Text(c), Omitted, map[])
  }

  lemma PlainRotation(organization: string, c: string)
    requires Plain(c)
    ensures Classify(Rotation(c), Member, organization) == Rotated(c, c, c, map[])
  {
    assert TextField(Text(c)) == c && CredentialText(c) == c;
  }

  function Begin(disk: Record): World {
    World(disk, None, map[0 := Process(Idle, {}), 1 := Process(Idle, {})], [], {Persisted(disk)})
  }

  lemma TwoPostsOfOne(log: seq<Post>, i: nat, j: nat)
    requires i < j < |log| && log[i].spent && log[j].call.refresh == log[i].call.refresh
    ensures !NoReplay(log)
  {
  }

  /** `p` chooses and POSTs. */
  lemma SendsOnce(w: World, p: nat, env: Environment, call: Call, reply: Reply, consumed: bool)
    returns (steps: seq<Step>)
    requires PhaseOf(w, p).Idle? && p in w.procs && w.lock.None?
    requires Decide(w.disk, w.procs[p].fence, env, false, UP) == Send(call)
    requires Enabled(AboutToPost(w, p, call), SendPost(p, reply, consumed))
    ensures steps == [Enter(p), Choose(p, env, false, UP), SendPost(p, reply, consumed)]
    ensures Valid(w, steps) && Final(w, steps) == Next(AboutToPost(w, p, call), SendPost(p, reply, consumed))
  {
    var begin := [Enter(p), Choose(p, env, false, UP)];
    ReachesThePost(w, p, env, false, UP);
    RunSnoc(w, begin, SendPost(p, reply, consumed));
    steps := begin + [SendPost(p, reply, consumed)];
  }

  /** A process that dies after the POST and before the save leaves the spent credential on
      disk, and nothing written ahead of the POST warns the next one. */
  lemma DeathInTheWindowReplays(b: string, r: string) returns (start: World, steps: seq<Step>)
    requires Plain(b) && Plain(r) && b != r
    ensures Start(start) && Valid(start, steps) && NoBootstrapRun(steps)
    ensures forall s <- steps :: SaveLands(s)
    ensures !NoReplay(Final(start, steps).log)
  {
    start := Begin(Saved(b));
    var call := Call(b, SITE, None, Member);
    PlainDecision(Saved(b), b, {}, Blank());
    StoresItself(Saved(b), b);
    MayRotate(start, call, r);
    var died, first := SendsAndDies(start, Blank(), call, Rotation(r));
    assert first == DyingSteps(r);
    var end, second := SendsAgain(died, call);
    RunConcat(start, first, second);
    TwoPostsOfOne(end.log, 0, 1);
    BlankIsNoBootstrap();
    HypothesesConcat(first, second);
    steps := first + second;
  }

  function DyingSteps(r: string): (steps: seq<Step>)
    ensures forall s <- steps :: SaveLands(s) && (s.Choose? ==> s.env == Blank())
  {
    [Enter(0), Choose(0, Blank(), false, UP), SendPost(0, Rotation(r), true), Die(0)]
  }

  function AgainSteps(): (steps: seq<Step>)
    ensures forall s <- steps :: SaveLands(s) && (s.Choose? ==> s.env == Blank())
  {
    [Enter(1), Choose(1, Blank(), false, UP), SendPost(1, TransportLost, false)]
  }

  lemma HypothesesConcat(a: seq<Step>, b: seq<Step>)
    requires NoBootstrapRun(a) && NoBootstrapRun(b)
    requires forall s <- a :: SaveLands(s)
    requires forall s <- b :: SaveLands(s)
    ensures NoBootstrapRun(a + b) && forall s <- a + b :: SaveLands(s)
  {
  }

  lemma BlankIsNoBootstrap()
    ensures CredentialText(Blank().credential) == ""
  {
  }

  lemma SendsAgain(w: World, call: Call) returns (end: World, steps: seq<Step>)
    requires w.lock.None? && 1 in w.procs && w.procs[1] == Process(Idle, {}) && |w.log| == 1
    requires Decide(w.disk, {}, Blank(), false, UP) == Send(call)
    ensures steps == AgainSteps()
    ensures Valid(w, steps) && Final(w, steps) == end
    ensures |end.log| == 2 && end.log[0] == w.log[0] && end.log[1].call == call
  {
    steps := SendsOnce(w, 1, Blank(), call, TransportLost, false);
    end := Final(w, steps);
    LogGrows(AboutToPost(w, 1, call), SendPost(1, TransportLost, false));
  }

  lemma StoresItself(saved: Record, c: string)
    requires Plain(c) && saved.refresh == Text(c)
    ensures Persisted(saved) == c
  {
    assert CredentialText(c) == c;
  }

  lemma SendsAndDies(start: World, env: Environment, call: Call, reply: Reply) returns (died: World, steps: seq<Step>)
    requires start.procs == map[0 := Process(Idle, {}), 1 := Process(Idle, {})] && start.log == [] && start.lock.None?
    requires Decide(start.disk, {}, env, false, UP) == Send(call)
    requires Enabled(AboutToPost(start, 0, call), SendPost(0, reply, true))
    ensures steps == [Enter(0), Choose(0, env, false, UP), SendPost(0, reply, true)] + [Die(0)]
    ensures Valid(start, steps) && Final(start, steps) == died
    ensures died.disk == start.disk && died.lock.None? && 1 in died.procs && died.procs[1] == Process(Idle, {})
    ensures |died.log| == 1 && died.log[0].spent && died.log[0].call == call
  {
    var ready, post := AboutToPost(start, 0, call), SendPost(0, reply, true);
    var sending := SendsOnce(start, 0, env, call, reply, true);
    DyingAfterSending(ready, OutcomeOf(PhaseOf(ready, 0), reply));
    died := DyingAfterSteps(start, sending, Next(ready, post));
    steps := sending + [Die(0)];
  }

  lemma MayRotate(start: World, call: Call, r: string)
    requires Plain(r) && call.refresh != r && call.subject == Member
    requires 0 in start.procs && start.issued <= {call.refresh}
    ensures Enabled(AboutToPost(start, 0, call), SendPost(0, Rotation(r), true))
  {
    PlainRotation(start.disk.organization, r);
  }

  lemma DyingAfterSteps(start: World, steps: seq<Step>, sent: World) returns (died: World)
    requires Valid(start, steps) && Final(start, steps) == sent && Enabled(sent, Die(0))
    ensures Valid(start, steps + [Die(0)]) && Final(start, steps + [Die(0)]) == died == Next(sent, Die(0))
  {
    RunSnoc(start, steps, Die(0));
    died := Next(sent, Die(0));
  }

  lemma DyingAfterSending(w: World, o: Outcome)
    requires 0 in w.procs && 1 in w.procs && PhaseOf(w, 0).Ready? && w.log == [] && w.lock == Some(0)
    ensures var sent := Sent(w, 0, o, true);
            && Enabled(sent, Die(0))
            && sent.log == [Post(0, PhaseOf(w, 0).call, PersistedSelected(PhaseOf(w, 0).saved), true)]
            && Next(sent, Die(0)).disk == w.disk && Next(sent, Die(0)).lock.None? && Next(sent, Die(0)).log == sent.log
            && 1 in Next(sent, Die(0)).procs && Next(sent, Die(0)).procs[1] == w.procs[1]
  {
  }

  function Bootstrapping(b: string): Environment {
    Environment(b, Some(SITE), None, Unset)
  }

  lemma DurableConcat(w: World, a: seq<Step>, b: seq<Step>)
    requires Valid(w, a) && DurableRun(w, a) && Valid(Final(w, a), b) && DurableRun(Final(w, a), b)
    ensures Valid(w, a + b) && DurableRun(w, a + b) && Final(w, a + b) == Final(Final(w, a), b)
    decreases |a|
  {
    if a == [] {
      assert a + b == b;
    } else {
      assert (a + b)[0] == a[0] && (a + b)[1..] == a[1..] + b;
      DurableConcat(Next(w, a[0]), a[1..], b);
    }
  }

  lemma DurableWithoutDeaths(w: World, steps: seq<Step>)
    requires Valid(w, steps) && forall s <- steps :: SaveLands(s) && !s.Die?
    ensures DurableRun(w, steps)
    decreases |steps|
  {
    if steps != [] {
      DurableWithoutDeaths(Next(w, steps[0]), steps[1..]);
    }
  }

  /** One `access_for_workspace` by process 0 in which every write lands. */
  lemma Refreshes(w: World, env: Environment, call: Call, reply: Reply, consumed: bool)
    returns (steps: seq<Step>, end: World)
    requires 0 in w.procs && w.procs[0].phase.Idle? && w.lock.None?
    requires Decide(w.disk, w.procs[0].fence, env, false, UP) == Send(call)
    requires Enabled(AboutToPost(w, 0, call), SendPost(0, reply, consumed))
    ensures Valid(w, steps) && DurableRun(w, steps) && Final(w, steps) == end
    ensures EndsIn(end, w, 0, AccessEffect(w.disk, w.procs[0].fence, env, false, UP, reply, Landed, Landed, false),
                   consumed || MayHaveConsumed(reply))
  {
    AccessIsARun(w, 0, env, false, UP, reply, consumed, Landed, Landed, false);
    steps := AccessSteps(w, 0, env, false, UP, reply, consumed, Landed, Landed);
    end := Final(w, steps);
    LandedSteps(w, env, reply, consumed);
    DurableWithoutDeaths(w, steps);
  }

  lemma TailLands(p: nat, env: Environment, reply: Reply, consumed: bool, o: Outcome)
    ensures var refresh := [Enter(p), Choose(p, env, false, UP)] + [SendPost(p, reply, consumed)];
            forall s <- refresh + Tail(p, o, Landed, Landed) ::
      SaveLands(s) && !s.Die?
  {
  }

  lemma LandedSteps(w: World, env: Environment, reply: Reply, consumed: bool)
    requires 0 in w.procs
    ensures forall s <- AccessSteps(w, 0, env, false, UP, reply, consumed, Landed, Landed) :: SaveLands(s) && !s.Die?
  {
    var d := Decide(w.disk, w.procs[0].fence, env, false, UP);
    if d.Send? {
      TailLands(0, env, reply, consumed, Classify(reply, d.call.subject, w.disk.organization));
    }
  }

  /** Only one retired digest is kept.  Once the rotation that followed a bootstrap is itself
      retired, a bootstrap credential still in the environment is selected and sent again. */
  lemma LeftoverBootstrapReplays(b: string, r: string) returns (start: World, steps: seq<Step>)
    requires Plain(b) && Plain(r) && b != r
    ensures Start(start) && Valid(start, steps) && DurableRun(start, steps)
    ensures !NoReplay(Final(start, steps).log)
  {
    start := Begin(EmptyRecord);
    var w1, w2, w3, more;
    w1, steps := SpendsTheBootstrap(start, Bootstrapping(b), b, r);
    w2, more := RetiresTheRotation(w1, Bootstrapping(b), b, r);
    DurableConcat(start, steps, more);
    steps := steps + more;
    w3, more := SendsTheBootstrapAgain(w2, Bootstrapping(b), b, r);
    DurableConcat(start, steps, more);
    steps := steps + more;
    TwoPostsOfOne(w3.log, 0, 2);
  }

  /** The rotation is spent, its reply lost, and it is retired. */
  lemma RetiresTheRotation(w: World, env: Environment, b: string, r: string) returns (end: World, steps: seq<Step>)
    requires Plain(r) && env == Bootstrapping(b) && w.lock.None? && 0 in w.procs && w.procs[0] == Process(Idle, {})
    requires w.disk == RotatedRecord(EmptyRecord, Call(b, SITE, None, Member), Rotated(r, r, r, map[]))
    ensures Valid(w, steps) && DurableRun(w, steps) && Final(w, steps) == end
    ensures end.disk == RetiredRecord(w.disk, r) && end.lock.None? && |end.log| == |w.log| + 1 && w.log <= end.log
    ensures 0 in end.procs && end.procs[0] == Process(Idle, {Digest(r)})
  {
    PlainDecision(w.disk, r, {}, env.(credential := r));
    SameDecisionWhenSaved(w.disk, env, env.(credential := r));
    steps, end := Refreshes(w, env, Call(r, SITE, None, Member), TransportLost, true);
    EffectOf(w.disk, {}, env, Call(r, SITE, None, Member), TransportLost, Spent(409, false));
  }

  /** The effect of a refresh whose writes land, from what it sends and how the reply is taken. */
  lemma EffectOf(saved: Record, fence: set<Digest>, env: Environment, call: Call, reply: Reply, o: Outcome)
    requires Decide(saved, fence, env, false, UP) == Send(call)
    requires Classify(reply, call.subject, saved.organization) == o
    ensures AccessEffect(saved, fence, env, false, UP, reply, Landed, Landed, false)
         == SettleEffect(saved, fence, call, o, Landed, Landed, false)
  {
  }

  lemma SameDecisionWhenSaved(saved: Record, env: Environment, other: Environment)
    requires PersistedSelected(saved) && !saved.subject.Unset?
    ensures Decide(saved, {}, env, false, UP) == Decide(saved, {}, other, false, UP)
  {
  }

  /** Nothing is saved any more: the environment's credential is selected and sent. */
  lemma SendsTheBootstrapAgain(w: World, env: Environment, b: string, r: string) returns (end: World, steps: seq<Step>)
    requires Plain(b) && b != r && env == Bootstrapping(b) && w.lock.None?
    requires 0 in w.procs && w.procs[0] == Process(Idle, {Digest(r)})
    requires w.disk.refresh == Missing && w.disk.retired == Some(Digest(r)) && w.disk.control == Some(SITE)
    requires w.disk.compute.None? && w.disk.subject == Named(Member)
    ensures Valid(w, steps) && DurableRun(w, steps) && Final(w, steps) == end
    ensures |end.log| == |w.log| + 1 && w.log <= end.log && end.log[|w.log|].call.refresh == b
  {
    PlainDecision(w.disk, b, {Digest(r)}, env);
    steps, end := RefreshSends(w, env, Call(b, SITE, None, Member), OtherHttpFailure, false);
  }

  lemma RefreshSends(w: World, env: Environment, call: Call, reply: Reply, consumed: bool)
    returns (steps: seq<Step>, end: World)
    requires 0 in w.procs && w.procs[0].phase.Idle? && w.lock.None?
    requires Decide(w.disk, w.procs[0].fence, env, false, UP) == Send(call)
    requires Enabled(AboutToPost(w, 0, call), SendPost(0, reply, consumed))
    ensures Valid(w, steps) && DurableRun(w, steps) && Final(w, steps) == end
    ensures |end.log| == |w.log| + 1 && w.log <= end.log && end.log[|w.log|].call == call
  {
    steps, end := Refreshes(w, env, call, reply, consumed);
  }

  lemma SpendsTheBootstrap(start: World, env: Environment, b: string, r: string) returns (w: World, steps: seq<Step>)
    requires Plain(b) && Plain(r) && b != r && start == Begin(EmptyRecord) && env == Bootstrapping(b)
    ensures Start(start) && Valid(start, steps) && DurableRun(start, steps) && Final(start, steps) == w
    ensures w.disk == RotatedRecord(EmptyRecord, Call(b, SITE, None, Member), Rotated(r, r, r, map[]))
    ensures w.lock.None? && 0 in w.procs && w.procs[0] == Process(Idle, {})
    ensures |w.log| == 1 && w.log[0].call.refresh == b && w.log[0].spent
  {
    var call := Call(b, SITE, None, Member);
    PlainDecision(EmptyRecord, b, {}, env);
    PlainRotation(EmptyRecord.organization, r);
    BeginsEmpty();
    CanRotate(start, call, r);
    steps, w := Refreshes(start, env, call, Rotation(r), true);
    EffectOf(EmptyRecord, {}, env, call, Rotation(r), Rotated(r, r, r, map[]));
  }

  lemma BeginsEmpty()
    ensures Start(Begin(EmptyRecord)) && Begin(EmptyRecord).issued == {""}
  {
  }

  /** A rotation never issued can be the reply. */
  lemma CanRotate(w: World, call: Call, r: string)
    requires Plain(r) && r != call.refresh && r !in w.issued && 0 in w.procs
    ensures Enabled(AboutToPost(w, 0, call), SendPost(0, Rotation(r), true))
  {
    assert CredentialText(r) == r;
  }
}
