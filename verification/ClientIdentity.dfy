/**
 Agreement on one identity for an installation: `client_identity` of `device_connect.py` over
 `publish_private_text_if_absent` and `atomic_private_text` of `private_state.py`.  Any number of
 processes call it for the first time at once; a hard link that refuses to replace decides who wins,
 but a loser whose re-read fails goes on to replace the file.

 A file is complete when it gets its name, so reading it is one step here; the name counts as unsafe
 while the winner's temporary link still exists.
 */
module ClientIdentity {
  import opened Prelude

  type ProcessId = nat

  /** The pair of client ids. */
  datatype Pair = Pair(installation: nat, device: nat)

  datatype Phase =
    | Starting                 // before the first read
    | Minted                   // read nothing; about to inspect the path
    | Linking                  // temporary file written; about to link
    | Linked                   // linked; the temporary name still exists
    | Unlinked                 // the temporary name is gone; the directory is not flushed yet
    | Lost                     // somebody else's file was there; about to read it
    | Replacing                // that read failed; about to inspect the path
    | Inspected(version: nat)   // temporary file written; about to look at the path again
    | Checked                  // nothing changed; about to replace
    | Replaced                 // replaced; the directory is not flushed yet
    | Returned(pair: Pair)
    | Raised
    | Dead

  /** The authors of the files that had the identity path, the last of them of the one that has it; the
      process whose temporary name still refers to it; and, for the proofs only, which of these files a
      process took its identity from. */
  datatype World = World(
    authors: seq<ProcessId>, spare: Option<ProcessId>, phase: map<ProcessId, Phase>, taken: map<ProcessId, nat>)

  /** A step of one process; `fault` makes a read, a removal or a flush fail.  A death stands also for
      any other reason to raise. */
  datatype Step = Move(process: ProcessId, fault: bool) | Die(process: ProcessId)

  /** Every process mints a pair of its own. */
  type Mint = ProcessId -> Pair

  function PhaseOf(w: World, p: ProcessId): Phase {
    if p in w.phase then w.phase[p] else Starting
  }

  function WithPhase(w: World, p: ProcessId, phase: Phase): World {
    w.(phase := w.phase[p := phase])
  }

  /** The process takes its identity from the file that has the path. */
  function Taking(w: World, p: ProcessId, phase: Phase): World
    requires w.authors != []
  {
    WithPhase(w, p, phase).(taken := w.taken[p := |w.authors| - 1])
  }

  /** The file of `p` gets the path. */
  function Publishing(w: World, p: ProcessId, phase: Phase): World {
    Taking(w.(authors := w.authors + [p]), p, phase)
  }

  function Current(mint: Mint, w: World): Pair
    requires w.authors != []
  {
    mint(w.authors[|w.authors| - 1])
  }

  /** `_read_identity`: the saved pair, nothing, or an unsafe file. */
  datatype Reading = Saved(pair: Pair) | Empty | Unsafe

  function Read(mint: Mint, w: World, fault: bool): Reading {
    if fault || w.authors == [] then Empty
    else if w.spare.Some? then Unsafe
    else Saved(Current(mint, w))
  }

  function MoveOf(mint: Mint, w: World, p: ProcessId, fault: bool): World {
    match PhaseOf(w, p)
    case Starting =>
      (match Read(mint, w, fault)
       case Saved(pair) => Taking(w, p, Returned(pair))
       case Empty => WithPhase(w, p, Minted)
       case Unsafe => WithPhase(w, p, Raised))
    case Minted =>
      // the inspection before the temporary file is made
      if w.spare.Some? then WithPhase(w, p, Raised) else WithPhase(w, p, Linking)
    case Linking =>
      if w.authors == [] then Publishing(w, p, Linked).(spare := Some(p)) else WithPhase(w, p, Lost)
    case Linked =>
      // a removal that fails is tried once more; here both fail
      if fault then WithPhase(w, p, Raised) else WithPhase(w, p, Unlinked).(spare := None)
    case Unlinked => WithPhase(w, p, if fault then Raised else Returned(mint(p)))
    case Lost =>
      (match Read(mint, w, fault)
       case Saved(pair) => Taking(w, p, Returned(pair))
       case Empty => WithPhase(w, p, Replacing)
       case Unsafe => WithPhase(w, p, Raised))
    case _ => ReplaceMove(mint, w, p, fault)
  }

  /** `atomic_private_text`. */
  function ReplaceMove(mint: Mint, w: World, p: ProcessId, fault: bool): World {
    match PhaseOf(w, p)
    case Replacing =>
      WithPhase(w, p, if w.spare.Some? then Raised else Inspected(|w.authors|))
    case Inspected(version) =>
      WithPhase(w, p, if w.spare.Some? || |w.authors| != version then Raised else Checked)
    case Checked => Publishing(w, p, Replaced)
    case Replaced => WithPhase(w, p, if fault then Raised else Returned(mint(p)))
    case _ => w
  }

  function Perform(mint: Mint, w: World, s: Step): World {
    match s
    case Move(p, fault) => MoveOf(mint, w, p, fault)
    case Die(p) => if PhaseOf(w, p).Returned? || PhaseOf(w, p).Raised? then w else WithPhase(w, p, Dead)
  }

  const START := World([], None, map[], map[])

  function Run(mint: Mint, steps: seq<Step>): World
    decreases |steps|
  {
    if steps == [] then START else Perform(mint, Run(mint, steps[..|steps| - 1]), steps[|steps| - 1])
  }

  lemma RunSnoc(mint: Mint, steps: seq<Step>, s: Step)
    ensures Run(mint, steps + [s]) == Perform(mint, Run(mint, steps), s)
  {
    assert (steps + [s])[..|steps|] == steps;
  }

  // ---------- what holds in every reachable state ----------

  /** The phase comes before the process has a file or a pair. */
  predicate IsEarly(phase: Phase) {
    phase.Starting? || phase.Minted? || phase.Linking?
  }

  predicate IsLosing(phase: Phase) {
    phase.Lost? || phase.Replacing?
  }

  predicate IsReplacing(phase: Phase) {
    phase.Inspected? || phase.Checked?
  }

  /** The process has taken its identity from one of the files. */
  predicate HasTaken(phase: Phase) {
    phase.Linked? || phase.Unlinked? || phase.Replaced? || phase.Returned?
  }

  function PairOf(mint: Mint, p: ProcessId, phase: Phase): Pair
    requires HasTaken(phase)
  {
    if phase.Returned? then phase.pair else mint(p)
  }

  predicate PhaseIsSound(mint: Mint, w: World, p: ProcessId)
    requires p in w.phase
  {
    var phase := w.phase[p];
    && (IsEarly(phase) || IsLosing(phase) || IsReplacing(phase) ==> p !in w.authors)
    && (IsLosing(phase) || IsReplacing(phase) ==> w.authors != [])
    && (IsEarly(phase) || IsLosing(phase) || IsReplacing(phase) ==> p !in w.taken)
    && (IsReplacing(phase) || (HasTaken(phase) && !phase.Linked?) ==> w.spare.None?)
    && (phase.Linked? ==> w.spare == Some(p))
    && (HasTaken(phase) ==>
          p in w.taken && w.taken[p] < |w.authors| && PairOf(mint, p, phase) == mint(w.authors[w.taken[p]]))
  }

  predicate SpareIsSound(w: World) {
    w.spare.Some? ==>
      w.authors == [w.spare.value] && w.spare.value in w.phase
      && (var phase := w.phase[w.spare.value]; phase.Linked? || phase.Raised? || phase.Dead?)
  }

  /** Everybody has written at most one file, and nobody who still may write has. */
  predicate AuthorsAreDistinct(w: World) {
    && (forall i, j :: 0 <= i < j < |w.authors| ==> w.authors[i] != w.authors[j])
    && (forall p <- w.authors :: p in w.phase) && (forall p <- w.taken :: p in w.phase)
  }

  predicate Sound(mint: Mint, w: World) {
    AuthorsAreDistinct(w) && SpareIsSound(w) && forall p <- w.phase :: PhaseIsSound(mint, w, p)
  }

  /** A process becomes the author of a file only in two phases. */
  predicate Writes(w: World, p: ProcessId) {
    (PhaseOf(w, p).Linking? && w.authors == []) || PhaseOf(w, p).Checked?
  }

  lemma WhatAStepPublishes(mint: Mint, w: World, s: Step)
    ensures var w', p := Perform(mint, w, s), s.process;
            && w'.authors == (if s.Move? && Writes(w, p) then w.authors + [p] else w.authors)
            && w'.spare == (if s.Move? && PhaseOf(w, p).Linking? && w.authors == [] then Some(p)
                            else if s.Move? && PhaseOf(w, p).Linked? && !s.fault then None else w.spare)
  {
  }

  lemma WhatAStepChanges(mint: Mint, w: World, s: Step)
    ensures var w', p := Perform(mint, w, s), s.process;
            && w'.authors == (if s.Move? && Writes(w, p) then w.authors + [p] else w.authors)
            && w'.spare == (if s.Move? && PhaseOf(w, p).Linking? && w.authors == [] then Some(p)
                            else if s.Move? && PhaseOf(w, p).Linked? && !s.fault then None else w.spare)
            && (forall q | q != p :: PhaseOf(w', q) == PhaseOf(w, q) && (q in w'.phase <==> q in w.phase))
            && (forall q | q != p ::
                  (q in w'.taken <==> q in w.taken) && (q in w.taken ==> w'.taken[q] == w.taken[q]))
            && (p in w'.taken ==> p in w'.phase || p in w.taken)
            && (p in w.phase ==> p in w'.phase) && (s.Move? && Writes(w, p) ==> p in w'.phase)
  {
    WhatAStepPublishes(mint, w, s);
    OthersStay(mint, w, s);
  }

  lemma OthersStay(mint: Mint, w: World, s: Step)
    ensures var w', p := Perform(mint, w, s), s.process;
            && w.phase.Keys <= w'.phase.Keys <= w.phase.Keys + {p}
            && w.taken.Keys <= w'.taken.Keys <= w.taken.Keys + {p}
            && (forall q | q in w.phase && q != p :: w'.phase[q] == w.phase[q])
            && (forall q | q in w.taken && q != p :: w'.taken[q] == w.taken[q])
            && (p in w'.taken ==> p in w'.phase || p in w.taken) && (s.Move? && Writes(w, p) ==> p in w'.phase)
  {
  }

  lemma ReadersAreSound(mint: Mint, w: World, p: ProcessId, fault: bool)
    requires Sound(mint, w) && (PhaseOf(w, p).Starting? || PhaseOf(w, p).Lost?)
    ensures PhaseIsSound(mint, MoveOf(mint, w, p, fault), p)
  {
    assert p in w.phase ==> PhaseIsSound(mint, w, p);
  }

  lemma WritersAreSound(mint: Mint, w: World, p: ProcessId, fault: bool)
    requires Sound(mint, w) && (PhaseOf(w, p).Linking? || PhaseOf(w, p).Checked?)
    ensures PhaseIsSound(mint, MoveOf(mint, w, p, fault), p)
  {
    assert PhaseIsSound(mint, w, p);
    var w' := MoveOf(mint, w, p, fault);
    assert w'.authors == w.authors || w'.authors[|w.authors|] == p;
  }

  lemma ActorIsSound(mint: Mint, w: World, s: Step)
    requires Sound(mint, w) && s.process in Perform(mint, w, s).phase
    ensures PhaseIsSound(mint, Perform(mint, w, s), s.process)
  {
    var p := s.process;
    assert p in w.phase ==> PhaseIsSound(mint, w, p);
    if s.Die? {
    } else if PhaseOf(w, p).Starting? || PhaseOf(w, p).Lost? {
      ReadersAreSound(mint, w, p, s.fault);
    } else if PhaseOf(w, p).Linking? || PhaseOf(w, p).Checked? {
      WritersAreSound(mint, w, p, s.fault);
    }
  }

  lemma OthersAreSound(mint: Mint, w: World, s: Step, p: ProcessId)
    requires Sound(mint, w) && p != s.process && p in w.phase
    ensures p in Perform(mint, w, s).phase && PhaseIsSound(mint, Perform(mint, w, s), p)
  {
    WhatAStepChanges(mint, w, s);
    assert PhaseIsSound(mint, w, p);
    assert s.process in w.phase ==> PhaseIsSound(mint, w, s.process);
    assert PhaseOf(Perform(mint, w, s), p) == PhaseOf(w, p);
  }

  lemma AuthorsStayDistinct(mint: Mint, w: World, s: Step)
    requires Sound(mint, w)
    ensures AuthorsAreDistinct(Perform(mint, w, s))
  {
    WhatAStepChanges(mint, w, s);
    assert s.process in w.phase ==> PhaseIsSound(mint, w, s.process);
  }

  lemma SpareStaysSound(mint: Mint, w: World, s: Step)
    requires Sound(mint, w)
    ensures SpareIsSound(Perform(mint, w, s))
  {
    WhatAStepChanges(mint, w, s);
    assert s.process in w.phase ==> PhaseIsSound(mint, w, s.process);
  }

  lemma StepIsSound(mint: Mint, w: World, s: Step)
    requires Sound(mint, w)
    ensures Sound(mint, Perform(mint, w, s))
  {
    AuthorsStayDistinct(mint, w, s);
    SpareStaysSound(mint, w, s);
    WhatAStepChanges(mint, w, s);
    forall p <- Perform(mint, w, s).phase ensures PhaseIsSound(mint, Perform(mint, w, s), p) {
      if p == s.process {
        ActorIsSound(mint, w, s);
      } else {
        OthersAreSound(mint, w, s, p);
      }
    }
  }

  lemma {:induction false} EveryRunIsSound(mint: Mint, steps: seq<Step>)
    ensures Sound(mint, Run(mint, steps))
    decreases |steps|
  {
    if steps != [] {
      EveryRunIsSound(mint, steps[..|steps| - 1]);
      StepIsSound(mint, Run(mint, steps[..|steps| - 1]), steps[|steps| - 1]);
    }
  }

  lemma RunAt(mint: Mint, steps: seq<Step>, i: nat)
    requires i < |steps|
    ensures Run(mint, steps[..i + 1]) == Perform(mint, Run(mint, steps[..i]), steps[i])
  {
    assert steps[..i + 1] == steps[..i] + [steps[i]];
    RunSnoc(mint, steps[..i], steps[i]);
  }

  // ---------- what changes a published identity ----------

  /** The step replaces a published identity by another one. */
  predicate Splits(mint: Mint, w: World, s: Step) {
    s.Move? && PhaseOf(w, s.process).Checked? && w.authors != [] && Current(mint, w) != mint(s.process)
  }

  lemma ChangesExactlyWhen(mint: Mint, w: World, s: Step)
    requires Sound(mint, w) && w.authors != []
    ensures Perform(mint, w, s).authors != []
    ensures Current(mint, Perform(mint, w, s)) != Current(mint, w) <==> Splits(mint, w, s)
  {
    WhatAStepChanges(mint, w, s);
  }

  predicate Unsplit(mint: Mint, steps: seq<Step>) {
    forall i | 0 <= i < |steps| :: !Splits(mint, Run(mint, steps[..i]), steps[i])
  }

  /** All files that had the path hold the same pair. */
  predicate OnePair(mint: Mint, w: World) {
    forall a <- w.authors :: mint(a) == mint(w.authors[|w.authors| - 1])
  }

  lemma OnePairStays(mint: Mint, w: World, s: Step)
    requires Sound(mint, w) && OnePair(mint, w) && !Splits(mint, w, s)
    ensures OnePair(mint, Perform(mint, w, s))
  {
    WhatAStepChanges(mint, w, s);
    assert s.process in w.phase ==> PhaseIsSound(mint, w, s.process);
  }

  lemma {:induction false} UnsplitUpTo(mint: Mint, steps: seq<Step>, i: nat)
    requires Unsplit(mint, steps) && i <= |steps|
    ensures OnePair(mint, Run(mint, steps[..i]))
  {
    if i > 0 {
      var w := Run(mint, steps[..i - 1]);
      UnsplitUpTo(mint, steps, i - 1);
      RunAt(mint, steps, i - 1);
      EveryRunIsSound(mint, steps[..i - 1]);
      OnePairStays(mint, w, steps[i - 1]);
    }
  }

  predicate AllAgree(w: World) {
    forall p <- w.phase, q <- w.phase | w.phase[p].Returned? && w.phase[q].Returned? ::
      w.phase[p].pair == w.phase[q].pair
  }

  /** Along every run without such a replacement, whatever else fails or dies, everybody who returns, the
      winner too, returns the published pair. */
  lemma EveryoneAgrees(mint: Mint, steps: seq<Step>)
    requires Unsplit(mint, steps)
    ensures var w := Run(mint, steps);
            && AllAgree(w)
            && forall p <- w.phase :: w.phase[p].Returned? ==> w.authors != [] && w.phase[p].pair == Current(mint, w)
  {
    var w := Run(mint, steps);
    assert steps[..|steps|] == steps;
    UnsplitUpTo(mint, steps, |steps|);
    EveryRunIsSound(mint, steps);
    forall p <- w.phase | w.phase[p].Returned?
      ensures w.authors != [] && w.phase[p].pair == Current(mint, w)
    {
      assert PhaseIsSound(mint, w, p);
      assert w.authors[w.taken[p]] in w.authors;
    }
  }

  lemma {:induction false} AuthorsGrow(mint: Mint, steps: seq<Step>, i: nat, j: nat)
    requires i <= j <= |steps|
    ensures Run(mint, steps[..i]).authors <= Run(mint, steps[..j]).authors
    decreases j
  {
    if i < j {
      AuthorsGrow(mint, steps, i, j - 1);
      RunAt(mint, steps, j - 1);
      WhatAStepChanges(mint, Run(mint, steps[..j - 1]), steps[j - 1]);
    }
  }

  /** The published pair survives every longer run without such a replacement. */
  lemma PublishedStays(mint: Mint, steps: seq<Step>, count: nat)
    requires Unsplit(mint, steps) && count <= |steps| && Run(mint, steps[..count]).authors != []
    ensures Run(mint, steps).authors != []
    ensures Current(mint, Run(mint, steps)) == Current(mint, Run(mint, steps[..count]))
  {
    var before, after := Run(mint, steps[..count]), Run(mint, steps);
    assert steps[..|steps|] == steps;
    AuthorsGrow(mint, steps, count, |steps|);
    UnsplitUpTo(mint, steps, |steps|);
    assert after.authors[|before.authors| - 1] == before.authors[|before.authors| - 1];
    assert after.authors[|before.authors| - 1] in after.authors;
  }

  // ---------- when all who return agree ----------

  predicate Replaces(mint: Mint, steps: seq<Step>, i: nat)
    requires i < |steps|
  {
    steps[i].Move? && PhaseOf(Run(mint, steps[..i]), steps[i].process).Checked?
  }

  predicate Returns(w: World, p: ProcessId) {
    PhaseOf(w, p).Returned?
  }

  /** The step replaces the file after one process that returns in the end took its identity and before
      another one does. */
  ghost predicate Separates(mint: Mint, steps: seq<Step>, i: nat)
    requires i < |steps|
  {
    && Replaces(mint, steps, i)
    && exists p, q :: Returns(Run(mint, steps), p) && Returns(Run(mint, steps), q)
                      && p in Run(mint, steps[..i]).taken && q !in Run(mint, steps[..i]).taken
  }

  lemma TakesOnce(mint: Mint, w: World, s: Step, p: ProcessId)
    requires Sound(mint, w)
    ensures var w' := Perform(mint, w, s);
            && (p in w.taken ==> p in w'.taken && w'.taken[p] == w.taken[p])
            && (p !in w.taken && p in w'.taken ==> w'.authors != [] && w'.taken[p] == |w'.authors| - 1)
  {
    WhatAStepChanges(mint, w, s);
    assert p in w.phase ==> PhaseIsSound(mint, w, p);
  }

  lemma RunTakesOnce(mint: Mint, steps: seq<Step>, j: nat, p: ProcessId)
    requires 0 < j <= |steps|
    ensures var before, after := Run(mint, steps[..j - 1]), Run(mint, steps[..j]);
            && (p in before.taken ==> p in after.taken && after.taken[p] == before.taken[p])
            && (p !in before.taken && p in after.taken ==>
                  after.authors != [] && after.taken[p] == |after.authors| - 1)
  {
    RunAt(mint, steps, j - 1);
    EveryRunIsSound(mint, steps[..j - 1]);
    TakesOnce(mint, Run(mint, steps[..j - 1]), steps[j - 1], p);
  }

  lemma {:induction false} TakenStays(mint: Mint, steps: seq<Step>, i: nat, j: nat, p: ProcessId)
    requires i <= j <= |steps| && p in Run(mint, steps[..i]).taken
    ensures p in Run(mint, steps[..j]).taken && Run(mint, steps[..j]).taken[p] == Run(mint, steps[..i]).taken[p]
    decreases j
  {
    if i < j {
      TakenStays(mint, steps, i, j - 1, p);
      RunTakesOnce(mint, steps, j, p);
    }
  }

  lemma AuthorsCount(mint: Mint, steps: seq<Step>, i: nat, j: nat)
    requires i <= j <= |steps|
    ensures |Run(mint, steps[..i]).authors| <= |Run(mint, steps[..j]).authors|
  {
    AuthorsGrow(mint, steps, i, j);
  }

  /** Files only come, and a process takes from the last one, once. */
  ghost predicate Advances(w: World, w': World) {
    && |w.authors| <= |w'.authors|
    && (forall p <- w.taken :: p in w'.taken && w'.taken[p] == w.taken[p])
    && (forall p <- w'.taken | p !in w.taken :: w'.taken[p] == |w'.authors| - 1)
  }

  lemma RunAdvances(mint: Mint, steps: seq<Step>, j: nat)
    requires j < |steps|
    ensures Advances(Run(mint, steps[..j]), Run(mint, steps[..j + 1]))
  {
    AuthorsCount(mint, steps, j, j + 1);
    forall p ensures p in Run(mint, steps[..j]).taken ==>
                       p in Run(mint, steps[..j + 1]).taken
                       && Run(mint, steps[..j + 1]).taken[p] == Run(mint, steps[..j]).taken[p]
    {
      RunTakesOnce(mint, steps, j + 1, p);
    }
    forall p <- Run(mint, steps[..j + 1]).taken | p !in Run(mint, steps[..j]).taken
      ensures Run(mint, steps[..j + 1]).taken[p] == |Run(mint, steps[..j + 1]).authors| - 1
    {
      RunTakesOnce(mint, steps, j + 1, p);
    }
  }

  lemma {:induction false} AdvancesOn(ws: seq<World>, i: nat, j: nat, q: ProcessId)
    requires forall k | 0 <= k < |ws| - 1 :: Advances(ws[k], ws[k + 1])
    requires i < j < |ws| && q !in ws[i].taken && q in ws[j].taken
    ensures |ws[i + 1].authors| - 1 <= ws[j].taken[q] && |ws[i + 1].authors| <= |ws[j].authors|
    decreases j
  {
    assert Advances(ws[j - 1], ws[j]);
    if i + 1 < j {
      if q in ws[j - 1].taken {
        AdvancesOn(ws, i, j - 1, q);
      } else {
        AuthorsOnly(ws, i + 1, j);
      }
    }
  }

  lemma {:induction false} AuthorsOnly(ws: seq<World>, i: nat, j: nat)
    requires forall k | 0 <= k < |ws| - 1 :: Advances(ws[k], ws[k + 1])
    requires i <= j < |ws|
    ensures |ws[i].authors| <= |ws[j].authors|
    decreases j
  {
    if i < j {
      AuthorsOnly(ws, i, j - 1);
      assert Advances(ws[j - 1], ws[j]);
    }
  }

  function Worlds(mint: Mint, steps: seq<Step>): (ws: seq<World>)
    ensures |ws| == |steps| + 1 && forall k | 0 <= k <= |steps| :: ws[k] == Run(mint, steps[..k])
  {
    seq(|steps| + 1, k requires 0 <= k <= |steps| => Run(mint, steps[..k]))
  }

  lemma TakenLater(mint: Mint, steps: seq<Step>, i: nat, j: nat, q: ProcessId)
    requires i < j <= |steps| && q !in Run(mint, steps[..i]).taken && q in Run(mint, steps[..j]).taken
    ensures |Run(mint, steps[..i + 1]).authors| - 1 <= Run(mint, steps[..j]).taken[q]
  {
    var ws := Worlds(mint, steps);
    forall k | 0 <= k < |ws| - 1 ensures Advances(ws[k], ws[k + 1]) {
      RunAdvances(mint, steps, k);
    }
    AdvancesOn(ws, i, j, q);
  }

  /** What a process has taken was there when it took it. */
  lemma TakenIsThere(mint: Mint, steps: seq<Step>, i: nat, p: ProcessId)
    requires i <= |steps| && p in Run(mint, steps[..i]).taken && Returns(Run(mint, steps), p)
    ensures p in Run(mint, steps).taken && Run(mint, steps).taken[p] < |Run(mint, steps[..i]).authors|
  {
    assert steps[..|steps|] == steps;
    TakenStays(mint, steps, i, |steps|, p);
    TakenInside(mint, steps, i, p);
  }

  lemma {:induction false} TakenInside(mint: Mint, steps: seq<Step>, i: nat, p: ProcessId)
    requires i <= |steps| && p in Run(mint, steps[..i]).taken
    ensures Run(mint, steps[..i]).taken[p] < |Run(mint, steps[..i]).authors|
  {
    if i > 0 {
      RunTakesOnce(mint, steps, i, p);
      AuthorsGrow(mint, steps, i - 1, i);
      if p in Run(mint, steps[..i - 1]).taken {
        TakenInside(mint, steps, i - 1, p);
      }
    }
  }

  /** The step that published a file after the first is a replacement. */
  lemma {:induction false} FindReplacement(mint: Mint, steps: seq<Step>, j: nat, n: nat) returns (i: nat)
    requires j <= |steps| && 0 < n < |Run(mint, steps[..j]).authors|
    ensures i < j && Replaces(mint, steps, i) && |Run(mint, steps[..i]).authors| == n
  {
    var before := Run(mint, steps[..j - 1]);
    RunAt(mint, steps, j - 1);
    WhatAStepChanges(mint, before, steps[j - 1]);
    if n < |before.authors| {
      i := FindReplacement(mint, steps, j - 1, n);
    } else {
      i := j - 1;
    }
  }

  predicate Distinct(mint: Mint, w: World) {
    forall a <- w.authors, b <- w.authors | a != b :: mint(a) != mint(b)
  }

  /** Two who return have the same pair exactly when they took it from the same file. */
  lemma AgreeExactlyWhen(mint: Mint, steps: seq<Step>, p: ProcessId, q: ProcessId)
    requires Distinct(mint, Run(mint, steps)) && Returns(Run(mint, steps), p) && Returns(Run(mint, steps), q)
    ensures var w := Run(mint, steps);
            && p in w.taken && q in w.taken && w.taken[p] < |w.authors| && w.taken[q] < |w.authors|
            && (w.phase[p].pair == w.phase[q].pair <==> w.taken[p] == w.taken[q])
  {
    var w := Run(mint, steps);
    EveryRunIsSound(mint, steps);
    assert PhaseIsSound(mint, w, p) && PhaseIsSound(mint, w, q);
    assert w.authors[w.taken[p]] in w.authors && w.authors[w.taken[q]] in w.authors;
  }

  lemma SeparatedDisagree(mint: Mint, steps: seq<Step>, i: nat)
    requires Distinct(mint, Run(mint, steps)) && i < |steps| && Separates(mint, steps, i)
    ensures !AllAgree(Run(mint, steps))
  {
    var w := Run(mint, steps);
    var p, q :| Returns(w, p) && Returns(w, q) && p in Run(mint, steps[..i]).taken && q !in Run(mint, steps[..i]).taken;
    assert steps[..|steps|] == steps;
    AgreeExactlyWhen(mint, steps, p, q);
    TakenIsThere(mint, steps, i, p);
    TakenLater(mint, steps, i, |steps|, q);
    RunAt(mint, steps, i);
    WhatAStepChanges(mint, Run(mint, steps[..i]), steps[i]);
  }

  lemma DisagreeingAreSeparated(mint: Mint, steps: seq<Step>, p: ProcessId, q: ProcessId) returns (i: nat)
    requires Distinct(mint, Run(mint, steps)) && Returns(Run(mint, steps), p) && Returns(Run(mint, steps), q)
    requires p in Run(mint, steps).taken && q in Run(mint, steps).taken
    requires Run(mint, steps).taken[p] < Run(mint, steps).taken[q]
    ensures i < |steps| && Separates(mint, steps, i)
  {
    var w := Run(mint, steps);
    assert steps[..|steps|] == steps;
    AgreeExactlyWhen(mint, steps, p, q);
    i := FindReplacement(mint, steps, |steps|, w.taken[q]);
    if q in Run(mint, steps[..i]).taken {
      TakenIsThere(mint, steps, i, q);
    }
    if p !in Run(mint, steps[..i]).taken {
      TakenLater(mint, steps, i, |steps|, p);
      RunAt(mint, steps, i);
      WhatAStepChanges(mint, Run(mint, steps[..i]), steps[i]);
    }
  }

  /** Over all runs, deaths and every fault included, with a pair of its own for every author: all who
      return get the same identity exactly when no replacement of the file separates two of them. */
  lemma EveryoneAgreesExactlyWhen(mint: Mint, steps: seq<Step>)
    requires Distinct(mint, Run(mint, steps))
    ensures AllAgree(Run(mint, steps)) <==> forall i: nat | i < |steps| :: !Separates(mint, steps, i)
  {
    var w := Run(mint, steps);
    forall i: nat | i < |steps| && Separates(mint, steps, i) ensures !AllAgree(w) {
      SeparatedDisagree(mint, steps, i);
    }
    if !AllAgree(w) {
      var p, q :| p in w.phase && q in w.phase && Returns(w, p) && Returns(w, q) && w.phase[p].pair != w.phase[q].pair;
      AgreeExactlyWhen(mint, steps, p, q);
      var i;
      if w.taken[p] < w.taken[q] {
        i := DisagreeingAreSeparated(mint, steps, p, q);
      } else {
        i := DisagreeingAreSeparated(mint, steps, q, p);
      }
    }
  }

  /** The re-read of a process that lost the link failed. */
  predicate RereadFails(mint: Mint, steps: seq<Step>, k: nat, p: ProcessId)
    requires k < |steps|
  {
    steps[k] == Move(p, true) && PhaseOf(Run(mint, steps[..k]), p).Lost?
  }

  predicate MayReplace(w: World, p: ProcessId) {
    PhaseOf(w, p).Replacing? || IsReplacing(PhaseOf(w, p))
  }

  lemma BecomesReplacing(mint: Mint, w: World, s: Step, p: ProcessId)
    requires Sound(mint, w) && MayReplace(Perform(mint, w, s), p)
    ensures MayReplace(w, p) || (s == Move(p, true) && PhaseOf(w, p).Lost?)
  {
    WhatAStepChanges(mint, w, s);
    assert p in w.phase ==> PhaseIsSound(mint, w, p);
  }

  /** Only such a process ever gets to replace the file. */
  lemma {:induction false} OnlyFailedRereadsReplace(mint: Mint, steps: seq<Step>, i: nat, p: ProcessId)
    requires i <= |steps| && MayReplace(Run(mint, steps[..i]), p)
    ensures exists k: nat :: k < i && RereadFails(mint, steps, k, p)
  {
    if i > 0 {
      RunAt(mint, steps, i - 1);
      EveryRunIsSound(mint, steps[..i - 1]);
      BecomesReplacing(mint, Run(mint, steps[..i - 1]), steps[i - 1], p);
      if MayReplace(Run(mint, steps[..i - 1]), p) {
        OnlyFailedRereadsReplace(mint, steps, i - 1, p);
      } else {
        assert RereadFails(mint, steps, i - 1, p);
      }
    }
  }

  /** So while no such re-read fails, everybody agrees: a failing first read does no harm. */
  lemma NoFailedRereadNoSplit(mint: Mint, steps: seq<Step>)
    requires forall k: nat, p | k < |steps| :: !RereadFails(mint, steps, k, p)
    ensures Unsplit(mint, steps) && AllAgree(Run(mint, steps))
  {
    forall i | 0 <= i < |steps| ensures !Splits(mint, Run(mint, steps[..i]), steps[i]) {
      if Splits(mint, Run(mint, steps[..i]), steps[i]) {
        OnlyFailedRereadsReplace(mint, steps, i, steps[i].process);
      }
    }
    EveryoneAgrees(mint, steps);
  }

  lemma PublishesAlone(mint: Mint, w: World, p: ProcessId)
    requires PhaseOf(w, p).Starting? && w.spare.None? && w.authors == []
    ensures
      var m := Move(p, false);
      var a := Perform(mint, Perform(mint, w, m), m);
      a == WithPhase(WithPhase(w, p, Minted), p, Linking)
  {
  }

  lemma LinksAlone(mint: Mint, w: World, p: ProcessId)
    requires PhaseOf(w, p).Linking? && w.spare.None? && w.authors == []
    ensures
      var m := Move(p, false);
      var b := Perform(mint, Perform(mint, Perform(mint, w, m), m), m);
      b.authors == [p] && b.spare.None? && PhaseOf(b, p) == Returned(mint(p))
  {
    var m := Move(p, false);
    var linked := Perform(mint, w, m);
    assert PhaseOf(linked, p).Linked? && linked.authors == [p];
    var unlinked := Perform(mint, linked, m);
    assert PhaseOf(unlinked, p).Unlinked? && unlinked.authors == [p] && unlinked.spare.None?;
  }

  lemma ReturnedStays(mint: Mint, w: World, s: Step)
    requires PhaseOf(w, s.process).Returned?
    ensures Perform(mint, w, s) == w
  {
  }

  /** A process that nobody disturbs gets an identity: the saved one, or its own. */
  lemma AloneItReturns(mint: Mint, w: World, p: ProcessId)
    requires PhaseOf(w, p).Starting? && w.spare.None?
    ensures
      var m := Move(p, false);
      var a := Perform(mint, Perform(mint, w, m), m);
      var b := Perform(mint, Perform(mint, Perform(mint, a, m), m), m);
      && b.authors != [] && b.spare.None? && PhaseOf(b, p) == Returned(Current(mint, b))
      && b.authors == if w.authors == [] then [p] else w.authors
  {
    var m := Move(p, false);
    if w.authors == [] {
      PublishesAlone(mint, w, p);
      LinksAlone(mint, WithPhase(WithPhase(w, p, Minted), p, Linking), p);
    } else {
      var a := Perform(mint, w, m);
      assert PhaseOf(a, p) == Returned(Current(mint, w));
      ReturnedStays(mint, a, m);
    }
  }

  // ---------- a temporary name that stays ----------

  /** The temporary name of a winner that is gone still refers to the file. */
  predicate Blocked(w: World) {
    w.spare.Some? && (PhaseOf(w, w.spare.value).Dead? || PhaseOf(w, w.spare.value).Raised?)
  }

  predicate NobodyReturned(w: World) {
    forall p <- w.phase :: !w.phase[p].Returned?
  }

  /** A reader finds the file unsafe, so it raises. */
  lemma DeadWinnerBlocks(mint: Mint, w: World, p: ProcessId)
    requires Sound(mint, w) && Blocked(w)
    requires PhaseOf(w, p).Starting? || PhaseOf(w, p).Minted? || PhaseOf(w, p).Lost? || PhaseOf(w, p).Replacing?
    ensures PhaseOf(Perform(mint, w, Move(p, false)), p).Raised?
  {
  }

  /** The winner dies with the temporary name in place, or cannot remove it. */
  predicate LeavesTheName(w: World, s: Step) {
    PhaseOf(w, s.process).Linked? && (s.Die? || s.fault)
  }

  lemma BlocksExactlyWhen(mint: Mint, w: World, s: Step)
    requires Sound(mint, w)
    ensures Blocked(Perform(mint, w, s)) <==> Blocked(w) || LeavesTheName(w, s)
  {
    WhatAStepChanges(mint, w, s);
    assert s.process in w.phase ==> PhaseIsSound(mint, w, s.process);
  }

  predicate WinnerStopped(mint: Mint, steps: seq<Step>) {
    exists i | 0 <= i < |steps| :: StopsAt(mint, steps, i)
  }

  predicate StopsAt(mint: Mint, steps: seq<Step>, i: nat)
    requires i < |steps|
  {
    LeavesTheName(Run(mint, steps[..i]), steps[i])
  }

  lemma StoppedEarlier(mint: Mint, steps: seq<Step>)
    requires steps != []
    ensures WinnerStopped(mint, steps) <==>
              WinnerStopped(mint, steps[..|steps| - 1]) || StopsAt(mint, steps, |steps| - 1)
  {
    var last := |steps| - 1;
    var but := steps[..last];
    forall i: nat | i < last ensures StopsAt(mint, but, i) <==> StopsAt(mint, steps, i) {
      assert but[..i] == steps[..i];
    }
  }

  lemma {:induction false} BlockedIsWinnerStopped(mint: Mint, steps: seq<Step>)
    ensures Blocked(Run(mint, steps)) <==> WinnerStopped(mint, steps)
    decreases |steps|
  {
    if steps != [] {
      var but, s := steps[..|steps| - 1], steps[|steps| - 1];
      BlockedIsWinnerStopped(mint, but);
      EveryRunIsSound(mint, but);
      BlocksExactlyWhen(mint, Run(mint, but), s);
      StoppedEarlier(mint, steps);
    }
  }

  lemma {:induction false} BlockedForGood(mint: Mint, steps: seq<Step>, more: seq<Step>)
    requires Blocked(Run(mint, steps))
    ensures Blocked(Run(mint, steps + more))
    decreases |more|
  {
    if more == [] {
      assert steps + more == steps;
    } else {
      var but, s := more[..|more| - 1], more[|more| - 1];
      assert steps + more == (steps + but) + [s];
      BlockedForGood(mint, steps, but);
      EveryRunIsSound(mint, steps + but);
      RunSnoc(mint, steps + but, s);
      BlocksExactlyWhen(mint, Run(mint, steps + but), s);
    }
  }

  lemma WhileNamedNobodyReturns(mint: Mint, w: World)
    requires Sound(mint, w) && w.spare.Some?
    ensures NobodyReturned(w)
  {
    forall p <- w.phase ensures !w.phase[p].Returned? {
      assert PhaseIsSound(mint, w, p);
    }
  }

  lemma RunTwice(mint: Mint, steps: seq<Step>, m: Step)
    ensures Run(mint, steps + [m, m]) == Perform(mint, Perform(mint, Run(mint, steps), m), m)
  {
    assert steps + [m, m] == (steps + [m]) + [m];
    RunSnoc(mint, steps, m);
    RunSnoc(mint, steps + [m], m);
  }

  lemma WinnerReturns(mint: Mint, w: World, p: ProcessId)
    requires PhaseOf(w, p).Linked?
    ensures PhaseOf(Perform(mint, Perform(mint, w, Move(p, false)), Move(p, false)), p).Returned?
  {
  }

  /** While no name is left behind, somebody can still return. */
  lemma SomebodyReturns(mint: Mint, steps: seq<Step>) returns (more: seq<Step>, p: ProcessId)
    requires !Blocked(Run(mint, steps))
    ensures PhaseOf(Run(mint, steps + more), p).Returned?
  {
    var w := Run(mint, steps);
    EveryRunIsSound(mint, steps);
    if w.spare.Some? {
      p := w.spare.value;
      more := [Move(p, false), Move(p, false)];
      RunTwice(mint, steps, Move(p, false));
      WinnerReturns(mint, w, p);
    } else {
      p := Unused(w.phase.Keys);
      var m := Move(p, false);
      more := [m, m, m, m, m];
      AloneItReturns(mint, w, p);
      RunTwice(mint, steps, m);
      RunTwice(mint, steps + [m, m], m);
      RunSnoc(mint, steps + [m, m] + [m, m], m);
      assert steps + more == steps + [m, m] + [m, m] + [m];
    }
  }

  ghost predicate NobodyEverReturns(mint: Mint, steps: seq<Step>) {
    forall more: seq<Step> :: NobodyReturned(Run(mint, steps + more))
  }

  /** Over all runs: nobody has returned or ever will exactly when the winner died before it removed its
      temporary name, or could not remove it. */
  lemma BlockedExactlyWhen(mint: Mint, steps: seq<Step>)
    ensures NobodyEverReturns(mint, steps) <==> WinnerStopped(mint, steps)
  {
    BlockedIsWinnerStopped(mint, steps);
    if WinnerStopped(mint, steps) {
      forall more: seq<Step> ensures NobodyReturned(Run(mint, steps + more)) {
        BlockedForGood(mint, steps, more);
        EveryRunIsSound(mint, steps + more);
        WhileNamedNobodyReturns(mint, Run(mint, steps + more));
      }
    } else {
      var more, p := SomebodyReturns(mint, steps);
      assert p in Run(mint, steps + more).phase;
      assert !NobodyReturned(Run(mint, steps + more));
      assert !NobodyEverReturns(mint, steps);
    }
  }

  // ---------- three runs ----------

  function Ok(p: ProcessId): Step {
    Move(p, false)
  }

  function Bad(p: ProcessId): Step {
    Move(p, true)
  }

  /** The steps of two processes that start together until `a` has linked and `b` has lost. */
  function Race(a: ProcessId, b: ProcessId): seq<Step> {
    [Ok(a), Ok(b)] + [Ok(a), Ok(b)] + [Ok(a), Ok(b)]
  }

  lemma RunPair(mint: Mint, steps: seq<Step>, s: Step, r: Step)
    ensures Run(mint, steps + [s, r]) == Perform(mint, Perform(mint, Run(mint, steps), s), r)
  {
    assert steps + [s, r] == (steps + [s]) + [r];
    RunSnoc(mint, steps, s);
    RunSnoc(mint, steps + [s], r);
  }

  function Both(a: ProcessId, b: ProcessId, phase: Phase): World {
    World([], None, map[a := phase, b := phase], map[])
  }

  lemma Rounds(mint: Mint, a: ProcessId, b: ProcessId)
    requires a != b
    ensures Perform(mint, Perform(mint, START, Ok(a)), Ok(b)) == Both(a, b, Minted)
    ensures Perform(mint, Perform(mint, Both(a, b, Minted), Ok(a)), Ok(b)) == Both(a, b, Linking)
  {
  }

  lemma LastRound(mint: Mint, a: ProcessId, b: ProcessId)
    requires a != b
    ensures Perform(mint, Perform(mint, Both(a, b, Linking), Ok(a)), Ok(b))
         == World([a], Some(a), map[a := Linked, b := Lost], map[a := 0])
  {
  }

  lemma RaceBegins(mint: Mint, a: ProcessId, b: ProcessId)
    requires a != b
    ensures Run(mint, [Ok(a), Ok(b)] + [Ok(a), Ok(b)]) == Both(a, b, Linking)
  {
    RunPair(mint, [], Ok(a), Ok(b));
    assert [] + [Ok(a), Ok(b)] == [Ok(a), Ok(b)];
    RunPair(mint, [Ok(a), Ok(b)], Ok(a), Ok(b));
    Rounds(mint, a, b);
  }

  lemma AfterTheRace(mint: Mint, a: ProcessId, b: ProcessId)
    requires a != b
    ensures Run(mint, Race(a, b)) == World([a], Some(a), map[a := Linked, b := Lost], map[a := 0])
  {
    RaceBegins(mint, a, b);
    RunPair(mint, [Ok(a), Ok(b)] + [Ok(a), Ok(b)], Ok(a), Ok(b));
    LastRound(mint, a, b);
  }

  lemma ReplacementSteps(mint: Mint, w: World, b: ProcessId)
    requires PhaseOf(w, b).Replacing? && w.spare.None?
    ensures Perform(mint, Perform(mint, w, Ok(b)), Ok(b))
         == WithPhase(WithPhase(w, b, Inspected(|w.authors|)), b, Checked)
  {
    assert Perform(mint, w, Ok(b)) == WithPhase(w, b, Inspected(|w.authors|));
  }

  lemma ReplacementEnds(mint: Mint, w: World, b: ProcessId)
    requires PhaseOf(w, b).Checked? && w.spare.None?
    ensures Perform(mint, Perform(mint, w, Ok(b)), Ok(b))
         == World(w.authors + [b], None, w.phase[b := Returned(mint(b))], w.taken[b := |w.authors|])
  {
    assert Perform(mint, w, Ok(b)) == Publishing(w, b, Replaced);
  }

  lemma ReplacementFollows(mint: Mint, steps: seq<Step>, b: ProcessId)
    requires var w := Run(mint, steps); PhaseOf(w, b).Replacing? && w.spare.None?
    ensures var w, w' := Run(mint, steps), Run(mint, steps + [Ok(b), Ok(b)] + [Ok(b), Ok(b)]);
            w' == World(w.authors + [b], None, w.phase[b := Returned(mint(b))], w.taken[b := |w.authors|])
  {
    var w := Run(mint, steps);
    RunPair(mint, steps, Ok(b), Ok(b));
    RunPair(mint, steps + [Ok(b), Ok(b)], Ok(b), Ok(b));
    ReplacementSteps(mint, w, b);
    ReplacementEnds(mint, WithPhase(WithPhase(w, b, Inspected(|w.authors|)), b, Checked), b);
  }

  /** With one failing re-read two processes return different identities, whether it fails after the winner
      has returned or while its temporary name is still there. */
  lemma FaultSplitsTheIdentity(mint: Mint, a: ProcessId, b: ProcessId, early: bool) returns (steps: seq<Step>)
    requires a != b && mint(a) != mint(b)
    ensures (early ==> |steps| == 13 && Run(mint, steps[..6]).spare.Some? && steps[6] == Bad(b))
    ensures PhaseOf(Run(mint, steps), a) == Returned(mint(a)) && PhaseOf(Run(mint, steps), b) == Returned(mint(b))
    ensures !AllAgree(Run(mint, steps))
  {
    AfterTheRace(mint, a, b);
    var race := Race(a, b);
    if early {
      RunSnoc(mint, race, Bad(b));
      RunPair(mint, race + [Bad(b)], Ok(a), Ok(a));
      steps := race + [Bad(b)] + [Ok(a), Ok(a)];
    } else {
      RunPair(mint, race, Ok(a), Ok(a));
      RunSnoc(mint, race + [Ok(a), Ok(a)], Bad(b));
      steps := race + [Ok(a), Ok(a)] + [Bad(b)];
    }
    ReplacementFollows(mint, steps, b);
    steps := steps + [Ok(b), Ok(b)] + [Ok(b), Ok(b)];
    assert early ==> steps[..6] == race;
  }

  /** A winner that dies once its temporary name is gone has told nobody its identity: the replacement that
      follows separates no two who return. */
  lemma UntoldIdentityIsReplaced(mint: Mint, a: ProcessId, b: ProcessId) returns (steps: seq<Step>)
    requires a != b
    ensures Run(mint, steps).authors == [a, b] && PhaseOf(Run(mint, steps), b) == Returned(mint(b))
    ensures AllAgree(Run(mint, steps))
  {
    AfterTheRace(mint, a, b);
    var race := Race(a, b);
    RunPair(mint, race, Ok(a), Die(a));
    RunSnoc(mint, race + [Ok(a), Die(a)], Bad(b));
    steps := race + [Ok(a), Die(a)] + [Bad(b)];
    ReplacementFollows(mint, steps, b);
    steps := steps + [Ok(b), Ok(b)] + [Ok(b), Ok(b)];
  }
}
