/**
 The byte budget of a managed snapshot (`cloud_features.py`): the document is assembled memory by
 memory against a projected size, under a generation reserved in the same transaction.

 JSON is modelled by the length of its compact encoding.
 */
module ManagedSnapshot {
  import opened Prelude

  const MAX_SNAPSHOT_BYTES: nat := 16 * 1024 * 1024
  const MAX_MEMORIES: nat := 100_000
  const MAX_TEXT_CHARS: nat := 100_000
  const MAX_TITLE_CHARS: nat := 500
  const WIDEST: nat := 9_223_372_036_854_775_807

  // ---------- encoded lengths ----------

  function Digits(n: nat): (d: nat)
    ensures d > 0
  {
    if n < 10 then 1 else 1 + Digits(n / 10)
  }

  function Flag(b: bool): nat {
    if b then 4 else 5
  }

  function Sum(sizes: seq<nat>): nat {
    if sizes == [] then 0 else Sum(sizes[..|sizes| - 1]) + sizes[|sizes| - 1]
  }

  /** An array or object of elements with these encoded lengths: brackets and commas. */
  function Bracketed(sizes: seq<nat>): nat {
    2 + Sum(sizes) + if sizes == [] then 0 else |sizes| - 1
  }

  /** A quoted key, its colon and its value. */
  function Entry(key: string, value: nat): nat {
    |key| + 3 + value
  }

  /** The encoded length of the transport document. */
  function Document(generation: nat, consent: bool, revision: nat, excluded: nat, memories: seq<nat>): nat {
    Bracketed([
      Entry("excluded_secret_count", Digits(excluded)),
      Entry("generation", Digits(generation)),
      Entry("managed_compute_consent", Flag(consent)),
      Entry("memories", Bracketed(memories)),
      Entry("processing_policy_revision", Digits(revision)),
      Entry("schema", |"engraphis-managed-snapshot/v1"| + 2)])
  }

  lemma SumOfSix(a: nat, b: nat, c: nat, d: nat, e: nat, f: nat)
    ensures Bracketed([a, b, c, d, e, f]) == 7 + a + b + c + d + e + f
  {
    assert [a, b, c, d, e, f][..5] == [a, b, c, d, e];
    assert [a, b, c, d, e][..4] == [a, b, c, d];
    assert [a, b, c, d][..3] == [a, b, c];
    assert [a, b, c][..2] == [a, b];
    assert [a, b][..1] == [a];
    assert Sum([a]) == a;
    assert Sum([a, b]) == a + b;
    assert Sum([a, b, c]) == a + b + c;
    assert Sum([a, b, c, d]) == a + b + c + d;
    assert Sum([a, b, c, d, e]) == a + b + c + d + e;
  }

  /** The size the builder starts from: the widest header values around no memories. */
  function Header(): nat {
    Document(WIDEST, false, WIDEST, MAX_MEMORIES, [])
  }

  /** The size the builder tracks after these memories. */
  function Projected(memories: seq<nat>): nat
    decreases |memories|
  {
    if memories == [] then Header()
    else Projected(memories[..|memories| - 1]) + memories[|memories| - 1] + if |memories| > 1 then 1 else 0
  }

  lemma {:induction false} ProjectedIsBracketed(memories: seq<nat>)
    ensures Projected(memories) == Header() + Bracketed(memories) - 2
    decreases |memories|
  {
    if memories != [] {
      ProjectedIsBracketed(memories[..|memories| - 1]);
    }
  }

  lemma {:induction false} DigitsGrow(a: nat, b: nat)
    requires a <= b
    ensures Digits(a) <= Digits(b)
  {
    if a >= 10 {
      DigitsGrow(a / 10, b / 10);
    }
  }

  /** The bytes the projection has in hand over the real encoding of the header. */
  function Slack(generation: nat, revision: nat, excluded: nat): int {
    (Digits(WIDEST) - Digits(generation)) + 1 + (Digits(WIDEST) - Digits(revision))
    + (Digits(MAX_MEMORIES) - Digits(excluded))
  }

  /** The projection and the encoding differ by exactly the slack of the header. */
  lemma ProjectionIsExact(generation: nat, revision: nat, excluded: nat, memories: seq<nat>)
    ensures Document(generation, true, revision, excluded, memories)
         == Projected(memories) - Slack(generation, revision, excluded)
  {
    ProjectedIsBracketed(memories);
    HeaderValues(generation, true, revision, excluded, memories);
    HeaderValues(WIDEST, false, WIDEST, MAX_MEMORIES, []);
  }

  lemma HeaderValues(generation: nat, consent: bool, revision: nat, excluded: nat, memories: seq<nat>)
    ensures Document(generation, consent, revision, excluded, memories)
         == 150 + Digits(excluded) + Digits(generation) + Flag(consent) + Bracketed(memories) + Digits(revision)
  {
    SumOfSix(
      Entry("excluded_secret_count", Digits(excluded)),
      Entry("generation", Digits(generation)),
      Entry("managed_compute_consent", Flag(consent)),
      Entry("memories", Bracketed(memories)),
      Entry("processing_policy_revision", Digits(revision)),
      Entry("schema", |"engraphis-managed-snapshot/v1"| + 2));
  }

  /** Up to the widest header values the encoding stays below the projection. */
  lemma ProjectionBounds(generation: nat, revision: nat, excluded: nat, memories: seq<nat>)
    requires generation <= WIDEST && revision <= WIDEST && excluded <= MAX_MEMORIES
    ensures Document(generation, true, revision, excluded, memories) < Projected(memories)
  {
    ProjectionIsExact(generation, revision, excluded, memories);
    DigitsGrow(generation, WIDEST);
    DigitsGrow(revision, WIDEST);
    DigitsGrow(excluded, MAX_MEMORIES);
  }

  function Wide(digits: nat): nat {
    if digits == 0 then 1 else 10 * Wide(digits - 1)
  }

  lemma {:induction false} WideIsPositive(digits: nat)
    ensures Wide(digits) >= 1
  {
    if digits > 0 {
      WideIsPositive(digits - 1);
    }
  }

  lemma {:induction false} DigitsWithin(n: nat, digits: nat)
    requires digits > 0
    ensures Digits(n) <= digits <==> n < Wide(digits)
    decreases digits
  {
    WideIsPositive(digits - 1);
    if n >= 10 && digits > 1 {
      DigitsWithin(n / 10, digits - 1);
    }
  }

  lemma WidestHasNineteenDigits()
    ensures Digits(WIDEST) == 19 && Digits(MAX_MEMORIES) == 6
  {
    DigitsWithin(WIDEST, 19);
    DigitsWithin(WIDEST, 18);
    DigitsWithin(MAX_MEMORIES, 6);
    DigitsWithin(MAX_MEMORIES, 5);
  }

  /** The smallest policy revision whose digits use up the slack of such a header. */
  function RevisionLimit(generation: nat, excluded: nat): nat {
    var spare := 45 - Digits(generation) - Digits(excluded);
    if spare > 0 then Wide(spare) else 0
  }

  lemma SlackExactlyWhen(generation: nat, revision: nat, excluded: nat)
    ensures Slack(generation, revision, excluded) >= 0 <==> revision < RevisionLimit(generation, excluded)
  {
    WidestHasNineteenDigits();
    var spare := 45 - Digits(generation) - Digits(excluded);
    if spare > 0 {
      DigitsWithin(revision, spare);
    }
  }

  // ---------- the memories of a workspace ----------

  datatype Sensitivity = Blank | Normal | Sensitive | Other

  /** A row of `memories`: `bytes` is the encoded length of the memory without its sensitivity, which
      is the column's after its default; blank text counts as `Blank`. */
  datatype Row = Row(eligible: bool, sensitivity: Sensitivity, inMetadata: Sensitivity,
                     content: nat, title: nat, bytes: nat)

  datatype Memory = Memory(row: Row, sensitivity: Sensitivity)

  predicate IsOpen(row: Row) {
    row.sensitivity in {Normal, Sensitive} && row.inMetadata in {Blank, Normal, Sensitive}
  }

  predicate IsLong(row: Row) {
    row.content > MAX_TEXT_CHARS || row.title > MAX_TITLE_CHARS
  }

  function MemoryOf(row: Row): Memory {
    Memory(row, if row.inMetadata == Sensitive then Sensitive else row.sensitivity)
  }

  function MemorySize(m: Memory): nat {
    m.row.bytes + if m.sensitivity == Sensitive then |"sensitive"| else |"normal"|
  }

  function Sizes(memories: seq<Memory>): seq<nat> {
    seq(|memories|, i requires 0 <= i < |memories| => MemorySize(memories[i]))
  }

  /** The memories of the rows that may leave the machine, in row order. */
  function Selected(rows: seq<Row>): seq<Memory>
    decreases |rows|
  {
    if rows == [] then []
    else
      var last := rows[|rows| - 1];
      Selected(rows[..|rows| - 1]) + if last.eligible && IsOpen(last) then [MemoryOf(last)] else []
  }

  /** The eligible rows held back for their sensitivity. */
  function HeldBack(rows: seq<Row>): (n: nat)
    ensures n <= |rows|
    decreases |rows|
  {
    if rows == [] then 0
    else
      var last := rows[|rows| - 1];
      HeldBack(rows[..|rows| - 1]) + if last.eligible && !IsOpen(last) then 1 else 0
  }

  /** All the rows can be uploaded within the limits. */
  predicate Uploadable(rows: seq<Row>) {
    && |rows| <= MAX_MEMORIES
    && NoneLong(Selected(rows))
    && Projected(Sizes(Selected(rows))) <= MAX_SNAPSHOT_BYTES
  }

  datatype Problem =
    NoSuchWorkspace | NoConsent | TooManyMemories | TextTooLong | TooManyBytes | NotAdvancing | Exhausted

  datatype Snapshot = Snapshot(generation: nat, revision: nat, excluded: nat, memories: seq<Memory>)

  datatype Result = Built(snapshot: Snapshot) | Failed(problem: Problem)

  function Encoded(s: Snapshot): nat {
    Document(s.generation, true, s.revision, s.excluded, Sizes(s.memories))
  }

  lemma OneMoreSize(memories: seq<Memory>, m: Memory)
    ensures Sizes(memories + [m]) == Sizes(memories) + [MemorySize(m)]
    ensures Projected(Sizes(memories + [m]))
         == Projected(Sizes(memories)) + MemorySize(m) + if memories == [] then 0 else 1
  {
    assert (Sizes(memories) + [MemorySize(m)])[..|memories|] == Sizes(memories);
  }

  lemma {:induction false} ProjectedGrows(rows: seq<Row>, count: nat)
    requires count <= |rows|
    ensures Projected(Sizes(Selected(rows[..count]))) <= Projected(Sizes(Selected(rows)))
    ensures forall m <- Selected(rows[..count]) :: m in Selected(rows)
    decreases |rows|
  {
    if count < |rows| {
      var but, last := rows[..|rows| - 1], rows[|rows| - 1];
      assert but[..count] == rows[..count];
      ProjectedGrows(but, count);
      OneMoreSize(Selected(but), MemoryOf(last));
      assert Selected(but) + [] == Selected(but);
    } else {
      assert rows[..count] == rows;
    }
  }

  lemma OneMoreRow(rows: seq<Row>, i: nat)
    requires i < |rows|
    ensures Selected(rows[..i + 1])
         == Selected(rows[..i]) + if rows[i].eligible && IsOpen(rows[i]) then [MemoryOf(rows[i])] else []
    ensures HeldBack(rows[..i + 1]) == HeldBack(rows[..i]) + if rows[i].eligible && !IsOpen(rows[i]) then 1 else 0
  {
    assert rows[..i + 1][..i] == rows[..i];
  }

  /** One row of the assembling loop; `bytes` is the projection for the memories so far. */
  method AddRow(row: Row, memories0: seq<Memory>, bytes0: nat)
    returns (problem: Option<Problem>, memories: seq<Memory>, bytes: nat)
    requires bytes0 == Projected(Sizes(memories0)) <= MAX_SNAPSHOT_BYTES
    ensures
      var next := memories0 + if row.eligible && IsOpen(row) then [MemoryOf(row)] else [];
      && (problem.None? ==> memories == next && bytes == Projected(Sizes(next)) <= MAX_SNAPSHOT_BYTES)
      && (problem.None? ==> !(row.eligible && IsOpen(row) && IsLong(row)))
      && (problem.Some? ==> row.eligible && IsOpen(row))
      && (problem.Some? ==> if IsLong(row) then problem.value == TextTooLong
                            else problem.value == TooManyBytes && Projected(Sizes(next)) > MAX_SNAPSHOT_BYTES)
  {
    problem, memories, bytes := None, memories0, bytes0;
    assert memories0 + [] == memories0;
    if row.eligible && IsOpen(row) {
      var memory := MemoryOf(row);
      OneMoreSize(memories, memory);
      if IsLong(row) {
        problem := Some(TextTooLong);
        return;
      }
      var projected := bytes + MemorySize(memory) + if memories == [] then 0 else 1;
      if projected > MAX_SNAPSHOT_BYTES {
        problem := Some(TooManyBytes);
        return;
      }
      bytes, memories := projected, memories + [memory];
    }
  }

  /** The assembling loop. */
  method Assemble(rows: seq<Row>) returns (problem: Option<Problem>, memories: seq<Memory>, excluded: nat)
    requires |rows| <= MAX_MEMORIES
    ensures problem.None? <==> Uploadable(rows)
    ensures problem.None? ==> memories == Selected(rows) && excluded == HeldBack(rows)
    ensures problem.Some? ==> problem.value in {TextTooLong, TooManyBytes}
    ensures problem == Some(TextTooLong) ==> !NoneLong(Selected(rows))
    ensures problem == Some(TooManyBytes) ==> Projected(Sizes(Selected(rows))) > MAX_SNAPSHOT_BYTES
  {
    memories, excluded, problem := [], 0, None;
    var bytes := Header();
    assert Sizes([]) == [];
    HeaderFits();
    var i := 0;
    while i < |rows|
      invariant 0 <= i <= |rows| && problem.None?
      invariant memories == Selected(rows[..i]) && excluded == HeldBack(rows[..i])
      invariant bytes == Projected(Sizes(memories)) <= MAX_SNAPSHOT_BYTES
      invariant NoneLong(memories)
    {
      OneMoreRow(rows, i);
      problem, memories, bytes := AddRow(rows[i], memories, bytes);
      if problem.Some? {
        if IsLong(rows[i]) {
          LongRowFails(rows, i);
        } else {
          ProjectedGrows(rows, i + 1);
        }
        return;
      }
      if rows[i].eligible && !IsOpen(rows[i]) {
        excluded := excluded + 1;
      }
      i := i + 1;
    }
    assert rows[..i] == rows;
  }

  predicate NoneLong(memories: seq<Memory>) {
    forall m <- memories :: !IsLong(m.row)
  }

  lemma LongRowFails(rows: seq<Row>, i: nat)
    requires i < |rows| && rows[i].eligible && IsOpen(rows[i]) && IsLong(rows[i])
    ensures !NoneLong(Selected(rows))
  {
    OneMoreRow(rows, i);
    ProjectedGrows(rows, i + 1);
    assert MemoryOf(rows[i]) in Selected(rows[..i + 1]);
    assert MemoryOf(rows[i]) in Selected(rows);
  }

  lemma HeaderFits()
    ensures Header() <= MAX_SNAPSHOT_BYTES
  {
    HeaderValues(WIDEST, false, WIDEST, MAX_MEMORIES, []);
    WidestHasNineteenDigits();
  }

  // ---------- generations ----------

  /** The consent, the policy revision and the rows read in one transaction. */
  datatype Workspace = Workspace(known: bool, consent: bool, revision: nat, rows: seq<Row>)

  class SnapshotStore {
    /** `sync_state`: the last reserved generation. */
    var reserved: Option<nat>

    constructor ()
      ensures reserved == None
    {
      reserved := None;
    }

    function Previous(): nat
      reads this
    {
      if reserved.Some? then reserved.value else 0
    }

    /** `_reserve_snapshot_generation`. */
    method Reserve(requested: Option<int>, clock: nat) returns (problem: Option<Problem>, generation: nat)
      modifies this
      ensures problem.None? ==>
        old(Previous()) < generation <= WIDEST && reserved == Some(generation)
        && generation == NextGeneration(old(Previous()), requested, clock)
      ensures problem.None? && requested.Some? ==> generation == requested.value
      ensures problem.None? && requested.None? ==>
        generation >= clock && (generation == clock || generation == old(Previous()) + 1)
      ensures problem.Some? ==> reserved == old(reserved)
      ensures problem == Some(NotAdvancing) <==> requested.Some? && requested.value <= old(Previous())
      ensures problem == Some(Exhausted) <==>
        (if requested.Some? then requested.value > WIDEST && requested.value > old(Previous())
         else old(Previous()) >= WIDEST || clock > WIDEST)
      ensures problem.Some? ==> problem.value in {NotAdvancing, Exhausted}
    {
      var previous := Previous();
      generation := 0;
      if requested.None? {
        generation := if clock > previous + 1 then clock else previous + 1;
      } else {
        if requested.value <= previous {
          return Some(NotAdvancing), 0;
        }
        generation := requested.value;
      }
      if generation > WIDEST {
        return Some(Exhausted), 0;
      }
      reserved := Some(generation);
      problem := None;
    }

    /** `build_managed_snapshot`: one transaction, rolled back when it fails. */
    method Build(w: Workspace, consent: Option<bool>, requested: Option<int>, clock: nat) returns (r: Result)
      modifies this
      ensures r.Failed? ==> reserved == old(reserved)
      ensures Previous() == GenerationAfter(old(Previous()), Attempt(w, consent, requested, clock))
      ensures r.Built? ==> IsSnapshotOf(w, r.snapshot) && Uploadable(w.rows)
      ensures r.Built? ==> old(Previous()) < r.snapshot.generation <= WIDEST && reserved == Some(r.snapshot.generation)
      ensures r.Built? ==> w.known && w.consent && consent != Some(false)
      ensures r.Built? <==>
        Succeeds(old(Previous()), Attempt(w, consent, requested, clock))
      ensures r.Built? ==> forall m <- r.snapshot.memories ::
        && m.row in w.rows && m.row.eligible
        && m.row.sensitivity in {Normal, Sensitive} && m.row.inMetadata in {Blank, Normal, Sensitive}
        && (m.sensitivity == Sensitive <==> Sensitive in {m.row.sensitivity, m.row.inMetadata})
      ensures r.Failed? ==> Explains(r.problem, old(Previous()), w, consent, requested, clock)
    {
      if !w.known {
        return Failed(NoSuchWorkspace);
      }
      if !w.consent || consent == Some(false) {
        return Failed(NoConsent);
      }
      var before := reserved;
      var problem, generation := Reserve(requested, clock);
      if problem.Some? {
        return Failed(problem.value);
      }
      if |w.rows| > MAX_MEMORIES {
        reserved := before;
        return Failed(TooManyMemories);
      }
      var memories, excluded;
      problem, memories, excluded := Assemble(w.rows);
      if problem.Some? {
        reserved := before;
        return Failed(problem.value);
      }
      forall m <- memories {
        OnlyOpenRowsLeave(w.rows, m);
      }
      r := Built(Snapshot(generation, w.revision, excluded, memories));
    }
  }

  /** The problem reported is the first there is, in the order of the checks. */
  predicate Explains(problem: Problem, previous: nat, w: Workspace, consent: Option<bool>, requested: Option<int>,
                     clock: nat)
  {
    if !w.known then problem == NoSuchWorkspace
    else if !w.consent || consent == Some(false) then problem == NoConsent
    else if requested.Some? && requested.value <= previous then problem == NotAdvancing
    else if requested.Some? && requested.value > WIDEST then problem == Exhausted
    else if requested.None? && (previous >= WIDEST || clock > WIDEST) then problem == Exhausted
    else if |w.rows| > MAX_MEMORIES then problem == TooManyMemories
    else if problem == TextTooLong then !NoneLong(Selected(w.rows))
    else problem == TooManyBytes && Projected(Sizes(Selected(w.rows))) > MAX_SNAPSHOT_BYTES
  }

  predicate CanReserve(previous: nat, requested: Option<int>, clock: nat) {
    if requested.Some? then previous < requested.value <= WIDEST else previous < WIDEST && clock <= WIDEST
  }

  function NextGeneration(previous: nat, requested: Option<int>, clock: nat): int {
    if requested.Some? then requested.value
    else if clock > previous + 1 then clock else previous + 1
  }

  predicate IsSnapshotOf(w: Workspace, s: Snapshot) {
    s.revision == w.revision && s.memories == Selected(w.rows) && s.excluded == HeldBack(w.rows)
  }

  /** Every snapshot that can be built passes the size check of the request, as long as its policy
      revision stays within 63 bits. */
  lemma SnapshotsFit(w: Workspace, s: Snapshot)
    requires IsSnapshotOf(w, s) && Uploadable(w.rows) && s.generation <= WIDEST && s.revision <= WIDEST
    ensures Encoded(s) < MAX_SNAPSHOT_BYTES
  {
    ProjectionBounds(s.generation, s.revision, s.excluded, Sizes(s.memories));
  }

  // ---------- beyond 63 bits ----------

  const HELD := Row(true, Other, Blank, 0, 0, 0)

  /** What the field names, quotes and numbers of a memory take up at most. */
  const FIELD_BYTES: nat := 1000

  /** A note of ordinary text, taking `bytes` in the document, its fields included. */
  function Ordinary(bytes: nat): Row
    requires bytes >= 6
  {
    Row(true, Normal, Blank, if bytes > FIELD_BYTES then Min(bytes - FIELD_BYTES, MAX_TEXT_CHARS) else 0, 0, bytes - 6)
  }

  function Min(a: nat, b: nat): nat {
    if a < b then a else b
  }

  function Repeat(row: Row, count: nat): seq<Row> {
    seq(count, _ => row)
  }

  /** `held` rows held back, then `count` notes of one size and one of another. */
  function Filling(held: nat, count: nat, size: nat, last: nat): seq<Row>
    requires size >= 6 && last >= 6
  {
    Repeat(HELD, held) + Repeat(Ordinary(size), count) + [Ordinary(last)]
  }

  lemma {:induction false} HeldRows(held: nat)
    ensures Selected(Repeat(HELD, held)) == [] && HeldBack(Repeat(HELD, held)) == held
  {
    if held > 0 {
      assert Repeat(HELD, held)[..held - 1] == Repeat(HELD, held - 1);
      HeldRows(held - 1);
    }
  }

  lemma AppendOpen(rows: seq<Row>, row: Row)
    requires row.eligible && IsOpen(row)
    ensures Selected(rows + [row]) == Selected(rows) + [MemoryOf(row)] && HeldBack(rows + [row]) == HeldBack(rows)
  {
    assert (rows + [row])[..|rows|] == rows;
  }

  /** What the builder holds after these rows. */
  predicate Holds(rows: seq<Row>, held: nat, count: nat, projected: int) {
    && HeldBack(rows) == held && |Selected(rows)| == count && NoneLong(Selected(rows))
    && Projected(Sizes(Selected(rows))) == projected
  }

  lemma OneMoreOrdinary(rows: seq<Row>, size: nat, held: nat, count: nat, projected: int)
    requires size >= 6 && Holds(rows, held, count, projected)
    ensures Holds(rows + [Ordinary(size)], held, count + 1, projected + size + if count == 0 then 0 else 1)
  {
    AppendOpen(rows, Ordinary(size));
    OneMoreSize(Selected(rows), MemoryOf(Ordinary(size)));
  }

  lemma NoOpenRows(held: nat)
    ensures Holds(Repeat(HELD, held), held, 0, Header())
  {
    HeldRows(held);
    assert Sizes([]) == [];
  }

  function OpenBytes(header: nat, count: nat, size: nat): nat {
    if count == 0 then header else OpenBytes(header, count - 1, size) + size + if count == 1 then 0 else 1
  }

  lemma {:induction false} OpenBytesAre(header: nat, count: nat, size: nat)
    ensures OpenBytes(header, count, size) == header + count * size + if count > 0 then count - 1 else 0
  {
    if count > 0 {
      OpenBytesAre(header, count - 1, size);
    }
  }

  lemma {:induction false} OpenRows(held: nat, count: nat, size: nat)
    requires size >= 6
    ensures Holds(Repeat(HELD, held) + Repeat(Ordinary(size), count), held, count, OpenBytes(Header(), count, size))
    decreases count
  {
    if count == 0 {
      NoOpenRows(held);
      assert Repeat(HELD, held) + Repeat(Ordinary(size), count) == Repeat(HELD, held);
    } else {
      var but := Repeat(HELD, held) + Repeat(Ordinary(size), count - 1);
      OpenRows(held, count - 1, size);
      OneMoreOrdinary(but, size, held, count - 1, OpenBytes(Header(), count - 1, size));
      RepeatMore(Repeat(HELD, held), Ordinary(size), count);
    }
  }

  lemma RepeatMore(before: seq<Row>, row: Row, count: nat)
    requires count > 0
    ensures before + Repeat(row, count) == before + Repeat(row, count - 1) + [row]
  {
  }

  /** Such a list takes up exactly what its sizes say. */
  lemma FillingTakes(held: nat, count: nat, size: nat, last: nat)
    requires size >= 6 && last >= 6
    ensures |Filling(held, count, size, last)| == held + count + 1
    ensures Holds(Filling(held, count, size, last), held, count + 1, Header() + count * size + count + last)
  {
    OpenRows(held, count, size);
    OpenBytesAre(Header(), count, size);
    OneMoreOrdinary(Repeat(HELD, held) + Repeat(Ordinary(size), count), last, held, count,
                    OpenBytes(Header(), count, size));
  }

  /** A list of rows whose projection is the cap itself: 168 notes of at most 100,000 bytes where there is
      room for as many, otherwise one row with long keys. */
  lemma FullList(held: nat) returns (rows: seq<Row>)
    requires held < MAX_MEMORIES
    ensures Uploadable(rows) && HeldBack(rows) == held
    ensures Projected(Sizes(Selected(rows))) == MAX_SNAPSHOT_BYTES
    ensures held + 168 <= MAX_MEMORIES ==> forall row <- rows :: row.bytes <= 100_000
  {
    WidestHasNineteenDigits();
    HeaderValues(WIDEST, false, WIDEST, MAX_MEMORIES, []);
    assert Header() == 201;
    if held + 168 <= MAX_MEMORIES {
      rows := Filling(held, 167, 100_000, 76_848);
      FillingTakes(held, 167, 100_000, 76_848);
    } else {
      rows := Filling(held, 0, 6, MAX_SNAPSHOT_BYTES - 201);
      FillingTakes(held, 0, 6, MAX_SNAPSHOT_BYTES - 201);
    }
  }

  /** Every list of rows the builder accepts makes a document the request accepts. */
  ghost predicate AllUploadsFit(generation: nat, revision: nat, excluded: nat) {
    forall rows: seq<Row> | Uploadable(rows) && HeldBack(rows) == excluded ::
      Encoded(Snapshot(generation, revision, excluded, Selected(rows))) <= MAX_SNAPSHOT_BYTES
  }

  /** The builder's promise holds for a header exactly when its revision is below a limit that follows
      from the digits of the other two numbers; every 63-bit revision is. */
  lemma UploadsFitExactlyWhen(generation: nat, revision: nat, excluded: nat)
    requires excluded < MAX_MEMORIES
    ensures AllUploadsFit(generation, revision, excluded) <==> revision < RevisionLimit(generation, excluded)
    ensures generation <= WIDEST ==> WIDEST < RevisionLimit(generation, excluded)
  {
    SlackExactlyWhen(generation, revision, excluded);
    SlackExactlyWhen(generation, WIDEST, excluded);
    if generation <= WIDEST {
      DigitsGrow(generation, WIDEST);
      DigitsGrow(excluded, MAX_MEMORIES);
    }
    if revision < RevisionLimit(generation, excluded) {
      forall rows: seq<Row> | Uploadable(rows) && HeldBack(rows) == excluded
        ensures Encoded(Snapshot(generation, revision, excluded, Selected(rows))) <= MAX_SNAPSHOT_BYTES
      {
        ProjectionIsExact(generation, revision, excluded, Sizes(Selected(rows)));
      }
    } else {
      var rows := FullList(excluded);
      ProjectionIsExact(generation, revision, excluded, Sizes(Selected(rows)));
    }
  }

  /** A generation taken from a clock of 16 digits and a workspace of 168 notes: a revision of 29 digits
      makes the accepted snapshot larger than the cap, and no smaller one does. */
  lemma WideRevisionOverflows(generation: nat) returns (revision: nat, rows: seq<Row>)
    requires Digits(generation) == 16
    ensures Digits(revision) == 29 && Uploadable(rows) && HeldBack(rows) == 0
    ensures forall row <- rows :: row.bytes <= 100_000
    ensures Encoded(Snapshot(generation, revision, 0, Selected(rows))) > MAX_SNAPSHOT_BYTES
    ensures forall smaller: nat | smaller < revision :: AllUploadsFit(generation, smaller, 0)
  {
    revision := RevisionLimit(generation, 0);
    rows := FullList(0);
    assert revision == Wide(28);
    DigitsWithin(revision, 28);
    WideIsPositive(28);
    DigitsWithin(revision, 29);
    SlackExactlyWhen(generation, revision, 0);
    ProjectionIsExact(generation, revision, 0, Sizes(Selected(rows)));
    forall smaller: nat | smaller < revision ensures AllUploadsFit(generation, smaller, 0) {
      UploadsFitExactlyWhen(generation, smaller, 0);
    }
  }

  /** A memory is in the snapshot exactly when it was made from a row the prompt may see whose column says normal
      or sensitive and whose metadata says one of these or nothing; it leaves as sensitive when either says so. */
  lemma {:induction false} OnlyOpenRowsLeave(rows: seq<Row>, m: Memory)
    ensures m in Selected(rows) <==>
              && m.row in rows && m.row.eligible && m.row.sensitivity in {Normal, Sensitive}
              && m.row.inMetadata in {Blank, Normal, Sensitive}
              && m.sensitivity == (if Sensitive in {m.row.sensitivity, m.row.inMetadata} then Sensitive else Normal)
    decreases |rows|
  {
    if rows != [] {
      OnlyOpenRowsLeave(rows[..|rows| - 1], m);
      assert rows == rows[..|rows| - 1] + [rows[|rows| - 1]];
    }
  }

  /** The rows leave in their order: each is preceded by the memories of the rows before it. */
  lemma {:induction false} RowsLeaveInOrder(rows: seq<Row>, i: nat)
    requires i < |rows| && rows[i].eligible
    requires rows[i].sensitivity in {Normal, Sensitive} && rows[i].inMetadata in {Blank, Normal, Sensitive}
    ensures Selected(rows[..i]) < Selected(rows) && Selected(rows)[|Selected(rows[..i])|].row == rows[i]
    decreases |rows|
  {
    var but := rows[..|rows| - 1];
    if i < |but| {
      assert but[..i] == rows[..i];
      RowsLeaveInOrder(but, i);
    } else {
      assert rows[..i] == but;
    }
  }

  /** The count that goes with the snapshot is that of the other rows the prompt may see. */
  lemma {:induction false} HeldBackRowsAreCounted(rows: seq<Row>)
    ensures HeldBack(rows) == |set i | 0 <= i < |rows| && IsHeldBack(rows, i)|
    decreases |rows|
  {
    var held := set i | 0 <= i < |rows| && IsHeldBack(rows, i);
    if rows == [] {
      assert held == {};
    } else {
      var last, but := |rows| - 1, rows[..|rows| - 1];
      HeldBackRowsAreCounted(but);
      var before := set i | 0 <= i < last && IsHeldBack(but, i);
      forall i | 0 <= i < last ensures IsHeldBack(rows, i) <==> IsHeldBack(but, i) {
        assert rows[i] == but[i];
      }
      assert held == before + if IsHeldBack(rows, last) then {last} else {};
    }
  }

  predicate IsHeldBack(rows: seq<Row>, i: nat)
    requires i < |rows|
  {
    rows[i].eligible && (rows[i].sensitivity !in {Normal, Sensitive} || rows[i].inMetadata == Other)
  }

  /** Which rows can be uploaded: no more than the limit, none that leaves with too long a text, and the document
      they make within the bytes left by the widest header. */
  lemma UploadableExactlyWhen(rows: seq<Row>)
    ensures Uploadable(rows) <==>
              && |rows| <= 100_000
              && (forall m <- Selected(rows) :: m.row.content <= 100_000 && m.row.title <= 500)
              && 201 + Sum(Sizes(Selected(rows))) + Commas(|Selected(rows)|) <= 16 * 1024 * 1024
    ensures forall i :: 0 <= i < |Selected(rows)| ==>
              Sizes(Selected(rows))[i] == Selected(rows)[i].row.bytes + if Selected(rows)[i].sensitivity == Sensitive
                                                                        then 9 else 6
  {
    ProjectedIsBracketed(Sizes(Selected(rows)));
    HeaderValues(WIDEST, false, WIDEST, MAX_MEMORIES, []);
    WidestHasNineteenDigits();
  }

  function Commas(count: nat): nat {
    if count == 0 then 0 else count - 1
  }

  /** Every eligible row is in the snapshot or counted as held back. */
  lemma {:induction false} RowsAreAccounted(rows: seq<Row>)
    requires forall row <- rows :: row.eligible
    ensures |Selected(rows)| + HeldBack(rows) == |rows|
    decreases |rows|
  {
    if rows != [] {
      RowsAreAccounted(rows[..|rows| - 1]);
      assert rows[|rows| - 1] in rows;
    }
  }

  /** One attempt to build; a whole history of them is a sequence. */
  datatype Attempt = Attempt(w: Workspace, consent: Option<bool>, requested: Option<int>, clock: nat)

  predicate Succeeds(previous: nat, a: Attempt) {
    && a.w.known && a.w.consent && a.consent != Some(false) && Uploadable(a.w.rows)
    && CanReserve(previous, a.requested, a.clock)
  }

  function GenerationAfter(previous: nat, a: Attempt): nat {
    if !Succeeds(previous, a) then previous
    else NextGeneration(previous, a.requested, a.clock)
  }

  function HighWater(attempts: seq<Attempt>): nat
    decreases |attempts|
  {
    if attempts == [] then 0 else GenerationAfter(HighWater(attempts[..|attempts| - 1]), attempts[|attempts| - 1])
  }

  /** The generations of the snapshots built along any history increase strictly. */
  lemma {:induction false} GenerationsIncrease(attempts: seq<Attempt>, i: nat, j: nat)
    requires i < j < |attempts|
    requires Succeeds(HighWater(attempts[..j]), attempts[j])
    ensures HighWater(attempts[..i + 1]) < HighWater(attempts[..j + 1]) <= WIDEST
  {
    assert attempts[..j + 1][..j] == attempts[..j];
    HighWaterGrows(attempts, i + 1, j);
  }

  lemma {:induction false} HighWaterGrows(attempts: seq<Attempt>, i: nat, j: nat)
    requires i <= j <= |attempts|
    ensures HighWater(attempts[..i]) <= HighWater(attempts[..j])
    decreases j
  {
    if i < j {
      HighWaterGrows(attempts, i, j - 1);
      assert attempts[..j][..j - 1] == attempts[..j - 1];
    }
  }
}
