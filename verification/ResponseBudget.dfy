/**
 Transport-level reduction of a tool response (`_apply_response_budget` of `mcp_server.py`): the
 payload is cut in place until its measured size fits the caller's token budget.

 The serializer and the token counter are parameters (`Meter`); nothing is assumed about them
 except where a lemma says so.
 */
module ResponseBudget {
  import opened Prelude

  // ---------- the payload ----------

  /** The accounting block.  `ours` says that its declared tokenizer is the one measured with. */
  datatype Usage = Usage(budget: Option<nat>, actual: nat, ours: bool, sourceTokens: nat,
                         packed: Option<nat>, omitted: Option<int>,
                         contextTokens: Option<nat>, saved: Option<nat>, ratio: Option<real>,
                         emittedAlias: Option<nat>, savedAlias: Option<nat>, ratioAlias: Option<real>,
                         other: nat)

  const NO_USAGE := Usage(None, 0, false, 0, None, None, None, None, None, None, None, None, 0)

  /** A memory, citation or source record: its citation number, its body, its exact-value binding to
      the context, and its identity fields. */
  datatype Record = Record(n: Option<int>, content: Option<string>, binding: Option<nat>, identity: nat)

  datatype Payload = Payload(usage: Option<Usage>, context: Option<string>, answer: Option<string>,
                             grounded: Option<bool>, abstained: Option<bool>,
                             memories: Option<seq<Record>>, citations: Option<seq<Record>>,
                             sources: Option<seq<Record>>, packedSources: Option<seq<Record>>,
                             other: Option<nat>)

  const EMPTY := Payload(None, None, None, None, None, None, None, None, None, None)

  datatype ListKey = Memories | Citations | Sources | PackedSources

  function ListOf(p: Payload, key: ListKey): Option<seq<Record>> {
    match key
    case Memories => p.memories
    case Citations => p.citations
    case Sources => p.sources
    case PackedSources => p.packedSources
  }

  function Records(p: Payload, key: ListKey): seq<Record> {
    if ListOf(p, key).Some? then ListOf(p, key).value else []
  }

  function WithList(p: Payload, key: ListKey, records: seq<Record>): Payload {
    match key
    case Memories => p.(memories := Some(records))
    case Citations => p.(citations := Some(records))
    case Sources => p.(sources := Some(records))
    case PackedSources => p.(packedSources := Some(records))
  }

  function TextOf(t: Option<string>): string {
    if t.Some? then t.value else ""
  }

  /** A text the reducer can shorten. */
  datatype Slot = Body(key: ListKey, index: nat) | Answer

  predicate HasSlot(p: Payload, slot: Slot) {
    slot.Body? ==> slot.index < |Records(p, slot.key)|
  }

  function SlotText(p: Payload, slot: Slot): string
    requires HasSlot(p, slot)
  {
    match slot
    case Body(key, index) => TextOf(Records(p, key)[index].content)
    case Answer => TextOf(p.answer)
  }

  function WithText(p: Payload, slot: Slot, text: string): Payload
    requires HasSlot(p, slot)
  {
    match slot
    case Body(key, index) =>
      WithList(p, key, Records(p, key)[index := Records(p, key)[index].(content := Some(text))])
    case Answer => p.(answer := Some(text))
  }

  // ---------- measuring ----------

  /** `count` is the token count of the serialized payload, `text` that of a bare text. */
  datatype Meter = Meter(count: Payload -> nat, text: string -> nat)

  /** What stays fixed during one reduction. */
  datatype Setting = Setting(meter: Meter, packed: nat, candidates: int)

  function Update<T>(field: Option<T>, value: T): Option<T> {
    if field.Some? then Some(value) else None
  }

  /** The evidence accounting after the context has become `emitted` tokens long. */
  function Accounted(u: Usage, packed: nat, candidates: int, emitted: nat, saved: nat, ratio: real): Usage {
    u.(contextTokens := Some(emitted), saved := Some(saved), ratio := Some(ratio),
       packed := Some(if emitted > 0 then packed else 0),
       omitted := Some(candidates - if emitted > 0 then packed else 0),
       emittedAlias := Update(u.emittedAlias, emitted),
       savedAlias := Update(u.savedAlias, saved),
       ratioAlias := Update(u.ratioAlias, ratio))
  }

  function Truthful(s: Setting, p: Payload, u: Usage): Usage {
    if p.context.Some? && u.ours then
      var emitted := s.meter.text(p.context.value);
      var saved := if u.sourceTokens > emitted then u.sourceTokens - emitted else 0;
      Accounted(u, s.packed, s.candidates, emitted, saved,
                if u.sourceTokens > 0 then saved as real / u.sourceTokens as real else 0.0)
    else u
  }

  /** The payload as `measure` leaves it. */
  function Refresh(s: Setting, p: Payload): Payload {
    if p.usage.None? then p
    else
      var blank := p.(usage := Some(Truthful(s, p, p.usage.value).(actual := 0)));
      blank.(usage := Some(blank.usage.value.(actual := s.meter.count(blank))))
  }

  function Cost(s: Setting, p: Payload): nat {
    s.meter.count(Refresh(s, p))
  }

  lemma RefreshTwice(s: Setting, p: Payload)
    ensures Refresh(s, Refresh(s, p)) == Refresh(s, p)
    ensures Cost(s, Refresh(s, p)) == Cost(s, p)
  {
    if p.usage.Some? {
      var blank := p.(usage := Some(Truthful(s, p, p.usage.value).(actual := 0)));
      var q := Refresh(s, p);
      assert q.(usage := Some(Truthful(s, q, q.usage.value).(actual := 0))) == blank;
    }
  }

  /** The parts of a payload that measuring reads and never writes. */
  lemma RefreshWrites(s: Setting, p: Payload)
    ensures Refresh(s, p).(usage := p.usage) == p
    ensures forall slot :: HasSlot(Refresh(s, p), slot) == HasSlot(p, slot)
  {
  }

  /** Measuring before a change of the rest leaves no trace after the next measurement. */
  lemma RefreshBeforeChange(s: Setting, p: Payload, q: Payload)
    requires q.context == p.context && q.usage == p.usage
    ensures Refresh(s, q.(usage := Refresh(s, p).usage)) == Refresh(s, q)
  {
    if p.usage.Some? {
      var r := q.(usage := Refresh(s, p).usage);
      assert Truthful(s, r, r.usage.value).(actual := 0) == Truthful(s, q, q.usage.value).(actual := 0);
      assert r.(usage := q.usage) == q;
    }
  }

  lemma RefreshBeforeText(s: Setting, p: Payload, slot: Slot, text: string)
    requires HasSlot(p, slot)
    ensures HasSlot(Refresh(s, p), slot) && SlotText(Refresh(s, p), slot) == SlotText(p, slot)
    ensures Refresh(s, WithText(Refresh(s, p), slot, text)) == Refresh(s, WithText(p, slot, text))
  {
    RefreshWrites(s, p);
    RefreshBeforeChange(s, p, WithText(p, slot, text));
    assert WithText(Refresh(s, p), slot, text) == WithText(p, slot, text).(usage := Refresh(s, p).usage);
  }

  // ---------- citation markers ----------

  predicate IsDigit(c: char) {
    '0' <= c <= '9'
  }

  /** The first position from `i` on that holds no digit. */
  function DigitsEnd(t: string, i: nat): (e: nat)
    requires i <= |t|
    ensures i <= e <= |t| && forall k :: i <= k < e ==> IsDigit(t[k])
    ensures e < |t| ==> !IsDigit(t[e])
    decreases |t| - i
  {
    if i < |t| && IsDigit(t[i]) then DigitsEnd(t, i + 1) else i
  }

  function Number(digits: string): (n: nat)
    requires forall k :: 0 <= k < |digits| ==> IsDigit(digits[k])
  {
    if digits == "" then 0
    else
      var last := digits[|digits| - 1];
      assert IsDigit(last);
      10 * Number(digits[..|digits| - 1]) + (last as int - '0' as int)
  }

  /** An occurrence of `[digits]`: where it starts, where it ends, the number it cites. */
  datatype Mark = Mark(start: nat, end: nat, number: nat)

  predicate IsMark(t: string, m: Mark) {
    && m.start + 2 < m.end <= |t| && t[m.start] == '[' && t[m.end - 1] == ']'
    && (forall k :: m.start < k < m.end - 1 ==> IsDigit(t[k]))
    && m.number == Number(t[m.start + 1..m.end - 1])
  }

  /** The occurrences from position `i` on, in order and not overlapping. */
  function Marks(t: string, i: nat): (ms: seq<Mark>)
    requires i <= |t|
    ensures forall m <- ms :: IsMark(t, m) && i <= m.start
    ensures forall j, k :: 0 <= j < k < |ms| ==> ms[j].end <= ms[k].start
    decreases |t| - i
  {
    if i == |t| then []
    else if t[i] == '[' then
      var e := DigitsEnd(t, i + 1);
      if e > i + 1 && e < |t| && t[e] == ']' then
        var m, rest := Mark(i, e + 1, Number(t[i + 1..e])), Marks(t, e + 1);
        assert IsMark(t, m);
        assert forall k | 0 <= k < |rest| :: rest[k] in rest && m.end <= rest[k].start;
        [m] + rest
      else Marks(t, i + 1)
    else Marks(t, i + 1)
  }

  function CitedIn(t: string): set<int> {
    set m | m in Marks(t, 0) :: m.number
  }

  /** Every marker is found: two of them never overlap. */
  lemma {:induction false} AllMarks(t: string, i: nat, m: Mark)
    requires i <= m.start && IsMark(t, m)
    ensures m in Marks(t, i)
    decreases |t| - i
  {
    if m.start == i {
      MarkHere(t, m);
    } else {
      var j := MarksGoOn(t, i, m);
      AllMarks(t, j, m);
    }
  }

  lemma MarkHere(t: string, m: Mark)
    requires IsMark(t, m)
    ensures m in Marks(t, m.start)
  {
    DigitsEndAt(t, m.start + 1, m.end - 1);
    assert Marks(t, m.start)[0] == m;
  }

  lemma DigitsEndAt(t: string, i: nat, e: nat)
    requires i <= e < |t| && !IsDigit(t[e]) && forall k :: i <= k < e ==> IsDigit(t[k])
    ensures DigitsEnd(t, i) == e
  {
  }

  /** The search goes on no further than the next marker. */
  lemma MarksGoOn(t: string, i: nat, m: Mark) returns (j: nat)
    requires i < m.start < |t| && t[m.start] == '['
    ensures i < j <= m.start && forall n <- Marks(t, j) :: n in Marks(t, i)
  {
    j := if t[i] == '[' && MarkEnds(t, i) then DigitsEnd(t, i + 1) + 1 else i + 1;
    if t[i] == '[' && MarkEnds(t, i) {
      assert t[m.start] == '[' && !IsDigit('[') && t[j - 1] != '[';
      assert Marks(t, i)[1..] == Marks(t, j);
    }
  }

  predicate MarkEnds(t: string, i: nat)
    requires i < |t|
  {
    DigitsEnd(t, i + 1) > i + 1 && DigitsEnd(t, i + 1) < |t| && t[DigitsEnd(t, i + 1)] == ']'
  }

  /** The numbers a text cites are those that stand in it between brackets. */
  lemma CitedExactlyWhen(t: string, n: nat)
    ensures n in CitedIn(t) <==> exists m: Mark :: IsMark(t, m) && m.number == n
  {
    forall m: Mark | IsMark(t, m) {
      AllMarks(t, 0, m);
    }
  }

  ghost predicate EndsWithMark(t: string) {
    exists m: Mark :: IsMark(t, m) && m.end == |t|
  }

  /** `re.search` for a marker at the very end. */
  method FindMarkAtEnd(t: string) returns (found: bool)
    ensures found <==> EndsWithMark(t)
  {
    if t == "" || t[|t| - 1] != ']' {
      return false;
    }
    var i := |t| - 1;
    while i > 0 && IsDigit(t[i - 1])
      invariant 0 <= i <= |t| - 1
      invariant forall k :: i <= k < |t| - 1 ==> IsDigit(t[k])
    {
      i := i - 1;
    }
    found := 0 < i < |t| - 1 && t[i - 1] == '[';
    if found {
      assert IsMark(t, Mark(i - 1, |t|, Number(t[i..|t| - 1])));
    } else {
      forall m: Mark | IsMark(t, m) ensures m.end != |t| {
        assert m.end == |t| ==> m.start == i - 1;
      }
    }
  }

  /** Cutting a text right behind a marker keeps the marker. */
  lemma CutBehindMark(t: string, m: Mark)
    requires IsMark(t, m)
    ensures EndsWithMark(t[..m.end])
    ensures StripRight(t[..m.end]) == t[..m.end]
  {
    var cut := t[..m.end];
    assert cut[m.start + 1..m.end - 1] == t[m.start + 1..m.end - 1];
    assert IsMark(cut, m);
  }

  // ---------- fitting one text ----------

  /** The payload with the slot cut to `count` characters, trailing whitespace dropped. */
  function Cut(p: Payload, slot: Slot, original: string, count: nat): Payload
    requires HasSlot(p, slot) && count <= |original|
  {
    WithText(p, slot, StripRight(original[..count]))
  }

  predicate Fits(s: Setting, budget: nat, p: Payload) {
    Cost(s, p) <= budget
  }

  /** Keeping less of the text never costs more. */
  predicate CutsAreMonotone(s: Setting, budget: nat, p: Payload, slot: Slot, original: string)
    requires HasSlot(p, slot)
  {
    forall a: nat, b: nat ::
      (a <= b <= |original| && Fits(s, budget, Cut(p, slot, original, b))
       ==> Fits(s, budget, Cut(p, slot, original, a)))
  }

  /** What a linear scan keeps: the longest fitting prefix. */
  predicate IsLongestFit(s: Setting, budget: nat, p: Payload, slot: Slot, original: string, count: nat)
    requires HasSlot(p, slot)
  {
    && count <= |original| && Fits(s, budget, Cut(p, slot, original, count))
    && forall more: nat :: count < more <= |original| ==> !Fits(s, budget, Cut(p, slot, original, more))
  }

  function Middle(low: nat, high: nat): (m: nat)
    requires low <= high
    ensures low <= m <= high
  {
    (low + high) / 2
  }

  lemma EmptyCut(p: Payload, slot: Slot, original: string)
    requires HasSlot(p, slot)
    ensures Cut(p, slot, original, 0) == WithText(p, slot, "") && StripRight(original[..0]) == ""
  {
    assert original[..0] == "";
  }

  /** Where the binary search stops: this much fits, one character more does not. */
  predicate IsEdge(s: Setting, budget: nat, p: Payload, slot: Slot, original: string, count: nat)
    requires HasSlot(p, slot)
  {
    && count <= |original| && Fits(s, budget, Cut(p, slot, original, count))
    && (count < |original| ==> !Fits(s, budget, Cut(p, slot, original, count + 1)))
  }

  /** Under a monotone measure the binary search and the linear scan keep the same text. */
  lemma EdgeIsLongestFit(s: Setting, budget: nat, p: Payload, slot: Slot, original: string, count: nat)
    requires HasSlot(p, slot) && CutsAreMonotone(s, budget, p, slot, original)
    ensures IsEdge(s, budget, p, slot, original, count) <==> IsLongestFit(s, budget, p, slot, original, count)
  {
    if IsEdge(s, budget, p, slot, original, count) {
      forall more: nat | count < more <= |original| ensures !Fits(s, budget, Cut(p, slot, original, more)) {
      }
    }
  }

  class Reducer {
    var payload: Payload
    var tokens: nat
    const s: Setting
    const budget: nat

    constructor (payload: Payload, s: Setting, budget: nat)
      ensures this.payload == payload && this.s == s && this.budget == budget && tokens == 0
    {
      this.payload, this.s, this.budget, tokens := payload, s, budget, 0;
    }

    /** The tracked count is the measure of the current payload, which carries its accounting. */
    ghost predicate Tracked()
      reads this
    {
      payload == Refresh(s, payload) && tokens == Cost(s, payload)
    }

    /** `measure`: refreshes the accounting in place and counts. */
    method Measure() returns (count: nat)
      modifies this`payload
      ensures payload == Refresh(s, old(payload)) == Refresh(s, payload)
      ensures count == Cost(s, old(payload)) == Cost(s, payload)
    {
      if payload.usage.Some? {
        var usage := Truthful(s, payload, payload.usage.value).(actual := 0);
        payload := payload.(usage := Some(usage));
        payload := payload.(usage := Some(usage.(actual := s.meter.count(payload))));
      }
      count := s.meter.count(payload);
      RefreshTwice(s, old(payload));
    }

    /** Tries one text in the slot. */
    method Try(slot: Slot, text: string, ghost base: Payload, ghost was: string) returns (count: nat)
      requires HasSlot(base, slot)
      requires payload == Refresh(s, WithText(base, slot, was))
      modifies this`payload
      ensures payload == Refresh(s, WithText(base, slot, text)) == Refresh(s, payload)
      ensures count == Cost(s, WithText(base, slot, text)) == Cost(s, payload)
    {
      TextOverText(base, slot, was, text);
      RefreshBeforeText(s, WithText(base, slot, was), slot, text);
      payload := WithText(payload, slot, text);
      count := Measure();
    }

    /** `fit_text` without citations: the text that fits, found by bisection. */
    method FitText(slot: Slot) returns (ghost kept: nat)
      requires Tracked() && HasSlot(payload, slot)
      modifies this
      ensures Tracked()
      ensures
        var p, original := old(payload), SlotText(old(payload), slot);
        if original == "" || old(tokens) <= budget then payload == p
        else if !Fits(s, budget, WithText(p, slot, "")) then payload == Refresh(s, WithText(p, slot, ""))
        else IsEdge(s, budget, p, slot, original, kept) && payload == Refresh(s, Cut(p, slot, original, kept))
    {
      var original := SlotText(payload, slot);
      kept := 0;
      if original == "" || tokens <= budget {
        return;
      }
      ghost var p := payload;
      TextAgain(p, slot);
      tokens := Try(slot, "", p, original);
      if tokens > budget {
        return;
      }
      var best;
      ghost var now;
      best, kept, now := Bisect(slot, original, p);
      tokens := Try(slot, best, p, now);
    }

    /** The search itself; it leaves the last text it tried in the slot. */
    method Bisect(slot: Slot, original: string, ghost p: Payload)
      returns (best: string, ghost kept: nat, ghost now: string)
      requires HasSlot(p, slot) && payload == Refresh(s, WithText(p, slot, ""))
      requires Fits(s, budget, WithText(p, slot, ""))
      modifies this`payload
      ensures IsEdge(s, budget, p, slot, original, kept) && best == StripRight(original[..kept])
      ensures payload == Refresh(s, WithText(p, slot, now))
    {
      var low, high := 1, |original|;
      ghost var failed := high + 1;
      best, kept, now := "", 0, "";
      EmptyCut(p, slot, original);
      while low <= high
        invariant 1 <= low <= high + 1 <= |original| + 1
        invariant payload == Refresh(s, WithText(p, slot, now))
        invariant kept == low - 1 && best == StripRight(original[..kept])
        invariant CutFits(p, slot, original, kept)
        invariant failed == high + 1 && (failed <= |original| ==> !CutFits(p, slot, original, failed))
      {
        var middle := Middle(low, high);
        var candidate, fits := TryCut(slot, original, middle, p, now);
        now := candidate;
        if fits {
          best, low, kept := candidate, middle + 1, middle;
        } else {
          high, failed := middle - 1, middle;
        }
      }
    }

    predicate CutFits(p: Payload, slot: Slot, original: string, count: nat)
      requires HasSlot(p, slot) && count <= |original|
      reads this
    {
      Fits(s, budget, Cut(p, slot, original, count))
    }

    method TryCut(slot: Slot, original: string, middle: nat, ghost p: Payload, ghost was: string)
      returns (candidate: string, fits: bool)
      requires HasSlot(p, slot) && payload == Refresh(s, WithText(p, slot, was)) && middle <= |original|
      modifies this`payload
      ensures candidate == StripRight(original[..middle]) && payload == Refresh(s, WithText(p, slot, candidate))
      ensures fits <==> CutFits(p, slot, original, middle)
    {
      candidate := StripRight(original[..middle]);
      var count := Try(slot, candidate, p, was);
      fits := count <= budget;
    }

    /** `fit_text` for a grounded answer: cut behind the last cited marker that fits, or abstain. */
    method FitAnswer()
      requires Tracked()
      modifies this
      ensures Tracked()
      ensures
        var p, original := old(payload), TextOf(old(payload).answer);
        if original == "" || old(tokens) <= budget then payload == p
        else AnswerFitted(s, budget, p, payload)
    {
      var original := TextOf(payload.answer);
      if original == "" || tokens <= budget {
        return;
      }
      ghost var p := payload;
      TextAgain(p, Answer);
      tokens := Try(Answer, "", p, original);
      var cited := NumbersOf(Records(payload, Citations));
      RefreshWrites(s, WithText(p, Answer, ""));
      assert cited == NumbersOf(Records(p, Citations));
      var found, i;
      ghost var now;
      found, i, now := TryMarks(original, cited, p);
      if found {
        tokens := Try(Answer, original[..Marks(original, 0)[i].end], p, now);
      } else {
        tokens := Try(Answer, "", p, now);
        AbstainAfterCut(s, p, "");
        payload := Abstain(payload);
        tokens := Measure();
      }
    }

    /** Tries the cuts behind cited markers, longest first; leaves the last one tried in place. */
    method TryMarks(original: string, cited: set<int>, ghost p: Payload)
      returns (found: bool, i: nat, ghost now: string)
      requires original == TextOf(p.answer) && payload == Refresh(s, WithText(p, Answer, ""))
      requires cited == NumbersOf(Records(p, Citations))
      modifies this`payload
      ensures payload == Refresh(s, WithText(p, Answer, now))
      ensures found ==> i < |Marks(original, 0)| && IsCitedFit(s, budget, p, Marks(original, 0)[i])
      ensures forall j ::
                ((if found then i + 1 else 0) <= j < |Marks(original, 0)|
                 ==> !IsCitedFit(s, budget, p, Marks(original, 0)[j]))
    {
      found, i, now := TryEach(original, Marks(original, 0), cited, p);
    }

    method TryEach(original: string, marks: seq<Mark>, cited: set<int>, ghost p: Payload)
      returns (found: bool, i: nat, ghost now: string)
      requires original == TextOf(p.answer) && payload == Refresh(s, WithText(p, Answer, ""))
      requires cited == NumbersOf(Records(p, Citations)) && forall m <- marks :: IsMark(original, m)
      modifies this`payload
      ensures payload == Refresh(s, WithText(p, Answer, now))
      ensures found ==> i < |marks| && IsCitedFit(s, budget, p, marks[i])
      ensures forall j :: ((if found then i + 1 else 0) <= j < |marks| ==> !IsCitedFit(s, budget, p, marks[j]))
    {
      i, now, found := |marks|, "", false;
      while i > 0 && !found
        invariant 0 <= i <= |marks|
        invariant payload == Refresh(s, WithText(p, Answer, now))
        invariant found ==> i < |marks| && IsCitedFit(s, budget, p, marks[i])
        invariant forall j :: (if found then i + 1 else i) <= j < |marks| ==> !IsCitedFit(s, budget, p, marks[j])
      {
        i := i - 1;
        found, now := TryMark(original, marks[i], cited, p, now);
      }
    }

    method TryMark(original: string, m: Mark, cited: set<int>, ghost p: Payload, ghost was: string)
      returns (fits: bool, ghost now: string)
      requires original == TextOf(p.answer) && payload == Refresh(s, WithText(p, Answer, was))
      requires cited == NumbersOf(Records(p, Citations)) && IsMark(original, m)
      modifies this`payload
      ensures payload == Refresh(s, WithText(p, Answer, now))
      ensures fits <==> IsCitedFit(s, budget, p, m)
    {
      fits, now := false, was;
      if m.number in cited {
        CutBehindMark(original, m);
        var candidate := StripRight(original[..m.end]);
        var count := Try(Answer, candidate, p, now);
        now := candidate;
        fits := count <= budget;
      }
    }

    /** A grounded answer that fits must end with a citation marker. */
    method EndWithCitation()
      requires Tracked()
      modifies this
      ensures Tracked()
      ensures
        var p := old(payload);
        if p.grounded == Some(true) && old(tokens) <= budget then AnswerEnded(s, p, payload) else payload == p
    {
      if payload.grounded != Some(true) || tokens > budget {
        return;
      }
      ghost var p := payload;
      var answer := TextOf(payload.answer);
      var ends := FindMarkAtEnd(StripRight(answer));
      if answer == "" || ends {
        return;
      }
      var marks := Marks(answer, 0);
      if marks != [] {
        var last := marks[|marks| - 1];
        CutBehindMark(answer, last);
        payload := WithText(payload, Answer, StripRight(answer[..last.end]));
      } else {
        payload := Abstain(payload);
      }
      tokens := Measure();
    }

    /** Fits the bodies of a list from the last record on. */
    method FitBodies(key: ListKey)
      requires Tracked()
      modifies this
      ensures Tracked() && Shrunk(old(payload), payload)
      ensures BodiesFitted(s, budget, old(payload), key, payload)
    {
      ghost var p := payload;
      var i := |Records(payload, key)|;
      ShrunkItself(p);
      NothingCut(s, budget, p, key);
      while i > 0 && tokens > budget
        invariant Tracked() && Shrunk(p, payload)
        invariant 0 <= i <= |Records(payload, key)| == |Records(p, key)|
        invariant tokens > budget ==> payload == Hollow(s, p, key, i) && NoneFits(s, budget, p, key, i)
        invariant tokens <= budget ==> BodiesFitted(s, budget, p, key, payload)
      {
        i := i - 1;
        ghost var before := payload;
        HollowStep(s, p, key, i);
        var kept := FitText(Body(key, i));
        FittingShrinks(s, budget, before, Body(key, i), payload, kept);
        ShrunkTwice(p, before, payload);
        RefreshTwice(s, WithText(before, Body(key, i), ""));
        if tokens <= budget {
          assert BodiesStopAt(s, budget, p, key, payload, i, kept);
        }
      }
      if tokens > budget {
        assert BodiesStopAt(s, budget, p, key, payload, 0, 0);
      }
    }

    /** The answer is fitted; a grounded one that still does not fit is gone. */
    method ReduceAnswer()
      requires Tracked()
      modifies this
      ensures Tracked() && Shrunk(old(payload), payload)
      ensures AnswerReduced(s, budget, old(payload), payload)
      ensures tokens > budget && payload.grounded == Some(true) ==> TextOf(payload.answer) == ""
    {
      ghost var p := payload;
      ShrunkItself(p);
      if payload.grounded == Some(true) {
        FitAnswer();
        if payload != p {
          AnswerShrinks(s, budget, p, payload);
        }
      } else {
        var kept := FitText(Answer);
        FittingShrinks(s, budget, p, Answer, payload, kept);
        assert AnswerCutAt(s, budget, p, payload, kept);
      }
    }

    method EndAnswer()
      requires Tracked()
      requires tokens > budget && payload.grounded == Some(true) ==> TextOf(payload.answer) == ""
      modifies this
      ensures Tracked() && Shrunk(old(payload), payload) && EndsInCitation(payload)
      ensures CitationEnded(s, budget, old(payload), payload)
    {
      ghost var p := payload;
      ShrunkItself(p);
      EndWithCitation();
      if payload != p {
        AnswerShrinks(s, budget, p, payload);
        EndedInCitation(s, p, payload);
      }
    }

    /** The context goes as a whole, and with it the bindings and the evidence it accounts for. */
    method OmitContext()
      requires Tracked() && payload.usage.Some?
      modifies this
      ensures Tracked() && payload == AfterOmission(s, budget, old(payload))
    {
      if tokens <= budget || TextOf(payload.context) == "" {
        return;
      }
      payload := payload.(context := Some(""));
      DropBindings();
      if !payload.usage.value.ours {
        payload := payload.(usage := Some(NoEvidence(s, payload.usage.value)));
      }
      tokens := Measure();
    }

    method DropBindings()
      modifies this`payload
      ensures payload == Detached(old(payload))
    {
      if TextOf(payload.context) != "" {
        return;
      }
      if payload.memories.Some? {
        var records := Unbind(payload.memories.value);
        payload := payload.(memories := Some(records));
      }
      if payload.sources.Some? {
        var records := Unbind(payload.sources.value);
        payload := payload.(sources := Some(records));
      }
      if payload.packedSources.Some? {
        var records := Unbind(payload.packedSources.value);
        payload := payload.(packedSources := Some(records));
      }
    }

    method Unbind(records: seq<Record>) returns (bare: seq<Record>)
      ensures bare == Bare(records)
    {
      bare := records;
      for i := 0 to |records|
        invariant |bare| == |records|
        invariant forall j ::
                    (0 <= j < |records| ==> bare[j] == if j < i then records[j].(binding := None) else records[j])
      {
        bare := bare[i := bare[i].(binding := None)];
      }
    }

    /** `remove_trailing_record`: the last record, or, while a grounded answer stands, the last one
        the answer does not cite. */
    method RemoveTrailing(key: ListKey) returns (removed: bool)
      requires Tracked() && Records(payload, key) != []
      modifies this`payload
      ensures removed ==> exists i ::
        IsLastSpare(Records(old(payload), key), Guarded(old(payload), key), i)
        && payload == WithoutRecord(old(payload), key, i)
      ensures !removed ==>
        payload == old(payload) && forall r <- Records(payload, key) :: Cites(Guarded(payload, key), r)
    {
      var records := Records(payload, key);
      if payload.grounded != Some(true) || key == Memories {
        assert IsLastSpare(records, Guarded(payload, key), |records| - 1);
        payload := WithoutRecord(payload, key, |records| - 1);
        return true;
      }
      var cited := CitedIn(TextOf(payload.answer));
      var i := |records|;
      while i > 0
        invariant 0 <= i <= |records|
        invariant payload == old(payload)
        invariant forall j :: i <= j < |records| ==> Cites(cited, records[j])
      {
        i := i - 1;
        if records[i].n.None? || records[i].n.value !in cited {
          assert IsLastSpare(records, Guarded(payload, key), i);
          payload := WithoutRecord(payload, key, i);
          return true;
        }
      }
      removed := false;
    }

    /** Removes records of a list while the payload is over budget. */
    method RemoveRecords(key: ListKey)
      requires Tracked()
      modifies this
      ensures Tracked() && RecordsRemoved(s, budget, old(payload), key, payload)
    {
      ghost var p := payload;
      ghost var k: nat := |Records(payload, key)|;
      while tokens > budget && Records(payload, key) != []
        invariant Tracked() && k <= |Records(p, key)| && payload == Left(s, p, key, k)
        invariant StillOver(s, budget, p, key, k)
        decreases k
      {
        ghost var before := payload;
        LeftRecords(s, p, key, k);
        var removed := RemoveTrailing(key);
        if !removed {
          NothingSpare(s, p, key, k);
          OverAllTheWay(s, budget, p, key, 0, k);
          assert RemovalStopsAt(s, budget, p, key, payload, 0);
          return;
        }
        ghost var i: nat :| IsLastSpare(Records(before, key), Guarded(before, key), i)
                            && payload == WithoutRecord(before, key, i);
        RemovalStep(s, p, before, key, k, i);
        OverAllTheWay(s, budget, p, key, i + 1, k);
        tokens := Measure();
        k := i;
      }
      if tokens > budget {
        NothingLeft(s, p, key, k);
        OverAllTheWay(s, budget, p, key, 0, k);
        assert RemovalStopsAt(s, budget, p, key, payload, 0);
      } else {
        assert RemovalStopsAt(s, budget, p, key, payload, k);
      }
    }

    method Reduce()
      requires Tracked() && payload.usage.Some? && tokens > budget
      modifies this
      ensures Reduced(s, budget, old(payload), payload) && Stepwise(s, budget, old(payload), payload)
    {
      ghost var base := payload;
      ghost var g := ReduceParts();
      if tokens > budget {
        payload := EMPTY.(usage := Some(NO_USAGE.(budget := Some(budget))));
        tokens := Measure();
        if tokens > budget {
          payload := EMPTY;
        }
      }
      EmittedStepwise(s, budget, base, g, payload);
    }

    /** Everything but the last resort. */
    method ReduceParts() returns (ghost g: Stages)
      requires Tracked() && payload.usage.Some?
      modifies this
      ensures Tracked() && payload == g.end && ReducesThrough(s, budget, old(payload), g)
    {
      OmitContext();
      ghost var p := payload;
      ghost var m, c, a := ReduceTexts();
      ghost var t := payload;
      ShrunkIsPruned(p, t);
      RemoveFrom(Memories, p);
      ghost var rm := payload;
      RemoveFrom(Citations, p);
      ghost var rc := payload;
      RemoveFrom(Sources, p);
      ghost var rs := payload;
      RemoveFrom(PackedSources, p);
      g := Stages(m, c, a, t, rm, rc, rs, payload);
    }

    method ReduceTexts() returns (ghost m: Payload, ghost c: Payload, ghost a: Payload)
      requires Tracked()
      modifies this
      ensures Tracked() && Shrunk(old(payload), payload) && EndsInCitation(payload)
      ensures BodiesFitted(s, budget, old(payload), Memories, m) && BodiesFitted(s, budget, m, Citations, c)
      ensures AnswerReduced(s, budget, c, a) && CitationEnded(s, budget, a, payload)
    {
      ghost var p := payload;
      FitBodies(Memories);
      m := payload;
      FitBodies(Citations);
      c := payload;
      ShrunkTwice(p, m, c);
      ReduceAnswer();
      a := payload;
      ShrunkTwice(p, c, a);
      EndAnswer();
      ShrunkTwice(p, a, payload);
    }

    method RemoveFrom(key: ListKey, ghost p: Payload)
      requires Tracked() && Pruned(p, payload) && EndsInCitation(payload)
      modifies this
      ensures Tracked() && Pruned(p, payload) && EndsInCitation(payload)
      ensures RecordsRemoved(s, budget, old(payload), key, payload)
    {
      ghost var q := payload;
      RemoveRecords(key);
      if payload != q {
        ghost var k :| RemovalStopsAt(s, budget, q, key, payload, k);
        KeptSurvives(Records(q, key), q, key, k);
        RemovingKeepsPruned(s, p, q, key, Kept(Records(q, key), Guarded(q, key), k));
      }
    }
  }

  /** A payload whose context is empty exposes no exact-value binding. */
  predicate Unbound(p: Payload) {
    TextOf(p.context) == "" ==>
      forall key, i :: key != Citations && 0 <= i < |Records(p, key)| ==> Records(p, key)[i].binding.None?
  }

  function Bare(records: seq<Record>): seq<Record> {
    seq(|records|, i requires 0 <= i < |records| => records[i].(binding := None))
  }

  function BareList(records: Option<seq<Record>>): Option<seq<Record>> {
    if records.Some? then Some(Bare(records.value)) else None
  }

  function Detached(p: Payload): Payload {
    if TextOf(p.context) != "" then p
    else
      p.(memories := BareList(p.memories), sources := BareList(p.sources),
         packedSources := BareList(p.packedSources))
  }

  /** The accounting of an empty context under a foreign tokenizer. */
  function NoEvidence(s: Setting, u: Usage): Usage {
    Accounted(u, s.packed, s.candidates, 0, u.sourceTokens, if u.sourceTokens > 0 then 1.0 else 0.0)
  }

  function AfterOmission(s: Setting, budget: nat, p: Payload): Payload
    requires p.usage.Some?
  {
    if Cost(s, p) <= budget || TextOf(p.context) == "" then p
    else
      var q := Detached(p.(context := Some("")));
      Refresh(s, if q.usage.value.ours then q else q.(usage := Some(NoEvidence(s, q.usage.value))))
  }

  ghost predicate EndsInCitation(p: Payload) {
    p.grounded == Some(true) ==> TextOf(p.answer) == "" || EndsWithMark(StripRight(TextOf(p.answer)))
  }

  lemma EndedInCitation(s: Setting, p: Payload, q: Payload)
    requires AnswerEnded(s, p, q)
    ensures EndsInCitation(q)
  {
    var answer := TextOf(p.answer);
    var marks := Marks(answer, 0);
    if !(answer == "" || EndsWithMark(StripRight(answer))) && marks != [] {
      var last := marks[|marks| - 1];
      RefreshWrites(s, WithText(p, Answer, answer[..last.end]));
      CutBehindMark(answer, last);
    }
  }

  function WithoutRecord(p: Payload, key: ListKey, i: nat): Payload
    requires i < |Records(p, key)|
  {
    WithList(p, key, Records(p, key)[..i] + Records(p, key)[i + 1..])
  }

  /** The numbers that protect records: those a grounded answer cites. */
  function Protected(p: Payload): set<int> {
    if p.grounded == Some(true) then CitedIn(TextOf(p.answer)) else {}
  }

  predicate Cites(cited: set<int>, r: Record) {
    r.n.Some? && r.n.value in cited
  }

  /** What removing records leaves of a list. */
  predicate Survive(was: seq<Record>, cited: set<int>, key: ListKey, now: seq<Record>) {
    && (key == Memories ==> now <= was)
    && (forall r <- now :: r in was)
    && (key != Memories ==> forall r <- was | Cites(cited, r) :: r in now)
  }

  // ---------- which texts and records the loops touch ----------

  /** The bodies from the `k`-th record on emptied. */
  function Emptied(records: seq<Record>, k: nat): seq<Record>
    requires k <= |records|
  {
    seq(|records|, i requires 0 <= i < |records| =>
      if i < k || TextOf(records[i].content) == "" then records[i] else records[i].(content := Some("")))
  }

  function Hollow(s: Setting, p: Payload, key: ListKey, k: nat): Payload
    requires k <= |Records(p, key)|
  {
    if k == |Records(p, key)| then p else Refresh(s, WithList(p, key, Emptied(Records(p, key), k)))
  }

  predicate NoneFits(s: Setting, budget: nat, p: Payload, key: ListKey, k: nat) {
    forall j :: k <= j <= |Records(p, key)| ==> !Fits(s, budget, Hollow(s, p, key, j))
  }

  /** Emptying from the `k`-th record on is the first that fits, and then that body is cut at an edge; or
      nothing fits and every body is empty. */
  predicate BodiesStopAt(s: Setting, budget: nat, p: Payload, key: ListKey, q: Payload, k: nat, kept: nat) {
    && k <= |Records(p, key)| && NoneFits(s, budget, p, key, k + 1)
    && if k == |Records(p, key)| || !Fits(s, budget, Hollow(s, p, key, k)) then
         q == Hollow(s, p, key, k) && (k == 0 || Fits(s, budget, q))
       else
         var more, slot, text := Hollow(s, p, key, k + 1), Body(key, k), TextOf(Records(p, key)[k].content);
         && HasSlot(more, slot) && text != "" && IsEdge(s, budget, more, slot, text, kept)
         && q == Refresh(s, Cut(more, slot, text, kept))
  }

  /** The bodies of a list are emptied from the last record on, only as far as the budget asks for. */
  ghost predicate BodiesFitted(s: Setting, budget: nat, p: Payload, key: ListKey, q: Payload) {
    exists k, kept :: BodiesStopAt(s, budget, p, key, q, k, kept)
  }

  lemma NothingCut(s: Setting, budget: nat, p: Payload, key: ListKey)
    ensures Fits(s, budget, p) ==> BodiesFitted(s, budget, p, key, p)
  {
    if Fits(s, budget, p) {
      assert BodiesStopAt(s, budget, p, key, p, |Records(p, key)|, 0);
    }
  }

  lemma HollowIs(s: Setting, p: Payload, key: ListKey, k: nat)
    requires p == Refresh(s, p) && 0 < k <= |Records(p, key)|
    ensures Hollow(s, p, key, k) == Refresh(s, WithList(p, key, Emptied(Records(p, key), k)))
  {
    if k == |Records(p, key)| {
      assert Emptied(Records(p, key), k) == Records(p, key);
      assert WithList(p, key, Records(p, key)) == p;
    }
  }

  lemma HollowStep(s: Setting, p: Payload, key: ListKey, k: nat)
    requires p == Refresh(s, p) && k < |Records(p, key)|
    ensures
      var more, slot, text := Hollow(s, p, key, k + 1), Body(key, k), TextOf(Records(p, key)[k].content);
      && HasSlot(more, slot) && SlotText(more, slot) == text
      && Hollow(s, p, key, k) == if text == "" then more else Refresh(s, WithText(more, slot, ""))
  {
    var records := Records(p, key);
    var filled := WithList(p, key, Emptied(records, k + 1));
    HollowIs(s, p, key, k + 1);
    RefreshBeforeText(s, filled, Body(key, k), "");
    if TextOf(records[k].content) == "" {
      assert Emptied(records, k) == Emptied(records, k + 1);
    } else {
      assert Emptied(records, k + 1)[k := records[k].(content := Some(""))] == Emptied(records, k);
      assert WithText(filled, Body(key, k), "") == WithList(p, key, Emptied(records, k));
    }
  }

  predicate AnswerCutAt(s: Setting, budget: nat, p: Payload, q: Payload, kept: nat) {
    if TextOf(p.answer) == "" || Fits(s, budget, p) then q == p
    else if !Fits(s, budget, WithText(p, Answer, "")) then q == Refresh(s, WithText(p, Answer, ""))
    else
      && IsEdge(s, budget, p, Answer, TextOf(p.answer), kept)
      && q == Refresh(s, Cut(p, Answer, TextOf(p.answer), kept))
  }

  /** The answer is touched only over budget: a grounded one is cut behind a citation, any other at an edge. */
  ghost predicate AnswerReduced(s: Setting, budget: nat, p: Payload, q: Payload) {
    if p.grounded != Some(true) then exists kept :: AnswerCutAt(s, budget, p, q, kept)
    else if TextOf(p.answer) == "" || Fits(s, budget, p) then q == p
    else AnswerFitted(s, budget, p, q)
  }

  ghost predicate CitationEnded(s: Setting, budget: nat, p: Payload, q: Payload) {
    if p.grounded == Some(true) && Fits(s, budget, p) then AnswerEnded(s, p, q) else q == p
  }

  /** The numbers that protect the records of this list. */
  function Guarded(p: Payload, key: ListKey): set<int> {
    if key == Memories then {} else Protected(p)
  }

  predicate IsLastSpare(records: seq<Record>, cited: set<int>, i: nat) {
    i < |records| && !Cites(cited, records[i]) && forall j :: i < j < |records| ==> Cites(cited, records[j])
  }

  function OnlyCited(records: seq<Record>, cited: set<int>): seq<Record> {
    if records == [] then []
    else (if Cites(cited, records[0]) then [records[0]] else []) + OnlyCited(records[1..], cited)
  }

  /** From the `k`-th record on only the cited ones. */
  function Kept(records: seq<Record>, cited: set<int>, k: nat): seq<Record>
    requires k <= |records|
  {
    records[..k] + OnlyCited(records[k..], cited)
  }

  function Left(s: Setting, p: Payload, key: ListKey, k: nat): Payload
    requires k <= |Records(p, key)|
  {
    if k == |Records(p, key)| then p
    else Refresh(s, WithList(p, key, Kept(Records(p, key), Guarded(p, key), k)))
  }

  predicate StillOver(s: Setting, budget: nat, p: Payload, key: ListKey, k: nat) {
    forall j :: k < j <= |Records(p, key)| ==> !Fits(s, budget, Left(s, p, key, j))
  }

  predicate RemovalStopsAt(s: Setting, budget: nat, p: Payload, key: ListKey, q: Payload, k: nat) {
    && k <= |Records(p, key)| && q == Left(s, p, key, k) && StillOver(s, budget, p, key, k)
    && (k == 0 || Fits(s, budget, q))
  }

  /** Records go from the end of the list on, sparing the cited ones, only as far as the budget asks for. */
  ghost predicate RecordsRemoved(s: Setting, budget: nat, p: Payload, key: ListKey, q: Payload) {
    exists k :: RemovalStopsAt(s, budget, p, key, q, k)
  }

  lemma {:induction false} OnlyCitedOfBoth(left: seq<Record>, right: seq<Record>, cited: set<int>)
    ensures OnlyCited(left + right, cited) == OnlyCited(left, cited) + OnlyCited(right, cited)
    decreases |left|
  {
    if left == [] {
      assert left + right == right;
    } else {
      OnlyCitedOfBoth(left[1..], right, cited);
      OnlyCitedFirst(left, cited);
      OnlyCitedFirst(left + right, cited);
      assert (left + right)[1..] == left[1..] + right;
      Regrouped(if Cites(cited, left[0]) then [left[0]] else [], OnlyCited(left[1..], cited), OnlyCited(right, cited));
    }
  }

  lemma OnlyCitedFirst(records: seq<Record>, cited: set<int>)
    requires records != []
    ensures OnlyCited(records, cited)
         == (if Cites(cited, records[0]) then [records[0]] else []) + OnlyCited(records[1..], cited)
  {
  }

  lemma Regrouped(a: seq<Record>, b: seq<Record>, c: seq<Record>)
    ensures a + (b + c) == (a + b) + c
  {
  }

  lemma {:induction false} AllCited(records: seq<Record>, cited: set<int>)
    requires forall r <- records :: Cites(cited, r)
    ensures OnlyCited(records, cited) == records
  {
    if records != [] {
      AllCited(records[1..], cited);
    }
  }

  lemma {:induction false} CitedMembers(records: seq<Record>, cited: set<int>)
    ensures forall r :: r in OnlyCited(records, cited) <==> r in records && Cites(cited, r)
  {
    if records != [] {
      CitedMembers(records[1..], cited);
      assert records == [records[0]] + records[1..];
    }
  }

  /** Cited records before the `k`-th change nothing. */
  lemma KeptAgain(records: seq<Record>, cited: set<int>, i: nat, k: nat)
    requires i <= k <= |records| && forall j :: i <= j < k ==> Cites(cited, records[j])
    ensures Kept(records, cited, i) == Kept(records, cited, k)
  {
    assert records[i..] == records[i..k] + records[k..];
    OnlyCitedOfBoth(records[i..k], records[k..], cited);
    AllCited(records[i..k], cited);
    assert records[..k] == records[..i] + records[i..k];
  }

  lemma KeptAll(records: seq<Record>, cited: set<int>)
    ensures Kept(records, cited, |records|) == records
  {
  }

  lemma LeftIs(s: Setting, p: Payload, key: ListKey, k: nat)
    requires p == Refresh(s, p) && k <= |Records(p, key)| && Records(p, key) != []
    ensures Left(s, p, key, k) == Refresh(s, WithList(p, key, Kept(Records(p, key), Guarded(p, key), k)))
  {
    if k == |Records(p, key)| {
      KeptAll(Records(p, key), Guarded(p, key));
      assert WithList(p, key, Records(p, key)) == p;
    }
  }

  lemma LeftRecords(s: Setting, p: Payload, key: ListKey, k: nat)
    requires k <= |Records(p, key)|
    ensures Records(Left(s, p, key, k), key) == Kept(Records(p, key), Guarded(p, key), k)
    ensures Guarded(Left(s, p, key, k), key) == Guarded(p, key)
  {
    KeptAll(Records(p, key), Guarded(p, key));
    RefreshWrites(s, WithList(p, key, Kept(Records(p, key), Guarded(p, key), k)));
  }

  /** A stretch of cited records makes no difference, so all of it is over budget with its end. */
  lemma OverAllTheWay(s: Setting, budget: nat, p: Payload, key: ListKey, i: nat, k: nat)
    requires p == Refresh(s, p) && i <= k <= |Records(p, key)| && StillOver(s, budget, p, key, k)
    requires !Fits(s, budget, Left(s, p, key, k))
    requires forall j :: i <= j < k ==> Cites(Guarded(p, key), Records(p, key)[j])
    ensures forall j :: i <= j <= |Records(p, key)| ==> !Fits(s, budget, Left(s, p, key, j))
    ensures Left(s, p, key, i) == Left(s, p, key, k)
  {
    if Records(p, key) != [] {
      forall j | i <= j <= k ensures Left(s, p, key, j) == Left(s, p, key, k) {
        KeptAgain(Records(p, key), Guarded(p, key), j, k);
        LeftIs(s, p, key, j);
        LeftIs(s, p, key, k);
      }
    }
  }

  lemma NothingSpare(s: Setting, p: Payload, key: ListKey, k: nat)
    requires p == Refresh(s, p) && k <= |Records(p, key)|
    requires forall r <- Kept(Records(p, key), Guarded(p, key), k) :: Cites(Guarded(p, key), r)
    ensures forall j :: 0 <= j < k ==> Cites(Guarded(p, key), Records(p, key)[j])
  {
    var records := Records(p, key);
    forall j | 0 <= j < k ensures Cites(Guarded(p, key), records[j]) {
      assert Kept(records, Guarded(p, key), k)[j] == records[j];
    }
  }

  lemma NothingLeft(s: Setting, p: Payload, key: ListKey, k: nat)
    requires p == Refresh(s, p) && k <= |Records(p, key)| && Records(Left(s, p, key, k), key) == []
    ensures k == 0
  {
    LeftRecords(s, p, key, k);
  }

  /** One removal goes on to the record it took. */
  lemma RemovalStep(s: Setting, p: Payload, before: Payload, key: ListKey, k: nat, i: nat)
    requires p == Refresh(s, p) && k <= |Records(p, key)| && before == Left(s, p, key, k)
    requires IsLastSpare(Records(before, key), Guarded(before, key), i)
    ensures i < k && Refresh(s, WithoutRecord(before, key, i)) == Left(s, p, key, i)
    ensures forall j :: i < j < k ==> Cites(Guarded(p, key), Records(p, key)[j])
  {
    var records, cited := Records(p, key), Guarded(p, key);
    LeftRecords(s, p, key, k);
    SpareIsKept(records, cited, k, i);
    LeftIs(s, p, key, k);
    LeftIs(s, p, key, i);
    var now := WithList(p, key, Kept(records, cited, k));
    var next := WithList(p, key, Kept(records, cited, i));
    RefreshBeforeChange(s, now, next);
    assert WithoutRecord(before, key, i) == next.(usage := before.usage);
  }

  lemma SpareIsKept(records: seq<Record>, cited: set<int>, k: nat, i: nat)
    requires k <= |records| && IsLastSpare(Kept(records, cited, k), cited, i)
    ensures i < k && forall j :: i < j < k ==> Cites(cited, records[j])
    ensures Kept(records, cited, k)[..i] + Kept(records, cited, k)[i + 1..] == Kept(records, cited, i)
  {
    SpareIsBefore(records, cited, k, i);
    KeptAgain(records, cited, i + 1, k);
    WithoutSpare(records, cited, i);
  }

  lemma SpareIsBefore(records: seq<Record>, cited: set<int>, k: nat, i: nat)
    requires k <= |records| && IsLastSpare(Kept(records, cited, k), cited, i)
    ensures i < k && !Cites(cited, records[i]) && forall j :: i < j < k ==> Cites(cited, records[j])
  {
    var now := Kept(records, cited, k);
    CitedMembers(records[k..], cited);
    if i >= k {
      assert now[i] in OnlyCited(records[k..], cited);
    }
    forall j | i < j < k ensures Cites(cited, records[j]) {
      assert now[j] == records[j];
    }
  }

  lemma WithoutSpare(records: seq<Record>, cited: set<int>, i: nat)
    requires i < |records| && !Cites(cited, records[i])
    ensures Kept(records, cited, i + 1)[..i] + Kept(records, cited, i + 1)[i + 1..] == Kept(records, cited, i)
  {
    assert records[i..][1..] == records[i + 1..];
    assert records[..i + 1] == records[..i] + [records[i]];
  }

  lemma KeptSurvives(records: seq<Record>, p: Payload, key: ListKey, k: nat)
    requires records == Records(p, key) && k <= |records|
    ensures Survive(records, Protected(p), key, Kept(records, Guarded(p, key), k))
  {
    var cited := Guarded(p, key);
    CitedMembers(records[k..], cited);
    assert records == records[..k] + records[k..];
    if key == Memories {
      NoneCited(records[k..]);
    }
  }

  lemma {:induction false} NoneCited(records: seq<Record>)
    ensures OnlyCited(records, {}) == []
  {
    if records != [] {
      NoneCited(records[1..]);
    }
  }

  /** The payloads a reduction goes through: memory bodies, citation bodies and the answer fitted, the answer ended
      with a citation, and then records removed from the four lists. */
  datatype Stages = Stages(m: Payload, c: Payload, a: Payload, t: Payload,
                           rm: Payload, rc: Payload, rs: Payload, end: Payload)

  ghost predicate AreStages(s: Setting, budget: nat, p: Payload, g: Stages) {
    && BodiesFitted(s, budget, p, Memories, g.m) && BodiesFitted(s, budget, g.m, Citations, g.c)
    && AnswerReduced(s, budget, g.c, g.a) && CitationEnded(s, budget, g.a, g.t)
    && RecordsRemoved(s, budget, g.t, Memories, g.rm) && RecordsRemoved(s, budget, g.rm, Citations, g.rc)
    && RecordsRemoved(s, budget, g.rc, Sources, g.rs) && RecordsRemoved(s, budget, g.rs, PackedSources, g.end)
  }

  /** What is returned: the payload if it fits, else the accounting alone if that does, else nothing. */
  function Emitted(s: Setting, budget: nat, end: Payload): Payload {
    if Fits(s, budget, end) then end
    else if Fits(s, budget, Envelope(s, budget)) then Envelope(s, budget)
    else EMPTY
  }

  // ---------- what reducing a payload may do ----------

  /** The same record, with a shorter body or without its binding. */
  predicate Trimmed(was: Record, now: Record) {
    && now.n == was.n && now.identity == was.identity
    && TextOf(now.content) <= TextOf(was.content)
    && (now.binding == was.binding || now.binding.None?)
  }

  predicate ListTrimmed(was: seq<Record>, now: seq<Record>) {
    |was| == |now| && forall i :: 0 <= i < |was| ==> Trimmed(was[i], now[i])
  }

  /** Measuring updates the evidence accounting only under the declared tokenizer. */
  predicate SameUsage(p: Payload, q: Payload) {
    p.usage.Some? && !p.usage.value.ours ==>
      q.usage.Some? && q.usage.value.(actual := 0) == p.usage.value.(actual := 0)
  }

  /** Outside the lists, only the answer got shorter. */
  predicate TopShrunk(p: Payload, q: Payload) {
    && (q.grounded == Some(true) ==> p.grounded == Some(true))
    && TextOf(q.answer) <= TextOf(p.answer)
    && q.context == p.context && q.other == p.other
    && q.usage.Some? == p.usage.Some? && SameUsage(p, q)
  }

  predicate Shrunk(p: Payload, q: Payload) {
    TopShrunk(p, q) && forall key :: ListTrimmed(Records(p, key), Records(q, key))
  }

  lemma ShrunkItself(p: Payload)
    ensures Shrunk(p, p)
  {
  }

  lemma ShrunkTwice(p: Payload, q: Payload, r: Payload)
    requires Shrunk(p, q) && Shrunk(q, r)
    ensures Shrunk(p, r)
  {
    forall key ensures ListTrimmed(Records(p, key), Records(r, key)) {
      assert ListTrimmed(Records(p, key), Records(q, key));
      assert ListTrimmed(Records(q, key), Records(r, key));
    }
  }

  lemma RefreshShrinks(s: Setting, p: Payload, q: Payload)
    requires Shrunk(p, q) && q.usage == p.usage
    ensures Shrunk(p, Refresh(s, q))
  {
    RefreshWrites(s, q);
    forall key ensures Records(Refresh(s, q), key) == Records(q, key) {
    }
  }

  lemma CutShrinks(s: Setting, p: Payload, slot: Slot, text: string)
    requires HasSlot(p, slot) && text <= SlotText(p, slot)
    ensures Shrunk(p, Refresh(s, WithText(p, slot, text)))
  {
    forall key ensures ListTrimmed(Records(p, key), Records(WithText(p, slot, text), key)) {
    }
    RefreshShrinks(s, p, WithText(p, slot, text));
  }

  lemma FittingShrinks(s: Setting, budget: nat, p: Payload, slot: Slot, q: Payload, kept: nat)
    requires HasSlot(p, slot)
    requires
      var original := SlotText(p, slot);
      || q == p
      || q == Refresh(s, WithText(p, slot, ""))
      || (IsEdge(s, budget, p, slot, original, kept) && q == Refresh(s, Cut(p, slot, original, kept)))
    ensures Shrunk(p, q)
  {
    if q == p {
    } else if q == Refresh(s, WithText(p, slot, "")) {
      CutShrinks(s, p, slot, "");
    } else {
      CutShrinks(s, p, slot, StripRight(SlotText(p, slot)[..kept]));
    }
  }

  lemma AbstainShrinks(s: Setting, p: Payload)
    ensures Shrunk(p, Refresh(s, Abstain(p)))
  {
    RefreshWrites(s, Abstain(p));
  }

  lemma AnswerShrinks(s: Setting, budget: nat, p: Payload, q: Payload)
    requires AnswerFitted(s, budget, p, q) || AnswerEnded(s, p, q)
    ensures Shrunk(p, q)
  {
    AbstainShrinks(s, p);
    forall m <- Marks(TextOf(p.answer), 0)
      ensures Shrunk(p, Refresh(s, WithText(p, Answer, TextOf(p.answer)[..m.end])))
    {
      CutShrinks(s, p, Answer, TextOf(p.answer)[..m.end]);
    }
  }

  function NumbersOf(records: seq<Record>): set<int> {
    set r | r in records && r.n.Some? :: r.n.value
  }

  function Abstain(p: Payload): Payload {
    p.(grounded := Some(false), abstained := Some(true), answer := Some(""))
  }

  lemma AbstainAfterCut(s: Setting, p: Payload, text: string)
    ensures Refresh(s, Abstain(Refresh(s, WithText(p, Answer, text)))) == Refresh(s, Abstain(p))
  {
    var q := WithText(p, Answer, text);
    RefreshWrites(s, q);
    RefreshBeforeChange(s, q, Abstain(q));
    assert Abstain(Refresh(s, q)) == Abstain(q).(usage := Refresh(s, q).usage);
    assert Abstain(q) == Abstain(p);
  }

  /** The answer cut behind this marker, which cites one of the payload's citations, fits. */
  predicate IsCitedFit(s: Setting, budget: nat, p: Payload, m: Mark) {
    && m.number in NumbersOf(Records(p, Citations))
    && m.end <= |TextOf(p.answer)|
    && Fits(s, budget, WithText(p, Answer, TextOf(p.answer)[..m.end]))
  }

  /** The longest answer that fits and ends with a cited marker, or an abstention if there is none. */
  ghost predicate AnswerFitted(s: Setting, budget: nat, p: Payload, q: Payload) {
    var answer := TextOf(p.answer);
    var marks := Marks(answer, 0);
    if exists i :: 0 <= i < |marks| && IsCitedFit(s, budget, p, marks[i]) then
      exists i :: 0 <= i < |marks| && IsCitedFit(s, budget, p, marks[i])
        && (forall j :: i < j < |marks| ==> !IsCitedFit(s, budget, p, marks[j]))
        && q == Refresh(s, WithText(p, Answer, answer[..marks[i].end]))
    else q == Refresh(s, Abstain(p))
  }

  ghost predicate AnswerEnded(s: Setting, p: Payload, q: Payload) {
    var answer := TextOf(p.answer);
    var marks := Marks(answer, 0);
    if answer == "" || EndsWithMark(StripRight(answer)) then q == p
    else if marks != [] then
      q == Refresh(s, WithText(p, Answer, answer[..marks[|marks| - 1].end])) && EndsWithMark(TextOf(q.answer))
    else q == Refresh(s, Abstain(p))
  }

  lemma TextAgain(p: Payload, slot: Slot)
    requires HasSlot(p, slot) && SlotText(p, slot) != ""
    ensures WithText(p, slot, SlotText(p, slot)) == p
  {
    if slot.Body? {
      assert Records(p, slot.key)[slot.index := Records(p, slot.key)[slot.index]] == Records(p, slot.key);
    }
  }

  lemma TextOverText(p: Payload, slot: Slot, first: string, second: string)
    requires HasSlot(p, slot)
    ensures HasSlot(WithText(p, slot, first), slot)
    ensures WithText(WithText(p, slot, first), slot, second) == WithText(p, slot, second)
    ensures SlotText(WithText(p, slot, first), slot) == first
  {
    if slot.Body? {
      var records := Records(p, slot.key);
      var r := records[slot.index];
      assert records[slot.index := r.(content := Some(first))][slot.index := r.(content := Some(second))]
          == records[slot.index := r.(content := Some(second))];
    }
  }

  // ---------- what the whole reduction keeps ----------

  predicate ComesFrom(was: seq<Record>, r: Record) {
    exists i :: 0 <= i < |was| && Trimmed(was[i], r)
  }

  predicate Remains(r: Record, now: seq<Record>) {
    exists j :: 0 <= j < |now| && Trimmed(r, now[j])
  }

  /** The records left come from the old ones; memories lose only trailing records, and every record
      a grounded answer cites is still there. */
  predicate ListPruned(was: seq<Record>, cited: set<int>, key: ListKey, now: seq<Record>) {
    && (forall j :: 0 <= j < |now| ==> ComesFrom(was, now[j]))
    && (key == Memories ==> |now| <= |was| && forall i :: 0 <= i < |now| ==> Trimmed(was[i], now[i]))
    && (key != Memories ==>
          forall i :: 0 <= i < |was| && Cites(cited, was[i]) ==> Remains(was[i], now))
  }

  predicate Pruned(p: Payload, q: Payload) {
    TopShrunk(p, q) && forall key :: ListPruned(Records(p, key), Protected(q), key, Records(q, key))
  }

  lemma TrimmedIsPruned(was: seq<Record>, cited: set<int>, key: ListKey, now: seq<Record>)
    requires ListTrimmed(was, now)
    ensures ListPruned(was, cited, key, now)
  {
    forall j | 0 <= j < |now| ensures ComesFrom(was, now[j]) {
      assert Trimmed(was[j], now[j]);
    }
    forall i | 0 <= i < |was| ensures Remains(was[i], now) {
      assert Trimmed(was[i], now[i]);
    }
  }

  lemma ShrunkIsPruned(p: Payload, q: Payload)
    requires Shrunk(p, q)
    ensures Pruned(p, q)
  {
    forall key ensures ListPruned(Records(p, key), Protected(q), key, Records(q, key)) {
      TrimmedIsPruned(Records(p, key), Protected(q), key, Records(q, key));
    }
  }

  lemma SurvivorsArePruned(was: seq<Record>, cited: set<int>, key: ListKey, now: seq<Record>, left: seq<Record>)
    requires ListPruned(was, cited, key, now) && Survive(now, cited, key, left)
    ensures ListPruned(was, cited, key, left)
  {
    forall j | 0 <= j < |left| ensures ComesFrom(was, left[j]) {
      assert left[j] in left;
      var k :| 0 <= k < |now| && now[k] == left[j];
      var i :| 0 <= i < |was| && Trimmed(was[i], now[k]);
    }
    if key != Memories {
      forall i | 0 <= i < |was| && Cites(cited, was[i]) ensures Remains(was[i], left) {
        var k :| 0 <= k < |now| && Trimmed(was[i], now[k]);
        assert now[k] in now && Cites(cited, now[k]);
        var j :| 0 <= j < |left| && left[j] == now[k];
      }
    }
  }

  /** Only one list changed. */
  lemma OneListPruned(p: Payload, q: Payload, r: Payload, key: ListKey)
    requires Pruned(p, q) && TopShrunk(p, r) && Protected(r) == Protected(q)
    requires forall other | other != key :: Records(r, other) == Records(q, other)
    requires ListPruned(Records(p, key), Protected(q), key, Records(r, key))
    ensures Pruned(p, r)
  {
    forall other ensures ListPruned(Records(p, other), Protected(r), other, Records(r, other)) {
      assert ListPruned(Records(p, other), Protected(q), other, Records(q, other));
    }
  }

  lemma SameAnswerSameEnding(q: Payload, r: Payload)
    requires r.answer == q.answer && r.grounded == q.grounded
    ensures EndsInCitation(q) ==> EndsInCitation(r)
  {
  }

  lemma RemovingKeepsPruned(s: Setting, p: Payload, q: Payload, key: ListKey, left: seq<Record>)
    requires Pruned(p, q) && Survive(Records(q, key), Protected(q), key, left)
    ensures Pruned(p, Refresh(s, WithList(q, key, left)))
    ensures EndsInCitation(q) ==> EndsInCitation(Refresh(s, WithList(q, key, left)))
  {
    var r := Refresh(s, WithList(q, key, left));
    RefreshWrites(s, WithList(q, key, left));
    assert ListPruned(Records(p, key), Protected(q), key, Records(q, key));
    SurvivorsArePruned(Records(p, key), Protected(q), key, Records(q, key), left);
    SameAnswerSameEnding(q, r);
    OneListPruned(p, q, r, key);
  }

  function Numeric(n: Option<nat>): nat {
    if n.Some? then n.value else 0
  }

  predicate Limited(max: Option<int>) {
    max.Some? && max.value > 0
  }

  /** The setting and the payload the reduction starts from: with an accounting block, without
      bindings to a context that is not there. */
  function SettingFor(meter: Meter, p: Payload): Setting {
    var u := if p.usage.Some? then p.usage.value else NO_USAGE;
    Setting(meter, Numeric(u.packed), Numeric(u.packed) + if u.omitted.Some? then u.omitted.value else 0)
  }

  function WithUsage(p: Payload, max: Option<int>): Payload {
    var u := if p.usage.Some? then p.usage.value else NO_USAGE;
    p.(usage := Some(if Limited(max) then u.(budget := Some(max.value)) else u))
  }

  function Base(meter: Meter, p: Payload, max: Option<int>): Payload {
    Refresh(SettingFor(meter, p), Detached(WithUsage(p, max)))
  }

  function Envelope(s: Setting, budget: nat): Payload {
    Refresh(s, EMPTY.(usage := Some(NO_USAGE.(budget := Some(budget)))))
  }

  /** `_apply_response_budget`. */
  method ApplyBudget(payload: Payload, meter: Meter, max: Option<int>) returns (result: Payload)
    ensures
      var s, base := SettingFor(meter, payload), Base(meter, payload, max);
      if !Limited(max) || meter.count(base) <= max.value then result == base
      else Reduced(s, max.value, base, result) && Stepwise(s, max.value, base, result)
  {
    var budget := if Limited(max) then max.value else 0;
    var reducer := new Reducer(WithUsage(payload, max), SettingFor(meter, payload), budget);
    reducer.DropBindings();
    reducer.tokens := reducer.Measure();
    if Limited(max) && reducer.tokens > budget {
      reducer.Reduce();
    }
    result := reducer.payload;
  }

  /** The result is within the budget, or is the empty object because not even the accounting
      envelope fits; unless only the envelope is left, it is the base with texts cut, the context
      possibly omitted, and only uncited records removed. */
  ghost predicate Reduced(s: Setting, budget: nat, base: Payload, result: Payload)
    requires base.usage.Some?
  {
    && (result != EMPTY ==> s.meter.count(result) <= budget && result == Refresh(s, result))
    && (result == EMPTY ==> s.meter.count(Envelope(s, budget)) > budget)
    && (result == EMPTY || result == Envelope(s, budget) ||
        (Pruned(AfterOmission(s, budget, base), result) && EndsInCitation(result)))
  }

  /** The stages from the payload without its context on; the last one is that payload with texts cut and only
      uncited records removed. */
  ghost predicate ReducesThrough(s: Setting, budget: nat, base: Payload, g: Stages)
    requires base.usage.Some?
  {
    && AreStages(s, budget, AfterOmission(s, budget, base), g)
    && Pruned(AfterOmission(s, budget, base), g.end) && EndsInCitation(g.end)
  }

  /** How far the reduction goes: the result is what the stages end in, unless that is over budget. */
  ghost predicate Stepwise(s: Setting, budget: nat, base: Payload, result: Payload)
    requires base.usage.Some?
  {
    exists g :: ReducesThrough(s, budget, base, g) && result == Emitted(s, budget, g.end)
  }

  lemma EmittedStepwise(s: Setting, budget: nat, base: Payload, g: Stages, result: Payload)
    requires base.usage.Some? && ReducesThrough(s, budget, base, g) && result == Emitted(s, budget, g.end)
    ensures Stepwise(s, budget, base, result)
  {
  }

  // ---------- what is kept ----------

  /** Nothing is left that could be removed: no memory, and no record that a grounded answer does not cite. */
  predicate IsBare(p: Payload) {
    && Records(p, Memories) == []
    && forall key, r :: key != Memories && r in Records(p, key) ==> Cites(Protected(p), r)
  }

  lemma LeftOverBudget(s: Setting, budget: nat, p: Payload, key: ListKey, q: Payload)
    requires RecordsRemoved(s, budget, p, key, q) && !Fits(s, budget, q)
    ensures !Fits(s, budget, p) && Protected(q) == Protected(p)
    ensures Records(q, key) == OnlyCited(Records(p, key), Guarded(p, key))
    ensures forall other | other != key :: Records(q, other) == Records(p, other)
  {
    var k :| RemovalStopsAt(s, budget, p, key, q, k);
    LeftRecords(s, p, key, 0);
    RefreshWrites(s, WithList(p, key, Kept(Records(p, key), Guarded(p, key), 0)));
    assert Records(p, key)[0..] == Records(p, key);
    assert Left(s, p, key, |Records(p, key)|) == p;
  }

  /** The stages end over budget only when everything removable is gone. */
  lemma OverBudgetIsBare(s: Setting, budget: nat, p: Payload, g: Stages)
    requires AreStages(s, budget, p, g) && !Fits(s, budget, g.end)
    ensures IsBare(g.end)
  {
    LeftOverBudget(s, budget, g.rs, PackedSources, g.end);
    LeftOverBudget(s, budget, g.rc, Sources, g.rs);
    LeftOverBudget(s, budget, g.rm, Citations, g.rc);
    LeftOverBudget(s, budget, g.t, Memories, g.rm);
    NoneCited(Records(g.t, Memories));
    CitedMembers(Records(g.rs, PackedSources), Protected(g.end));
    CitedMembers(Records(g.rc, Sources), Protected(g.end));
    CitedMembers(Records(g.rm, Citations), Protected(g.end));
    forall key, r | key != Memories && r in Records(g.end, key) ensures Cites(Protected(g.end), r) {
    }
  }

  /** The payload is given up for its accounting, or for nothing, only if it is over budget even with every
      record gone that may go. */
  lemma ClearedOnlyWhenBare(s: Setting, budget: nat, base: Payload, result: Payload)
    requires base.usage.Some? && Stepwise(s, budget, base, result)
    ensures || (Pruned(AfterOmission(s, budget, base), result) && Fits(s, budget, result))
            || exists q :: Pruned(AfterOmission(s, budget, base), q) && !Fits(s, budget, q) && IsBare(q)
  {
    var g :| ReducesThrough(s, budget, base, g) && result == Emitted(s, budget, g.end);
    if !Fits(s, budget, g.end) {
      OverBudgetIsBare(s, budget, AfterOmission(s, budget, base), g);
    }
  }

  lemma FittingRemovesNothing(s: Setting, budget: nat, p: Payload, key: ListKey, q: Payload)
    requires RecordsRemoved(s, budget, p, key, q) && Fits(s, budget, p)
    ensures q == p
  {
    assert Left(s, p, key, |Records(p, key)|) == p;
  }

  lemma FittingCutsNothing(s: Setting, budget: nat, p: Payload, key: ListKey, q: Payload)
    requires BodiesFitted(s, budget, p, key, q) && Fits(s, budget, p)
    ensures q == p
  {
    assert Hollow(s, p, key, |Records(p, key)|) == p;
  }

  /** From the first stage on that fits, nothing more is taken, except that a grounded answer is ended with a
      citation. */
  lemma StopsWhenItFits(s: Setting, budget: nat, p: Payload, g: Stages)
    requires AreStages(s, budget, p, g)
    ensures Fits(s, budget, p) ==> g.m == p
    ensures Fits(s, budget, g.m) ==> g.c == g.m
    ensures Fits(s, budget, g.c) ==> g.a == g.c
    ensures g.t == g.a || g.a.grounded == Some(true)
    ensures Fits(s, budget, g.t) ==> g.end == g.t
    ensures Fits(s, budget, g.rm) ==> g.end == g.rm
    ensures Fits(s, budget, g.rc) ==> g.end == g.rc
    ensures Fits(s, budget, g.rs) ==> g.end == g.rs
  {
    if Fits(s, budget, p) { FittingCutsNothing(s, budget, p, Memories, g.m); }
    if Fits(s, budget, g.m) { FittingCutsNothing(s, budget, g.m, Citations, g.c); }
    if Fits(s, budget, g.t) { FittingRemovesNothing(s, budget, g.t, Memories, g.rm); }
    if Fits(s, budget, g.rm) { FittingRemovesNothing(s, budget, g.rm, Citations, g.rc); }
    if Fits(s, budget, g.rc) { FittingRemovesNothing(s, budget, g.rc, Sources, g.rs); }
    if Fits(s, budget, g.rs) { FittingRemovesNothing(s, budget, g.rs, PackedSources, g.end); }
  }

  /** A list that lost records has lost the uncited ones from some position on, and with the record at that
      position it was still over budget. */
  lemma RecordsGoOnlyOverBudget(s: Setting, budget: nat, p: Payload, key: ListKey, q: Payload) returns (k: nat)
    requires RecordsRemoved(s, budget, p, key, q)
    ensures k <= |Records(p, key)| && Records(p, key)[..k] <= Records(q, key)
    ensures forall r :: r in Records(q, key)[k..] <==> r in Records(p, key)[k..] && Cites(Guarded(p, key), r)
    ensures k + 1 < |Records(p, key)| ==>
              !Fits(s, budget, WithList(p, key, Kept(Records(p, key), Guarded(p, key), k + 1)))
    ensures k < |Records(p, key)| ==> !Fits(s, budget, p)
    ensures forall other | other != key :: Records(q, other) == Records(p, other)
    ensures q.answer == p.answer && q.context == p.context && q.grounded == p.grounded
  {
    k :| RemovalStopsAt(s, budget, p, key, q, k);
    LeftRecords(s, p, key, k);
    CitedMembers(Records(p, key)[k..], Guarded(p, key));
    RefreshWrites(s, WithList(p, key, Kept(Records(p, key), Guarded(p, key), k)));
    assert Left(s, p, key, |Records(p, key)|) == p;
    if k + 1 < |Records(p, key)| {
      RefreshTwice(s, WithList(p, key, Kept(Records(p, key), Guarded(p, key), k + 1)));
      assert !Fits(s, budget, Left(s, p, key, k + 1));
    }
  }

  /** Bodies are cut from the last one on: those before some position are as they were, those behind it are empty,
      and with that one body whole the payload was still over budget. */
  lemma BodiesGoFromTheEnd(s: Setting, budget: nat, p: Payload, key: ListKey, q: Payload) returns (k: nat)
    requires BodiesFitted(s, budget, p, key, q)
    ensures |Records(q, key)| == |Records(p, key)| >= k
    ensures forall i :: 0 <= i < k ==> Records(q, key)[i] == Records(p, key)[i]
    ensures forall i :: k < i < |Records(q, key)| ==> TextOf(Records(q, key)[i].content) == ""
    ensures k + 1 < |Records(p, key)| ==> !Fits(s, budget, WithList(p, key, Emptied(Records(p, key), k + 1)))
    ensures k < |Records(p, key)| ==> !Fits(s, budget, p)
  {
    var kept;
    k, kept :| BodiesStopAt(s, budget, p, key, q, k, kept);
    BodiesLeft(s, budget, p, key, q, k, kept);
    assert Hollow(s, p, key, |Records(p, key)|) == p;
    if k < |Records(p, key)| {
      assert !Fits(s, budget, Hollow(s, p, key, |Records(p, key)|));
    }
    if k + 1 < |Records(p, key)| {
      assert !Fits(s, budget, Hollow(s, p, key, k + 1));
      RefreshTwice(s, WithList(p, key, Emptied(Records(p, key), k + 1)));
    }
  }

  lemma BodiesLeft(s: Setting, budget: nat, p: Payload, key: ListKey, q: Payload, k: nat, kept: nat)
    requires BodiesStopAt(s, budget, p, key, q, k, kept)
    ensures |Records(q, key)| == |Records(p, key)|
    ensures forall i :: 0 <= i < k ==> Records(q, key)[i] == Records(p, key)[i]
    ensures forall i :: k < i < |Records(q, key)| ==> TextOf(Records(q, key)[i].content) == ""
  {
    if k == |Records(p, key)| || !Fits(s, budget, Hollow(s, p, key, k)) {
      HollowRecords(s, p, key, k);
    } else {
      HollowRecords(s, p, key, k + 1);
      CutTouchesOne(s, Hollow(s, p, key, k + 1), key, k, TextOf(Records(p, key)[k].content), kept);
    }
  }

  lemma CutTouchesOne(s: Setting, p: Payload, key: ListKey, k: nat, text: string, kept: nat)
    requires k < |Records(p, key)| && kept <= |text|
    ensures var q := Refresh(s, Cut(p, Body(key, k), text, kept));
            |Records(q, key)| == |Records(p, key)|
            && forall i :: 0 <= i < |Records(p, key)| && i != k ==> Records(q, key)[i] == Records(p, key)[i]
  {
    TouchedRecords(Cut(p, Body(key, k), text, kept), s, key);
  }

  lemma TouchedRecords(p: Payload, s: Setting, key: ListKey)
    ensures Records(Refresh(s, p), key) == Records(p, key)
  {
    RefreshWrites(s, p);
  }

  lemma HollowRecords(s: Setting, p: Payload, key: ListKey, k: nat)
    requires k <= |Records(p, key)|
    ensures Records(Hollow(s, p, key, k), key) == Emptied(Records(p, key), k)
  {
    RefreshWrites(s, WithList(p, key, Emptied(Records(p, key), k)));
  }

  /** Over budget, the context goes before anything else does. */
  lemma ContextGoesFirst(s: Setting, budget: nat, base: Payload, result: Payload)
    requires base.usage.Some? && Reduced(s, budget, base, result) && !Fits(s, budget, base)
    ensures TextOf(result.context) == ""
  {
    var q := Detached(base.(context := Some("")));
    RefreshWrites(s, if q.usage.value.ours then q else q.(usage := Some(NoEvidence(s, q.usage.value))));
    RefreshWrites(s, EMPTY.(usage := Some(NO_USAGE.(budget := Some(budget)))));
  }

  /** With the context only the accounting and the bindings change. */
  lemma OmissionKeepsTheRest(s: Setting, budget: nat, p: Payload, key: ListKey, i: nat)
    requires p.usage.Some?
    ensures
      var q := AfterOmission(s, budget, p);
      && q.answer == p.answer && q.grounded == p.grounded && q.abstained == p.abstained && q.other == p.other
      && q.citations == p.citations && |Records(q, key)| == |Records(p, key)|
      && (i < |Records(p, key)| ==> Records(q, key)[i].(binding := None) == Records(p, key)[i].(binding := None))
  {
    var q := Detached(p.(context := Some("")));
    var r := if q.usage.value.ours then q else q.(usage := Some(NoEvidence(s, q.usage.value)));
    RefreshWrites(s, r);
    assert Records(Refresh(s, r), key) == Records(q, key);
  }

  /** The answer is withdrawn as a whole, and says so. */
  predicate Abstains(p: Payload) {
    p.answer == Some("") && p.grounded == Some(false) && p.abstained == Some(true)
  }

  lemma BodiesKeepTheTop(s: Setting, budget: nat, p: Payload, key: ListKey, q: Payload)
    requires BodiesFitted(s, budget, p, key, q)
    ensures q.answer == p.answer && q.grounded == p.grounded && q.abstained == p.abstained
  {
    var k: nat, kept: nat :| BodiesStopAt(s, budget, p, key, q, k, kept);
    HollowKeepsTheTop(s, p, key, k);
    if k < |Records(p, key)| && Fits(s, budget, Hollow(s, p, key, k)) {
      HollowKeepsTheTop(s, p, key, k + 1);
      CutKeepsTheTop(s, Hollow(s, p, key, k + 1), Body(key, k), TextOf(Records(p, key)[k].content), kept);
    }
  }

  lemma CutKeepsTheTop(s: Setting, p: Payload, slot: Slot, text: string, kept: nat)
    requires HasSlot(p, slot) && slot.Body? && kept <= |text|
    ensures var q := Refresh(s, Cut(p, slot, text, kept));
            q.answer == p.answer && q.grounded == p.grounded && q.abstained == p.abstained
  {
    RefreshWrites(s, Cut(p, slot, text, kept));
  }

  lemma HollowKeepsTheTop(s: Setting, p: Payload, key: ListKey, k: nat)
    requires k <= |Records(p, key)|
    ensures var q := Hollow(s, p, key, k);
            q.answer == p.answer && q.grounded == p.grounded && q.abstained == p.abstained
  {
    RefreshWrites(s, WithList(p, key, Emptied(Records(p, key), k)));
  }

  lemma RemovalKeepsTheTop(s: Setting, budget: nat, p: Payload, key: ListKey, q: Payload)
    requires RecordsRemoved(s, budget, p, key, q)
    ensures q.answer == p.answer && q.grounded == p.grounded && q.abstained == p.abstained
  {
    var k: nat :| RemovalStopsAt(s, budget, p, key, q, k);
    RefreshWrites(s, WithList(p, key, Kept(Records(p, key), Guarded(p, key), k)));
  }

  lemma AnswerKeepsGroundedOrAbstains(s: Setting, budget: nat, p: Payload, q: Payload)
    requires AnswerReduced(s, budget, p, q) || CitationEnded(s, budget, p, q)
    ensures (q.grounded == p.grounded && q.abstained == p.abstained) || Abstains(q)
  {
    RefreshWrites(s, Abstain(p));
    forall text ensures Refresh(s, WithText(p, Answer, text)).grounded == p.grounded
      && Refresh(s, WithText(p, Answer, text)).abstained == p.abstained
    {
      RefreshWrites(s, WithText(p, Answer, text));
    }
  }

  lemma SecondAnswerStep(s: Setting, budget: nat, p: Payload, q: Payload)
    requires Abstains(p) && CitationEnded(s, budget, p, q)
    ensures q == p
  {
  }

  /** A payload that is returned either keeps its flags or abstains openly: an empty answer, not grounded, and
      marked as abstained. */
  lemma FlagsAreHonest(s: Setting, budget: nat, base: Payload, result: Payload)
    requires base.usage.Some? && Stepwise(s, budget, base, result)
    ensures || result == EMPTY || result == Envelope(s, budget) || Abstains(result)
            || (result.grounded == base.grounded && result.abstained == base.abstained)
  {
    var g :| ReducesThrough(s, budget, base, g) && result == Emitted(s, budget, g.end);
    var start := AfterOmission(s, budget, base);
    OmissionKeepsTheRest(s, budget, base, Memories, 0);
    BodiesKeepTheTop(s, budget, start, Memories, g.m);
    BodiesKeepTheTop(s, budget, g.m, Citations, g.c);
    AnswerKeepsGroundedOrAbstains(s, budget, g.c, g.a);
    if Abstains(g.a) {
      SecondAnswerStep(s, budget, g.a, g.t);
    } else {
      AnswerKeepsGroundedOrAbstains(s, budget, g.a, g.t);
    }
    RemovalKeepsTheTop(s, budget, g.t, Memories, g.rm);
    RemovalKeepsTheTop(s, budget, g.rm, Citations, g.rc);
    RemovalKeepsTheTop(s, budget, g.rc, Sources, g.rs);
    RemovalKeepsTheTop(s, budget, g.rs, PackedSources, g.end);
  }

  /** Before the budget is looked at, only the accounting and bindings without a context change. */
  lemma BaseKeepsTheRest(meter: Meter, p: Payload, max: Option<int>, key: ListKey, i: nat)
    ensures
      var q := Base(meter, p, max);
      && q.context == p.context && q.answer == p.answer && q.grounded == p.grounded && q.abstained == p.abstained
      && q.other == p.other && q.citations == p.citations && |Records(q, key)| == |Records(p, key)|
      && (i < |Records(p, key)| ==>
            Records(q, key)[i] == if TextOf(p.context) != "" || key == Citations then Records(p, key)[i]
                                  else Records(p, key)[i].(binding := None))
      && q.usage.Some? && (max.Some? && max.value > 0 ==> q.usage.value.budget == Some(max.value))
    ensures
      var s := SettingFor(meter, p);
      && (p.usage.Some? && p.usage.value.packed.Some? ==> s.packed == p.usage.value.packed.value)
      && (p.usage.Some? && p.usage.value.omitted.Some? ==> s.candidates == s.packed + p.usage.value.omitted.value)
      && (p.usage.None? || p.usage.value.packed.None? ==> s.packed == 0)
      && (p.usage.None? || p.usage.value.omitted.None? ==> s.candidates == s.packed)
  {
    RefreshWrites(SettingFor(meter, p), Detached(WithUsage(p, max)));
    assert Records(Base(meter, p, max), key) == Records(Detached(WithUsage(p, max)), key);
  }

  lemma OmissionTrims(s: Setting, budget: nat, p: Payload, key: ListKey)
    requires p.usage.Some?
    ensures ListTrimmed(Records(p, key), Records(AfterOmission(s, budget, p), key))
    ensures AfterOmission(s, budget, p).answer == p.answer && AfterOmission(s, budget, p).grounded == p.grounded
  {
    var q := Detached(p.(context := Some("")));
    var r := if q.usage.value.ours then q else q.(usage := Some(NoEvidence(s, q.usage.value)));
    RefreshWrites(s, r);
    assert Records(Refresh(s, r), key) == Records(q, key);
  }

  /** If an over-budget grounded answer survives, it is a prefix of the original one, it ends with a
      citation, and every citation or source record it cites is still there. */
  lemma GroundedAnswerKeepsItsEvidence(s: Setting, budget: nat, base: Payload, result: Payload, key: ListKey, i: nat)
    requires base.usage.Some? && Reduced(s, budget, base, result)
    requires result.grounded == Some(true)
    ensures base.grounded == Some(true) && TextOf(result.answer) <= TextOf(base.answer)
    ensures TextOf(result.answer) == "" || EndsWithMark(StripRight(TextOf(result.answer)))
    ensures key != Memories && i < |Records(base, key)| && Cites(CitedIn(TextOf(result.answer)), Records(base, key)[i])
      ==> Remains(Records(base, key)[i], Records(result, key))
  {
    RefreshWrites(s, EMPTY.(usage := Some(NO_USAGE.(budget := Some(budget)))));
    var mid := AfterOmission(s, budget, base);
    OmissionTrims(s, budget, base, key);
    if key != Memories && i < |Records(base, key)| && Cites(CitedIn(TextOf(result.answer)), Records(base, key)[i]) {
      assert Trimmed(Records(base, key)[i], Records(mid, key)[i]);
      assert ListPruned(Records(mid, key), Protected(result), key, Records(result, key));
      assert Remains(Records(mid, key)[i], Records(result, key));
      var j :| 0 <= j < |Records(result, key)| && Trimmed(Records(mid, key)[i], Records(result, key)[j]);
      assert Trimmed(Records(base, key)[i], Records(result, key)[j]);
    }
  }

  lemma DetachedIsUnbound(p: Payload)
    ensures Unbound(Detached(p))
  {
  }

  lemma PrunedStaysUnbound(p: Payload, q: Payload)
    requires Unbound(p) && Pruned(p, q)
    ensures Unbound(q)
  {
    if TextOf(q.context) == "" {
      forall key, j | key != Citations && 0 <= j < |Records(q, key)| ensures Records(q, key)[j].binding.None? {
        assert ListPruned(Records(p, key), Protected(q), key, Records(q, key));
        assert ComesFrom(Records(p, key), Records(q, key)[j]);
      }
    }
  }

  /** The admitted context is returned whole or not at all, and no exact-value binding outlives it. */
  lemma ContextIsWholeOrGone(meter: Meter, payload: Payload, max: Option<int>, result: Payload)
    requires Limited(max) && Reduced(SettingFor(meter, payload), max.value, Base(meter, payload, max), result)
    ensures Unbound(result) && Unbound(Base(meter, payload, max))
    ensures result.context.None? || result.context == payload.context || result.context == Some("")
  {
    var s, base := SettingFor(meter, payload), Base(meter, payload, max);
    var start := WithUsage(payload, max);
    DetachedIsUnbound(start);
    RefreshStaysUnbound(s, Detached(start));
    RefreshWrites(s, EMPTY.(usage := Some(NO_USAGE.(budget := Some(max.value)))));
    OmissionIsUnbound(s, max.value, base);
    if result != EMPTY && result != Envelope(s, max.value) {
      PrunedStaysUnbound(AfterOmission(s, max.value, base), result);
    }
  }

  lemma RefreshStaysUnbound(s: Setting, p: Payload)
    requires Unbound(p)
    ensures Unbound(Refresh(s, p)) && Refresh(s, p).context == p.context
  {
    RefreshWrites(s, p);
    forall key ensures Records(Refresh(s, p), key) == Records(p, key) {
    }
  }

  lemma OmissionIsUnbound(s: Setting, budget: nat, p: Payload)
    requires p.usage.Some? && Unbound(p)
    ensures Unbound(AfterOmission(s, budget, p))
    ensures AfterOmission(s, budget, p).context in {p.context, Some("")}
  {
    var q := Detached(p.(context := Some("")));
    DetachedIsUnbound(p.(context := Some("")));
    var r := if q.usage.value.ours then q else q.(usage := Some(NoEvidence(s, q.usage.value)));
    forall key ensures Records(r, key) == Records(q, key) {
    }
    RefreshStaysUnbound(s, r);
  }

  /** The evidence accounting is truthful about the context that is there: what was packed and what
      was omitted always add up to the original candidates. */
  predicate Accounts(s: Setting, p: Payload, tokens: nat) {
    && p.usage.Some?
    && var u := p.usage.value;
       && u.contextTokens == Some(tokens)
       && u.packed == Some(if tokens > 0 then s.packed else 0)
       && u.omitted == Some(s.candidates - u.packed.value)
       && u.saved == Some(if u.sourceTokens > tokens then u.sourceTokens - tokens else 0)
  }

  lemma EvidenceIsConserved(s: Setting, budget: nat, base: Payload, result: Payload)
    requires base.usage.Some? && base == Refresh(s, base) && Reduced(s, budget, base, result)
    requires result != EMPTY && result != Envelope(s, budget)
    ensures result.usage.Some? && result.usage.value.ours && result.context.Some?
      ==> Accounts(s, result, s.meter.text(result.context.value))
    ensures !base.usage.value.ours && TextOf(base.context) != "" && TextOf(result.context) == ""
      ==> Accounts(s, result, 0)
  {
    var mid := AfterOmission(s, budget, base);
    if !base.usage.value.ours && TextOf(base.context) != "" && TextOf(result.context) == "" {
      assert result.context == mid.context;
      assert mid != base;
      assert Accounts(s, mid, 0);
      assert SameUsage(mid, result);
    }
  }

  /** Under the declared tokenizer the aliases say what the fields say, and the ratio is the saved share. */
  lemma AliasesAgree(s: Setting, p: Payload)
    requires p.usage.Some? && p.usage.value.ours && p.context.Some?
    ensures
      var u := Refresh(s, p).usage.value;
      && u.emittedAlias in {None, u.contextTokens} && u.savedAlias in {None, u.saved}
      && u.ratioAlias in {None, u.ratio} && u.ratio.Some? && u.saved.Some?
      && (u.sourceTokens > 0 ==> u.ratio.value * u.sourceTokens as real == u.saved.value as real)
      && (u.sourceTokens == 0 ==> u.ratio.value == 0.0)
      && (p.usage.value.emittedAlias.Some? <==> u.emittedAlias.Some?)
      && (p.usage.value.savedAlias.Some? <==> u.savedAlias.Some?)
      && (p.usage.value.ratioAlias.Some? <==> u.ratioAlias.Some?)
  {
  }

  /** Under a foreign tokenizer an omitted context has saved all its source tokens and packed no evidence. */
  lemma OmissionSavesEverything(s: Setting, budget: nat, p: Payload)
    requires p.usage.Some? && !p.usage.value.ours && !Fits(s, budget, p) && TextOf(p.context) != ""
    ensures
      var was, u := p.usage.value, AfterOmission(s, budget, p).usage.value;
      && AfterOmission(s, budget, p).usage.Some?
      && u.contextTokens == Some(0) && u.saved == Some(was.sourceTokens)
      && u.packed == Some(0) && u.omitted == Some(s.candidates)
      && u.ratio == Some(if was.sourceTokens == 0 then 0.0 else 1.0)
      && u.emittedAlias in {None, u.contextTokens} && u.savedAlias in {None, u.saved} && u.ratioAlias in {None, u.ratio}
  {
    RefreshWrites(s, Detached(p.(context := Some(""))));
  }

  /** A counter for which every number is one token. */
  ghost predicate NumbersAreOneToken(meter: Meter) {
    forall p: Payload, a: nat :: p.usage.Some? ==>
      meter.count(p.(usage := Some(p.usage.value.(actual := a)))) == meter.count(p)
  }

  /** Under such a counter the reported total is the size of the payload that reports it. */
  lemma ReportedTotalIsExact(s: Setting, p: Payload)
    requires NumbersAreOneToken(s.meter) && p.usage.Some?
    ensures Refresh(s, p).usage.value.actual == s.meter.count(Refresh(s, p))
  {
    var blank := p.(usage := Some(Truthful(s, p, p.usage.value).(actual := 0)));
    assert s.meter.count(blank.(usage := Some(blank.usage.value.(actual := s.meter.count(blank)))))
        == s.meter.count(blank);
  }
}
