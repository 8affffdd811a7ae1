/**
 The optimistic read of a private state file (`read_private_text` of `private_state.py`) against
 writers that may act between any two of its system calls.
 */
module PrivateState {
  import opened Prelude

  type Inode = nat
  type Byte = n: int | 0 <= n < 256

  /** A regular file; `stamp` stands for the metadata that an in-place write changes. */
  datatype File = File(content: seq<Byte>, stamp: nat, links: nat)

  datatype Leaf = Absent | Special | Regular(inode: Inode)

  datatype World = World(leaf: Leaf, files: map<Inode, File>)

  /** The file system as it is at each tick. */
  type History = nat -> World

  ghost predicate WellFormed(h: History) {
    forall t: nat :: h(t).leaf.Regular? ==> h(t).leaf.inode in h(t).files
  }

  /** What may happen to the files between two ticks. */
  predicate MayBecome(before: map<Inode, File>, after: map<Inode, File>) {
    forall i <- before ::
      (i in after && before[i].stamp <= after[i].stamp
       && (before[i].stamp == after[i].stamp ==> before[i].content == after[i].content))
  }

  predicate Tick(h: History, t: nat) {
    MayBecome(h(t).files, h(t + 1).files)
  }

  /** Every in-place write changes the stamp, stamps never recur, and an inode number is not used for
      another file while the read runs. */
  ghost predicate StampsAreHonest(h: History) {
    forall t: nat :: Tick(h, t)
  }

  datatype Result = Nothing | Refused | Content(data: seq<Byte>)

  const CHUNK: nat := 65536

  function Least(a: nat, b: nat): nat {
    if a < b then a else b
  }

  /** What a read of at most `want` bytes at this offset returns; `given` is how many the system is
      ready to hand out, at least one. */
  function ReadAt(f: File, offset: nat, want: nat, given: nat): seq<Byte> {
    if offset >= |f.content| then []
    else f.content[offset..offset + Least(Least(want, given + 1), |f.content| - offset)]
  }

  /** `_checked_lstat` on a leaf that exists. */
  predicate IsSafe(w: World) {
    w.leaf.Regular? && w.leaf.inode in w.files && w.files[w.leaf.inode].links == 1
  }

  lemma {:induction false} SameStampSameContent(h: History, i: Inode, a: nat, b: nat, t: nat)
    requires StampsAreHonest(h) && a <= t <= b && i in h(a).files
    ensures i in h(t).files && i in h(b).files
    ensures h(a).files[i].stamp <= h(t).files[i].stamp <= h(b).files[i].stamp
    ensures h(a).files[i].stamp == h(b).files[i].stamp ==> h(t).files[i].content == h(a).files[i].content
    decreases b - a
  {
    if a < t {
      SameStampSameContent(h, i, a, b - 1, if t == b then b - 1 else t);
      assert Tick(h, b - 1);
    } else if t < b {
      SameStampSameContent(h, i, a, b - 1, t);
      assert Tick(h, b - 1);
    }
  }

  /** The bytes read so far are right if the file still has the stamp it was opened with. */
  ghost predicate ReadSoFar(h: History, i: Inode, first: nat, now: nat, data: seq<Byte>) {
    && first <= now && i in h(first).files && i in h(now).files
    && h(first).files[i].stamp <= h(now).files[i].stamp
    && (h(first).files[i].stamp == h(now).files[i].stamp ==> data <= h(first).files[i].content)
  }

  lemma OneMoreChunk(h: History, i: Inode, first: nat, now: nat, data: seq<Byte>, want: nat, given: nat)
    requires StampsAreHonest(h) && ReadSoFar(h, i, first, now, data)
    ensures i in h(now + 1).files
    ensures ReadSoFar(h, i, first, now + 1, data + ReadAt(h(now + 1).files[i], |data|, want, given))
    ensures want > 0 && ReadAt(h(now + 1).files[i], |data|, want, given) == [] ==>
      (h(first).files[i].stamp == h(now + 1).files[i].stamp ==> data == h(first).files[i].content)
  {
    SameStampSameContent(h, i, first, now + 1, now + 1);
    SameStampSameContent(h, i, first, now + 1, now);
  }

  /** The inspection and the opening: an answer already, or the inode that is open. */
  method Open(h: History, start: nat, max: nat, allowMissing: bool) returns (r: Option<Result>, inode: Inode, now: nat)
    requires WellFormed(h)
    ensures start <= now
    ensures r.Some? ==> r.value.Refused? || (r.value.Nothing? && allowMissing && h(now).leaf.Absent?)
    ensures r.None? ==> IsSafe(h(now)) && h(now).leaf.inode == inode
    ensures IsQuiet(h, start) ==>
      (if r.Some? then r.value == QuietResult(h(start), max, allowMissing)
       else h(now) == h(start) && IsSafe(h(start)) && |h(start).files[inode].content| <= max)
  {
    now, inode := start, 0;
    if h(now).leaf.Absent? {
      r := Some(if allowMissing then Nothing else Refused);
      return;
    }
    if !IsSafe(h(now)) || |h(now).files[h(now).leaf.inode].content| > max {
      r := Some(Refused);
      return;
    }
    inode := h(now).leaf.inode;
    now := now + 1;
    if h(now).leaf.Absent? {
      r := Some(if allowMissing then Nothing else Refused);
    } else if !IsSafe(h(now)) || h(now).leaf.inode != inode {
      r := Some(Refused);
    } else {
      r := None;
    }
  }

  /** The closing checks: the open file and the path still show the version that was opened. */
  method Verify(h: History, inode: Inode, first: nat, start: nat) returns (ok: bool, now: nat)
    requires StampsAreHonest(h) && first <= start && inode in h(first).files
    ensures start <= now
    ensures ok ==> IsSafe(h(now)) && h(now).leaf.inode == inode && inode in h(start).files
    ensures ok ==> h(first).files[inode].stamp == h(start).files[inode].stamp == h(now).files[inode].stamp
    ensures ok ==> h(now).files[inode].content == h(first).files[inode].content
    ensures IsQuiet(h, first) && IsSafe(h(first)) && h(first).leaf.inode == inode ==> ok
  {
    now := start + 2;
    SameStampSameContent(h, inode, first, now, start);
    SameStampSameContent(h, inode, first, now, start + 1);
    SameStampSameContent(h, inode, first, now, now);
    SameStampSameContent(h, inode, start, now, start + 1);
    var after := h(start + 1).files[inode].stamp;
    ok := IsSafe(h(now)) && h(now).leaf.inode == inode
      && h(first).files[inode].stamp == after && h(now).files[inode].stamp == after;
  }

  /** `read_private_text` before decoding, one tick for each system call.  A text is the whole content
      of the file that the path names when the call ends. */
  method ReadPrivate(h: History, start: nat, max: nat, allowMissing: bool, given: nat -> nat)
    returns (r: Result, end: nat)
    requires WellFormed(h) && StampsAreHonest(h)
    ensures start <= end
    ensures r.Content? ==> |r.data| <= max && IsSafe(h(end)) && r.data == h(end).files[h(end).leaf.inode].content
    ensures r.Content? ==> h(end).leaf.Regular? && h(end).files[h(end).leaf.inode].links == 1
    ensures r.Nothing? ==> allowMissing && h(end).leaf.Absent?
    ensures IsQuiet(h, start) ==> r == QuietResult(h(start), max, allowMissing)
  {
    var answer, inode, first := Open(h, start, max, allowMissing);
    if answer.Some? {
      return answer.value, first;
    }
    var data;
    data, end := ReadChunks(h, inode, first, max, given);
    if |data| > max {
      return Refused, end;
    }
    var ok;
    ghost var last := end;
    ok, end := Verify(h, inode, first, end);
    r := if ok then Content(data) else Refused;
  }

  /** The read loop. */
  method ReadChunks(h: History, i: Inode, start: nat, max: nat, given: nat -> nat) returns (data: seq<Byte>, now: nat)
    requires StampsAreHonest(h) && i in h(start).files
    ensures start <= now && ReadSoFar(h, i, start, now, data)
    ensures |data| <= max && h(start).files[i].stamp == h(now).files[i].stamp ==> data == h(start).files[i].content
    ensures |data| > max && h(start).files[i].stamp == h(now).files[i].stamp ==> |h(start).files[i].content| > max
  {
    data, now := [], start;
    while |data| <= max
      invariant start <= now && ReadSoFar(h, i, start, now, data)
      decreases max + 1 - |data|
    {
      var want := Least(CHUNK, max + 1 - |data|);
      OneMoreChunk(h, i, start, now, data, want, given(now));
      now := now + 1;
      var chunk := ReadAt(h(now).files[i], |data|, want, given(now - 1));
      if chunk == [] {
        return;
      }
      data := data + chunk;
    }
  }

  /** Nobody touches the file system any more. */
  ghost predicate IsQuiet(h: History, start: nat) {
    forall t: nat :: t >= start ==> h(t) == h(start)
  }

  function QuietResult(w: World, max: nat, allowMissing: bool): Result {
    if w.leaf.Absent? then (if allowMissing then Nothing else Refused)
    else if IsSafe(w) && |w.files[w.leaf.inode].content| <= max then Content(w.files[w.leaf.inode].content)
    else Refused
  }
}
