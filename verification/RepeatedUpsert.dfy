/**
 When upserting the same settings a second time leaves the environment file of `config.py` as it is.
 The writer refuses only line feeds and carriage returns in a value, but the reader also splits lines at
 other characters, so one written value may be read back as several lines.
 */
module RepeatedUpsert {
  import opened Prelude
  import opened TrustedEnv

  // ---------- the lines of a written text ----------

  /** The lines that a text without line feeds is read back as. */
  function Pieces(x: string): (r: seq<string>)
    ensures r != [] && forall p <- r :: IsLine(p)
    decreases |x|
  {
    var e := LineEnd(x, 0);
    if e == |x| then
      assert x[0..e] == x;
      [x]
    else
      assert x[0..e] == x[..e];
      [x[..e]] + Pieces(x[e + 1..])
  }

  /** Every further line of the value assigns the key again. */
  predicate Repeats(key: string, value: string) {
    forall p <- Pieces(value)[1..] :: Target(p).Some? && Target(p).value.1 == key
  }

  /** A caller can check this before the call. */
  predicate IsStable(u: Update)
    requires forall k <- u.keys :: k in u.value
  {
    forall k <- u.keys :: Repeats(k, u.value[k])
  }

  /** The settings the writer accepts. */
  ghost predicate IsAccepted(u: Update) {
    ValidUpdate(u) && forall k <- u.value :: IsOneLine(u.value[k])
  }

  lemma LineIsOnePiece(x: string)
    requires IsLine(x)
    ensures Pieces(x) == [x]
  {
    LineEndIs(x, 0, |x|);
  }

  /** The first line of a text that is not one. */
  lemma FirstBreak(x: string) returns (line: string, c: char, rest: string)
    requires !IsLine(x)
    ensures x == line + [c] + rest && IsLine(line) && IsSeparator(c) && c in x
  {
    var e := LineEnd(x, 0);
    assert x[0..e] == x[..e];
    assert x[..|x|] == x;
    line, c, rest := x[..e], x[e], x[e + 1..];
  }

  lemma PiecesAfterBreak(line: string, c: char, rest: string)
    requires IsLine(line) && IsSeparator(c)
    ensures Pieces(line + [c] + rest) == [line] + Pieces(rest)
  {
    var x := line + [c] + rest;
    LineEndIs(x, 0, |line|);
    assert x[..|line|] == line && x[|line| + 1..] == rest;
  }

  lemma SplitAfterBreak(line: string, c: char, rest: string)
    requires IsLine(line) && IsSeparator(c) && c != '\r'
    ensures SplitLines(line + [c] + rest) == [line] + SplitLines(rest)
  {
    var x := line + [c] + rest;
    LineEndIs(x, 0, |line|);
    assert x[..|line|] == line && x[|line| + 1..] == rest;
  }

  lemma Regrouped(a: string, b: string, c: string, d: string)
    ensures a + b + c + d == a + b + (c + d) == a + (b + c + d)
  {
  }

  lemma {:induction false} SplitOfText(x: string, rest: string)
    requires IsOneLine(x)
    ensures SplitLines(x + "\n" + rest) == Pieces(x) + SplitLines(rest)
    decreases |x|
  {
    if IsLine(x) {
      LineIsOnePiece(x);
      SplitAfterBreak(x, '\n', rest);
    } else {
      var line, c, y := FirstBreak(x);
      RestIsOneLine(x, line + [c], y);
      SplitOfText(y, rest);
      SplitOneMore(x, line, c, y, rest);
    }
  }

  lemma RestIsOneLine(x: string, before: string, y: string)
    requires IsOneLine(x) && x == before + y
    ensures IsOneLine(y)
  {
    assert forall k | 0 <= k < |y| :: x[|before| + k] == y[k] && x[|before| + k] in x;
  }

  lemma SplitOneMore(x: string, line: string, c: char, y: string, rest: string)
    requires x == line + [c] + y && IsLine(line) && IsSeparator(c) && c != '\r'
    requires SplitLines(y + "\n" + rest) == Pieces(y) + SplitLines(rest)
    ensures SplitLines(x + "\n" + rest) == Pieces(x) + SplitLines(rest)
  {
    SplitAfterBreak(line, c, y + "\n" + rest);
    PiecesAfterBreak(line, c, y);
    LongText(line, [c], y, rest);
    LongList([line], Pieces(y), SplitLines(rest));
  }

  lemma LongText(line: string, c: string, y: string, rest: string)
    ensures line + c + y + "\n" + rest == line + c + (y + "\n" + rest)
  {
  }

  lemma LongList(a: seq<string>, b: seq<string>, c: seq<string>)
    ensures a + (b + c) == a + b + c
  {
  }

  lemma PiecesBehind(a: string, v: string)
    requires IsLine(a)
    ensures Pieces(a + v) == [a + Pieces(v)[0]] + Pieces(v)[1..]
  {
    if IsLine(v) {
      LineIsOnePiece(v);
      LinesTogether(a, v);
      LineIsOnePiece(a + v);
    } else {
      var line, c, y := FirstBreak(v);
      PiecesAfterBreak(line, c, y);
      LinesTogether(a, line);
      PiecesAfterBreak(a + line, c, y);
      Regrouped(a, line, [c], y);
    }
  }

  lemma LinesTogether(a: string, b: string)
    requires IsLine(a) && IsLine(b)
    ensures IsLine(a + b)
  {
    assert forall c <- a + b :: c in a || c in b;
  }

  function Last(x: string): string {
    Pieces(x)[|Pieces(x)| - 1]
  }

  lemma {:induction false} PiecesStripped(x: string)
    requires StripRight(Last(x)) != ""
    ensures StripRight(x) != ""
    ensures Pieces(StripRight(x)) == Pieces(x)[..|Pieces(x)| - 1] + [StripRight(Last(x))]
    decreases |x|
  {
    if IsLine(x) {
      LineIsOnePiece(x);
      StrippedIsLine(x);
      LineIsOnePiece(StripRight(x));
    } else {
      var line, c, y := FirstBreak(x);
      LastOfRest(line, c, y);
      PiecesStripped(y);
      StrippedOneMore(line, c, y);
    }
  }

  lemma LastOfRest(line: string, c: char, y: string)
    requires IsLine(line) && IsSeparator(c)
    ensures Last(line + [c] + y) == Last(y)
  {
    PiecesAfterBreak(line, c, y);
  }

  lemma StrippedOneMore(line: string, c: char, y: string)
    requires IsLine(line) && IsSeparator(c) && StripRight(y) != ""
    requires Pieces(StripRight(y)) == Pieces(y)[..|Pieces(y)| - 1] + [StripRight(Last(y))]
    ensures var x := line + [c] + y;
            && StripRight(x) != "" && Last(x) == Last(y)
            && Pieces(StripRight(x)) == Pieces(x)[..|Pieces(x)| - 1] + [StripRight(Last(x))]
  {
    StripRightBoth(line + [c], y);
    PiecesAfterBreak(line, c, y);
    PiecesAfterBreak(line, c, StripRight(y));
    FrontOf(line, Pieces(y), StripRight(Last(y)));
  }

  lemma FrontOf(line: string, ps: seq<string>, last: string)
    requires ps != []
    ensures [line] + (ps[..|ps| - 1] + [last]) == ([line] + ps)[..|ps|] + [last]
  {
  }

  lemma StrippedIsLine(x: string)
    requires IsLine(x)
    ensures IsLine(StripRight(x))
  {
    assert forall c <- StripRight(x) :: c in x;
  }

  /** The lines that these texts, joined, are read back as. */
  function Flat(texts: seq<string>): seq<string>
    decreases |texts|
  {
    if texts == [] then [] else Flat(texts[..|texts| - 1]) + Pieces(texts[|texts| - 1])
  }

  lemma {:induction false} SplitOfJoined(texts: seq<string>, rest: string)
    requires texts != [] && forall x <- texts :: IsOneLine(x)
    ensures SplitLines(Join(texts) + "\n" + rest) == Flat(texts) + SplitLines(rest)
    decreases |texts|
  {
    var but, last := texts[..|texts| - 1], texts[|texts| - 1];
    assert last in texts && texts == but + [last];
    SplitOfText(last, rest);
    if but == [] {
      assert Join(texts) == last;
      assert Flat(but) == [];
    } else {
      JoinLast(but, last);
      LongText(Join(but), "\n", last, rest);
      SplitOfJoined(but, last + "\n" + rest);
      LongList(Flat(but), Pieces(last), SplitLines(rest));
    }
  }

  // ---------- rewriting the pieces of a text ----------

  function RewriteAll(u: Update, done: Rewriting, lines: seq<string>): Rewriting
    decreases |lines|
  {
    if lines == [] then done
    else RewriteLine(u, RewriteAll(u, done, lines[..|lines| - 1]), lines[|lines| - 1])
  }

  lemma {:induction false} RewrittenIsAll(u: Update, lines: seq<string>)
    ensures Rewritten(u, lines) == RewriteAll(u, Rewriting([], {}), lines)
    decreases |lines|
  {
    if lines != [] {
      RewrittenIsAll(u, lines[..|lines| - 1]);
    }
  }

  lemma RewrittenBoth(u: Update, a: seq<string>, b: seq<string>)
    ensures Rewritten(u, a + b) == RewriteAll(u, Rewritten(u, a), b)
  {
    RewrittenIsAll(u, a);
    RewrittenIsAll(u, a + b);
    RewriteAllBoth(u, Rewriting([], {}), a, b);
  }

  lemma {:induction false} NothingToRewrite(u: Update, done: Rewriting, lines: seq<string>)
    requires forall p <- lines :: Target(p).Some? && Target(p).value.1 in u.value && Target(p).value.1 in done.found
    ensures RewriteAll(u, done, lines) == done
    decreases |lines|
  {
    if lines != [] {
      NothingToRewrite(u, done, lines[..|lines| - 1]);
    }
  }

  /** The pieces of the text are rewritten as the text is: it is one line, or an assignment whose further
      lines assign the same key. */
  predicate IsNice(u: Update, x: string) {
    var ps := Pieces(x);
    && IsOneLine(x) && Target(ps[0]) == Target(x)
    && (if |ps| == 1 then ps == [x]
        else
          && Target(x).Some? && Target(x).value.1 in u.value
          && forall p <- ps[1..] :: Target(p).Some? && Target(p).value.1 == Target(x).value.1)
  }

  lemma PiecesOfText(u: Update, done: Rewriting, x: string)
    requires IsNice(u, x)
    ensures RewriteAll(u, done, Pieces(x)) == RewriteLine(u, done, x)
  {
    var ps := Pieces(x);
    assert ps == [ps[0]] + ps[1..];
    RewriteAllBoth(u, done, [ps[0]], ps[1..]);
    assert [ps[0]][..0] == [];
    if |ps| > 1 {
      NothingToRewrite(u, RewriteLine(u, done, ps[0]), ps[1..]);
    } else {
      assert ps[1..] == [];
    }
  }

  lemma {:induction false} RewriteAllBoth(u: Update, done: Rewriting, a: seq<string>, b: seq<string>)
    ensures RewriteAll(u, done, a + b) == RewriteAll(u, RewriteAll(u, done, a), b)
    decreases |b|
  {
    if b == [] {
      assert a + b == a;
    } else {
      RewriteAllBoth(u, done, a, b[..|b| - 1]);
      assert (a + b)[..|a + b| - 1] == a + b[..|b| - 1];
    }
  }

  predicate AllNice(u: Update, texts: seq<string>) {
    forall i | 0 <= i < |texts| :: IsNice(u, texts[i])
  }

  lemma {:induction false} FlatIsRewrittenAlike(u: Update, texts: seq<string>)
    requires AllNice(u, texts)
    ensures Rewritten(u, Flat(texts)) == Rewritten(u, texts)
    decreases |texts|
  {
    if texts != [] {
      var but, last := texts[..|texts| - 1], texts[|texts| - 1];
      FlatIsRewrittenAlike(u, but);
      RewrittenBoth(u, Flat(but), Pieces(last));
      PiecesOfText(u, Rewritten(u, but), last);
    }
  }

  // ---------- stable settings ----------

  lemma LineIsNice(u: Update, x: string)
    requires IsLine(x)
    ensures IsNice(u, x)
  {
    LineIsOnePiece(x);
  }

  lemma AssignedIsNice(u: Update, indent: string, key: string)
    requires IsLine(indent) && (forall c <- indent :: IsSpace(c)) && IsKey(key) && key in u.value
    requires IsOneLine(u.value[key]) && Repeats(key, u.value[key])
    ensures IsNice(u, Assigned(indent, key, u.value[key]))
  {
    var v := u.value[key];
    var before := Assigned(indent, key, "");
    AssignedIsLine(indent, key, "");
    PiecesBehind(before, v);
    assert before + v == Assigned(indent, key, v);
    assert before + Pieces(v)[0] == Assigned(indent, key, Pieces(v)[0]);
    TargetOfAssigned(indent, key, v);
    TargetOfAssigned(indent, key, Pieces(v)[0]);
    assert IsOneLine(before + v) by {
      assert forall c <- before + v :: c in before || c in v;
    }
    if |Pieces(v)| == 1 {
      OnePieceIsAll(v);
    }
  }

  lemma OnePieceIsAll(v: string)
    requires |Pieces(v)| == 1
    ensures Pieces(v) == [v]
  {
  }

  lemma StrippedIsNice(u: Update, x: string)
    requires IsNice(u, x)
    ensures IsNice(u, StripRight(x))
  {
    if |Pieces(x)| == 1 {
      StrippedIsLine(x);
      LineIsNice(u, StripRight(x));
    } else {
      StrippedPieces(u, x);
    }
  }

  lemma StrippedPieces(u: Update, x: string)
    requires IsNice(u, x) && |Pieces(x)| > 1
    ensures IsNice(u, StripRight(x))
  {
    var n := |Pieces(x)| - 1;
    assert Last(x) in Pieces(x)[1..];
    TargetTrimmed(x);
    TargetTrimmed(Last(x));
    PiecesStripped(x);
    StrippedIsOneLine(x);
    PiecesWithTargets(u, x, Pieces(x)[..n] + [StripRight(Last(x))]);
  }

  lemma StrippedIsOneLine(x: string)
    requires IsOneLine(x)
    ensures IsOneLine(StripRight(x))
  {
    assert forall c <- StripRight(x) :: c in x;
  }

  lemma PiecesWithTargets(u: Update, x: string, ps: seq<string>)
    requires IsNice(u, x) && |Pieces(x)| > 1 && |ps| == |Pieces(x)|
    requires ps[..|ps| - 1] == Pieces(x)[..|ps| - 1] && Target(ps[|ps| - 1]) == Target(Last(x))
    ensures ps[0] == Pieces(x)[0]
    ensures forall p <- ps[1..] :: Target(p).Some? && Target(p).value.1 == Target(x).value.1
  {
    assert ps[0] == ps[..|ps| - 1][0] && Pieces(x)[0] == Pieces(x)[..|ps| - 1][0];
    forall p <- ps[1..] ensures Target(p).Some? && Target(p).value.1 == Target(x).value.1 {
      var i :| 1 <= i < |ps| && ps[i] == p;
      assert Pieces(x)[i] in Pieces(x)[1..];
      if i < |ps| - 1 {
        assert ps[..|ps| - 1][i] == Pieces(x)[..|ps| - 1][i];
      }
    }
  }

  lemma {:induction false} RewrittenAreNice(u: Update, lines: seq<string>)
    requires IsAccepted(u) && IsStable(u) && forall x <- lines :: IsLine(x)
    ensures forall x <- Rewritten(u, lines).lines :: IsNice(u, x)
    decreases |lines|
  {
    if lines != [] {
      var but, last := lines[..|lines| - 1], lines[|lines| - 1];
      RewrittenAreNice(u, but);
      assert last in lines;
      LineIsNice(u, last);
      if Target(last).Some? && Target(last).value.1 in u.value {
        var (indent, key) := Target(last).value;
        assert forall c <- indent :: c in last;
        AssignedIsNice(u, indent, key);
      }
    }
  }

  lemma {:induction false} MissingAreNice(u: Update, keys: seq<string>, found: set<string>)
    requires IsAccepted(u) && IsStable(u) && forall k <- keys :: k in u.keys
    ensures forall x <- TrustedEnv.Missing(u, keys, found) :: IsNice(u, x)
    decreases |keys|
  {
    if keys != [] {
      MissingAreNice(u, keys[..|keys| - 1], found);
      AssignedIsNice(u, "", keys[|keys| - 1]);
    }
  }

  lemma NewAreNice(u: Update, lines: seq<string>)
    requires IsAccepted(u) && IsStable(u) && forall x <- lines :: IsLine(x)
    ensures AllNice(u, NewLines(u, lines)) && AllNice(u, Trimmed(NewLines(u, lines)))
  {
    var r := Rewritten(u, lines);
    RewrittenAreNice(u, lines);
    MissingAreNice(u, u.keys, r.found);
    SeparatedAreNice(u, r.lines);
    BothAreNice(u, Separated(r.lines), TrustedEnv.Missing(u, u.keys, r.found));
    TrimmedIsTrim(NewLines(u, lines));
    TrimmedAreNice(u, NewLines(u, lines), Trimmed(NewLines(u, lines)));
  }

  lemma SeparatedAreNice(u: Update, texts: seq<string>)
    requires forall x <- texts :: IsNice(u, x)
    ensures AllNice(u, Separated(texts))
  {
    LineIsNice(u, "");
  }

  lemma BothAreNice(u: Update, a: seq<string>, b: seq<string>)
    requires AllNice(u, a) && forall x <- b :: IsNice(u, x)
    ensures AllNice(u, a + b)
  {
    forall i | 0 <= i < |a + b| ensures IsNice(u, (a + b)[i]) {
      assert (a + b)[i] == if i < |a| then a[i] else b[i - |a|];
    }
  }

  lemma TrimmedAreNice(u: Update, texts: seq<string>, r: seq<string>)
    requires AllNice(u, texts) && IsTrim(texts, r)
    ensures AllNice(u, r)
  {
    forall i | 0 <= i < |r| ensures IsNice(u, r[i]) {
      if i == |r| - 1 {
        StrippedIsNice(u, texts[i]);
      } else {
        assert r[i] == texts[..|r| - 1][i];
      }
    }
  }

  lemma NiceIsOneLine(u: Update, texts: seq<string>)
    requires AllNice(u, texts)
    ensures forall x <- texts :: IsOneLine(x)
  {
    forall i | 0 <= i < |texts| ensures IsOneLine(texts[i]) {
      assert IsNice(u, texts[i]);
    }
  }

  lemma SplitOfNice(u: Update, texts: seq<string>)
    requires texts != [] && AllNice(u, texts)
    ensures SplitLines(Join(texts) + "\n") == Flat(texts)
  {
    NiceIsOneLine(u, texts);
    SplitOfJoined(texts, "");
    assert Join(texts) + "\n" + "" == Join(texts) + "\n";
    assert Flat(texts) + [] == Flat(texts);
  }

  lemma WrittenLines(u: Update, existing: string)
    requires IsAccepted(u) && IsStable(u)
    ensures
      var r := Trimmed(NewLines(u, SplitLines(existing)));
      SplitLines(Upserted(u, existing)) == if r == [] then [""] else Flat(r)
  {
    var lines := NewLines(u, SplitLines(existing));
    var r := Trimmed(lines);
    StripJoined(lines);
    NewAreNice(u, SplitLines(existing));
    if r == [] {
      SplitJoined([""]);
    } else {
      SplitOfNice(u, r);
    }
  }

  /** When every further line of a value assigns its own key again, upserting twice writes the same file as
      upserting once; a value without a line separator has no further line. */
  lemma UpsertTwice(u: Update, existing: string)
    requires IsAccepted(u) && IsStable(u)
    ensures Upserted(u, Upserted(u, existing)) == Upserted(u, existing)
  {
    var lines := NewLines(u, SplitLines(existing));
    var r := Trimmed(lines);
    var found := NewLinesAreFixed(u, SplitLines(existing));
    WrittenLines(u, existing);
    TrimmedIsTrim(lines);
    NewAreNice(u, SplitLines(existing));
    FlatIsRewrittenAlike(u, r);
    NewLinesOfWritten(u, lines, r, found);
    SameTrimSameText(lines, NewLines(u, SplitLines(Upserted(u, existing))));
  }

  // ---------- settings that are not stable ----------

  predicate RepeatsKey(key: string, p: string) {
    Target(p).Some? && Target(p).value.1 == key
  }

  lemma {:induction false} FirstFalse(bs: seq<bool>, last: nat) returns (j: nat)
    requires 0 < last < |bs| && !bs[last]
    ensures 0 < j < |bs| && !bs[j] && forall i | 0 < i < j :: bs[i]
  {
    if k :| 0 < k < last && !bs[k] {
      j := FirstFalse(bs, k);
    } else {
      j := last;
    }
  }

  lemma FirstOtherIn(key: string, ps: seq<string>, last: nat) returns (j: nat)
    requires 0 < last < |ps| && !RepeatsKey(key, ps[last])
    ensures 0 < j < |ps| && !RepeatsKey(key, ps[j]) && forall i | 0 < i < j :: RepeatsKey(key, ps[i])
  {
    var bs := seq(|ps|, i requires 0 <= i < |ps| => RepeatsKey(key, ps[i]));
    j := FirstFalse(bs, last);
    forall i | 0 < i < j ensures RepeatsKey(key, ps[i]) {
      assert bs[i];
    }
  }

  lemma NotAllRepeat(key: string, value: string)
    requires !Repeats(key, value)
    ensures exists p <- Pieces(value)[1..] :: !RepeatsKey(key, p)
  {
  }

  /** The first further line that does not assign the key again. */
  lemma FirstOther(key: string, value: string) returns (j: nat)
    requires !Repeats(key, value)
    ensures 0 < j < |Pieces(value)| && !RepeatsKey(key, Pieces(value)[j])
    ensures forall i | 0 < i < j :: RepeatsKey(key, Pieces(value)[i])
  {
    NotAllRepeat(key, value);
    var last := SomeOther(key, Pieces(value));
    j := FirstOtherIn(key, Pieces(value), last);
  }

  lemma SomeOther(key: string, ps: seq<string>) returns (last: nat)
    requires ps != [] && exists p <- ps[1..] :: !RepeatsKey(key, p)
    ensures 0 < last < |ps| && !RepeatsKey(key, ps[last])
  {
    var p :| p in ps[1..] && !RepeatsKey(key, p);
    var k :| 0 <= k < |ps[1..]| && ps[1..][k] == p;
    last := k + 1;
  }

  /** A comment that is not this line. */
  function Comment(p: string): (m: string)
    ensures m != p && m != "" && m[0] == '#' && m[|m| - 1] == '#'
  {
    if p == "#" then "##" else "#"
  }

  lemma NoTargetInComment(m: string)
    requires m != "" && m[0] == '#'
    ensures Target(m) == None
  {
    SkipSpacesIs(m, 0, 0);
    assert !ExportAt(m, 0);
    assert KeyEnd(m, 0) == 0;
  }

  lemma CommentIsPlain(p: string)
    ensures IsLine(Comment(p)) && IsOneLine(Comment(p)) && Target(Comment(p)) == None
    ensures StripRight(Comment(p)) == Comment(p) && SplitLines(Comment(p)) == [Comment(p)]
  {
    var m := Comment(p);
    assert forall c <- m :: c == '#';
    NoTargetInComment(m);
    LineEndIs(m, 0, |m|);
  }

  /** A file that assigns the key and ends with a comment. */
  function Witness(key: string, m: string): string {
    Assigned("", key, "") + "\n" + m
  }

  lemma WitnessLines(key: string, p: string)
    requires IsKey(key)
    ensures SplitLines(Witness(key, Comment(p))) == [Assigned("", key, ""), Comment(p)]
  {
    AssignedIsLine("", key, "");
    LineIsOnePiece(Assigned("", key, ""));
    LineIsOneLine(Assigned("", key, ""));
    CommentIsPlain(p);
    SplitOfText(Assigned("", key, ""), Comment(p));
  }

  lemma LineIsOneLine(x: string)
    requires IsLine(x)
    ensures IsOneLine(x)
  {
  }

  lemma FirstRewriting(u: Update, key: string, m: string)
    requires IsKey(key) && key in u.value && Target(m) == None
    ensures Rewritten(u, [Assigned("", key, "")] + [m]) == Rewriting([Assigned("", key, u.value[key]), m], {key})
  {
    FirstPiece(u, key, "");
    OneMoreRewritten(u, [Assigned("", key, "")], m);
  }

  lemma FirstNewLines(u: Update, key: string, m: string)
    requires ValidUpdate(u) && key in u.keys && Target(m) == None && StripRight(m) != ""
    ensures NewLines(u, [Assigned("", key, ""), m])
         == [Assigned("", key, u.value[key]), m, ""] + TrustedEnv.Missing(u, u.keys, {key})
  {
    FirstRewriting(u, key, m);
    TwoSeparated(Assigned("", key, u.value[key]), m);
    assert [Assigned("", key, "")] + [m] == [Assigned("", key, ""), m];
  }

  lemma TwoSeparated(a: string, m: string)
    requires StripRight(m) != ""
    ensures Separated([a, m]) == [a, m, ""]
  {
    assert [a, m] + [""] == [a, m, ""];
  }

  lemma LineFeedFirst(rest: string) returns (y: string)
    ensures StripRight("\n" + rest) == "" || StripRight("\n" + rest) == "\n" + y
  {
    var s := "\n" + rest;
    var r := StripRight(s);
    if r != "" {
      assert r[0] == s[0];
      y := r[1..];
      assert r == [r[0]] + y;
    } else {
      y := "";
    }
  }

  lemma EndsInText(a: string)
    requires a != "" && !IsSpace(a[|a| - 1])
    ensures StripRight(a) == a
  {
  }

  /** A text that ends in no space keeps its lines, whatever is stripped behind. */
  lemma BeginsWith(a: string, rest: string) returns (x: string)
    requires a != "" && !IsSpace(a[|a| - 1])
    ensures StripRight(a + "\n" + rest) + "\n" == a + "\n" + x
  {
    var y := LineFeedFirst(rest);
    EndsInText(a);
    x := Stripped(a, "\n" + rest, y);
    assert a + "\n" + rest == a + ("\n" + rest);
  }

  lemma Stripped(a: string, rest: string, y: string) returns (x: string)
    requires StripRight(a) == a && (StripRight(rest) == "" || StripRight(rest) == "\n" + y)
    ensures StripRight(a + rest) + "\n" == a + "\n" + x
  {
    StripRightBoth(a, rest);
    if StripRight(rest) == "" {
      x := "";
      assert a + "\n" + "" == a + "\n";
    } else {
      x := y + "\n";
      Regrouped(a, "\n", y, "\n");
    }
  }

  lemma JoinOfTwoAnd(a: string, b: string, more: seq<string>)
    requires more != []
    ensures Join([a, b] + more) == a + "\n" + b + "\n" + Join(more)
  {
    assert ([a, b] + more)[1..] == [b] + more && ([b] + more)[1..] == more;
    assert a + "\n" + (b + "\n" + Join(more)) == a + "\n" + b + "\n" + Join(more);
  }

  lemma FirstJoined(whole: string, m: string, missing: seq<string>) returns (x: string)
    requires m != "" && m[|m| - 1] == '#'
    ensures StripRight(Join([whole, m, ""] + missing)) + "\n" == whole + "\n" + m + "\n" + x
  {
    var more := [""] + missing;
    assert [whole, m, ""] + missing == [whole, m] + more;
    JoinOfTwoAnd(whole, m, more);
    x := BeginsWith(whole + "\n" + m, Join(more));
  }

  lemma FirstText(u: Update, key: string, p: string) returns (x: string)
    requires ValidUpdate(u) && key in u.keys
    ensures Upserted(u, Witness(key, Comment(p))) == Assigned("", key, u.value[key]) + "\n" + Comment(p) + "\n" + x
  {
    CommentIsPlain(p);
    WitnessLines(key, p);
    FirstNewLines(u, key, Comment(p));
    x := FirstJoined(Assigned("", key, u.value[key]), Comment(p), TrustedEnv.Missing(u, u.keys, {key}));
  }

  // ---------- what the second upsert makes of it ----------

  /** What a line turns into that does not repeat the key just written. */
  function Rendered(u: Update, p: string): string {
    if Target(p).Some? && Target(p).value.1 in u.value
    then Assigned(Target(p).value.0, Target(p).value.1, u.value[Target(p).value.1]) else p
  }

  lemma {:induction false} Extends(u: Update, done: Rewriting, lines: seq<string>)
    ensures done.lines <= RewriteAll(u, done, lines).lines
    decreases |lines|
  {
    if lines != [] {
      Extends(u, done, lines[..|lines| - 1]);
    }
  }

  lemma CommentStays(u: Update, done: Rewriting, a: seq<string>, m: string, b: seq<string>)
    requires Target(m) == None
    ensures done.lines <= RewriteAll(u, done, a + [m] + b).lines
    ensures m in RewriteAll(u, done, a + [m] + b).lines[|done.lines|..]
  {
    var before := RewriteAll(u, done, a);
    Extends(u, done, a);
    RewriteAllBoth(u, done, a, [m]);
    RewriteAllBoth(u, done, a + [m], b);
    assert [m][..0] == [];
    var with_ := RewriteAll(u, before, [m]);
    assert with_.lines == before.lines + [m];
    Extends(u, with_, b);
    var all := RewriteAll(u, done, a + [m] + b).lines;
    assert all[|before.lines|] == m && |before.lines| >= |done.lines|;
    assert all[|done.lines|..][|before.lines| - |done.lines|] == m;
  }

  lemma FirstPiece(u: Update, key: string, p0: string)
    requires IsKey(key) && key in u.value
    ensures Rewritten(u, [Assigned("", key, p0)]) == Rewriting([Assigned("", key, u.value[key])], {key})
  {
    TargetOfAssigned("", key, p0);
    assert [] + [Assigned("", key, p0)] == [Assigned("", key, p0)];
    OneMoreRewritten(u, [], Assigned("", key, p0));
  }

  lemma RepeatedPieces(u: Update, key: string, first: string, repeated: seq<string>, done: Rewriting)
    requires Rewritten(u, [first]) == done && key in done.found && key in u.value
    requires forall p <- repeated :: RepeatsKey(key, p)
    ensures Rewritten(u, [first] + repeated) == done
  {
    RewrittenBoth(u, [first], repeated);
    NothingToRewrite(u, done, repeated);
  }

  lemma OtherPiece(u: Update, key: string, lines: seq<string>, p: string, done: Rewriting)
    requires Rewritten(u, lines) == done && done.found == {key} && !RepeatsKey(key, p)
    ensures Rewritten(u, lines + [p]).lines == done.lines + [Rendered(u, p)]
  {
    OneMoreRewritten(u, lines, p);
  }

  /** Up to the first other line of the value, rewriting its pieces leaves the whole text and that line. */
  lemma UpToTheOther(u: Update, key: string, p0: string, repeated: seq<string>, p: string)
    requires IsKey(key) && key in u.value && !RepeatsKey(key, p) && forall r <- repeated :: RepeatsKey(key, r)
    ensures Rewritten(u, [Assigned("", key, p0)] + repeated + [p]).lines
         == [Assigned("", key, u.value[key]), Rendered(u, p)]
  {
    FirstPiece(u, key, p0);
    var done := Rewriting([Assigned("", key, u.value[key])], {key});
    RepeatedPieces(u, key, Assigned("", key, p0), repeated, done);
    OtherPiece(u, key, [Assigned("", key, p0)] + repeated, p, done);
  }

  lemma LinesBehind(u: Update, front: seq<string>, a: seq<string>, m: string, b: seq<string>, two: seq<string>)
    returns (rest: seq<string>)
    requires ValidUpdate(u) && Rewritten(u, front).lines == two && Target(m) == None
    ensures NewLines(u, front + (a + [m] + b)) == two + rest && m in rest
  {
    RewrittenBoth(u, front, a + [m] + b);
    CommentStays(u, Rewritten(u, front), a, m, b);
    var r := Rewritten(u, front + (a + [m] + b));
    rest := r.lines[|two|..] + (Separated(r.lines)[|r.lines|..] + TrustedEnv.Missing(u, u.keys, r.found));
    SeparatedExtends(r.lines);
    assert r.lines == two + r.lines[|two|..];
    FourParts(two, r.lines[|two|..], Separated(r.lines)[|r.lines|..], TrustedEnv.Missing(u, u.keys, r.found));
  }

  lemma SeparatedExtends(lines: seq<string>)
    ensures |lines| <= |Separated(lines)| && Separated(lines) == lines + Separated(lines)[|lines|..]
  {
  }

  lemma FourParts(a: seq<string>, b: seq<string>, c: seq<string>, d: seq<string>)
    ensures (a + b) + c + d == a + (b + (c + d))
  {
  }

  lemma PiecesInParts(ps: seq<string>, first: string, j: nat, m: string, more: seq<string>)
    requires 0 < j < |ps|
    ensures [first] + ps[1..] + [m] + more == ([first] + ps[1..j] + [ps[j]]) + (ps[j + 1..] + [m] + more)
  {
    assert ps[1..] == ps[1..j] + [ps[j]] + ps[j + 1..];
  }

  lemma SecondNewLines(u: Update, key: string, j: nat, p: string, more: seq<string>) returns (rest: seq<string>)
    requires ValidUpdate(u) && key in u.keys && 0 < j < |Pieces(u.value[key])| && p == Pieces(u.value[key])[j]
    requires !RepeatsKey(key, p) && forall i | 0 < i < j :: RepeatsKey(key, Pieces(u.value[key])[i])
    ensures var v := u.value[key];
            NewLines(u, Pieces(Assigned("", key, v)) + [Comment(p)] + more)
            == [Assigned("", key, v), Rendered(u, p)] + rest
    ensures Comment(p) in rest
  {
    var v, ps := u.value[key], Pieces(u.value[key]);
    var first := Assigned("", key, ps[0]);
    CommentIsPlain(p);
    PiecesOfAssigned(key, v);
    Between(key, ps, j);
    UpToTheOther(u, key, ps[0], ps[1..j], p);
    PiecesInParts(ps, first, j, Comment(p), more);
    rest := LinesBehind(u, [first] + ps[1..j] + [p], ps[j + 1..], Comment(p), more,
                        [Assigned("", key, v), Rendered(u, p)]);
  }

  lemma Between(key: string, ps: seq<string>, j: nat)
    requires 0 < j < |ps| && forall i | 0 < i < j :: RepeatsKey(key, ps[i])
    ensures forall r <- ps[1..j] :: RepeatsKey(key, r)
  {
    forall r <- ps[1..j] ensures RepeatsKey(key, r) {
      var k :| 0 <= k < j - 1 && ps[1..j][k] == r;
      assert ps[k + 1] == r;
    }
  }

  lemma PiecesOfAssigned(key: string, v: string)
    requires IsKey(key)
    ensures Pieces(Assigned("", key, v)) == [Assigned("", key, Pieces(v)[0])] + Pieces(v)[1..]
  {
    AssignedIsLine("", key, "");
    PiecesBehind(Assigned("", key, ""), v);
    assert Assigned("", key, "") + v == Assigned("", key, v);
    assert Assigned("", key, "") + Pieces(v)[0] == Assigned("", key, Pieces(v)[0]);
  }

  lemma {:induction false} JoinHas(texts: seq<string>, x: string)
    requires x in texts && x != ""
    ensures x[0] in Join(texts)
  {
    if |texts| > 1 {
      assert texts == [texts[0]] + texts[1..];
      if x == texts[0] {
        assert x[0] in texts[0];
      } else {
        JoinHas(texts[1..], x);
      }
    } else {
      assert texts[0] == x;
    }
  }

  lemma SomeText(s: string)
    requires '#' in s
    ensures StripRight(s) != ""
  {
    var k :| 0 <= k < |s| && s[k] == '#';
  }

  lemma StrippedBehind(a: string, b: string) returns (z: string)
    requires StripRight(b) != ""
    ensures StripRight(a + b) + "\n" == a + z
  {
    StripRightBoth(a, b);
    z := StripRight(b) + "\n";
    assert a + StripRight(b) + "\n" == a + z;
  }

  lemma SecondText(u: Update, existing: string, whole: string, q: string, rest: seq<string>, m: string)
    returns (z: string)
    requires (forall k <- u.keys :: k in u.value) && NewLines(u, SplitLines(existing)) == [whole, q] + rest
    requires m in rest && m != "" && m[0] == '#'
    ensures Upserted(u, existing) == whole + "\n" + q + "\n" + z
  {
    JoinOfTwoAnd(whole, q, rest);
    JoinHas(rest, m);
    SomeText(Join(rest));
    z := StrippedBehind(whole + "\n" + q + "\n", Join(rest));
  }

  lemma CharAt(before: string, m: string, x: string, k: nat)
    requires k <= |m|
    ensures |before| + k < |before + m + "\n" + x|
    ensures (before + m + "\n" + x)[|before| + k] == if k < |m| then m[k] else '\n'
  {
  }

  lemma LinesDiffer(before: string, m: string, x: string, q: string, z: string)
    requires m != q && m != "" && m[0] == '#' && '\n' !in m && ('\n' !in q || (q != "" && q[0] != '#'))
    ensures before + m + "\n" + x != before + q + "\n" + z
  {
    var k: nat;
    if q != "" && q[0] != '#' {
      k := 0;
    } else if |m| == |q| {
      k :| 0 <= k < |m| && m[k] != q[k];
    } else {
      k := if |m| < |q| then |m| else |q|;
    }
    CharAt(before, m, x, k);
    CharAt(before, q, z, k);
  }

  lemma RenderedDiffers(u: Update, p: string)
    requires IsLine(p)
    ensures Rendered(u, p) != Comment(p)
    ensures '\n' !in Rendered(u, p) || (Rendered(u, p) != "" && Rendered(u, p)[0] != '#')
  {
    if Target(p).Some? && Target(p).value.1 in u.value {
      var (indent, key) := Target(p).value;
      assert IsKeyChar(key[0]);
      assert Assigned(indent, key, u.value[key])[0] == if indent == "" then key[0] else indent[0];
      assert indent != "" ==> IsSpace(indent[0]);
    }
  }

  lemma SecondDiffers(u: Update, key: string, j: nat) returns (existing: string)
    requires IsAccepted(u) && key in u.keys && 0 < j < |Pieces(u.value[key])|
    requires !RepeatsKey(key, Pieces(u.value[key])[j])
    requires forall i | 0 < i < j :: RepeatsKey(key, Pieces(u.value[key])[i])
    ensures Upserted(u, Upserted(u, existing)) != Upserted(u, existing)
  {
    var whole, p := Assigned("", key, u.value[key]), Pieces(u.value[key])[j];
    var m := Comment(p);
    existing := Witness(key, m);
    CommentIsPlain(p);
    var x := FirstText(u, key, p);
    WrittenTwo(u, key, m, x);
    var rest := SecondNewLines(u, key, j, p, SplitLines(x));
    var z := SecondText(u, Upserted(u, existing), whole, Rendered(u, p), rest, m);
    RenderedDiffers(u, p);
    LinesDiffer(whole + "\n", m, x, Rendered(u, p), z);
  }

  lemma WrittenTwo(u: Update, key: string, m: string, x: string)
    requires IsAccepted(u) && key in u.keys && IsLine(m) && IsOneLine(m)
    ensures var whole := Assigned("", key, u.value[key]);
            SplitLines(whole + "\n" + m + "\n" + x) == Pieces(whole) + [m] + SplitLines(x)
  {
    var whole := Assigned("", key, u.value[key]);
    WholeIsOneLine(key, u.value[key]);
    LineIsOnePiece(m);
    SplitOfText(m, x);
    SplitOfText(whole, m + "\n" + x);
    LongText(whole, "\n", m, x);
    LongList(Pieces(whole), [m], SplitLines(x));
  }

  lemma WholeIsOneLine(key: string, v: string)
    requires IsKey(key) && IsOneLine(v)
    ensures IsOneLine(Assigned("", key, v))
  {
    AssignedIsLine("", key, "");
    assert forall c <- Assigned("", key, v) :: c in Assigned("", key, "") || c in v;
  }

  /** For every update the writer accepts: upserting it twice writes what upserting it once does, whatever
      the file held, exactly when every further line of each value assigns its own key again. */
  lemma UpsertTwiceExactlyWhen(u: Update)
    requires IsAccepted(u)
    ensures (forall existing :: Upserted(u, Upserted(u, existing)) == Upserted(u, existing)) <==> IsStable(u)
  {
    if IsStable(u) {
      forall existing ensures Upserted(u, Upserted(u, existing)) == Upserted(u, existing) {
        UpsertTwice(u, existing);
      }
    } else {
      var key :| key in u.keys && !Repeats(key, u.value[key]);
      var j := FirstOther(key, u.value[key]);
      var existing := SecondDiffers(u, key, j);
    }
  }

  /** Values without a line separator are stable. */
  lemma LinesAreStable(u: Update)
    requires ValidUpdate(u) && forall k <- u.value :: IsLine(u.value[k])
    ensures IsAccepted(u) && IsStable(u)
  {
    forall k <- u.keys ensures Repeats(k, u.value[k]) && IsOneLine(u.value[k]) {
      LineIsOnePiece(u.value[k]);
      LineIsOneLine(u.value[k]);
    }
  }
}
