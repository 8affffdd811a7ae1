/**
 The language of the trusted environment file (`_parse_trusted_env_value` and `_parse_trusted_env` of
 `config.py`), form by form: which texts are comments, quoted and unquoted values, assignments, and what each of
 them means; and which settings the writer of the same file accepts.
 */
module EnvSyntax {
  import opened Prelude
  import opened TrustedEnv

  predicate AllBlank(s: string) {
    forall k :: 0 <= k < |s| ==> IsBlank(s[k])
  }

  /** Neither end is blank. */
  predicate IsTight(s: string) {
    s != "" ==> !IsBlank(s[0]) && !IsBlank(s[|s| - 1])
  }

  /** No character that means anything to the scan. */
  predicate IsSimple(s: string) {
    forall c <- s :: c != '\'' && c != '"' && c != '\\' && c != '#'
  }

  // ---------- blanks around a value ----------

  lemma TrimBlanksIs(s: string, r: string, gap: string)
    requires s == r + gap && AllBlank(gap) && (r != "" ==> !IsBlank(r[|r| - 1]))
    ensures TrimBlanks(s) == r
  {
    var t := TrimBlanks(s);
    forall k | |r| <= k < |s| ensures IsBlank(s[k]) {
      assert s[k] == gap[k - |r|];
    }
    assert r != "" ==> s[|r| - 1] == r[|r| - 1];
  }

  lemma StripBlanksIs(before: string, s: string, after: string)
    requires AllBlank(before) && AllBlank(after) && IsTight(s)
    ensures StripBlanks(before + s + after) == s
  {
    var whole := before + s + after;
    var e := SkipBlanks(whole, 0);
    if s == "" {
      assert whole == before + after;
      forall k | 0 <= k < |whole| ensures IsBlank(whole[k]) {
        assert whole[k] in before || whole[k] in after;
      }
      SkipBlanksIs(whole, 0, |whole|);
    } else {
      forall k | 0 <= k < |before| ensures IsBlank(whole[k]) {
        assert whole[k] == before[k];
      }
      assert whole[|before|] == s[0];
      SkipBlanksIs(whole, 0, |before|);
      assert whole[|before|..] == s + after;
      TrimBlanksIs(s + after, s, after);
    }
  }

  /** Blanks around a value mean nothing. */
  lemma OuterBlanksAreDropped(before: string, s: string, after: string)
    requires AllBlank(before) && AllBlank(after) && IsTight(s)
    ensures ParsedValue(before + s + after) == ParsedValue(s)
  {
    StripBlanksIs(before, s, after);
    StripBlanksIs("", s, "");
    assert "" + s + "" == s;
  }

  lemma TightIsStripped(s: string)
    requires IsTight(s)
    ensures StripBlanks(s) == s
  {
    StripBlanksIs("", s, "");
    assert "" + s + "" == s;
  }

  // ---------- unquoted values ----------

  lemma {:induction false} SimpleScan(text: string, i: nat, e: nat)
    requires i <= e <= |text|
    requires forall k :: i <= k < e ==> text[k] != '\'' && text[k] != '"' && text[k] != '\\' && text[k] != '#'
    ensures DataEnd(text, i, OUTSIDE) == DataEnd(text, e, OUTSIDE)
    decreases e - i
  {
    if i < e {
      SimpleScan(text, i + 1, e);
    }
  }

  lemma SimpleAt(text: string, before: string, s: string, after: string)
    requires text == before + s + after && IsSimple(s)
    ensures DataEnd(text, |before|, OUTSIDE) == DataEnd(text, |before| + |s|, OUTSIDE)
  {
    forall k | |before| <= k < |before| + |s|
      ensures text[k] != '\'' && text[k] != '"' && text[k] != '\\' && text[k] != '#'
    {
      assert text[k] == s[k - |before|] && s[k - |before|] in s;
    }
    SimpleScan(text, |before|, |before| + |s|);
  }

  lemma CommentStops(data: string, comment: string)
    requires data != "" && IsSimple(data) && IsBlank(data[|data| - 1])
    ensures DataEnd(data + "#" + comment, 0, OUTSIDE) == Some(|data|)
  {
    var text := data + "#" + comment;
    assert text == "" + data + ("#" + comment);
    SimpleAt(text, "", data, "#" + comment);
    assert text[|data|] == '#' && text[|data| - 1] == data[|data| - 1];
  }

  lemma ValueBeforeComment(text: string, data: string, s: string, gap: string)
    requires data == s + gap && AllBlank(gap) && s != "" && IsTight(s) && IsTight(text) && !IsQuote(s[0])
    requires data <= text && data != text && DataEnd(text, 0, OUTSIDE) == Some(|data|)
    ensures ParsedValue(text) == Some(s)
  {
    TightIsStripped(text);
    assert text[0] == s[0] && text[..|data|] == data;
    TrimBlanksIs(data, s, gap);
  }

  /** A hash after a blank starts a comment, which goes with the blanks before it. */
  lemma CommentIsDropped(s: string, gap: string, comment: string)
    requires s != "" && IsSimple(s) && IsTight(s) && gap != "" && AllBlank(gap)
    requires comment == "" || !IsBlank(comment[|comment| - 1])
    ensures ParsedValue(s + gap + "#" + comment) == Some(s)
  {
    var data := s + gap;
    var text := data + "#" + comment;
    forall c <- data ensures c != '\'' && c != '"' && c != '\\' && c != '#' {
      assert c in s || c in gap;
    }
    CommentStops(data, comment);
    assert s[0] in s && text[0] == s[0];
    assert text[|text| - 1] == if comment == "" then '#' else comment[|comment| - 1];
    ValueBeforeComment(text, data, s, gap);
  }

  /** Any other hash is part of the value. */
  lemma HashInsideStays(s: string, t: string)
    requires s != "" && IsSimple(s) && IsSimple(t) && IsTight(s) && (t == "" || !IsBlank(t[|t| - 1]))
    ensures ParsedValue(s + "#" + t) == Some(s + "#" + t)
  {
    var text := s + "#" + t;
    assert text[0] == s[0] && s[0] in s;
    assert text[|text| - 1] == if t == "" then '#' else t[|t| - 1];
    TightIsStripped(text);
    assert text == "" + s + ("#" + t);
    SimpleAt(text, "", s, "#" + t);
    assert text[|s|] == '#' && text[|s| - 1] == s[|s| - 1];
    assert text == (s + "#") + t + "";
    SimpleAt(text, s + "#", t, "");
  }

  /** What a backslash stands before is data, whatever it is. */
  lemma BackslashShields(s: string, c: char, t: string)
    requires IsSimple(s) && IsSimple(t) && IsTight(s) && (if t == "" then !IsBlank(c) else !IsBlank(t[|t| - 1]))
    ensures ParsedValue(s + ['\\', c] + t) == Some(s + ['\\', c] + t)
  {
    var text := s + ['\\', c] + t;
    assert text[0] == if s == "" then '\\' else s[0];
    assert s != "" ==> s[0] in s;
    assert text[|text| - 1] == if t == "" then c else t[|t| - 1];
    TightIsStripped(text);
    assert text == "" + s + (['\\', c] + t);
    SimpleAt(text, "", s, ['\\', c] + t);
    assert text[|s|] == '\\' && text[|s| + 1] == c;
    assert DataEnd(text, |s|, OUTSIDE) == DataEnd(text, |s| + 1, Scanner(None, true));
    assert DataEnd(text, |s| + 1, Scanner(None, true)) == DataEnd(text, |s| + 2, OUTSIDE);
    assert text == (s + ['\\', c]) + t + "";
    SimpleAt(text, s + ['\\', c], t, "");
  }

  /** A quote behind any other character is data. */
  lemma QuoteInsideStays(s: string, quote: char, t: string)
    requires s != "" && IsSimple(s) && IsSimple(t) && !IsBlank(s[0]) && s[|s| - 1] !in " \t{[(:,="
    requires quote in "'\"" && (t == "" || !IsBlank(t[|t| - 1]))
    ensures ParsedValue(s + [quote] + t) == Some(s + [quote] + t)
  {
    var text := s + [quote] + t;
    assert text[0] == s[0] && s[0] in s;
    assert text[|text| - 1] == if t == "" then quote else t[|t| - 1];
    TightIsStripped(text);
    assert text == "" + s + ([quote] + t);
    SimpleAt(text, "", s, [quote] + t);
    assert text[|s|] == quote && text[|s| - 1] == s[|s| - 1];
    assert text == (s + [quote]) + t + "";
    SimpleAt(text, s + [quote], t, "");
  }

  lemma {:induction false} QuotedScan(text: string, i: nat, e: nat, quote: char)
    requires i <= e <= |text| && forall k :: i <= k < e ==> text[k] != quote && text[k] != '\\'
    ensures DataEnd(text, i, Scanner(Some(quote), false)) == DataEnd(text, e, Scanner(Some(quote), false))
    decreases e - i
  {
    if i < e {
      QuotedScan(text, i + 1, e, quote);
    }
  }

  /** The scan up to the end of what a quote inside a value encloses. */
  lemma ReachesTheQuote(s: string, quote: char, t: string, rest: string)
    requires s != "" && IsSimple(s) && !IsBlank(s[0]) && s[|s| - 1] in " \t{[(:,="
    requires quote in "'\"" && forall c <- t :: c != quote && c != '\\'
    ensures var text := s + [quote] + t + rest;
            ValueOf(text) == (var e := DataEnd(text, |s| + 1 + |t|, Scanner(Some(quote), false));
                              if e.None? then None
                              else if e.value == |text| then Some(text)
                              else Some(TrimBlanks(text[..e.value])))
  {
    var text := s + [quote] + t + rest;
    assert text[0] == s[0] && s[0] in s;
    assert text == "" + s + ([quote] + t + rest);
    SimpleAt(text, "", s, [quote] + t + rest);
    assert text[|s|] == quote && text[|s| - 1] == s[|s| - 1];
    forall k | |s| + 1 <= k < |s| + 1 + |t| ensures text[k] != quote && text[k] != '\\' {
      assert text[k] == t[k - |s| - 1] && t[k - |s| - 1] in t;
    }
    QuotedScan(text, |s| + 1, |s| + 1 + |t|, quote);
  }

  /** Quotes behind an opening character shelter everything up to the closing one, comments included. */
  lemma QuotesShelter(s: string, quote: char, t: string, u: string)
    requires s != "" && IsSimple(s) && !IsBlank(s[0]) && s[|s| - 1] in " \t{[(:,="
    requires quote in "'\"" && forall c <- t :: c != quote && c != '\\'
    requires IsSimple(u) && (u == "" || !IsBlank(u[|u| - 1]))
    ensures ParsedValue(s + [quote] + t + [quote] + u) == Some(s + [quote] + t + [quote] + u)
  {
    var before := s + [quote] + t + [quote];
    var text := before + u;
    assert text == s + [quote] + t + ([quote] + u);
    assert text[0] == s[0];
    assert text[|text| - 1] == if u == "" then quote else u[|u| - 1];
    TightIsStripped(text);
    ReachesTheQuote(s, quote, t, [quote] + u);
    assert text[|s| + 1 + |t|] == quote;
    assert text == before + u + "";
    SimpleAt(text, before, u, "");
  }

  /** A quote that is never closed is an error. */
  lemma OpenQuoteIsRefused(s: string, quote: char, t: string)
    requires s != "" && IsSimple(s) && !IsBlank(s[0]) && s[|s| - 1] in " \t{[(:,="
    requires quote in "'\"" && forall c <- t :: c != quote && c != '\\'
    requires t == "" || !IsBlank(t[|t| - 1])
    ensures ParsedValue(s + [quote] + t) == None
  {
    var text := s + [quote] + t;
    assert text == s + [quote] + t + "";
    assert text[0] == s[0];
    assert text[|text| - 1] == if t == "" then quote else t[|t| - 1];
    TightIsStripped(text);
    ReachesTheQuote(s, quote, t, "");
  }

  // ---------- quoted values ----------

  /** Blanks and a comment. */
  predicate IsComment(suffix: string) {
    exists n: nat :: 0 < n < |suffix| && suffix[n] == '#' && AllBlank(suffix[..n])
  }

  lemma SuffixIs(suffix: string)
    ensures IsSuffix(suffix) <==> suffix == "" || IsComment(suffix)
  {
    if suffix != "" {
      var e := SkipBlanks(suffix, 0);
      if IsSuffix(suffix) {
        assert e > 0 && AllBlank(suffix[..e]);
      }
      if n: nat :| 0 < n < |suffix| && suffix[n] == '#' && AllBlank(suffix[..n]) {
        forall k | 0 <= k < n ensures IsBlank(suffix[k]) {
          assert suffix[..n][k] == suffix[k];
        }
        SkipBlanksIs(suffix, 0, n);
      }
    }
  }

  lemma {:induction false} UnquoteThen(text: string, i: nat, s: string, suffix: string)
    requires text != "" && IsQuote(text[0]) && 1 <= i <= |text|
    requires text[i..] == Escaped(s, text[0]) + [text[0]] + suffix
    ensures Unquote(text, i) == if IsSuffix(suffix) then Some(s) else None
    decreases |s|
  {
    var rest := text[i..];
    assert rest[0] == text[i];
    if s == "" {
      assert text[i + 1..] == rest[1..] == suffix;
    } else {
      EscapedFirst(text, i, s, suffix);
      UnquoteThen(text, if s[0] == text[0] || s[0] == '\\' then i + 2 else i + 1, s[1..], suffix);
      assert s == [s[0]] + s[1..];
    }
  }

  lemma EscapedFirst(text: string, i: nat, s: string, suffix: string)
    requires text != "" && IsQuote(text[0]) && 1 <= i <= |text| && s != ""
    requires text[i..] == Escaped(s, text[0]) + [text[0]] + suffix
    ensures i + 1 < |text|
    ensures if s[0] == text[0] || s[0] == '\\'
            then i + 2 <= |text| && text[i] == '\\' && text[i + 1] == s[0]
                 && text[i + 2..] == Escaped(s[1..], text[0]) + [text[0]] + suffix
            else text[i] == s[0] && text[i + 1..] == Escaped(s[1..], text[0]) + [text[0]] + suffix
  {
    var head := if s[0] == text[0] || s[0] == '\\' then ['\\', s[0]] else [s[0]];
    HeadAndTail(text, i, head, Escaped(s[1..], text[0]), [text[0]], suffix);
  }

  lemma HeadAndTail(text: string, i: nat, head: string, tail: string, quote: string, suffix: string)
    requires i <= |text| && text[i..] == head + tail + quote + suffix
    ensures i + |head| + |quote| <= |text| && text[i + |head|..] == tail + quote + suffix
    ensures forall k :: 0 <= k < |head| ==> text[i + k] == head[k]
  {
    assert text[i..][|head|..] == text[i + |head|..];
    forall k | 0 <= k < |head| ensures text[i + k] == head[k] {
      assert text[i..][k] == text[i + k];
    }
  }

  lemma QuotedFrom(quote: char, body: string, rest: string)
    requires quote in "'\"" && (rest == "" ==> body == "" || !IsBlank(body[|body| - 1]))
    requires rest != "" ==> !IsBlank(rest[|rest| - 1])
    ensures var text := [quote] + body + rest;
            text[1..] == body + rest && ParsedValue(text) == Unquote(text, 1)
  {
    var text := [quote] + body + rest;
    assert text[|text| - 1]
        == if rest != "" then rest[|rest| - 1] else if body != "" then body[|body| - 1] else quote;
    TightIsStripped(text);
  }

  /** A quoted value reads as what was quoted when nothing but a comment follows, and is an error otherwise. */
  lemma QuotedReadsExactlyWhen(s: string, quote: char, suffix: string)
    requires quote in "'\"" && (suffix == "" || !IsBlank(suffix[|suffix| - 1]))
    ensures ParsedValue([quote] + Escaped(s, quote) + [quote] + suffix)
         == if suffix == "" || IsComment(suffix) then Some(s) else None
  {
    var text := Wrapped(quote, Escaped(s, quote), suffix);
    TightIsStripped(text);
    UnquoteThen(text, 1, s, suffix);
    SuffixIs(suffix);
  }

  lemma Wrapped(quote: char, body: string, suffix: string) returns (text: string)
    requires quote in "'\"" && (suffix == "" || !IsBlank(suffix[|suffix| - 1]))
    ensures text == [quote] + body + [quote] + suffix
    ensures text[0] == quote && text[1..] == body + [quote] + suffix && IsTight(text)
  {
    text := [quote] + body + [quote] + suffix;
    assert text[|text| - 1] == if suffix == "" then quote else suffix[|suffix| - 1];
  }

  lemma {:induction false} UnquoteUnclosed(text: string, i: nat, s: string)
    requires text != "" && IsQuote(text[0]) && 1 <= i <= |text| && text[i..] == Escaped(s, text[0])
    ensures Unquote(text, i) == None
    decreases |s|
  {
    if s != "" {
      var rest := text[i..];
      assert rest[0] == text[i];
      if s[0] == text[0] || s[0] == '\\' {
        assert rest[1] == text[i + 1] && text[i + 2..] == rest[2..];
        UnquoteUnclosed(text, i + 2, s[1..]);
      } else {
        assert text[i + 1..] == rest[1..];
        UnquoteUnclosed(text, i + 1, s[1..]);
      }
    }
  }

  /** A value whose quote is never closed is an error. */
  lemma UnclosedIsRefused(s: string, quote: char)
    requires quote in "'\"" && (s == "" || !IsBlank(s[|s| - 1]))
    ensures ParsedValue([quote] + Escaped(s, quote)) == None
  {
    var body := Escaped(s, quote);
    EscapedEnd(s, quote);
    QuotedFrom(quote, body, "");
    assert [quote] + body + "" == [quote] + body && body + "" == body;
    UnquoteUnclosed([quote] + body, 1, s);
  }

  lemma {:induction false} EscapedEnd(s: string, quote: char)
    ensures s == "" <==> Escaped(s, quote) == ""
    ensures s != "" ==> Escaped(s, quote)[|Escaped(s, quote)| - 1] == s[|s| - 1]
  {
    if s != "" {
      EscapedEnd(s[1..], quote);
    }
  }

  // ---------- lines ----------

  /** The word `export` with the blanks behind it, or nothing. */
  function Prefix(exported: Option<string>): string {
    if exported.Some? then EXPORT + exported.value else ""
  }

  predicate IsExported(exported: Option<string>) {
    exported.Some? ==> exported.value != "" && AllBlank(exported.value)
  }

  lemma KeyFrom(line: string, a: nat, key: string, gap: string, rest: string)
    requires a <= |line| && line[a..] == key + gap + "=" + rest && IsKey(key) && AllBlank(gap)
    ensures AssignmentFrom(line, a) == Some((key, a + |key| + |gap|))
    ensures line[a + |key| + |gap| + 1..] == rest
  {
    var tail := line[a..];
    var e := a + |key|;
    var q := e + |gap|;
    assert line[a..e] == tail[..|key|] == key;
    assert line[q] == tail[|key| + |gap|] == '=';
    forall k | e <= k < q ensures IsBlank(line[k]) {
      assert line[k] == tail[k - a] == gap[k - e];
    }
    assert q > e ==> IsBlank(line[e]);
    KeyEndIs(line, a, e);
    SkipBlanksIs(line, e, q);
    assert line[q + 1..] == tail[|key| + |gap| + 1..];
  }

  lemma ExportFrom(line: string, i: nat, gap: string, tail: string)
    requires i <= |line| && line[i..] == EXPORT + gap + tail && gap != "" && AllBlank(gap)
    requires tail != "" && !IsBlank(tail[0])
    ensures ExportAt(line, i) && IsBlank(line[i + |EXPORT|])
    ensures SkipBlanks(line, i + |EXPORT|) == i + |EXPORT| + |gap|
    ensures line[i + |EXPORT| + |gap|..] == tail
  {
    HeadAndTail(line, i, EXPORT, gap, tail, "");
    assert EXPORT + gap + tail + "" == EXPORT + gap + tail && gap + tail + "" == gap + tail;
    assert line[i..i + |EXPORT|] == line[i..][..|EXPORT|] == EXPORT;
    BlanksFrom(line, i + |EXPORT|, gap, tail);
  }

  lemma BlanksFrom(line: string, i: nat, gap: string, tail: string)
    requires i <= |line| && line[i..] == gap + tail && AllBlank(gap) && (tail != "" ==> !IsBlank(tail[0]))
    ensures i + |gap| <= |line| && SkipBlanks(line, i) == i + |gap| && line[i + |gap|..] == tail
    ensures gap != "" ==> IsBlank(line[i])
  {
    var rest := line[i..];
    forall k | i <= k < i + |gap| ensures IsBlank(line[k]) {
      assert line[k] == rest[k - i] == gap[k - i];
    }
    if tail != "" {
      assert line[i + |gap|] == rest[|gap|] == tail[0];
    }
    SkipBlanksIs(line, i, i + |gap|);
    assert line[i + |gap|..] == rest[|gap|..];
  }

  lemma PlainAssignment(line: string, i: nat, key: string, gap: string, rest: string)
    requires i <= |line| && line[i..] == key + gap + "=" + rest && IsKey(key) && AllBlank(gap)
    ensures AssignmentAt(line, i) == Some((key, i + |key| + |gap|))
    ensures line[i + |key| + |gap| + 1..] == rest
  {
    assert line[i] == line[i..][0] == key[0];
    NoExport(line, i);
    KeyFrom(line, i, key, gap, rest);
  }

  lemma ExportedTail(line: string, i: nat, blanks: string, tail: string, next: char) returns (a: nat)
    requires i <= |line| && line[i..] == EXPORT + blanks + tail && blanks != "" && AllBlank(blanks)
    requires tail != "" && tail[0] == next && 'A' <= next <= 'Z'
    ensures a <= |line| && line[a..] == tail && AssignmentAt(line, i) == AssignmentFrom(line, a)
  {
    ExportFrom(line, i, blanks, tail);
    AtExport(line, i);
    a := SkipBlanks(line, i + |EXPORT|);
  }

  lemma AtExport(line: string, i: nat)
    requires i <= |line| && ExportAt(line, i) && IsBlank(line[i + |EXPORT|])
    ensures AssignmentAt(line, i) == AssignmentFrom(line, SkipBlanks(line, i + |EXPORT|))
  {
  }

  lemma AtNoExport(line: string, i: nat)
    requires i <= |line| && !(ExportAt(line, i) && IsBlank(line[i + |EXPORT|]))
    ensures AssignmentAt(line, i) == AssignmentFrom(line, i)
  {
  }

  /** Its first character that is not blank starts an assignment of `rest` to the key. */
  predicate AssignsFrom(line: string, key: string, rest: string) {
    AssignsAs(line, SkipBlanks(line, 0), AssignmentAt(line, SkipBlanks(line, 0)), key, rest)
  }

  predicate AssignsAs(line: string, i: nat, at: Option<(string, nat)>, key: string, rest: string) {
    i < |line| && line[i] != '#' && at.Some? && at.value.0 == key && at.value.1 < |line|
    && line[at.value.1 + 1..] == rest
  }

  lemma ShapeFrom(line: string, key: string, rest: string)
    requires '\0' !in line && AssignsFrom(line, key, rest)
    ensures ShapeOf(line) == Setting(key, rest)
  {
  }

  lemma Indented(line: string, indent: string, tail: string)
    requires line == indent + tail && AllBlank(indent) && tail != "" && !IsBlank(tail[0])
    ensures SkipBlanks(line, 0) == |indent| < |line| && line[|indent|..] == tail && line[|indent|] == tail[0]
  {
    assert line[0..] == line;
    BlanksFrom(line, 0, indent, tail);
  }

  /** Blanks, perhaps `export`, a name, blanks and an equals sign make an assignment of what follows. */
  lemma AssignmentMeans(indent: string, exported: Option<string>, key: string, gap: string, rest: string)
    requires AllBlank(indent) && IsExported(exported) && IsKey(key) && AllBlank(gap) && '\0' !in rest
    ensures ShapeOf(indent + Prefix(exported) + key + gap + "=" + rest) == Setting(key, rest)
  {
    NoNul(indent, exported, key, gap, rest);
    if exported.Some? {
      ExportedMeans(indent, exported.value, key, gap, rest);
    } else {
      PlainMeans(indent, key, gap, rest);
    }
    ShapeFrom(indent + Prefix(exported) + key + gap + "=" + rest, key, rest);
  }

  lemma PlainMeans(indent: string, key: string, gap: string, rest: string)
    requires AllBlank(indent) && IsKey(key) && AllBlank(gap)
    ensures AssignsFrom(indent + "" + key + gap + "=" + rest, key, rest)
  {
    var line := indent + "" + key + gap + "=" + rest;
    var tail := key + gap + "=" + rest;
    assert tail[0] == key[0];
    Indented(line, indent, tail);
    PlainAssignment(line, |indent|, key, gap, rest);
  }

  lemma MeansFrom(line: string, i: nat, a: nat, key: string, gap: string, rest: string)
    requires i < |line| && line[i] != '#' && a <= |line|
    requires line[a..] == key + gap + "=" + rest && IsKey(key) && AllBlank(gap)
    ensures AssignsAs(line, i, AssignmentFrom(line, a), key, rest)
  {
    KeyFrom(line, a, key, gap, rest);
  }

  lemma ExportedMeans(indent: string, blanks: string, key: string, gap: string, rest: string)
    requires AllBlank(indent) && blanks != "" && AllBlank(blanks) && IsKey(key) && AllBlank(gap)
    ensures AssignsFrom(indent + (EXPORT + blanks) + key + gap + "=" + rest, key, rest)
  {
    var line := indent + (EXPORT + blanks) + key + gap + "=" + rest;
    var tail := Tail(indent, EXPORT, blanks, key, gap, rest);
    Indented(line, indent, EXPORT + blanks + tail);
    var a := ExportedTail(line, |indent|, blanks, tail, key[0]);
    MeansFrom(line, |indent|, a, key, gap, rest);
  }

  lemma Tail(indent: string, word: string, blanks: string, key: string, gap: string, rest: string)
    returns (tail: string)
    requires word != "" && key != ""
    ensures tail == key + gap + "=" + rest && tail[0] == key[0]
    ensures indent + (word + blanks) + key + gap + "=" + rest == indent + (word + blanks + tail)
    ensures (word + blanks + tail)[0] == word[0]
  {
    tail := key + gap + "=" + rest;
  }

  lemma NoNul(indent: string, exported: Option<string>, key: string, gap: string, rest: string)
    requires AllBlank(indent) && IsExported(exported) && IsKey(key) && AllBlank(gap) && '\0' !in rest
    ensures '\0' !in indent + Prefix(exported) + key + gap + "=" + rest
  {
    forall c <- indent + Prefix(exported) + key + gap + "=" + rest ensures c != '\0' {
      assert c in indent || c in Prefix(exported) || c in key || c in gap || c == '=' || c in rest;
      if c in key {
        assert IsKeyChar(c);
      } else if c in Prefix(exported) {
        assert c in EXPORT || c in exported.value;
      }
    }
  }

  /** Every line that the parser takes for an assignment has that form. */
  lemma AssignmentsAreSuch(line: string) returns (indent: string, exported: Option<string>, gap: string)
    requires ShapeOf(line).Setting?
    ensures AllBlank(indent) && IsExported(exported) && AllBlank(gap) && IsKey(ShapeOf(line).key)
    ensures line == indent + Prefix(exported) + ShapeOf(line).key + gap + "=" + ShapeOf(line).rest
  {
    var at := ShapeIsAt(line);
    indent, exported, gap := PartsOf(line, at.0, at.1);
  }

  lemma PartsOf(line: string, key: string, q: nat) returns (indent: string, exported: Option<string>, gap: string)
    requires SkipBlanks(line, 0) < |line| && q < |line|
    requires AssignmentAt(line, SkipBlanks(line, 0)) == Some((key, q))
    ensures AllBlank(indent) && IsExported(exported) && AllBlank(gap)
    ensures line == indent + Prefix(exported) + key + gap + "=" + line[q + 1..]
  {
    var i := SkipBlanks(line, 0);
    var a;
    indent := line[..i];
    exported, a := WhereItStarts(line, i);
    gap := PartsAfter(line, i, Prefix(exported), a, key, q);
    Joined(line, indent, Prefix(exported), key, gap, line[q + 1..]);
  }

  lemma ShapeIsAt(line: string) returns (at: (string, nat))
    requires ShapeOf(line).Setting?
    ensures SkipBlanks(line, 0) < |line| && AssignmentAt(line, SkipBlanks(line, 0)) == Some(at)
    ensures at.1 < |line| && ShapeOf(line) == Setting(at.0, line[at.1 + 1..]) && IsKey(at.0)
  {
    at := AssignmentAt(line, SkipBlanks(line, 0)).value;
  }

  lemma Joined(line: string, indent: string, prefix: string, key: string, gap: string, rest: string)
    requires indent <= line && line[|indent|..] == prefix + (key + gap + "=" + rest)
    ensures line == indent + prefix + key + gap + "=" + rest
  {
    assert line == indent + line[|indent|..];
  }

  lemma WhereItStarts(line: string, i: nat) returns (exported: Option<string>, a: nat)
    requires i <= |line|
    ensures IsExported(exported) && a <= |line| && line[i..] == Prefix(exported) + line[a..]
    ensures AssignmentAt(line, i) == AssignmentFrom(line, a)
  {
    if ExportAt(line, i) && IsBlank(line[i + |EXPORT|]) {
      AtExport(line, i);
      var blanks := ExportAndBlanks(line, i);
      exported, a := Some(blanks), SkipBlanks(line, i + |EXPORT|);
    } else {
      AtNoExport(line, i);
      Nothing(line[i..]);
      exported, a := None, i;
    }
  }

  lemma PartsAfter(line: string, i: nat, prefix: string, a: nat, key: string, q: nat) returns (gap: string)
    requires i <= |line| && a <= |line| && line[i..] == prefix + line[a..] && q < |line|
    requires AssignmentFrom(line, a) == Some((key, q))
    ensures AllBlank(gap) && line[i..] == prefix + (key + gap + "=" + line[q + 1..])
  {
    gap := KeyAndGap(line, a);
  }

  lemma Nothing(s: string)
    ensures s == "" + s
  {
  }

  lemma ExportAndBlanks(line: string, i: nat) returns (blanks: string)
    requires i <= |line| && ExportAt(line, i) && IsBlank(line[i + |EXPORT|])
    ensures blanks != "" && AllBlank(blanks)
    ensures line[i..] == (EXPORT + blanks) + line[SkipBlanks(line, i + |EXPORT|)..]
  {
    var b := i + |EXPORT|;
    var a := SkipBlanks(line, b);
    blanks := line[b..a];
    assert a > b;
    Cut(line, i, b, a);
  }

  lemma Cut(line: string, i: nat, b: nat, a: nat)
    requires i <= b <= a <= |line|
    ensures line[i..] == line[i..b] + line[b..a] + line[a..]
  {
  }

  lemma KeyAndGap(line: string, a: nat) returns (gap: string)
    requires a <= |line| && AssignmentFrom(line, a).Some?
    ensures AllBlank(gap)
    ensures var (key, q) := AssignmentFrom(line, a).value;
            line[a..] == key + gap + "=" + line[q + 1..]
  {
    var e := KeyEnd(line, a);
    var q := SkipBlanks(line, e);
    gap := line[e..q];
    assert line[a..] == line[a..e] + line[e..q] + [line[q]] + line[q + 1..];
  }

  /** A line without NUL is ignored exactly when it is blank or its first character that is not blank is a hash. */
  lemma IgnoredExactlyWhen(line: string)
    ensures ShapeOf(line).Empty? <==>
              '\0' !in line && (AllBlank(line) || exists n: nat :: n < |line| && line[n] == '#' && AllBlank(line[..n]))
  {
    var i := SkipBlanks(line, 0);
    if i == |line| {
      assert AllBlank(line);
    } else {
      assert !IsBlank(line[i]) && AllBlank(line[..i]);
      if n: nat :| n < |line| && line[n] == '#' && AllBlank(line[..n]) {
        forall k | 0 <= k < n ensures IsBlank(line[k]) {
          assert line[..n][k] == line[k];
        }
        SkipBlanksIs(line, 0, n);
      }
    }
  }

  // ---------- which settings are written ----------

  /** What is wrong with a setting: its trimmed name first, then a line break in its value. */
  lemma ProblemIs(v: (string, string))
    ensures ProblemOf(v) == if !IsKey(Strip(v.0)) then Some(BadName)
                            else if '\n' in v.1 || '\r' in v.1 then Some(NotOneLine) else None
  {
  }

  /** The first setting with a problem decides, ... */
  lemma {:induction false} ProblemIsTheFirst(values: seq<(string, string)>) returns (i: nat)
    requires FirstProblem(values).Some?
    ensures i < |values| && FirstProblem(values) == ProblemOf(values[i]) && FirstProblem(values[..i]).None?
    decreases |values|
  {
    var but := values[..|values| - 1];
    if FirstProblem(but).Some? {
      i := ProblemIsTheFirst(but);
      assert but[..i] == values[..i];
    } else {
      i := |but|;
    }
  }

  /** ... and without one, no setting has any. */
  lemma {:induction false} NoneHasAProblem(values: seq<(string, string)>, i: nat)
    requires FirstProblem(values).None? && i < |values|
    ensures ProblemOf(values[i]).None?
    decreases |values|
  {
    if i < |values| - 1 {
      NoneHasAProblem(values[..|values| - 1], i);
    }
  }

  /** Each name is written once, in the place of its first mention and with its last value. */
  lemma {:induction false} LastValueIsWritten(values: seq<(string, string)>, i: nat)
    requires i < |values| && forall j :: i < j < |values| ==> Strip(values[j].0) != Strip(values[i].0)
    ensures Strip(values[i].0) in Cleaned(values).value
         && Cleaned(values).value[Strip(values[i].0)] == values[i].1
    decreases |values|
  {
    if i < |values| - 1 {
      LastValueIsWritten(values[..|values| - 1], i);
    }
  }

  lemma {:induction false} NamesAreWrittenOnce(values: seq<(string, string)>)
    ensures forall i, j :: 0 <= i < j < |Cleaned(values).keys| ==> Cleaned(values).keys[i] != Cleaned(values).keys[j]
    ensures forall key :: key in Cleaned(values).value <==> key in Cleaned(values).keys
    decreases |values|
  {
    if values != [] {
      NamesAreWrittenOnce(values[..|values| - 1]);
    }
  }

  lemma {:induction false} NameCameFrom(values: seq<(string, string)>, key: string) returns (i: nat)
    requires key in Cleaned(values).value
    ensures i < |values| && NameOf(values[i]) == key
    decreases |values|
  {
    i := |values| - 1;
    if NameOf(values[i]) != key {
      i := NameCameFrom(values[..i], key);
    }
  }
}
