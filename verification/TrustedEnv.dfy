/**
 The trusted environment file of `config.py`: the value and file parser (`_parse_trusted_env_value`,
 `_parse_trusted_env`) and the in-place upsert (`persist_project_env`), which has to agree with it.
 */
module TrustedEnv {
  import opened Prelude

  // ---------- one value ----------

  predicate IsBlank(c: char) {
    c == ' ' || c == '\t'
  }

  predicate IsQuote(c: char) {
    c == '\'' || c == '"'
  }

  /** The first position from `i` on that is not blank. */
  function SkipBlanks(s: string, i: nat): (e: nat)
    requires i <= |s|
    ensures i <= e <= |s| && (forall k :: i <= k < e ==> IsBlank(s[k])) && (e < |s| ==> !IsBlank(s[e]))
    decreases |s| - i
  {
    if i < |s| && IsBlank(s[i]) then SkipBlanks(s, i + 1) else i
  }

  function SkipSpaces(s: string, i: nat): (e: nat)
    requires i <= |s|
    ensures i <= e <= |s| && (forall k :: i <= k < e ==> IsSpace(s[k])) && (e < |s| ==> !IsSpace(s[e]))
    decreases |s| - i
  {
    if i < |s| && IsSpace(s[i]) then SkipSpaces(s, i + 1) else i
  }

  /** `s.rstrip(" \t")`. */
  function TrimBlanks(s: string): (r: string)
    ensures |r| <= |s| && r == s[..|r|] && (r != "" ==> !IsBlank(r[|r| - 1]))
    ensures forall k :: |r| <= k < |s| ==> IsBlank(s[k])
  {
    if s != "" && IsBlank(s[|s| - 1]) then TrimBlanks(s[..|s| - 1]) else s
  }

  /** `s.strip(" \t")`. */
  function StripBlanks(s: string): string {
    TrimBlanks(s[SkipBlanks(s, 0)..])
  }

  /** What may follow a closing quote: nothing, or blanks and a comment. */
  predicate IsSuffix(s: string) {
    s == "" || (IsBlank(s[0]) && SkipBlanks(s, 0) < |s| && s[SkipBlanks(s, 0)] == '#')
  }

  /** The text up to the closing quote, backslashes before the quote or a backslash removed; None when
      the quote is never closed or something follows it. */
  function Unquote(s: string, i: nat): Option<string>
    requires 0 < |s| && 1 <= i <= |s|
    decreases |s| - i
  {
    if i == |s| then None
    else if s[i] == s[0] then (if IsSuffix(s[i + 1..]) then Some("") else None)
    else if s[i] == '\\' && i + 1 < |s| && (s[i + 1] == s[0] || s[i + 1] == '\\')
    then Prefixed(s[i + 1], Unquote(s, i + 2))
    else Prefixed(s[i], Unquote(s, i + 1))
  }

  function Prefixed(c: char, r: Option<string>): Option<string> {
    if r.Some? then Some([c] + r.value) else None
  }

  /** What the scan of an unquoted value is inside of: a quote character, and an escape. */
  datatype Scanner = Scanner(quote: Option<char>, escaped: bool)

  predicate OpensQuote(s: string, i: nat)
    requires i < |s|
  {
    IsQuote(s[i]) && (i == 0 || s[i - 1] in " \t{[(:,=")
  }

  predicate StartsComment(s: string, i: nat)
    requires i < |s|
  {
    s[i] == '#' && i > 0 && IsBlank(s[i - 1])
  }

  function Advance(s: string, i: nat, at: Scanner): Scanner
    requires i < |s|
  {
    if at.escaped then at.(escaped := false)
    else if s[i] == '\\' then at.(escaped := true)
    else if at.quote.Some? then (if s[i] == at.quote.value then at.(quote := None) else at)
    else if OpensQuote(s, i) then at.(quote := Some(s[i]))
    else at
  }

  predicate StopsAt(s: string, i: nat, at: Scanner)
    requires i < |s|
  {
    !at.escaped && s[i] != '\\' && at.quote.None? && !OpensQuote(s, i) && StartsComment(s, i)
  }

  /** Where the data of an unquoted value ends: at its comment or at its end; None when a quote is open. */
  function DataEnd(s: string, i: nat, at: Scanner): (e: Option<nat>)
    requires i <= |s|
    ensures e.Some? ==> i <= e.value <= |s|
    decreases |s| - i
  {
    if i == |s| then (if at.quote.Some? then None else Some(i))
    else if StopsAt(s, i, at) then Some(i)
    else DataEnd(s, i + 1, Advance(s, i, at))
  }

  const OUTSIDE := Scanner(None, false)

  function ValueOf(text: string): Option<string> {
    if text == "" then Some("")
    else if IsQuote(text[0]) then Unquote(text, 1)
    else
      var e := DataEnd(text, 0, OUTSIDE);
      if e.None? then None
      else if e.value == |text| then Some(text)
      else Some(TrimBlanks(text[..e.value]))
  }

  /** `_parse_trusted_env_value`; None is its syntax error. */
  function ParsedValue(value: string): Option<string> {
    ValueOf(StripBlanks(value))
  }

  // ---------- which values can be written so that they read back ----------

  /** A text as it is written between these quotes. */
  function Escaped(s: string, quote: char): string {
    if s == "" then ""
    else (if s[0] == quote || s[0] == '\\' then ['\\', s[0]] else [s[0]]) + Escaped(s[1..], quote)
  }

  lemma {:induction false} UnquoteEscaped(text: string, i: nat, s: string)
    requires text != "" && IsQuote(text[0]) && 1 <= i <= |text|
    requires text[i..] == Escaped(s, text[0]) + [text[0]]
    ensures Unquote(text, i) == Some(s)
    decreases |s|
  {
    var rest := text[i..];
    assert rest[0] == text[i];
    if s == "" {
      assert text[i + 1..] == rest[1..] == "";
    } else if s[0] == text[0] || s[0] == '\\' {
      assert rest[1] == text[i + 1];
      assert rest[2..] == text[i + 2..] == Escaped(s[1..], text[0]) + [text[0]];
      UnquoteEscaped(text, i + 2, s[1..]);
      assert s == [s[0]] + s[1..];
    } else {
      assert rest[1..] == text[i + 1..] == Escaped(s[1..], text[0]) + [text[0]];
      if i + 1 < |text| {
        assert text[i] == s[0];
      }
      UnquoteEscaped(text, i + 1, s[1..]);
      assert s == [s[0]] + s[1..];
    }
  }

  /** Every text can be written: quoted and escaped, it reads back as itself. */
  lemma QuotedReadsBack(s: string, quote: char)
    requires IsQuote(quote)
    ensures ParsedValue([quote] + Escaped(s, quote) + [quote]) == Some(s)
  {
    var text := [quote] + Escaped(s, quote) + [quote];
    assert text[1..] == Escaped(s, quote) + [quote];
    assert SkipBlanks(text, 0) == 0 && text[0..] == text;
    assert StripBlanks(text) == text;
    UnquoteEscaped(text, 1, s);
  }

  lemma {:induction false} PlainDataEnds(s: string, i: nat)
    requires i <= |s| && forall c <- s :: !IsQuote(c) && c != '\\' && c != '#'
    ensures DataEnd(s, i, OUTSIDE) == Some(|s|)
    decreases |s| - i
  {
    if i < |s| {
      assert s[i] in s;
      PlainDataEnds(s, i + 1);
    }
  }

  /** A value without quotes, backslashes, hash signs and outer blanks reads back as it is. */
  lemma SimpleValuesReadBack(s: string)
    requires forall c <- s :: !IsQuote(c) && c != '\\' && c != '#'
    requires s != "" ==> !IsBlank(s[0]) && !IsBlank(s[|s| - 1])
    ensures ParsedValue(s) == Some(s)
  {
    assert SkipBlanks(s, 0) == 0 && s[0..] == s;
    PlainDataEnds(s, 0);
  }

  /** The loops of `_parse_trusted_env_value`. */
  method ParseValue(value: string) returns (r: Option<string>)
    ensures r == ParsedValue(value)
  {
    var text := StripBlanks(value);
    if text == "" {
      return Some("");
    }
    if IsQuote(text[0]) {
      r := ParseQuoted(text);
    } else {
      r := ParseUnquoted(text);
    }
  }

  function After(parsed: string, r: Option<string>): Option<string> {
    if r.Some? then Some(parsed + r.value) else None
  }

  method ParseQuoted(text: string) returns (r: Option<string>)
    requires text != ""
    ensures r == Unquote(text, 1)
  {
    var parsed, index := "", 1;
    assert Unquote(text, 1).Some? ==> "" + Unquote(text, 1).value == Unquote(text, 1).value;
    while index < |text|
      invariant 1 <= index <= |text|
      invariant Unquote(text, 1) == After(parsed, Unquote(text, index))
    {
      var c := text[index];
      if c == text[0] {
        var suffix := text[index + 1..];
        if suffix != "" && !IsSuffix(suffix) {
          return None;
        }
        assert parsed + "" == parsed;
        return Some(parsed);
      }
      if c == '\\' && index + 1 < |text| && (text[index + 1] == text[0] || text[index + 1] == '\\') {
        AfterOne(parsed, text[index + 1], Unquote(text, index + 2));
        parsed, index := parsed + [text[index + 1]], index + 2;
      } else {
        AfterOne(parsed, c, Unquote(text, index + 1));
        parsed, index := parsed + [c], index + 1;
      }
    }
    r := None;
  }

  lemma AfterOne(parsed: string, c: char, r: Option<string>)
    ensures After(parsed, Prefixed(c, r)) == After(parsed + [c], r)
  {
    if r.Some? {
      assert parsed + ([c] + r.value) == parsed + [c] + r.value;
    }
  }

  method ParseUnquoted(text: string) returns (r: Option<string>)
    requires text != "" && !IsQuote(text[0])
    ensures r == ValueOf(text)
  {
    var at, index := OUTSIDE, 0;
    while index < |text|
      invariant 0 <= index <= |text|
      invariant DataEnd(text, 0, OUTSIDE) == DataEnd(text, index, at)
    {
      if StopsAt(text, index, at) {
        return Some(TrimBlanks(text[..index]));
      }
      at := Advance(text, index, at);
      index := index + 1;
    }
    r := if at.quote.Some? then None else Some(text);
  }

  // ---------- lines ----------

  /** The characters `str.splitlines` ends a line at. */
  predicate IsSeparator(c: char) {
    '\n' <= c <= '\r' || '\U{1C}' <= c <= '\U{1E}' || c == '\U{85}' || c == '\U{2028}' || c == '\U{2029}'
  }

  predicate IsLine(s: string) {
    forall c <- s :: !IsSeparator(c)
  }

  function LineEnd(s: string, i: nat): (e: nat)
    requires i <= |s|
    ensures i <= e <= |s| && IsLine(s[i..e]) && (e < |s| ==> IsSeparator(s[e]))
    decreases |s| - i
  {
    if i < |s| && !IsSeparator(s[i]) then
      var e := LineEnd(s, i + 1);
      assert s[i..e] == [s[i]] + s[i + 1..e];
      e
    else i
  }

  /** `str.splitlines`. */
  function SplitLines(s: string): (lines: seq<string>)
    ensures forall line <- lines :: IsLine(line)
    decreases |s|
  {
    if s == "" then []
    else
      var e := LineEnd(s, 0);
      if e == |s| then [s]
      else [s[..e]] + SplitLines(s[e + (if s[e] == '\r' && e + 1 < |s| && s[e + 1] == '\n' then 2 else 1)..])
  }

  /** `"\n".join`. */
  function Join(lines: seq<string>): string {
    if lines == [] then ""
    else if |lines| == 1 then lines[0]
    else lines[0] + "\n" + Join(lines[1..])
  }

  lemma LineEndIs(s: string, i: nat, e: nat)
    requires i <= e <= |s| && (forall k :: i <= k < e ==> !IsSeparator(s[k])) && (e < |s| ==> IsSeparator(s[e]))
    ensures LineEnd(s, i) == e
    decreases e - i
  {
    if i < e {
      LineEndIs(s, i + 1, e);
    }
  }

  /** Joined lines split into themselves again. */
  lemma {:induction false} SplitJoined(lines: seq<string>)
    requires lines != [] && forall line <- lines :: IsLine(line)
    ensures SplitLines(Join(lines) + "\n") == lines
  {
    var s, line := Join(lines) + "\n", lines[0];
    assert line in lines;
    if |lines| == 1 {
      LineEndIs(s, 0, |line|);
      assert s[..|line|] == line && s[|line| + 1..] == "";
    } else {
      assert s == line + "\n" + (Join(lines[1..]) + "\n");
      LineEndIs(s, 0, |line|);
      assert s[..|line|] == line && s[|line| + 1..] == Join(lines[1..]) + "\n";
      SplitJoined(lines[1..]);
    }
  }

  /** `r` is what `rstrip` on the joined text leaves of the lines. */
  predicate IsTrim(lines: seq<string>, r: seq<string>) {
    && |r| <= |lines|
    && (r != [] ==> r[|r| - 1] != "" && r == lines[..|r| - 1] + [StripRight(lines[|r| - 1])])
    && (forall k :: |r| <= k < |lines| ==> StripRight(lines[k]) == "")
  }

  function Trimmed(lines: seq<string>): (r: seq<string>)
    ensures |r| <= |lines|
  {
    if lines == [] then []
    else
      var but, last := lines[..|lines| - 1], StripRight(lines[|lines| - 1]);
      if last == "" then Trimmed(but) else but + [last]
  }

  lemma BlankLastIsTrimmed(but: seq<string>, last: string, r: seq<string>)
    requires IsTrim(but, r) && StripRight(last) == ""
    ensures IsTrim(but + [last], r)
  {
    if r != [] {
      assert (but + [last])[..|r| - 1] == but[..|r| - 1];
    }
  }

  lemma {:induction false} TrimmedIsTrim(lines: seq<string>)
    ensures IsTrim(lines, Trimmed(lines))
    decreases |lines|
  {
    if lines != [] {
      var but, last := lines[..|lines| - 1], lines[|lines| - 1];
      if StripRight(last) == "" {
        TrimmedIsTrim(but);
        BlankLastIsTrimmed(but, last, Trimmed(but));
        assert lines == but + [last];
      }
    }
  }

  lemma {:induction false} StripRightBoth(a: string, b: string)
    ensures StripRight(a + b) == if StripRight(b) == "" then StripRight(a) else a + StripRight(b)
    decreases |b|
  {
    if b == "" {
      assert a + b == a;
    } else {
      assert (a + b)[..|a + b| - 1] == a + b[..|b| - 1];
      if IsSpace(b[|b| - 1]) {
        StripRightBoth(a, b[..|b| - 1]);
      }
    }
  }

  lemma {:induction false} JoinLast(lines: seq<string>, line: string)
    requires lines != []
    ensures Join(lines + [line]) == Join(lines) + "\n" + line
  {
    if |lines| > 1 {
      JoinLast(lines[1..], line);
      assert (lines + [line])[1..] == lines[1..] + [line];
      assert lines[0] + "\n" + (Join(lines[1..]) + "\n" + line) == lines[0] + "\n" + Join(lines[1..]) + "\n" + line;
    } else {
      assert (lines + [line])[1..] == [line];
    }
  }

  lemma {:induction false} StripJoined(lines: seq<string>)
    ensures StripRight(Join(lines)) == Join(Trimmed(lines))
    decreases |lines|
  {
    if |lines| == 1 {
      assert lines[..0] == [];
    } else if |lines| > 1 {
      var but, last := lines[..|lines| - 1], lines[|lines| - 1];
      assert lines == but + [last];
      JoinLast(but, last);
      JoinLast(but, StripRight(last));
      StripJoined(but);
      StripRightBoth(Join(but) + "\n", last);
      StripRightBoth(Join(but), "\n");
      assert StripRight("\n") == "";
    }
  }

  // ---------- assignments ----------

  predicate IsKeyChar(c: char) {
    'A' <= c <= 'Z' || '0' <= c <= '9' || c == '_'
  }

  predicate IsKey(key: string) {
    key != "" && 'A' <= key[0] <= 'Z' && forall c <- key :: IsKeyChar(c)
  }

  /** The end of the longest key starting at `i`, or `i` itself. */
  function KeyEnd(s: string, i: nat): (e: nat)
    requires i <= |s|
    ensures i <= e <= |s| && (e > i ==> IsKey(s[i..e]))
  {
    if i < |s| && 'A' <= s[i] <= 'Z' then
      var e := KeyCharsEnd(s, i);
      assert forall c <- s[i..e] :: IsKeyChar(c);
      e
    else i
  }

  function KeyCharsEnd(s: string, i: nat): (e: nat)
    requires i <= |s|
    ensures i <= e <= |s| && (forall k :: i <= k < e ==> IsKeyChar(s[k])) && (e < |s| ==> !IsKeyChar(s[e]))
    decreases |s| - i
  {
    if i < |s| && IsKeyChar(s[i]) then KeyCharsEnd(s, i + 1) else i
  }

  const EXPORT := "export"

  predicate ExportAt(s: string, i: nat)
    requires i <= |s|
  {
    i + |EXPORT| < |s| && s[i..i + |EXPORT|] == EXPORT
  }

  /** Key and position of the equals sign of an assignment whose key starts at `a`. */
  function AssignmentFrom(s: string, a: nat): (r: Option<(string, nat)>)
    requires a <= |s|
    ensures r.Some? ==> IsKey(r.value.0) && a < r.value.1 < |s| && s[r.value.1] == '='
  {
    var e := KeyEnd(s, a);
    var q := SkipBlanks(s, e);
    if a < e && q < |s| && s[q] == '=' then Some((s[a..e], q)) else None
  }

  /** The same after a possible `export`. */
  function AssignmentAt(s: string, i: nat): (r: Option<(string, nat)>)
    requires i <= |s|
    ensures r.Some? ==> IsKey(r.value.0) && i < r.value.1 < |s| && s[r.value.1] == '='
  {
    AssignmentFrom(s, if ExportAt(s, i) && IsBlank(s[i + |EXPORT|]) then SkipBlanks(s, i + |EXPORT|) else i)
  }

  /** What a line means to the parser. */
  datatype Meaning = Nothing | Assign(key: string, value: string) | Bad

  /** What a line looks like before its value is parsed. */
  datatype Shape = Empty | Setting(key: string, rest: string) | Malformed

  function ShapeOf(line: string): Shape {
    var i := SkipBlanks(line, 0);
    if '\0' in line then Malformed
    else if i == |line| || line[i] == '#' then Empty
    else
      var a := AssignmentAt(line, i);
      if a.None? then Malformed else Setting(a.value.0, line[a.value.1 + 1..])
  }

  function Read(shape: Shape): Meaning {
    match shape
    case Empty => Nothing
    case Setting(key, rest) =>
      var v := ParsedValue(rest);
      if v.None? then Bad else Assign(key, v.value)
    case Malformed => Bad
  }

  function MeaningOf(line: string): Meaning {
    Read(ShapeOf(line))
  }

  function Apply(m: map<string, string>, meaning: Meaning): Option<map<string, string>> {
    match meaning
    case Nothing => Some(m)
    case Assign(key, value) => Some(m[key := value])
    case Bad => None
  }

  /** The settings that a sequence of lines with these meanings leaves; None on the first bad line. */
  function Run(meanings: seq<Meaning>): Option<map<string, string>>
    decreases |meanings|
  {
    if meanings == [] then Some(map[])
    else
      var m := Run(meanings[..|meanings| - 1]);
      if m.None? then None else Apply(m.value, meanings[|meanings| - 1])
  }

  function Meanings(lines: seq<string>): seq<Meaning> {
    seq(|lines|, i requires 0 <= i < |lines| => MeaningOf(lines[i]))
  }

  function ParsedFile(raw: string): Option<map<string, string>> {
    Run(Meanings(SplitLines(raw)))
  }

  /** One turn of the loop of `_parse_trusted_env`. */
  method ParseLine(line: string) returns (r: Meaning)
    ensures r == MeaningOf(line)
  {
    var shape := ShapeOf(line);
    match shape
    case Empty =>
      r := Nothing;
    case Setting(key, rest) =>
      var value := ParseValue(rest);
      r := if value.None? then Bad else Assign(key, value.value);
    case Malformed =>
      r := Bad;
  }

  /** `_parse_trusted_env`. */
  method ParseFile(raw: string) returns (parsed: Option<map<string, string>>)
    ensures parsed == ParsedFile(raw)
  {
    var lines, m := SplitLines(raw), map[];
    ghost var meanings := Meanings(lines);
    for i := 0 to |lines|
      invariant Run(meanings[..i]) == Some(m)
    {
      assert meanings[..i + 1][..i] == meanings[..i];
      var meaning := ParseLine(lines[i]);
      if meaning == Bad {
        BadLineFails(meanings, i);
        return None;
      }
      m := Apply(m, meaning).value;
    }
    assert meanings[..|lines|] == meanings;
    parsed := Some(m);
  }

  lemma {:induction false} BadLineFails(meanings: seq<Meaning>, i: nat)
    requires i < |meanings| && meanings[i] == Bad
    ensures Run(meanings) == None
    decreases |meanings|
  {
    if i < |meanings| - 1 {
      BadLineFails(meanings[..|meanings| - 1], i);
    }
  }

  // ---------- the upsert ----------

  /** The key of an assignment as the upsert's pattern matches it, from the key on. */
  function TargetFrom(s: string, a: nat): (r: Option<string>)
    requires a <= |s|
    ensures r.Some? ==> IsKey(r.value)
  {
    var e := KeyEnd(s, a);
    var q := SkipSpaces(s, e);
    if a < e && q < |s| && s[q] == '=' then Some(s[a..e]) else None
  }

  /** The same after a possible `export`. */
  function TargetAt(s: string, i: nat): (r: Option<string>)
    requires i <= |s|
    ensures r.Some? ==> IsKey(r.value)
  {
    TargetFrom(s, if ExportAt(s, i) && IsSpace(s[i + |EXPORT|]) then SkipSpaces(s, i + |EXPORT|) else i)
  }

  /** What the upsert sees in a line: the indentation and the key of an assignment. */
  function Target(line: string): (r: Option<(string, string)>)
    ensures r.Some? ==> r.value.0 <= line && (forall c <- r.value.0 :: IsSpace(c)) && IsKey(r.value.1)
  {
    var i := SkipSpaces(line, 0);
    var key := TargetAt(line, i);
    if key.Some? then Some((line[..i], key.value)) else None
  }

  /** The settings to write, in their order. */
  datatype Update = Update(keys: seq<string>, value: map<string, string>)

  ghost predicate ValidUpdate(u: Update) {
    && (forall i, j :: 0 <= i < j < |u.keys| ==> u.keys[i] != u.keys[j])
    && (forall k :: k in u.keys <==> k in u.value)
    && (forall k <- u.keys :: IsKey(k))
  }

  /** The rewritten line: None for a line that stays, or that repeats a key already written. */
  function Assigned(indent: string, key: string, value: string): string {
    indent + key + "=" + value
  }

  datatype Rewriting = Rewriting(lines: seq<string>, found: set<string>)

  function RewriteLine(u: Update, done: Rewriting, line: string): Rewriting {
    var t := Target(line);
    if t.Some? && t.value.1 in u.value then
      var key := t.value.1;
      if key in done.found then done
      else Rewriting(done.lines + [Assigned(t.value.0, key, u.value[key])], done.found + {key})
    else Rewriting(done.lines + [line], done.found)
  }

  function Rewritten(u: Update, lines: seq<string>): Rewriting
    decreases |lines|
  {
    if lines == [] then Rewriting([], {})
    else RewriteLine(u, Rewritten(u, lines[..|lines| - 1]), lines[|lines| - 1])
  }

  function Separated(lines: seq<string>): seq<string> {
    if lines != [] && StripRight(lines[|lines| - 1]) != "" then lines + [""] else lines
  }

  function Missing(u: Update, keys: seq<string>, found: set<string>): seq<string>
    requires forall k <- keys :: k in u.value
    decreases |keys|
  {
    if keys == [] then []
    else
      var key := keys[|keys| - 1];
      Missing(u, keys[..|keys| - 1], found) + if key in found then [] else [Assigned("", key, u.value[key])]
  }

  /** All lines of the new file, before trailing whitespace is dropped. */
  function NewLines(u: Update, lines: seq<string>): seq<string>
    requires forall k <- u.keys :: k in u.value
  {
    var r := Rewritten(u, lines);
    Separated(r.lines) + Missing(u, u.keys, r.found)
  }

  function Upserted(u: Update, existing: string): string
    requires forall k <- u.keys :: k in u.value
  {
    StripRight(Join(NewLines(u, SplitLines(existing)))) + "\n"
  }

  // ---------- parser and upsert read the same lines ----------

  lemma SkipsAgree(s: string, i: nat)
    requires i <= |s| && (SkipBlanks(s, i) == |s| || !IsSpace(s[SkipBlanks(s, i)]))
    ensures SkipSpaces(s, i) == SkipBlanks(s, i)
    decreases |s| - i
  {
    if i < |s| && IsBlank(s[i]) {
      SkipsAgree(s, i + 1);
    }
  }

  lemma NoExport(s: string, i: nat)
    requires i < |s| && s[i] != 'e'
    ensures !ExportAt(s, i)
  {
    if i + |EXPORT| < |s| {
      assert s[i..i + |EXPORT|][0] == s[i];
    }
  }

  lemma TargetAtAgrees(s: string, i: nat)
    requires i < |s| && AssignmentAt(s, i).Some?
    ensures TargetAt(s, i) == Some(AssignmentAt(s, i).value.0)
  {
    var exported := ExportAt(s, i) && IsBlank(s[i + |EXPORT|]);
    var a := if exported then SkipBlanks(s, i + |EXPORT|) else i;
    var e := KeyEnd(s, a);
    assert 'A' <= s[a] <= 'Z';
    SkipsAgree(s, e);
    if exported {
      SkipsAgree(s, i + |EXPORT|);
    } else {
      NoExport(s, i);
    }
  }

  lemma NoTargetAt(s: string, i: nat)
    requires i <= |s| && (i < |s| ==> s[i] == '#')
    ensures TargetAt(s, i) == None
  {
    if i < |s| {
      NoExport(s, i);
    }
  }

  /** On a line the parser accepts, the upsert finds the same key, or none. */
  lemma TargetAgrees(line: string)
    requires ShapeOf(line) != Malformed
    ensures ShapeOf(line).Setting? ==> Target(line) == Some((line[..SkipBlanks(line, 0)], ShapeOf(line).key))
    ensures ShapeOf(line).Empty? ==> Target(line) == None
  {
    var i := SkipBlanks(line, 0);
    if ShapeOf(line).Setting? {
      TargetAtAgrees(line, i);
      AssignmentStarts(line, i);
      SkipsAgree(line, 0);
    } else {
      SkipsAgree(line, 0);
      NoTargetAt(line, i);
    }
  }

  lemma AssignmentStarts(s: string, i: nat)
    requires i < |s| && AssignmentAt(s, i).Some?
    ensures !IsSpace(s[i])
  {
    if ExportAt(s, i) {
      assert s[i..i + |EXPORT|][0] == s[i];
    }
  }

  lemma KeyEndIs(s: string, i: nat, e: nat)
    requires i < e <= |s| && IsKey(s[i..e]) && (e < |s| ==> !IsKeyChar(s[e]))
    ensures KeyEnd(s, i) == e
  {
    assert s[i..e][0] == s[i];
    forall k | i <= k < e ensures IsKeyChar(s[k]) {
      assert s[k] == s[i..e][k - i];
    }
    KeyCharsEndIs(s, i, e);
  }

  lemma KeyCharsEndIs(s: string, i: nat, e: nat)
    requires i <= e <= |s| && (forall k :: i <= k < e ==> IsKeyChar(s[k])) && (e < |s| ==> !IsKeyChar(s[e]))
    ensures KeyCharsEnd(s, i) == e
    decreases e - i
  {
    if i < e {
      KeyCharsEndIs(s, i + 1, e);
    }
  }

  lemma SkipBlanksIs(s: string, i: nat, e: nat)
    requires i <= e <= |s| && (forall k :: i <= k < e ==> IsBlank(s[k])) && (e < |s| ==> !IsBlank(s[e]))
    ensures SkipBlanks(s, i) == e
    decreases e - i
  {
    if i < e {
      SkipBlanksIs(s, i + 1, e);
    }
  }

  /** A value the writer may store so that the reader sees it unchanged. */
  predicate IsPlain(value: string) {
    IsLine(value) && '\0' !in value && ParsedValue(value) == Some(value)
  }

  lemma AssignedCharacters(indent: string, key: string, value: string)
    requires (forall c <- indent :: IsBlank(c)) && IsKey(key) && IsLine(value) && '\0' !in value
    ensures IsLine(Assigned(indent, key, value)) && '\0' !in Assigned(indent, key, value)
  {
    forall c <- Assigned(indent, key, value) ensures !IsSeparator(c) && c != '\0' {
      assert c in indent || c in key || c == '=' || c in value;
      if c in key {
        assert IsKeyChar(c);
      }
    }
  }

  lemma AssignedShape(indent: string, key: string, value: string)
    requires (forall c <- indent :: IsBlank(c)) && IsKey(key) && IsLine(value) && '\0' !in value
    ensures ShapeOf(Assigned(indent, key, value)) == Setting(key, value)
    ensures SkipBlanks(Assigned(indent, key, value), 0) == |indent|
  {
    var line := Assigned(indent, key, value);
    var i, e := |indent|, |indent| + |key|;
    AssignedCharacters(indent, key, value);
    assert line[i..e] == key && line[e] == '=' && line[e + 1..] == value;
    forall k | 0 <= k < i ensures IsBlank(line[k]) {
      assert line[k] == indent[k];
    }
    assert line[i] == key[0];
    SkipBlanksIs(line, 0, i);
    NoExport(line, i);
    KeyEndIs(line, i, e);
    SkipBlanksIs(line, e, e);
  }

  lemma AssignedMeans(indent: string, key: string, value: string)
    requires (forall c <- indent :: IsBlank(c)) && IsKey(key) && IsPlain(value)
    ensures MeaningOf(Assigned(indent, key, value)) == Assign(key, value)
    ensures IsLine(Assigned(indent, key, value))
  {
    AssignedShape(indent, key, value);
    AssignedCharacters(indent, key, value);
  }

  // ---------- what the written file means ----------

  /** The old settings with the updated ones among them replaced. */
  function Merged(u: Update, m: map<string, string>): map<string, string> {
    map k | k in m :: if k in u.value then u.value[k] else m[k]
  }

  lemma OneMoreRun(meanings: seq<Meaning>, x: Meaning)
    requires Run(meanings).Some?
    ensures Run(meanings + [x]) == Apply(Run(meanings).value, x)
  {
    assert (meanings + [x])[..|meanings|] == meanings;
  }

  /** The rewriting seen through the parser. */
  datatype Reading = Reading(meanings: seq<Meaning>, found: set<string>)

  function RewriteMeaning(u: Update, done: Reading, x: Meaning): Reading {
    if x.Assign? && x.key in u.value then
      if x.key in done.found then done
      else Reading(done.meanings + [Assign(x.key, u.value[x.key])], done.found + {x.key})
    else Reading(done.meanings + [x], done.found)
  }

  function RewrittenMeanings(u: Update, meanings: seq<Meaning>): Reading
    decreases |meanings|
  {
    if meanings == [] then Reading([], {})
    else RewriteMeaning(u, RewrittenMeanings(u, meanings[..|meanings| - 1]), meanings[|meanings| - 1])
  }

  lemma RewritingAMeaning(u: Update, done: Reading, x: Meaning, m: map<string, string>)
    requires Run(done.meanings) == Some(Merged(u, m)) && done.found == m.Keys * u.value.Keys && x != Bad
    ensures
      var r, m' := RewriteMeaning(u, done, x), Apply(m, x).value;
      Run(r.meanings) == Some(Merged(u, m')) && r.found == m'.Keys * u.value.Keys
  {
    if x.Assign? {
      var value := if x.key in u.value then u.value[x.key] else x.value;
      var m' := m[x.key := x.value];
      assert Merged(u, m') == Merged(u, m)[x.key := value];
      assert x.key in u.value ==> m'.Keys * u.value.Keys == done.found + {x.key};
      assert x.key !in u.value ==> m'.Keys * u.value.Keys == done.found && x == Assign(x.key, value);
      if x.key in done.found {
        assert Merged(u, m)[x.key := value] == Merged(u, m);
      } else {
        OneMoreRun(done.meanings, Assign(x.key, value));
      }
    } else {
      OneMoreRun(done.meanings, x);
    }
  }

  lemma {:induction false} RewritingMerges(u: Update, meanings: seq<Meaning>)
    requires Run(meanings).Some?
    ensures
      var r, m := RewrittenMeanings(u, meanings), Run(meanings).value;
      Run(r.meanings) == Some(Merged(u, m)) && r.found == m.Keys * u.value.Keys
    decreases |meanings|
  {
    if meanings == [] {
      assert Merged(u, map[]) == map[];
    } else {
      var but, last := meanings[..|meanings| - 1], meanings[|meanings| - 1];
      RewritingMerges(u, but);
      RewritingAMeaning(u, RewrittenMeanings(u, but), last, Run(but).value);
    }
  }

  lemma LineMeaning(u: Update, line: string)
    requires MeaningOf(line) != Bad && forall k <- u.value :: IsPlain(u.value[k])
    ensures MeaningOf(line).Assign? <==> Target(line).Some?
    ensures Target(line).Some? ==> Target(line).value.1 == MeaningOf(line).key
    ensures Target(line).Some? && Target(line).value.1 in u.value ==>
      var (indent, key) := Target(line).value;
      MeaningOf(Assigned(indent, key, u.value[key])) == Assign(key, u.value[key])
  {
    TargetAgrees(line);
    if Target(line).Some? && Target(line).value.1 in u.value {
      AssignedMeans(Target(line).value.0, Target(line).value.1, u.value[Target(line).value.1]);
    }
  }

  lemma MeaningsOfBoth(left: seq<string>, right: seq<string>)
    ensures Meanings(left + right) == Meanings(left) + Meanings(right)
  {
  }

  lemma {:induction false} RewrittenReads(u: Update, lines: seq<string>)
    requires Bad !in Meanings(lines) && forall k <- u.value :: IsPlain(u.value[k])
    ensures Reading(Meanings(Rewritten(u, lines).lines), Rewritten(u, lines).found)
         == RewrittenMeanings(u, Meanings(lines))
    decreases |lines|
  {
    if lines != [] {
      var but, last := lines[..|lines| - 1], lines[|lines| - 1];
      assert Meanings(lines)[..|lines| - 1] == Meanings(but);
      RewrittenReads(u, but);
      RewrittenLineReads(u, Rewritten(u, but), last, Meanings(lines)[|lines| - 1]);
    }
  }

  lemma RewrittenLineReads(u: Update, done: Rewriting, line: string, x: Meaning)
    requires x == MeaningOf(line) != Bad && forall k <- u.value :: IsPlain(u.value[k])
    ensures
      var r := RewriteLine(u, done, line);
      Reading(Meanings(r.lines), r.found) == RewriteMeaning(u, Reading(Meanings(done.lines), done.found), x)
  {
    LineMeaning(u, line);
    OneMoreMeaning(done.lines, line);
    if Target(line).Some? && Target(line).value.1 in u.value {
      var key := Target(line).value.1;
      OneMoreMeaning(done.lines, Assigned(Target(line).value.0, key, u.value[key]));
    }
  }

  lemma OneMoreMeaning(lines: seq<string>, line: string)
    ensures Meanings(lines + [line]) == Meanings(lines) + [MeaningOf(line)]
  {
  }

  /** The new settings of the keys that were not found, in order. */
  function MissingMeanings(u: Update, keys: seq<string>, found: set<string>): seq<Meaning>
    requires forall k <- keys :: k in u.value
    decreases |keys|
  {
    if keys == [] then []
    else
      var key := keys[|keys| - 1];
      MissingMeanings(u, keys[..|keys| - 1], found) + if key in found then [] else [Assign(key, u.value[key])]
  }

  lemma {:induction false} MissingReads(u: Update, keys: seq<string>, found: set<string>)
    requires forall k <- keys :: k in u.value && IsKey(k) && IsPlain(u.value[k])
    ensures Meanings(Missing(u, keys, found)) == MissingMeanings(u, keys, found)
    decreases |keys|
  {
    if keys != [] {
      var but, key := keys[..|keys| - 1], keys[|keys| - 1];
      MissingReads(u, but, found);
      AssignedMeans("", key, u.value[key]);
      OneMoreMeaning(Missing(u, but, found), Assigned("", key, u.value[key]));
      assert Missing(u, but, found) + [] == Missing(u, but, found);
    }
  }

  function Rest(u: Update, keys: seq<string>, found: set<string>): map<string, string>
    requires forall k <- keys :: k in u.value
  {
    map k | k in keys && k !in found :: u.value[k]
  }

  lemma OneMoreKey(u: Update, keys: seq<string>, key: string, found: set<string>)
    requires key in u.value && forall k <- keys :: k in u.value
    ensures Rest(u, keys + [key], found)
         == if key in found then Rest(u, keys, found) else Rest(u, keys, found)[key := u.value[key]]
  {
  }

  lemma {:induction false} AppendingAddsTheRest(u: Update, meanings: seq<Meaning>, keys: seq<string>,
                                                found: set<string>)
    requires Run(meanings).Some? && forall k <- keys :: k in u.value
    ensures Run(meanings + MissingMeanings(u, keys, found)) == Some(Run(meanings).value + Rest(u, keys, found))
    decreases |keys|
  {
    if keys == [] {
      assert meanings + [] == meanings;
      assert Run(meanings).value + Rest(u, [], found) == Run(meanings).value;
    } else {
      var but, key := keys[..|keys| - 1], keys[|keys| - 1];
      AppendingAddsTheRest(u, meanings, but, found);
      assert keys == but + [key];
      OneMoreKey(u, but, key, found);
      AppendOne(meanings, MissingMeanings(u, but, found), Rest(u, but, found), key, u.value[key]);
      assert meanings + MissingMeanings(u, but, found) + [] == meanings + MissingMeanings(u, but, found);
    }
  }

  lemma AppendOne(meanings: seq<Meaning>, more: seq<Meaning>, rest: map<string, string>, key: string, value: string)
    requires Run(meanings).Some? && Run(meanings + more) == Some(Run(meanings).value + rest)
    ensures Run(meanings + (more + [Assign(key, value)])) == Some(Run(meanings).value + rest[key := value])
    ensures meanings + (more + []) == meanings + more
  {
    assert meanings + (more + [Assign(key, value)]) == (meanings + more) + [Assign(key, value)];
    OneMoreRun(meanings + more, Assign(key, value));
    SetLast(Run(meanings).value, rest, key, value);
    assert more + [] == more;
  }

  lemma SetLast(m: map<string, string>, rest: map<string, string>, key: string, value: string)
    ensures (m + rest)[key := value] == m + rest[key := value]
  {
  }

  lemma ParsedHasNoBadLine(meanings: seq<Meaning>)
    requires Run(meanings).Some?
    ensures Bad !in meanings
  {
    forall i | 0 <= i < |meanings| ensures meanings[i] != Bad {
      if meanings[i] == Bad {
        BadLineFails(meanings, i);
      }
    }
  }

  lemma SeparatedReads(lines: seq<string>)
    requires Run(Meanings(lines)).Some?
    ensures Run(Meanings(Separated(lines))) == Run(Meanings(lines))
  {
    MeaningsOfBoth(lines, [""]);
    OneMoreRun(Meanings(lines), Nothing);
  }

  /** Before trailing whitespace is dropped, the new lines mean the old settings overridden. */
  lemma NewLinesOverride(u: Update, lines: seq<string>)
    requires ValidUpdate(u) && Run(Meanings(lines)).Some? && forall k <- u.value :: IsPlain(u.value[k])
    ensures Run(Meanings(NewLines(u, lines))) == Some(Run(Meanings(lines)).value + u.value)
  {
    var m, r := Run(Meanings(lines)).value, Rewritten(u, lines);
    ParsedHasNoBadLine(Meanings(lines));
    RewrittenReads(u, lines);
    RewritingMerges(u, Meanings(lines));
    SeparatedReads(r.lines);
    MissingReads(u, u.keys, r.found);
    MeaningsOfBoth(Separated(r.lines), Missing(u, u.keys, r.found));
    AppendingAddsTheRest(u, Meanings(Separated(r.lines)), u.keys, r.found);
    Overriding(u, m);
  }

  lemma Overriding(u: Update, m: map<string, string>)
    requires ValidUpdate(u)
    ensures Merged(u, m) + Rest(u, u.keys, m.Keys * u.value.Keys) == m + u.value
  {
  }

  // ---------- dropping trailing whitespace ----------

  /** A text from which `n` characters are left when trailing whitespace goes. */
  predicate SpacesFrom(s: string, n: nat) {
    n <= |s| && forall k :: n <= k < |s| ==> IsSpace(s[k])
  }

  lemma {:induction false} UnquoteTrimmed(s: string, n: nat, i: nat)
    requires SpacesFrom(s, n) && 1 <= i <= |s| && IsQuote(s[0]) && Unquote(s, i).Some?
    ensures i < n && Unquote(s[..n], i) == Unquote(s, i)
    decreases |s| - i
  {
    if s[i] == s[0] {
      SuffixTrimmed(s, n, i + 1);
    } else if s[i] == '\\' && i + 1 < |s| && (s[i + 1] == s[0] || s[i + 1] == '\\') {
      UnquoteTrimmed(s, n, i + 2);
    } else {
      UnquoteTrimmed(s, n, i + 1);
    }
  }

  lemma SuffixTrimmed(s: string, n: nat, i: nat)
    requires SpacesFrom(s, n) && 1 <= i <= |s| && IsQuote(s[i - 1]) && IsSuffix(s[i..])
    ensures i <= n && IsSuffix(s[..n][i..])
  {
    if s[i..] != "" {
      var p := SkipBlanks(s[i..], 0);
      assert s[i..][p] == s[i + p] == '#';
      assert i + p < n;
      var t := s[..n][i..];
      forall k | 0 <= k < p ensures IsBlank(t[k]) {
        assert t[k] == s[i..][k];
      }
      SkipBlanksIs(t, 0, p);
    }
  }

  predicate ScansQuotes(at: Scanner) {
    at.quote.Some? ==> IsQuote(at.quote.value)
  }

  lemma {:induction false} SpacesEnd(s: string, i: nat, at: Scanner)
    requires SpacesFrom(s, i) && ScansQuotes(at)
    ensures DataEnd(s, i, at) == if at.quote.Some? then None else Some(|s|)
    decreases |s| - i
  {
    if i < |s| {
      SpacesEnd(s, i + 1, Advance(s, i, at));
    }
  }

  lemma {:induction false} DataEndTrimmed(s: string, n: nat, i: nat, at: Scanner)
    requires SpacesFrom(s, n) && i <= n && ScansQuotes(at) && DataEnd(s, i, at).Some?
    ensures DataEnd(s, i, at).value < |s| ==> DataEnd(s, i, at).value < n
    ensures DataEnd(s[..n], i, at) == Some(if DataEnd(s, i, at).value == |s| then n else DataEnd(s, i, at).value)
    decreases |s| - i
  {
    if i == n {
      SpacesEnd(s, i, at);
    } else if !StopsAt(s, i, at) {
      assert StopsAt(s[..n], i, at) == StopsAt(s, i, at) && Advance(s[..n], i, at) == Advance(s, i, at);
      DataEndTrimmed(s, n, i + 1, Advance(s, i, at));
    } else {
      assert StopsAt(s[..n], i, at);
    }
  }

  /** The whole stripped text is unquoted data without a comment, and ends in whitespace other than
      blanks, which only the writer drops. */
  predicate LosesSpace(rest: string) {
    var text := StripBlanks(rest);
    && text != "" && !IsQuote(text[0]) && DataEnd(text, 0, OUTSIDE) == Some(|text|)
    && IsSpace(text[|text| - 1])
  }

  lemma ValueTrimmed(text: string)
    requires ValueOf(text).Some? && (text != "" ==> !IsBlank(text[|text| - 1]))
    ensures
      var loses :=
        text != "" && !IsQuote(text[0]) && DataEnd(text, 0, OUTSIDE) == Some(|text|) && IsSpace(text[|text| - 1]);
      ValueOf(StripRight(text)) == if loses then Some(StripRight(text)) else ValueOf(text)
  {
    var n := |StripRight(text)|;
    if text != "" && IsQuote(text[0]) {
      assert n > 0;
      UnquoteTrimmed(text, n, 1);
    } else if text != "" {
      DataEndTrimmed(text, n, 0, OUTSIDE);
      var e := DataEnd(text, 0, OUTSIDE).value;
      if e < |text| {
        assert StripRight(text)[..e] == text[..e];
      }
    }
  }

  lemma StripsCommute(s: string)
    ensures StripBlanks(StripRight(s)) == StripRight(StripBlanks(s))
  {
    var i, n := SkipBlanks(s, 0), |StripRight(s)|;
    TrimThenStrip(s[i..]);
    if i < n {
      StripBlanksOfPart(s, i, n);
      StripRightOfTail(s, i, n);
    } else {
      OnlyBlanksLeft(s, n);
      AllSpaces(s[i..]);
    }
  }

  lemma OnlyBlanksLeft(s: string, n: nat)
    requires n <= SkipBlanks(s, 0) && n == |StripRight(s)|
    ensures n == 0 && StripBlanks(StripRight(s)) == ""
  {
    assert n > 0 ==> IsBlank(s[n - 1]);
  }

  lemma StripBlanksOfPart(s: string, i: nat, n: nat)
    requires i == SkipBlanks(s, 0) && i < n <= |s| && !IsSpace(s[n - 1])
    ensures StripBlanks(s[..n]) == s[i..n]
  {
    SkipBlanksIs(s[..n], 0, i);
    assert s[..n][i..] == s[i..n];
    NothingToTrim(s[i..n]);
  }

  lemma {:induction false} StripRightIs(s: string, n: nat)
    requires SpacesFrom(s, n) && (n > 0 ==> !IsSpace(s[n - 1]))
    ensures StripRight(s) == s[..n]
    decreases |s|
  {
    if |s| > n {
      StripRightIs(s[..|s| - 1], n);
      assert s[..|s| - 1][..n] == s[..n];
    } else {
      assert s[..n] == s;
    }
  }

  lemma AllSpaces(s: string)
    requires forall c <- s :: IsSpace(c)
    ensures StripRight(s) == ""
  {
    StripRightIs(s, 0);
  }

  lemma {:induction false} TrimThenStrip(s: string)
    ensures StripRight(TrimBlanks(s)) == StripRight(s)
    decreases |s|
  {
    if s != "" && IsBlank(s[|s| - 1]) {
      TrimThenStrip(s[..|s| - 1]);
    }
  }

  lemma NothingToTrim(s: string)
    requires s != "" ==> !IsSpace(s[|s| - 1])
    ensures TrimBlanks(s) == s
  {
  }

  /** When dropping trailing whitespace changes what a value reads as. */
  lemma ReadTrimmed(rest: string)
    requires ParsedValue(rest).Some?
    ensures ParsedValue(StripRight(rest)).Some?
    ensures ParsedValue(StripRight(rest)) == ParsedValue(rest) <==> !LosesSpace(rest)
  {
    StripsCommute(rest);
    ValueTrimmed(StripBlanks(rest));
  }

  lemma SkipBlanksOfPart(s: string, n: nat, i: nat)
    requires i <= n <= |s| && SkipBlanks(s, i) < n
    ensures SkipBlanks(s[..n], i) == SkipBlanks(s, i)
  {
    SkipBlanksIs(s[..n], i, SkipBlanks(s, i));
  }

  lemma KeyEndOfPart(s: string, n: nat, i: nat)
    requires i <= n <= |s| && KeyEnd(s, i) < n
    ensures KeyEnd(s[..n], i) == KeyEnd(s, i)
  {
    var e := KeyEnd(s, i);
    if i < e {
      assert s[..n][i..e] == s[i..e];
      KeyEndIs(s[..n], i, e);
    }
  }

  lemma ExportOfPart(s: string, n: nat, i: nat)
    requires i <= n <= |s| && AssignmentAt(s, i).Some? && AssignmentAt(s, i).value.1 < n
    ensures ExportAt(s[..n], i) == ExportAt(s, i)
  {
    if ExportAt(s, i) {
      assert s[i..i + |EXPORT|][0] == s[i];
      assert s[..n][i..i + |EXPORT|] == s[i..i + |EXPORT|];
    } else if i + |EXPORT| < n {
      assert s[..n][i..i + |EXPORT|] == s[i..i + |EXPORT|];
    }
  }

  lemma AssignmentFromPart(s: string, n: nat, a: nat)
    requires a <= n <= |s| && AssignmentFrom(s, a).Some? && AssignmentFrom(s, a).value.1 < n
    ensures AssignmentFrom(s[..n], a) == AssignmentFrom(s, a)
  {
    var e := KeyEnd(s, a);
    KeyEndOfPart(s, n, a);
    SkipBlanksOfPart(s, n, e);
    assert s[..n][a..e] == s[a..e];
  }

  lemma AssignmentOfPart(s: string, n: nat, i: nat)
    requires i <= n <= |s| && AssignmentAt(s, i).Some? && AssignmentAt(s, i).value.1 < n
    ensures AssignmentAt(s[..n], i) == AssignmentAt(s, i)
  {
    var exported := ExportAt(s, i) && IsBlank(s[i + |EXPORT|]);
    ExportOfPart(s, n, i);
    if exported {
      SkipBlanksOfPart(s, n, i + |EXPORT|);
      AssignmentFromPart(s, n, SkipBlanks(s, i + |EXPORT|));
    } else {
      AssignmentFromPart(s, n, i);
    }
  }

  lemma SettingOfPart(line: string, part: string, i: nat, q: nat)
    requires part <= line && i == SkipBlanks(line, 0) && ShapeOf(line).Setting?
    requires q == AssignmentAt(line, i).value.1 < |part|
    ensures ShapeOf(part) == Setting(ShapeOf(line).key, part[q + 1..])
  {
    assert part == line[..|part|];
    SkipBlanksOfPart(line, |part|, 0);
    AssignmentOfPart(line, |part|, i);
    assert part[i] == line[i] != '#';
    assert '\0' !in part;
  }

  lemma TailOfPart(line: string, part: string, q: nat)
    requires part <= line && SpacesFrom(line, |part|) && (part != "" ==> !IsSpace(part[|part| - 1]))
    requires q < |line| && !IsSpace(line[q])
    ensures q < |part| && StripRight(line[q + 1..]) == part[q + 1..]
  {
    StripRightOfTail(line, q + 1, |part|);
    assert part[q + 1..] == line[q + 1..|part|];
  }

  lemma SettingTrimmed(line: string, part: string)
    requires ShapeOf(line).Setting?
    requires part <= line && SpacesFrom(line, |part|) && (part != "" ==> !IsSpace(part[|part| - 1]))
    ensures ShapeOf(part) == Setting(ShapeOf(line).key, StripRight(ShapeOf(line).rest))
  {
    var i := SkipBlanks(line, 0);
    var q := AssignmentAt(line, i).value.1;
    var rest := ShapeOf(line).rest;
    assert rest == line[q + 1..];
    assert q < |part| && StripRight(rest) == part[q + 1..] by {
      TailOfPart(line, part, q);
    }
    SettingOfPart(line, part, i, q);
  }

  /** Trailing whitespace belongs to the value of an assignment, or to nothing the parser reads. */
  lemma ShapeTrimmed(line: string)
    requires ShapeOf(line) != Malformed
    ensures ShapeOf(line).Setting? ==>
              ShapeOf(StripRight(line)) == Setting(ShapeOf(line).key, StripRight(ShapeOf(line).rest))
    ensures ShapeOf(line).Empty? ==> ShapeOf(StripRight(line)) == Empty
  {
    var i, n := SkipBlanks(line, 0), |StripRight(line)|;
    if ShapeOf(line).Setting? {
      SettingTrimmed(line, StripRight(line));
    } else if i < |line| {
      assert i < n;
      SkipBlanksOfPart(line, n, 0);
    } else {
      AllSpaces(line);
    }
  }

  lemma StripRightOfTail(s: string, i: nat, n: nat)
    requires i <= n <= |s| && SpacesFrom(s, n) && (n > 0 ==> !IsSpace(s[n - 1]))
    ensures StripRight(s[i..]) == s[i..n]
  {
    assert s[i..][..n - i] == s[i..n];
    StripRightIs(s[i..], n - i);
  }

  /** The line's value would read differently without its trailing whitespace. */
  predicate IsHazard(line: string) {
    ShapeOf(line).Setting? && LosesSpace(ShapeOf(line).rest)
  }

  lemma MeaningTrimmed(line: string)
    requires MeaningOf(line) != Bad
    ensures MeaningOf(StripRight(line)) != Bad
    ensures MeaningOf(StripRight(line)) == MeaningOf(line) <==> !IsHazard(line)
    ensures MeaningOf(line).Assign? ==>
      (MeaningOf(StripRight(line)).Assign? && MeaningOf(StripRight(line)).key == MeaningOf(line).key)
    ensures IsHazard(line) ==> MeaningOf(line).Assign?
    ensures MeaningOf(line).Nothing? ==> MeaningOf(StripRight(line)).Nothing?
    ensures StripRight(line) == "" ==> MeaningOf(line) == Nothing
  {
    ShapeTrimmed(line);
    TrimmedReads(ShapeOf(line), ShapeOf(StripRight(line)));
    if StripRight(line) == "" {
      assert ShapeOf("") == Empty;
    }
  }

  lemma TrimmedReads(shape: Shape, cut: Shape)
    requires Read(shape) != Bad
    requires shape.Setting? ==> cut == Setting(shape.key, StripRight(shape.rest))
    requires shape.Empty? ==> cut == Empty
    ensures Read(cut) != Bad && (Read(cut) == Read(shape) <==> !(shape.Setting? && LosesSpace(shape.rest)))
    ensures if shape.Setting? then Read(shape).Assign? && Read(cut).Assign? && Read(cut).key == Read(shape).key
            else Read(shape) == Read(cut) == Nothing
  {
    if shape.Setting? {
      ReadTrimmed(shape.rest);
    }
  }

  lemma {:induction false} NothingAtTheEnd(meanings: seq<Meaning>, n: nat)
    requires n <= |meanings| && Run(meanings).Some?
    requires forall k :: n <= k < |meanings| ==> meanings[k] == Nothing
    ensures Run(meanings[..n]) == Run(meanings)
    decreases |meanings|
  {
    if n == |meanings| {
      assert meanings[..n] == meanings;
    } else {
      var but := meanings[..|meanings| - 1];
      assert but[..n] == meanings[..n];
      NothingAtTheEnd(but, n);
    }
  }

  lemma BlankLinesMeanNothing(lines: seq<string>, n: nat)
    requires n <= |lines| && Run(Meanings(lines)).Some?
    requires forall k :: n <= k < |lines| ==> StripRight(lines[k]) == ""
    ensures Run(Meanings(lines[..n])) == Run(Meanings(lines))
  {
    var meanings := Meanings(lines);
    forall k | n <= k < |lines| ensures meanings[k] == Nothing {
      LineIsNotBad(lines, k);
      MeaningTrimmed(lines[k]);
    }
    NothingAtTheEnd(meanings, n);
    assert Meanings(lines[..n]) == meanings[..n];
  }

  /** The last line that is not blank. */
  function LastText(lines: seq<string>): Option<string> {
    if Trimmed(lines) == [] then None else Some(lines[|Trimmed(lines)| - 1])
  }

  /** Dropping trailing whitespace keeps the meaning of a file unless its last text is a hazard. */
  lemma TrimmingKeepsMeaning(lines: seq<string>, r: seq<string>)
    requires Run(Meanings(lines)).Some? && IsTrim(lines, r)
    ensures Run(Meanings(r)) == Run(Meanings(lines)) <==> !(r != [] && IsHazard(lines[|r| - 1]))
  {
    BlankLinesMeanNothing(lines, |r|);
    if r != [] {
      LineIsNotBad(lines, |r| - 1);
      HeadDecides(lines, r, |r| - 1, Run(Meanings(lines)));
    } else {
      assert r == lines[..|r|];
    }
  }

  lemma HeadDecides(lines: seq<string>, r: seq<string>, n: nat, m: Option<map<string, string>>)
    requires n < |lines| && r == lines[..n] + [StripRight(lines[n])] && MeaningOf(lines[n]) != Bad
    requires Run(Meanings(lines[..n + 1])) == m && m.Some?
    ensures Run(Meanings(r)) == m <==> !IsHazard(lines[n])
  {
    var but, last := lines[..n], lines[n];
    assert lines[..n + 1] == but + [last];
    OneMoreMeaning(but, last);
    OneMoreMeaning(but, StripRight(last));
    MeaningTrimmed(last);
    LastMeaningDecides(Meanings(but), MeaningOf(last), MeaningOf(StripRight(last)));
  }

  lemma LastMeaningDecides(before: seq<Meaning>, x: Meaning, y: Meaning)
    requires Run(before + [x]).Some? && x != Bad && y != Bad
    requires x.Assign? ==> y.Assign? && y.key == x.key
    requires x.Nothing? ==> y.Nothing?
    ensures Run(before + [y]) == Run(before + [x]) <==> x == y
  {
    assert (before + [x])[..|before|] == before;
    OneMoreRun(before, x);
    OneMoreRun(before, y);
    if x.Assign? && x != y {
      var m := Run(before).value;
      assert m[x.key := x.value][x.key] != m[x.key := y.value][x.key];
    }
  }

  lemma LineIsNotBad(lines: seq<string>, i: nat)
    requires i < |lines| && Run(Meanings(lines)).Some?
    ensures MeaningOf(lines[i]) != Bad
  {
    ParsedHasNoBadLine(Meanings(lines));
    assert Meanings(lines)[i] == MeaningOf(lines[i]);
  }

  lemma {:induction false} RewrittenAreLines(u: Update, lines: seq<string>)
    requires (forall line <- lines :: IsLine(line)) && (forall k <- u.value :: IsLine(u.value[k]))
    ensures forall line <- Rewritten(u, lines).lines :: IsLine(line)
    decreases |lines|
  {
    if lines != [] {
      var but, last := lines[..|lines| - 1], lines[|lines| - 1];
      RewrittenAreLines(u, but);
      assert IsLine(last);
      if Target(last).Some? && Target(last).value.1 in u.value {
        var (indent, key) := Target(last).value;
        assert forall c <- indent :: c in last;
        AssignedIsLine(indent, key, u.value[key]);
      }
    }
  }

  lemma AssignedIsLine(indent: string, key: string, value: string)
    requires IsLine(indent) && IsKey(key) && IsLine(value)
    ensures IsLine(Assigned(indent, key, value))
  {
    forall c <- Assigned(indent, key, value) ensures !IsSeparator(c) {
      assert c in indent || c in key || c == '=' || c in value;
      assert c in key ==> IsKeyChar(c);
    }
  }

  lemma {:induction false} MissingAreLines(u: Update, keys: seq<string>, found: set<string>)
    requires forall k <- keys :: k in u.value && IsKey(k) && IsLine(u.value[k])
    ensures forall line <- Missing(u, keys, found) :: IsLine(line)
    decreases |keys|
  {
    if keys != [] {
      MissingAreLines(u, keys[..|keys| - 1], found);
      AssignedIsLine("", keys[|keys| - 1], u.value[keys[|keys| - 1]]);
    }
  }

  lemma NewAreLines(u: Update, lines: seq<string>)
    requires ValidUpdate(u) && (forall line <- lines :: IsLine(line)) && (forall k <- u.value :: IsLine(u.value[k]))
    ensures forall line <- NewLines(u, lines) :: IsLine(line)
    ensures forall line <- Trimmed(NewLines(u, lines)) :: IsLine(line)
  {
    RewrittenAreLines(u, lines);
    MissingAreLines(u, u.keys, Rewritten(u, lines).found);
    TrimmedIsTrim(NewLines(u, lines));
    TrimmedAreLines(NewLines(u, lines), Trimmed(NewLines(u, lines)));
  }

  lemma TrimmedAreLines(lines: seq<string>, r: seq<string>)
    requires IsTrim(lines, r) && forall line <- lines :: IsLine(line)
    ensures forall line <- r :: IsLine(line)
  {
    if r != [] {
      assert lines[|r| - 1] in lines;
    }
  }

  /** The lines of the written file. */
  lemma UpsertedLines(u: Update, existing: string)
    requires ValidUpdate(u) && forall k <- u.value :: IsLine(u.value[k])
    ensures
      var r := Trimmed(NewLines(u, SplitLines(existing)));
      SplitLines(Upserted(u, existing)) == if r == [] then [""] else r
  {
    var lines := NewLines(u, SplitLines(existing));
    StripJoined(lines);
    NewAreLines(u, SplitLines(existing));
    if Trimmed(lines) == [] {
      SplitJoined([""]);
    } else {
      SplitJoined(Trimmed(lines));
    }
  }

  /** Where the upsert changes more than it was asked to: the last line with text is an unquoted
      assignment without a comment whose value ends in whitespace that is not blank. */
  predicate TrailingHazard(u: Update, existing: string)
    requires forall k <- u.keys :: k in u.value
  {
    var last := LastText(NewLines(u, SplitLines(existing)));
    last.Some? && IsHazard(last.value)
  }

  /** Parsing the upserted file gives the old settings overridden by the new ones, exactly when the
      last text of the file is no hazard. */
  lemma UpsertOverridesExactlyWhen(u: Update, existing: string)
    requires ValidUpdate(u) && ParsedFile(existing).Some?
    requires forall k <- u.value :: IsPlain(u.value[k])
    ensures ParsedFile(Upserted(u, existing)) == Some(ParsedFile(existing).value + u.value)
      <==> !TrailingHazard(u, existing)
  {
    var lines := NewLines(u, SplitLines(existing));
    NewLinesOverride(u, SplitLines(existing));
    UpsertedLines(u, existing);
    TrimmedIsTrim(lines);
    TrimmingKeepsMeaning(lines, Trimmed(lines));
    if Trimmed(lines) == [] {
      BlankFileIsEmpty();
    }
  }

  lemma BlankFileIsEmpty()
    ensures Run(Meanings([""])) == Run(Meanings([])) == Some(map[])
  {
    assert Meanings([""]) == [] + [Nothing];
    OneMoreRun([], Nothing);
    assert Meanings([]) == [];
  }

  /** Whitespace of a text is blanks only. */
  predicate OnlyBlanks(s: string) {
    forall c <- s :: IsSpace(c) ==> IsBlank(c)
  }

  lemma OnlyBlanksNoHazard(line: string)
    requires OnlyBlanks(line)
    ensures !IsHazard(line)
  {
    if ShapeOf(line).Setting? && StripBlanks(ShapeOf(line).rest) != "" {
      var rest := ShapeOf(line).rest;
      var text := StripBlanks(rest);
      var last := text[|text| - 1];
      assert last in text && last in rest && last in line;
    }
  }

  lemma {:induction false} RewrittenHaveOnlyBlanks(u: Update, lines: seq<string>)
    requires (forall line <- lines :: OnlyBlanks(line)) && (forall k <- u.value :: OnlyBlanks(u.value[k]))
    ensures forall line <- Rewritten(u, lines).lines :: OnlyBlanks(line)
    decreases |lines|
  {
    if lines != [] {
      var but, last := lines[..|lines| - 1], lines[|lines| - 1];
      RewrittenHaveOnlyBlanks(u, but);
      assert OnlyBlanks(last);
      if Target(last).Some? && Target(last).value.1 in u.value {
        var (indent, key) := Target(last).value;
        assert forall c <- indent :: c in last;
        AssignedHasOnlyBlanks(indent, key, u.value[key]);
      }
    }
  }

  lemma AssignedHasOnlyBlanks(indent: string, key: string, value: string)
    requires OnlyBlanks(indent) && IsKey(key) && OnlyBlanks(value)
    ensures OnlyBlanks(Assigned(indent, key, value))
  {
    forall c <- Assigned(indent, key, value) ensures IsSpace(c) ==> IsBlank(c) {
      assert c in indent || c in key || c == '=' || c in value;
      assert c in key ==> IsKeyChar(c);
    }
  }

  lemma {:induction false} MissingHaveOnlyBlanks(u: Update, keys: seq<string>, found: set<string>)
    requires forall k <- keys :: k in u.value && IsKey(k) && OnlyBlanks(u.value[k])
    ensures forall line <- Missing(u, keys, found) :: OnlyBlanks(line)
    decreases |keys|
  {
    if keys != [] {
      MissingHaveOnlyBlanks(u, keys[..|keys| - 1], found);
      AssignedHasOnlyBlanks("", keys[|keys| - 1], u.value[keys[|keys| - 1]]);
    }
  }

  /** In a file whose lines, like the new values, hold no whitespace but spaces and tabs, the upsert
      is always read back as the old settings overridden by the new ones. */
  lemma PlainFilesAreOverridden(u: Update, existing: string)
    requires ValidUpdate(u) && ParsedFile(existing).Some?
    requires forall k <- u.value :: IsPlain(u.value[k]) && OnlyBlanks(u.value[k])
    requires forall line <- SplitLines(existing) :: OnlyBlanks(line)
    ensures ParsedFile(Upserted(u, existing)) == Some(ParsedFile(existing).value + u.value)
  {
    var lines := SplitLines(existing);
    RewrittenHaveOnlyBlanks(u, lines);
    MissingHaveOnlyBlanks(u, u.keys, Rewritten(u, lines).found);
    var renewed := NewLines(u, lines);
    if LastText(renewed).Some? {
      assert LastText(renewed).value in renewed;
      OnlyBlanksNoHazard(LastText(renewed).value);
    }
    UpsertOverridesExactlyWhen(u, existing);
  }

  /** `A=x` followed by a no-break space: an upsert that sets nothing still changes what it reads as. */
  lemma NoBreakSpaceIsLost()
    ensures ParsedFile("A=x\U{A0}").Some?
    ensures ParsedFile(Upserted(Update([], map[]), "A=x\U{A0}")) != ParsedFile("A=x\U{A0}")
  {
    var line := "A=x\U{A0}";
    assert SplitLines(line) == [line] by {
      LineEndIs(line, 0, 4);
    }
    assert StripRight(line) != "" by {
      StripRightIs(line, 3);
    }
    HazardousLine(line);
    HazardIsLost(line);
  }

  lemma HazardIsLost(line: string)
    requires SplitLines(line) == [line] && MeaningOf(line) != Bad && IsHazard(line) && StripRight(line) != ""
    ensures ParsedFile(line).Some?
    ensures ParsedFile(Upserted(Update([], map[]), line)) != ParsedFile(line)
  {
    OneLineFile(line);
    NothingToSet(line);
    UpsertOverridesExactlyWhen(Update([], map[]), line);
    NothingAdded(ParsedFile(line).value);
  }

  lemma OneLineFile(line: string)
    requires SplitLines(line) == [line] && MeaningOf(line) != Bad
    ensures ParsedFile(line).Some?
  {
    var x := MeaningOf(line);
    assert Meanings([line]) == [] + [x];
    OneMoreRun([], x);
  }

  lemma NothingAdded(m: map<string, string>)
    ensures m + map[] == m
  {
  }

  lemma NothingToSet(line: string)
    requires StripRight(line) != ""
    ensures NewLines(Update([], map[]), [line]) == [line, ""]
    ensures LastText([line, ""]) == Some(line)
  {
    var u := Update([], map[]);
    OneMoreRewritten(u, [], line);
    assert [] + [line] == [line];
    assert Separated([line]) + [] == [line, ""];
    TrimOfTwo([], line);
    TrimmedIsTrim([line, ""]);
    assert [] + [line, ""] == [line, ""] && [] + [StripRight(line)] == [StripRight(line)];
    TrimIsUnique([line, ""], Trimmed([line, ""]), [StripRight(line)]);
  }

  lemma HazardousLine(line: string)
    requires line == "A=x\U{A0}"
    ensures MeaningOf(line) == Assign("A", "x\U{A0}") && IsHazard(line)
  {
    SkipBlanksIs(line, 0, 0);
    NoExport(line, 0);
    assert line[0..1] == "A";
    KeyEndIs(line, 0, 1);
    SkipBlanksIs(line, 1, 1);
    assert AssignmentAt(line, 0) == Some(("A", 1));
    var rest := line[2..];
    assert rest == "x\U{A0}";
    SkipBlanksIs(rest, 0, 0);
    assert StripBlanks(rest) == rest;
    assert DataEnd(rest, 2, OUTSIDE) == Some(2);
    assert DataEnd(rest, 1, OUTSIDE) == Some(2);
    assert DataEnd(rest, 0, OUTSIDE) == Some(2);
  }

  // ---------- upserting twice ----------

  lemma SkipSpacesIs(s: string, i: nat, e: nat)
    requires i <= e <= |s| && (forall k :: i <= k < e ==> IsSpace(s[k])) && (e < |s| ==> !IsSpace(s[e]))
    ensures SkipSpaces(s, i) == e
    decreases e - i
  {
    if i < e {
      SkipSpacesIs(s, i + 1, e);
    }
  }

  lemma TargetOfAssigned(indent: string, key: string, value: string)
    requires (forall c <- indent :: IsSpace(c)) && IsKey(key)
    ensures Target(Assigned(indent, key, value)) == Some((indent, key))
  {
    var line := Assigned(indent, key, value);
    var i, e := |indent|, |indent| + |key|;
    assert line[..i] == indent && line[i..e] == key && line[e] == '=';
    forall k | 0 <= k < i ensures IsSpace(line[k]) {
      assert line[k] == indent[k];
    }
    assert line[i] == key[0];
    SkipSpacesIs(line, 0, i);
    NoExport(line, i);
    KeyEndIs(line, i, e);
    SkipSpacesIs(line, e, e);
  }

  lemma OneMoreRewritten(u: Update, lines: seq<string>, line: string)
    ensures Rewritten(u, lines + [line]) == RewriteLine(u, Rewritten(u, lines), line)
  {
    assert (lines + [line])[..|lines|] == lines;
  }

  /** Lines that a rewriting leaves exactly as they are. */
  predicate IsFixed(u: Update, lines: seq<string>, found: set<string>) {
    Rewritten(u, lines) == Rewriting(lines, found)
  }

  lemma RewrittenLineIsFixed(u: Update, done: Rewriting, line: string)
    requires IsFixed(u, done.lines, done.found)
    ensures var r := RewriteLine(u, done, line); IsFixed(u, r.lines, r.found)
  {
    OneMoreRewritten(u, done.lines, line);
    if Target(line).Some? && Target(line).value.1 in u.value {
      var (indent, key) := Target(line).value;
      TargetOfAssigned(indent, key, u.value[key]);
      OneMoreRewritten(u, done.lines, Assigned(indent, key, u.value[key]));
    }
  }

  lemma {:induction false} RewrittenIsFixed(u: Update, lines: seq<string>)
    ensures IsFixed(u, Rewritten(u, lines).lines, Rewritten(u, lines).found)
    decreases |lines|
  {
    if lines != [] {
      RewrittenIsFixed(u, lines[..|lines| - 1]);
      RewrittenLineIsFixed(u, Rewritten(u, lines[..|lines| - 1]), lines[|lines| - 1]);
    }
  }

  lemma BlankIsFixed(u: Update, lines: seq<string>, found: set<string>)
    requires IsFixed(u, lines, found)
    ensures IsFixed(u, lines + [""], found)
  {
    OneMoreRewritten(u, lines, "");
  }

  lemma AssignedIsFixed(u: Update, lines: seq<string>, key: string, found: set<string>)
    requires IsFixed(u, lines, found) && IsKey(key) && key in u.value && key !in found
    ensures IsFixed(u, lines + [Assigned("", key, u.value[key])], found + {key})
  {
    TargetOfAssigned("", key, u.value[key]);
    OneMoreRewritten(u, lines, Assigned("", key, u.value[key]));
  }

  lemma OneMoreIsFixed(u: Update, lines: seq<string>, added: seq<string>, key: string, found: set<string>)
    requires IsFixed(u, lines + added, found) && IsKey(key) && key in u.value && key !in found
    ensures IsFixed(u, lines + (added + [Assigned("", key, u.value[key])]), found + {key})
  {
    AssignedIsFixed(u, lines + added, key, found);
    assert lines + (added + [Assigned("", key, u.value[key])]) == lines + added + [Assigned("", key, u.value[key])];
  }

  function Appended(u: Update, key: string, found: set<string>, added: seq<string>): seq<string>
    requires key in u.value
  {
    added + if key in found then [] else [Assigned("", key, u.value[key])]
  }

  /** The lines that the appending loop has added after each key. */
  predicate IsTrace(u: Update, keys: seq<string>, found: set<string>, trace: seq<seq<string>>)
    requires forall k <- keys :: k in u.value
  {
    && 0 < |trace| <= |keys| + 1 && trace[0] == []
    && forall i :: 0 <= i < |trace| - 1 ==> trace[i + 1] == Appended(u, keys[i], found, trace[i])
  }

  lemma {:induction false} TraceIsMissing(u: Update, keys: seq<string>, found: set<string>,
                                          trace: seq<seq<string>>, i: nat)
    requires (forall k <- keys :: k in u.value) && IsTrace(u, keys, found, trace) && i < |trace|
    ensures trace[i] == Missing(u, keys[..i], found)
  {
    if i > 0 {
      TraceIsMissing(u, keys, found, trace, i - 1);
      assert keys[..i][..i - 1] == keys[..i - 1];
      assert trace[i - 1 + 1] == trace[i];
    }
  }

  lemma AppendingOneIsFixed(u: Update, lines: seq<string>, added: seq<string>, key: string,
                            found: set<string>, had: set<string>)
    requires IsFixed(u, lines + added, had) && IsKey(key) && key in u.value
    requires found <= had && (key in found || key !in had)
    ensures IsFixed(u, lines + Appended(u, key, found, added), had + {key})
  {
    if key in found {
      assert added + [] == added && had + {key} == had;
    } else {
      OneMoreIsFixed(u, lines, added, key, had);
    }
  }

  lemma AppendingIsFixed(u: Update, lines: seq<string>, keys: seq<string>, found: set<string>)
    returns (trace: seq<seq<string>>, all: set<string>)
    requires IsFixed(u, lines, found) && forall i, j :: 0 <= i < j < |keys| ==> keys[i] != keys[j]
    requires forall k <- keys :: k in u.value && IsKey(k)
    ensures IsTrace(u, keys, found, trace) && |trace| == |keys| + 1
    ensures IsFixed(u, lines + trace[|keys|], all) && forall i :: 0 <= i < |keys| ==> keys[i] in all
  {
    var last := [];
    trace, all := [last], found;
    assert lines + [] == lines;
    for i := 0 to |keys|
      invariant |trace| == i + 1 && trace[i] == last && IsTrace(u, keys, found, trace)
      invariant found <= all && (forall j :: 0 <= j < i ==> keys[j] in all)
      invariant forall j :: i <= j < |keys| ==> keys[j] in found || keys[j] !in all
      invariant IsFixed(u, lines + last, all)
    {
      var next := Appended(u, keys[i], found, last);
      AppendingOneIsFixed(u, lines, last, keys[i], found, all);
      TraceGrows(u, keys, found, trace, next);
      trace, last, all := trace + [next], next, all + {keys[i]};
    }
  }

  lemma TraceGrows(u: Update, keys: seq<string>, found: set<string>, trace: seq<seq<string>>, next: seq<string>)
    requires (forall k <- keys :: k in u.value) && IsTrace(u, keys, found, trace) && |trace| <= |keys|
    requires next == Appended(u, keys[|trace| - 1], found, trace[|trace| - 1])
    ensures IsTrace(u, keys, found, trace + [next])
  {
  }

  lemma MissingIsFixed(u: Update, lines: seq<string>, found: set<string>) returns (all: set<string>)
    requires ValidUpdate(u) && IsFixed(u, lines, found)
    ensures IsFixed(u, lines + Missing(u, u.keys, found), all) && forall k <- u.keys :: k in all
  {
    var trace;
    trace, all := AppendingIsFixed(u, lines, u.keys, found);
    TraceIsMissing(u, u.keys, found, trace, |u.keys|);
    assert u.keys[..|u.keys|] == u.keys;
  }

  lemma NewLinesAreFixed(u: Update, lines: seq<string>) returns (found: set<string>)
    requires ValidUpdate(u)
    ensures IsFixed(u, NewLines(u, lines), found) && forall k <- u.keys :: k in found
  {
    var r := Rewritten(u, lines);
    RewrittenIsFixed(u, lines);
    BlankIsFixed(u, r.lines, r.found);
    found := MissingIsFixed(u, Separated(r.lines), r.found);
  }

  lemma FixedButLast(u: Update, lines: seq<string>, line: string, found: set<string>)
    requires IsFixed(u, lines + [line], found)
    ensures Rewritten(u, lines).lines == lines
    ensures RewriteLine(u, Rewritten(u, lines), line) == Rewriting(lines + [line], found)
  {
    OneMoreRewritten(u, lines, line);
    RewritingNeverAdds(u, lines);
    var r := Rewritten(u, lines);
    assert (lines + [line])[..|lines|] == lines;
    assert r.lines == (lines + [line])[..|lines|];
  }

  lemma {:induction false} RewritingNeverAdds(u: Update, lines: seq<string>)
    ensures |Rewritten(u, lines).lines| <= |lines|
    decreases |lines|
  {
    if lines != [] {
      RewritingNeverAdds(u, lines[..|lines| - 1]);
    }
  }

  /** Blank lines at the end hold no key. */
  lemma {:induction false} FixedWithoutBlanks(u: Update, lines: seq<string>, n: nat, found: set<string>)
    requires IsFixed(u, lines, found) && n <= |lines|
    requires forall k :: n <= k < |lines| ==> StripRight(lines[k]) == ""
    ensures IsFixed(u, lines[..n], found)
    decreases |lines|
  {
    if n == |lines| {
      assert lines[..n] == lines;
    } else {
      var but, last := lines[..|lines| - 1], lines[|lines| - 1];
      assert lines == but + [last] && but[..n] == lines[..n];
      FixedButLast(u, but, last, found);
      TargetTrimmed(last);
      FixedWithoutBlanks(u, but, n, found);
    }
  }

  lemma KeyEndOfWhole(s: string, part: string, i: nat)
    requires part <= s && i <= |part| && KeyEnd(part, i) < |part|
    ensures KeyEnd(s, i) == KeyEnd(part, i)
  {
    var e := KeyEnd(part, i);
    if i < e {
      assert s[i..e] == part[i..e];
      KeyEndIs(s, i, e);
    }
  }

  lemma SkipSpacesOfWhole(s: string, part: string, i: nat)
    requires part <= s && i <= |part| && SkipSpaces(part, i) < |part|
    ensures SkipSpaces(s, i) == SkipSpaces(part, i)
  {
    SkipSpacesIs(s, i, SkipSpaces(part, i));
  }

  lemma TargetFromWhole(s: string, part: string, a: nat)
    requires part <= s && a <= |part| && TargetFrom(part, a).Some?
    ensures TargetFrom(s, a) == TargetFrom(part, a)
  {
    var e := KeyEnd(part, a);
    KeyEndOfWhole(s, part, a);
    SkipSpacesOfWhole(s, part, e);
    assert s[a..e] == part[a..e];
  }

  lemma TargetFromPart(s: string, part: string, a: nat)
    requires SpacesFrom(s, |part|) && part <= s && a < |part| && TargetFrom(s, a).Some?
    ensures TargetFrom(part, a).Some?
  {
    var e := KeyEnd(s, a);
    var q := SkipSpaces(s, e);
    assert q < |part|;
    assert part[a..e] == s[a..e];
    KeyEndIs(part, a, e);
    SkipSpacesIs(part, e, q);
  }

  lemma ExportOfWhole(s: string, part: string, i: nat)
    requires part <= s && i < |part|
    requires ExportAt(part, i) || part[i] != EXPORT[0] || i + |EXPORT| < |part|
    ensures ExportAt(s, i) == ExportAt(part, i)
  {
    if i + |EXPORT| < |part| {
      assert s[i..i + |EXPORT|] == part[i..i + |EXPORT|];
    } else if i + |EXPORT| < |s| {
      assert s[i..i + |EXPORT|][0] == part[i];
    }
  }

  lemma TargetAtOfWhole(s: string, part: string, i: nat)
    requires part <= s && i < |part| && TargetAt(part, i).Some?
    ensures TargetAt(s, i) == TargetAt(part, i)
  {
    var exported := ExportAt(part, i) && IsSpace(part[i + |EXPORT|]);
    assert !exported ==> part[i] != EXPORT[0];
    ExportOfWhole(s, part, i);
    if exported {
      SkipSpacesOfWhole(s, part, i + |EXPORT|);
      TargetFromWhole(s, part, SkipSpaces(part, i + |EXPORT|));
    } else {
      TargetFromWhole(s, part, i);
    }
  }

  lemma TargetAtOfPart(s: string, part: string, i: nat)
    requires SpacesFrom(s, |part|) && part <= s && i < |part| && TargetAt(s, i).Some?
    ensures TargetAt(part, i).Some?
  {
    if ExportAt(s, i) && IsSpace(s[i + |EXPORT|]) {
      var a := SkipSpaces(s, i + |EXPORT|);
      assert a < |part|;
      ExportOfWhole(s, part, i);
      SkipSpacesIs(part, i + |EXPORT|, a);
      TargetFromPart(s, part, a);
    } else {
      assert s[i] == part[i] != EXPORT[0];
      ExportOfWhole(s, part, i);
      TargetFromPart(s, part, i);
    }
  }

  /** Trailing whitespace does not change what the upsert sees in a line. */
  lemma TargetOfPart(line: string, part: string)
    requires SpacesFrom(line, |part|) && part <= line && (part != "" ==> !IsSpace(part[|part| - 1]))
    ensures Target(part) == Target(line)
    ensures part == "" ==> Target(line) == None
  {
    var i := SkipSpaces(line, 0);
    if i < |part| {
      SkipSpacesIs(part, 0, i);
      if TargetAt(line, i).Some? {
        TargetAtOfPart(line, part, i);
      }
      if TargetAt(part, i).Some? {
        TargetAtOfWhole(line, part, i);
      }
      assert part[..i] == line[..i];
    } else {
      assert part == "";
      SkipSpacesIs(line, 0, |line|);
    }
  }

  lemma TargetTrimmed(line: string)
    ensures Target(StripRight(line)) == Target(line)
    ensures StripRight(line) == "" ==> Target(line) == None
  {
    TargetOfPart(line, StripRight(line));
  }

  lemma TrimIsUnique(lines: seq<string>, r: seq<string>, t: seq<string>)
    requires IsTrim(lines, r) && IsTrim(lines, t)
    ensures r == t
  {
    assert r != [] ==> StripRight(lines[|r| - 1]) != "";
    assert t != [] ==> StripRight(lines[|t| - 1]) != "";
  }

  lemma {:induction false} NothingMissing(u: Update, keys: seq<string>, found: set<string>)
    requires forall k <- keys :: k in u.value && k in found
    ensures Missing(u, keys, found) == []
    decreases |keys|
  {
    if keys != [] {
      NothingMissing(u, keys[..|keys| - 1], found);
    }
  }

  lemma RewritingPart(u: Update, done: Rewriting, last: string, part: string, found: set<string>) returns (x: string)
    requires RewriteLine(u, done, last) == Rewriting(done.lines + [last], found) && Target(part) == Target(last)
    ensures RewriteLine(u, done, part) == Rewriting(done.lines + [x], found) && x in {last, part}
  {
    if Target(last).Some? && Target(last).value.1 in u.value {
      assert |RewriteLine(u, done, last).lines| == |done.lines| + 1;
      assert (done.lines + [last])[|done.lines|] == last;
      x := last;
    } else {
      x := part;
    }
  }

  /** The rewriting of a last line without its trailing whitespace. */
  lemma RewritingTrimmedLast(u: Update, done: Rewriting, last: string, found: set<string>) returns (x: string)
    requires RewriteLine(u, done, last) == Rewriting(done.lines + [last], found)
    ensures RewriteLine(u, done, StripRight(last)) == Rewriting(done.lines + [x], found)
    ensures StripRight(x) == StripRight(last)
  {
    TargetTrimmed(last);
    StripRightTwice(last);
    x := RewritingPart(u, done, last, StripRight(last), found);
  }

  lemma StripRightTwice(s: string)
    ensures StripRight(StripRight(s)) == StripRight(s)
  {
    StripRightIs(StripRight(s), |StripRight(s)|);
  }

  lemma TrimOfTwo(head: seq<string>, x: string)
    requires StripRight(x) != ""
    ensures IsTrim(head + [x, ""], head + [StripRight(x)])
  {
    assert (head + [x, ""])[..|head|] == head;
  }

  lemma AllFound(u: Update, lines: seq<string>, done: Rewriting)
    requires ValidUpdate(u) && Rewritten(u, lines) == done && forall k <- u.keys :: k in done.found
    ensures NewLines(u, lines) == Separated(done.lines)
  {
    NothingMissing(u, u.keys, done.found);
    assert Separated(done.lines) + [] == Separated(done.lines);
  }

  lemma RewrittenAgain(u: Update, head: seq<string>, last: string, found: set<string>) returns (x: string)
    requires IsFixed(u, head + [last], found)
    ensures Rewritten(u, head + [StripRight(last)]) == Rewriting(head + [x], found) && StripRight(x) == StripRight(last)
  {
    FixedButLast(u, head, last, found);
    x := RewritingTrimmedLast(u, Rewritten(u, head), last, found);
    OneMoreRewritten(u, head, StripRight(last));
  }

  /** The new lines of a file that an upsert has already written. */
  lemma NewLinesAgain(u: Update, head: seq<string>, last: string, found: set<string>, r: seq<string>)
    requires ValidUpdate(u) && IsFixed(u, head + [last], found) && (forall k <- u.keys :: k in found)
    requires StripRight(last) != "" && r == head + [StripRight(last)]
    ensures IsTrim(NewLines(u, r), r)
  {
    var x := RewrittenAgain(u, head, last, found);
    AllFound(u, r, Rewriting(head + [x], found));
    SeparatedText(head, x);
    TrimOfTwo(head, x);
  }

  lemma SeparatedText(head: seq<string>, x: string)
    requires StripRight(x) != ""
    ensures Separated(head + [x]) == head + [x, ""]
  {
  }

  lemma BlankAgain(u: Update, found: set<string>)
    requires ValidUpdate(u) && IsFixed(u, [], found) && forall k <- u.keys :: k in found
    ensures IsTrim(NewLines(u, [""]), [])
  {
    assert [] + [""] == [""];
    OneMoreRewritten(u, [], "");
    AllFound(u, [""], Rewriting([""], found));
    assert StripRight("") == "";
  }

  lemma NewLinesOfText(u: Update, lines: seq<string>, r: seq<string>, found: set<string>)
    requires ValidUpdate(u) && IsTrim(lines, r) && r != []
    requires IsFixed(u, lines[..|r|], found) && forall k <- u.keys :: k in found
    ensures IsTrim(NewLines(u, r), r)
  {
    var n := |r| - 1;
    assert lines[..|r|] == lines[..n] + [lines[n]];
    NewLinesAgain(u, lines[..n], lines[n], found, r);
  }

  lemma NewLinesOfWritten(u: Update, lines: seq<string>, r: seq<string>, found: set<string>)
    requires ValidUpdate(u) && IsFixed(u, lines, found) && (forall k <- u.keys :: k in found)
    requires IsTrim(lines, r)
    ensures IsTrim(NewLines(u, if r == [] then [""] else r), r)
  {
    FixedWithoutBlanks(u, lines, |r|, found);
    if r == [] {
      assert lines[..0] == [];
      BlankAgain(u, found);
    } else {
      NewLinesOfText(u, lines, r, found);
    }
  }

  lemma SameTrimSameText(lines: seq<string>, again: seq<string>)
    requires IsTrim(again, Trimmed(lines))
    ensures StripRight(Join(again)) == StripRight(Join(lines))
  {
    TrimmedIsTrim(again);
    TrimIsUnique(again, Trimmed(again), Trimmed(lines));
    StripJoined(again);
    StripJoined(lines);
  }

  // ---------- the writer ----------

  function Width(c: char): nat {
    if c < '\U{80}' then 1 else if c < '\U{800}' then 2 else if c < '\U{10000}' then 3 else 4
  }

  /** The length of the text in UTF-8. */
  function Encoded(s: string): nat
    decreases |s|
  {
    if s == "" then 0 else Encoded(s[..|s| - 1]) + Width(s[|s| - 1])
  }

  const MAX_CONFIG_ENV_BYTES: nat := 1024 * 1024

  datatype Written = BadName | NotOneLine | TooLarge | File(content: string)

  predicate IsOneLine(text: string) {
    '\n' !in text && '\r' !in text
  }

  function NameOf(v: (string, string)): string {
    Strip(v.0)
  }

  function WithSetting(u: Update, key: string, value: string): Update {
    Update(if key in u.value then u.keys else u.keys + [key], u.value[key := value])
  }

  lemma WithSettingIsValid(u: Update, key: string, value: string)
    requires ValidUpdate(u) && IsKey(key)
    ensures ValidUpdate(WithSetting(u, key, value))
  {
  }

  /** The checked settings, a later value of a name replacing an earlier one in place. */
  function Cleaned(values: seq<(string, string)>): Update
    decreases |values|
  {
    if values == [] then Update([], map[])
    else
      var last := values[|values| - 1];
      WithSetting(Cleaned(values[..|values| - 1]), NameOf(last), last.1)
  }

  /** What is wrong with one setting; the name is looked at first. */
  function ProblemOf(v: (string, string)): (problem: Option<Written>)
    ensures problem in {None, Some(BadName), Some(NotOneLine)}
  {
    if !IsKey(NameOf(v)) then Some(BadName)
    else if !IsOneLine(v.1) then Some(NotOneLine)
    else None
  }

  function FirstProblem(values: seq<(string, string)>): (problem: Option<Written>)
    ensures problem in {None, Some(BadName), Some(NotOneLine)}
    decreases |values|
  {
    if values == [] then None
    else if FirstProblem(values[..|values| - 1]).Some? then FirstProblem(values[..|values| - 1])
    else ProblemOf(values[|values| - 1])
  }

  lemma {:induction false} ProblemStays(values: seq<(string, string)>, count: nat)
    requires count <= |values| && FirstProblem(values[..count]).Some?
    ensures FirstProblem(values) == FirstProblem(values[..count])
    decreases |values|
  {
    if count == |values| {
      assert values[..count] == values;
    } else {
      assert values[..|values| - 1][..count] == values[..count];
      ProblemStays(values[..|values| - 1], count);
    }
  }

  /** The loop that checks the settings. */
  method CleanValues(values: seq<(string, string)>) returns (u: Update, problem: Option<Written>)
    ensures problem == FirstProblem(values)
    ensures problem.None? ==> u == Cleaned(values) && ValidUpdate(u)
  {
    u, problem := Update([], map[]), None;
    for i := 0 to |values|
      invariant u == Cleaned(values[..i]) && ValidUpdate(u)
      invariant problem.None? && FirstProblem(values[..i]).None?
    {
      assert values[..i + 1][..i] == values[..i];
      problem := ProblemOf(values[i]);
      if problem.Some? {
        ProblemStays(values, i + 1);
        return;
      }
      WithSettingIsValid(u, NameOf(values[i]), values[i].1);
      u := WithSetting(u, NameOf(values[i]), values[i].1);
    }
    assert values[..|values|] == values;
  }

  /** The rewriting loop. */
  method Rewrite(u: Update, lines: seq<string>) returns (rendered: seq<string>, found: set<string>)
    ensures Rewriting(rendered, found) == Rewritten(u, lines)
  {
    rendered, found := [], {};
    for i := 0 to |lines|
      invariant Rewriting(rendered, found) == Rewritten(u, lines[..i])
    {
      assert lines[..i + 1] == lines[..i] + [lines[i]];
      OneMoreRewritten(u, lines[..i], lines[i]);
      var t := Target(lines[i]);
      if t.Some? && t.value.1 in u.value {
        var key := t.value.1;
        if key !in found {
          rendered, found := rendered + [Assigned(t.value.0, key, u.value[key])], found + {key};
        }
      } else {
        rendered := rendered + [lines[i]];
      }
    }
    assert lines[..|lines|] == lines;
  }

  /** The loop that appends the settings not found. */
  method AppendMissing(u: Update, lines: seq<string>, found: set<string>) returns (rendered: seq<string>)
    requires ValidUpdate(u)
    ensures rendered == lines + Missing(u, u.keys, found)
  {
    rendered := lines;
    for i := 0 to |u.keys|
      invariant rendered == lines + Missing(u, u.keys[..i], found)
    {
      assert u.keys[..i + 1][..i] == u.keys[..i];
      if u.keys[i] !in found {
        rendered := rendered + [Assigned("", u.keys[i], u.value[u.keys[i]])];
      }
    }
    assert u.keys[..|u.keys|] == u.keys;
  }

  /** The new text of the file. */
  method Upsert(u: Update, existing: string) returns (content: string)
    requires ValidUpdate(u)
    ensures content == Upserted(u, existing)
  {
    var rendered, found := Rewrite(u, SplitLines(existing));
    if rendered != [] && StripRight(rendered[|rendered| - 1]) != "" {
      rendered := rendered + [""];
    }
    rendered := AppendMissing(u, rendered, found);
    content := StripRight(Join(rendered)) + "\n";
  }

  /** `persist_project_env` between reading and replacing the file. */
  method Persist(values: seq<(string, string)>, existing: string) returns (r: Written)
    ensures FirstProblem(values).Some? ==> r == FirstProblem(values).value
    ensures FirstProblem(values).None? ==>
      (ValidUpdate(Cleaned(values)) && r == WrittenText(Upserted(Cleaned(values), existing)))
    ensures r.File? ==> Encoded(r.content) <= 1024 * 1024
    ensures r.TooLarge? ==> FirstProblem(values).None? && Encoded(Upserted(Cleaned(values), existing)) > 1024 * 1024
  {
    var u, problem := CleanValues(values);
    if problem.Some? {
      return problem.value;
    }
    var content := Upsert(u, existing);
    r := WrittenText(content);
  }

  /** A text the bounded reader could not load is never published. */
  function WrittenText(content: string): Written {
    if Encoded(content) > MAX_CONFIG_ENV_BYTES then TooLarge else File(content)
  }

  // ---------- a value with another line separator ----------

  /** A text after `=` that another line separator and a whole assignment follow. */
  function Smuggling(x: string, c: char, b: string, y: string): string {
    x + [c] + Assigned("", b, y)
  }

  lemma SplitOnce(first: string, c: char, second: string)
    requires IsLine(first) && IsLine(second) && IsSeparator(c) && c != '\r'
    ensures SplitLines(first + [c] + second + "\n") == [first, second]
  {
    var s := first + [c] + second + "\n";
    LineEndIs(s, 0, |first|);
    assert s[..|first|] == first && s[|first| + 1..] == second + "\n";
    SplitJoined([second]);
    assert Join([second]) == second;
  }

  lemma EndsPlainly(before: string, y: string)
    requires y != "" && !IsSpace(y[|y| - 1])
    ensures StripRight(before + y) == before + y
  {
    assert (before + y)[|before + y| - 1] == y[|y| - 1];
  }

  lemma WrittenAlone(a: string, value: string)
    requires IsKey(a) && StripRight(Assigned("", a, value)) == Assigned("", a, value)
    ensures Upserted(Update([a], map[a := value]), "") == Assigned("", a, value) + "\n"
  {
    var u := Update([a], map[a := value]);
    assert Missing(u, [], {}) == [];
    assert NewLines(u, []) == [Assigned("", a, value)];
  }

  lemma RunOfTwo(meanings: seq<Meaning>, a: string, x: string, b: string, y: string)
    requires meanings == [Assign(a, x), Assign(b, y)]
    ensures Run(meanings) == Some(map[a := x][b := y])
  {
    assert meanings == [] + [Assign(a, x)] + [Assign(b, y)];
    OneMoreRun([], Assign(a, x));
    OneMoreRun([] + [Assign(a, x)], Assign(b, y));
  }

  lemma MeaningsOfTwo(first: string, second: string)
    ensures Meanings([first, second]) == [MeaningOf(first), MeaningOf(second)]
  {
  }

  lemma TwoMeanings(a: string, x: string, b: string, y: string)
    requires IsKey(a) && IsKey(b) && IsPlain(x) && IsPlain(y)
    ensures Run(Meanings([Assigned("", a, x), Assigned("", b, y)])) == Some(map[a := x][b := y])
  {
    AssignedMeans("", a, x);
    AssignedMeans("", b, y);
    MeaningsOfTwo(Assigned("", a, x), Assigned("", b, y));
    RunOfTwo(Meanings([Assigned("", a, x), Assigned("", b, y)]), a, x, b, y);
  }

  lemma KeyIsStripped(key: string)
    requires IsKey(key)
    ensures Strip(key) == key
  {
    assert IsKeyChar(key[0]) && IsKeyChar(key[|key| - 1]);
    StripKeeps(key);
  }

  lemma SmugglingIsOneLine(x: string, c: char, b: string, y: string)
    requires IsLine(x) && IsKey(b) && IsLine(y) && c != '\n' && c != '\r'
    ensures IsOneLine(Smuggling(x, c, b, y))
  {
    forall d <- Smuggling(x, c, b, y) ensures d != '\n' && d != '\r' {
      assert d in x || d == c || d in b || d == '=' || d in y;
      if d in b {
        assert IsKeyChar(d);
      }
    }
  }

  lemma SmuggledText(a: string, x: string, c: char, b: string, y: string)
    requires IsKey(a) && y != "" && !IsSpace(y[|y| - 1])
    ensures Upserted(Update([a], map[a := Smuggling(x, c, b, y)]), "")
         == Assigned("", a, x) + [c] + Assigned("", b, y) + "\n"
  {
    var whole := Assigned("", a, x) + [c] + Assigned("", b, y);
    assert Assigned("", a, Smuggling(x, c, b, y)) == whole;
    assert whole == (Assigned("", a, x) + [c] + b + "=") + y;
    EndsPlainly(Assigned("", a, x) + [c] + b + "=", y);
    WrittenAlone(a, Smuggling(x, c, b, y));
  }

  /** The writer refuses only line feeds and carriage returns: a value with any other separator that the
      reader splits lines at is accepted, and what follows the separator is read as a setting of its own. */
  lemma SeparatorAddsASetting(a: string, x: string, c: char, b: string, y: string)
    requires IsKey(a) && IsKey(b) && IsPlain(x) && IsPlain(y) && y != "" && !IsSpace(y[|y| - 1])
    requires IsSeparator(c) && c != '\n' && c != '\r'
    ensures ProblemOf((a, Smuggling(x, c, b, y))).None?
    ensures ParsedFile(Upserted(Update([a], map[a := Smuggling(x, c, b, y)]), "")) == Some(map[a := x][b := y])
  {
    KeyIsStripped(a);
    SmugglingIsOneLine(x, c, b, y);
    SmuggledLines(a, x, c, b, y);
    TwoMeanings(a, x, b, y);
  }

  lemma SmuggledLines(a: string, x: string, c: char, b: string, y: string)
    requires IsKey(a) && IsKey(b) && IsPlain(x) && IsPlain(y) && y != "" && !IsSpace(y[|y| - 1])
    requires IsSeparator(c) && c != '\n' && c != '\r'
    ensures var text := Upserted(Update([a], map[a := Smuggling(x, c, b, y)]), "");
            && text == Assigned("", a, Smuggling(x, c, b, y)) + "\n"
            && SplitLines(text) == [Assigned("", a, x), Assigned("", b, y)]
  {
    SmuggledText(a, x, c, b, y);
    WholeText(a, x, c, b, y);
    AssignedCharacters("", a, x);
    AssignedCharacters("", b, y);
    SplitOnce(Assigned("", a, x), c, Assigned("", b, y));
  }

  lemma WholeText(a: string, x: string, c: char, b: string, y: string)
    ensures Assigned("", a, Smuggling(x, c, b, y)) == Assigned("", a, x) + [c] + Assigned("", b, y)
  {
  }
}
