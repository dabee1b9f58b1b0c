/** Reading a document's frontmatter with the built-in line parser, and the round trip
    with how such a header is written. */
module Frontmatter {
  import opened Options
  import opened PyText

  type Fields = map<string, string>

  datatype Parsed = MissingFrontmatter | Found(fields: Fields)

  const OPENING := "---\n"
  const END_MARKER := "\n---\n"

  /** `text.replace("\r\n", "\n")`. */
  function Unify(text: string): string {
    if text == [] then []
    else if "\r\n" <= text then ['\n'] + Unify(text[2..])
    else [text[0]] + Unify(text[1..])
  }

  predicate MarkerAt(text: string, i: nat)
    requires i <= |text|
  {
    END_MARKER <= text[i..]
  }

  /** `text.find(END_MARKER, start)`. */
  function FindMarker(text: string, start: nat): (found: Option<nat>)
    requires start <= |text|
    ensures found.Some? ==> start <= found.value <= |text| && MarkerAt(text, found.value)
    ensures found.Some? ==> forall i :: start <= i < found.value ==> !MarkerAt(text, i)
    ensures found.None? ==> forall i :: start <= i <= |text| ==> !MarkerAt(text, i)
    decreases |text| - start
  {
    if MarkerAt(text, start) then Some(start)
    else if start == |text| then None
    else FindMarker(text, start + 1)
  }

  function FirstBreak(s: string): (i: nat)
    ensures i <= |s| && (forall k :: 0 <= k < i ==> !IsBreak(s[k])) && (i < |s| ==> IsBreak(s[i]))
  {
    if s == [] || IsBreak(s[0]) then 0 else 1 + FirstBreak(s[1..])
  }

  /** `s.splitlines()`. */
  function SplitLines(s: string): seq<string>
    decreases |s|
  {
    if s == [] then []
    else
      var i := FirstBreak(s);
      if i == |s| then [s]
      else [s[..i]] + SplitLines(s[i + (if "\r\n" <= s[i..] then 2 else 1)..])
  }

  /** The key and value a line contributes, if any. */
  function ReadLine(raw: string): Option<(string, string)> {
    var line := Strip(raw);
    var i := IndexOf(line, ':');
    if line == [] || line[0] == '#' || i == |line| then None
    else Some((Strip(line[..i]), StripChar(StripChar(Strip(line[i + 1..]), '"'), '\'')))
  }

  function AddLine(fields: Fields, raw: string): Fields {
    match ReadLine(raw)
    case None => fields
    case Some((key, value)) => fields[key := value]
  }

  function ReadLines(lines: seq<string>): Fields {
    if lines == [] then map[] else AddLine(ReadLines(lines[..|lines| - 1]), lines[|lines| - 1])
  }

  lemma ReadOneMore(lines: seq<string>, n: nat)
    requires n < |lines|
    ensures ReadLines(lines[..n + 1]) == AddLine(ReadLines(lines[..n]), lines[n])
  {
    assert lines[..n + 1][..n] == lines[..n];
  }

  method ParseSimpleYaml(frontmatter: string) returns (parsed: Fields)
    ensures parsed == ReadLines(SplitLines(frontmatter))
  {
    var lines := SplitLines(frontmatter);
    parsed := map[];
    for n := 0 to |lines|
      invariant parsed == ReadLines(lines[..n])
    {
      ReadOneMore(lines, n);
      var entry := ReadLine(lines[n]);
      if entry.Some? {
        parsed := parsed[entry.value.0 := entry.value.1];
      }
    }
    assert lines[..|lines|] == lines;
  }

  function ParseUnified(text: string): Parsed {
    if !(OPENING <= text) then MissingFrontmatter
    else
      match FindMarker(text, 4)
      case None => MissingFrontmatter
      case Some(end) => Found(ReadLines(SplitLines(text[4..end])))
  }

  function Parse(text: string): Parsed {
    ParseUnified(Unify(text))
  }

  method ParseFrontmatter(text: string) returns (parsed: Parsed)
    ensures parsed == Parse(text)
  {
    var normalized := Unify(text);
    if !(OPENING <= normalized) { return MissingFrontmatter; }
    var end := FindMarker(normalized, 4);
    if end.None? { return MissingFrontmatter; }
    var fields := ParseSimpleYaml(normalized[4..end.value]);
    return Found(fields);
  }

  // ---- writing ----

  function WriteLine(key: string, value: string): string {
    key + ": \"" + value + "\""
  }

  function Lines(entries: seq<(string, string)>): seq<string> {
    seq(|entries|, i requires 0 <= i < |entries| => WriteLine(entries[i].0, entries[i].1))
  }

  /** The lines, each ended by a newline. */
  function Ended(lines: seq<string>): string {
    if lines == [] then [] else lines[0] + ("\n" + Ended(lines[1..]))
  }

  function Document(entries: seq<(string, string)>, body: string): string {
    OPENING + Ended(Lines(entries)) + OPENING + body
  }

  /** The fields a list of entries denotes; a later entry for a key wins. */
  function Denoted(entries: seq<(string, string)>): Fields {
    if entries == [] then map[]
    else Denoted(entries[..|entries| - 1])[entries[|entries| - 1].0 := entries[|entries| - 1].1]
  }

  /** A key that is not cut, stripped or taken for a comment. */
  predicate PlainKey(key: string) {
    ':' !in key && (key == [] || (!IsSpace(key[0]) && !IsSpace(key[|key| - 1]) && key[0] != '#'))
  }

  /** The key and value survive being written on a line and read back. */
  predicate Admissible(key: string, value: string) {
    && PlainKey(key)
    && (value == [] || (value[0] !in "\"'" && value[|value| - 1] !in "\"'"))
  }

  predicate Unbroken(s: string) {
    forall i :: 0 <= i < |s| ==> !IsBreak(s[i])
  }

  // ---- one line ----

  lemma FirstIndex(s: string, c: char, i: nat)
    requires i < |s| && s[i] == c && c !in s[..i]
    ensures IndexOf(s, c) == i
  {
    var j := IndexOf(s, c);
  }

  /** The quoted value, once the blank before it is stripped, loses its own quotes too. */
  lemma ValueReads(value: string)
    ensures StripChar(Strip(" \"" + value + "\""), '"') == StripChar(value, '"')
  {
    var quoted := ['"'] + value + ['"'];
    var s := " \"" + value + "\"";
    assert s[1..] == quoted && s[0] == ' ';
    assert !IsSpace(quoted[0]) && !IsSpace(quoted[|quoted| - 1]);
    TrimFixedExactly(quoted, IsSpace);
    assert TrimLeft(s, IsSpace) == TrimLeft(quoted, IsSpace);
    TrimWrapped(value, '"', x => x == '"');
  }

  lemma ShrunkTwice(value: string)
    ensures StripChar(StripChar(value, '"'), '\'') == value <==>
      value == [] || (value[0] !in "\"'" && value[|value| - 1] !in "\"'")
  {
    var double := (x: char) => x == '"';
    var single := (x: char) => x == '\'';
    var v := Trim(value, double);
    TrimShrinks(value, double);
    TrimShrinks(v, single);
    TrimFixedExactly(value, double);
    TrimFixedExactly(value, single);
    TrimKeepsLength(value, double);
    TrimKeepsLength(v, single);
  }

  /** Trimming changes a string only by shortening it. */
  lemma {:induction false} TrimKeepsLength(s: string, drop: char -> bool)
    ensures Trim(s, drop) == s || |Trim(s, drop)| < |s|
  {
    TrimFixedExactly(s, drop);
    if s != [] && drop(s[0]) {
      TrimShrinks(s[1..], drop);
    } else if s != [] && drop(s[|s| - 1]) {
      TrimShrinks(s[..|s| - 1], drop);
    }
  }

  /** A line reads back as it was written exactly when key and value are admissible. */
  lemma LineRoundTripExactly(key: string, value: string)
    ensures ReadLine(WriteLine(key, value)) == Some((key, value)) <==> Admissible(key, value)
  {
    if PlainKey(key) {
      PlainKeyReads(key, value);
      ShrunkTwice(value);
    } else if ReadLine(WriteLine(key, value)) == Some((key, value)) {
      KeyMustBePlain(key, value);
    }
  }

  lemma CutAt(key: string, rest: string)
    ensures var line := key + ([':'] + rest);
      |key| < |line| && line[..|key|] == key && line[|key|] == ':' && line[|key| + 1..] == rest
  {}

  lemma LineParts(key: string, value: string)
    ensures WriteLine(key, value) == key + ([':'] + (" \"" + value + "\""))
  {
    assert ": \"" == [':'] + " \"";
  }

  lemma PlainKeyReads(key: string, value: string)
    requires PlainKey(key)
    ensures ReadLine(WriteLine(key, value)) == Some((key, StripChar(StripChar(value, '"'), '\'')))
  {
    WrittenLine(key, value);
    LineParts(key, value);
    CutAt(key, " \"" + value + "\"");
    TrimFixedExactly(key, IsSpace);
    ValueReads(value);
  }

  lemma WrittenLine(key: string, value: string)
    requires PlainKey(key)
    ensures var line := WriteLine(key, value);
      line[0] != '#' && Strip(line) == line && IndexOf(line, ':') == |key| < |line|
  {
    var line := WriteLine(key, value);
    assert line[0] == if key == [] then ':' else key[0];
    assert line[|line| - 1] == '"';
    TrimFixedExactly(line, IsSpace);
    LineParts(key, value);
    CutAt(key, " \"" + value + "\"");
    FirstIndex(line, ':', |key|);
  }

  lemma KeyMustBePlain(key: string, value: string)
    requires ReadLine(WriteLine(key, value)) == Some((key, value))
    ensures PlainKey(key)
  {
    var line := Strip(WriteLine(key, value));
    var i := IndexOf(line, ':');
    assert key == Strip(line[..i]);
    TrimInside(line[..i], IsSpace);
    TrimInside(WriteLine(key, value), IsSpace);
  }

  /** What trimming leaves is a part of the string, with no dropped character at its ends. */
  lemma {:induction false} TrimInside(s: string, drop: char -> bool)
    ensures forall c :: c in Trim(s, drop) ==> c in s
    ensures Trim(s, drop) == [] || (!drop(Trim(s, drop)[0]) && !drop(Trim(s, drop)[|Trim(s, drop)| - 1]))
  {
    TrimLeftInside(s, drop);
    TrimRightInside(TrimLeft(s, drop), drop);
  }

  lemma TrimLeftInside(s: string, drop: char -> bool)
    ensures forall c :: c in TrimLeft(s, drop) ==> c in s
    ensures TrimLeft(s, drop) == [] || !drop(TrimLeft(s, drop)[0])
  {}

  lemma TrimRightInside(s: string, drop: char -> bool)
    ensures TrimRight(s, drop) <= s
    ensures TrimRight(s, drop) == [] || !drop(TrimRight(s, drop)[|TrimRight(s, drop)| - 1])
  {}

  /** The text before its first colon, and the text after it. */
  ghost predicate Cut(line: string, before: string, after: string) {
    line == before + ([':'] + after) && ':' !in before
  }

  lemma CutOnce(line: string, before: string, after: string)
    requires Cut(line, before, after)
    ensures IndexOf(line, ':') == |before| < |line| && line[..|before|] == before && line[|before| + 1..] == after
  {
    CutAt(before, after);
    FirstIndex(line, ':', |before|);
  }

  /** The value in the text: without blanks around it, then without the double quotes, and
      then without the single quotes. */
  ghost predicate ValueIn(text: string, value: string) {
    exists inner, bare :: BlanksOff(text, inner) && CharsOff(inner, bare, '"') && CharsOff(bare, value, '\'')
  }

  lemma ValueExactly(text: string, value: string)
    ensures StripChar(StripChar(Strip(text), '"'), '\'') == value <==> ValueIn(text, value)
  {
    var inner := Strip(text);
    var bare := StripChar(inner, '"');
    StripExactly(text, inner);
    StripCharExactly(inner, bare, '"');
    StripCharExactly(bare, value, '\'');
    if ValueIn(text, value) {
      var i, b :| BlanksOff(text, i) && CharsOff(i, b, '"') && CharsOff(b, value, '\'');
      StripExactly(text, i);
      StripCharExactly(i, b, '"');
    }
  }

  /** A line and the field on it: blanks around the line do not count, a comment has none,
      and key and value are on either side of the first colon. */
  ghost predicate HasField(raw: string, key: string, value: string) {
    exists line, before, after ::
      && BlanksOff(raw, line) && line != [] && line[0] != '#' && Cut(line, before, after)
      && BlanksOff(before, key) && ValueIn(after, value)
  }

  lemma PartsRead(raw: string, line: string, before: string, after: string, key: string, value: string)
    requires BlanksOff(raw, line) && line != [] && line[0] != '#' && Cut(line, before, after)
    requires BlanksOff(before, key) && ValueIn(after, value)
    ensures ReadLine(raw) == Some((key, value))
  {
    StripExactly(raw, line);
    CutOnce(line, before, after);
    StripExactly(before, key);
    ValueExactly(after, value);
  }

  lemma CutThere(line: string, i: nat)
    requires i < |line| && line[i] == ':' && ':' !in line[..i]
    ensures Cut(line, line[..i], line[i + 1..])
  {}

  lemma ReadApart(raw: string, line: string, before: string, after: string, key: string, value: string)
    requires line == Strip(raw) && line != [] && line[0] != '#' && Cut(line, before, after)
    requires key == Strip(before) && value == StripChar(StripChar(Strip(after), '"'), '\'')
    ensures HasField(raw, key, value)
  {
    StripExactly(raw, line);
    StripExactly(before, key);
    ValueExactly(after, value);
  }

  lemma ReadParts(raw: string, key: string, value: string)
    requires ReadLine(raw) == Some((key, value))
    ensures HasField(raw, key, value)
  {
    var line := Strip(raw);
    var i := IndexOf(line, ':');
    CutThere(line, i);
    ReadApart(raw, line, line[..i], line[i + 1..], key, value);
  }

  /** A line is read as the field that is on it, and every such field is read. */
  lemma LineReadExactly(raw: string, key: string, value: string)
    ensures ReadLine(raw) == Some((key, value)) <==> HasField(raw, key, value)
  {
    if ReadLine(raw) == Some((key, value)) { ReadParts(raw, key, value); }
    if HasField(raw, key, value) {
      var line, before, after :|
        && BlanksOff(raw, line) && line != [] && line[0] != '#' && Cut(line, before, after)
        && BlanksOff(before, key) && ValueIn(after, value);
      PartsRead(raw, line, before, after, key, value);
    }
  }

  /** A key, a colon and the text after it, with nothing around them. */
  lemma KeyedReads(key: string, after: string, value: string)
    requires PlainKey(key) && after != [] && !IsSpace(after[|after| - 1]) && ValueIn(after, value)
    ensures ReadLine(key + ([':'] + after)) == Some((key, value))
  {
    var line := key + ([':'] + after);
    assert line[0] == if key == [] then ':' else key[0];
    assert line[|line| - 1] == after[|after| - 1];
    NothingOff(line);
    NothingOff(key);
    assert Cut(line, key, after);
    PartsRead(line, line, key, after, key, value);
  }

  lemma Colon(key: string, rest: string)
    ensures key + ": " + rest == key + ([':'] + (" " + rest))
  {}

  lemma SingleParts(key: string, value: string)
    ensures key + ": '" + value + "'" == key + ": " + (['\''] + value + ['\''])
  {
    assert ": '" == ": " + ['\''];
  }

  /** A blank and then the text. */
  lemma BlankFirst(text: string)
    requires text != [] && !IsSpace(text[0]) && !IsSpace(text[|text| - 1])
    ensures BlanksOff(" " + text, text)
  {
    Blanked(" ", text, []);
    assert " " + text + [] == " " + text;
  }

  /** What is written without quotes reads back too, colons in the value included. */
  lemma UnquotedReads(key: string, value: string)
    requires PlainKey(key) && value != [] && !IsSpace(value[0]) && !IsSpace(value[|value| - 1])
    requires value[0] !in "\"'" && value[|value| - 1] !in "\"'"
    ensures ReadLine(key + ": " + value) == Some((key, value))
  {
    BlankFirst(value);
    NothingOff(value);
    assert value[0] != '"' && value[0] != '\'' && value[|value| - 1] != '"' && value[|value| - 1] != '\'';
    assert CharsOff(value, value, '"') && CharsOff(value, value, '\'');
    KeyedReads(key, " " + value, value);
    Colon(key, value);
  }

  lemma SingleQuoted(value: string)
    requires value == [] || (value[0] != '\'' && value[|value| - 1] != '\'')
    ensures ValueIn(" " + (['\''] + value + ['\'']), value)
  {
    var quoted := ['\''] + value + ['\''];
    BlankFirst(quoted);
    NothingOff(quoted);
    Charred(['\''], value, ['\''], '\'');
    assert CharsOff(quoted, quoted, '"') && CharsOff(quoted, value, '\'');
  }

  /** ... as does what is written between single quotes, blanks and double quotes included. */
  lemma SingleQuotedReads(key: string, value: string)
    requires PlainKey(key) && (value == [] || (value[0] != '\'' && value[|value| - 1] != '\''))
    ensures ReadLine(key + ": '" + value + "'") == Some((key, value))
  {
    var after := " " + (['\''] + value + ['\'']);
    SingleQuoted(value);
    KeyedReads(key, after, value);
    Colon(key, ['\''] + value + ['\'']);
    SingleParts(key, value);
  }

  // ---- the whole document ----

  lemma BreaksThere(line: string, sep: string, rest: string)
    requires Unbroken(line) && sep != [] && IsBreak(sep[0])
    ensures FirstBreak(line + (sep + rest)) == |line| && (line + (sep + rest))[|line|..] == sep + rest
  {
    var s := line + (sep + rest);
    assert s[|line|] == sep[0];
    assert forall k :: 0 <= k < |line| ==> s[k] == line[k];
    var i := FirstBreak(s);
  }

  lemma BreakTaken(sep: string, rest: string)
    requires sep == "\r\n" || (|sep| == 1 && !(sep == "\r" && rest != [] && rest[0] == '\n'))
    ensures |sep| == if "\r\n" <= sep + rest then 2 else 1
  {
    var s := sep + rest;
    if |sep| == 1 && |s| >= 2 { assert s[..2] == [s[0], s[1]] && s[1] == rest[0]; }
    if sep == "\r\n" { assert s[..2] == sep; }
  }

  /** A line ends at the first line break, which is one character, or a CR with the LF after it. */
  lemma SplitAtBreak(line: string, sep: string, rest: string)
    requires Unbroken(line)
    requires || sep == "\r\n"
             || (|sep| == 1 && sep[0] in "\n\r\U{0B}\U{0C}\U{1C}\U{1D}\U{1E}\U{85}\U{2028}\U{2029}"
                 && !(sep == "\r" && rest != [] && rest[0] == '\n'))
    ensures SplitLines(line + (sep + rest)) == [line] + SplitLines(rest)
  {
    var s := line + (sep + rest);
    BreaksExactly(sep[0]);
    BreaksThere(line, sep, rest);
    BreakTaken(sep, rest);
    assert s[..|line|] == line && s[|line| + |sep|..] == rest;
  }

  lemma SplitFirst(line: string, rest: string)
    requires Unbroken(line)
    ensures SplitLines(line + ("\n" + rest)) == [line] + SplitLines(rest)
  {
    SplitAtBreak(line, "\n", rest);
  }

  lemma SplitOnly(line: string)
    requires Unbroken(line) && line != []
    ensures SplitLines(line) == [line]
  {
    assert FirstBreak(line) == |line|;
  }

  ghost predicate Writable(entries: seq<(string, string)>) {
    forall i :: 0 <= i < |entries| ==>
      Admissible(entries[i].0, entries[i].1) && Unbroken(entries[i].0) && Unbroken(entries[i].1)
  }

  /** Unbroken lines, none of them so short that it could be a marker. */
  ghost predicate Long(lines: seq<string>) {
    forall i :: 0 <= i < |lines| ==> Unbroken(lines[i]) && |lines[i]| >= 4
  }

  lemma LineUnbroken(key: string, value: string)
    requires Unbroken(key) && Unbroken(value)
    ensures Unbroken(WriteLine(key, value)) && |WriteLine(key, value)| >= 4
  {
    var line := WriteLine(key, value);
    var tail := ": \"" + value + "\"";
    assert Unbroken(": \"") && Unbroken("\"");
    assert Unbroken(tail) by {
      forall i | 0 <= i < |tail| ensures !IsBreak(tail[i]) {
        if 3 <= i < |tail| - 1 { assert tail[i] == value[i - 3]; }
      }
    }
    assert line == key + tail;
  }

  lemma WrittenLong(entries: seq<(string, string)>)
    requires Writable(entries)
    ensures Long(Lines(entries))
  {
    forall i | 0 <= i < |entries| { LineUnbroken(entries[i].0, entries[i].1); }
  }

  /** The lines with newlines between them only. */
  function Joined(lines: seq<string>): string
    requires lines != []
  {
    if |lines| == 1 then lines[0] else lines[0] + ("\n" + Joined(lines[1..]))
  }

  lemma {:induction false} EndedJoined(lines: seq<string>)
    requires lines != []
    ensures Ended(lines) == Joined(lines) + "\n"
  {
    if |lines| > 1 {
      EndedJoined(lines[1..]);
      assert Ended(lines) == lines[0] + ("\n" + (Joined(lines[1..]) + "\n"));
    }
  }

  /** Joined lines split into what they are. */
  lemma {:induction false} JoinedSplits(lines: seq<string>)
    requires Long(lines) && lines != []
    ensures SplitLines(Joined(lines)) == lines
  {
    if |lines| == 1 {
      SplitOnly(lines[0]);
    } else {
      JoinedSplits(lines[1..]);
      SplitFirst(lines[0], Joined(lines[1..]));
    }
  }

  lemma {:induction false} LinesRead(entries: seq<(string, string)>)
    requires Writable(entries)
    ensures ReadLines(Lines(entries)) == Denoted(entries)
    decreases |entries|
  {
    if entries != [] {
      var n := |entries| - 1;
      LinesRead(entries[..n]);
      assert Lines(entries)[..n] == Lines(entries[..n]);
      LineRoundTripExactly(entries[n].0, entries[n].1);
    }
  }

  /** No end marker before the end of the header: each line is too long to be one. */
  lemma {:induction false} NoEarlyMarker(lines: seq<string>, after: string, i: nat)
    requires Long(lines) && lines != [] && i < |Joined(lines)|
    ensures !MarkerAt(Joined(lines) + after, i)
  {
    var text := Joined(lines) + after;
    var line := lines[0];
    if i < |line| {
      assert text[i..][0] == line[i];
    } else {
      var tail := Joined(lines[1..]) + after;
      assert text == line + ("\n" + tail);
      if i > |line| {
        NoEarlyMarker(lines[1..], after, i - |line| - 1);
        assert text[i..] == tail[i - |line| - 1..];
      } else {
        assert text[i..][4] == tail[3] == lines[1][3];
      }
    }
  }

  lemma {:induction false} UnifySplits(front: string, rest: string)
    requires '\r' !in front
    ensures Unify(front + rest) == front + Unify(rest)
  {
    if front == [] {
      assert front + rest == rest;
    } else {
      assert (front + rest)[1..] == front[1..] + rest;
      assert (front + rest)[0] == front[0] != '\r';
      UnifySplits(front[1..], rest);
    }
  }

  lemma {:induction false} NoReturns(lines: seq<string>)
    requires Long(lines)
    ensures '\r' !in Ended(lines)
  {
    if lines != [] {
      NoReturns(lines[1..]);
      assert forall i :: 0 <= i < |lines[0]| ==> !IsBreak(lines[0][i]);
    }
  }

  lemma FoundAt(text: string, start: nat, end: nat)
    requires start <= end <= |text| && MarkerAt(text, end)
    requires forall i :: start <= i < end ==> !MarkerAt(text, i)
    ensures FindMarker(text, start) == Some(end)
  {
    var found := FindMarker(text, start);
  }

  /** The end marker is found right after the header. */
  lemma HeaderFound(lines: seq<string>, body: string)
    requires Long(lines) && lines != []
    ensures var text := OPENING + (Joined(lines) + (END_MARKER + body));
      FindMarker(text, 4) == Some(4 + |Joined(lines)|) && text[4..4 + |Joined(lines)|] == Joined(lines)
  {
    var header := Joined(lines);
    var after := END_MARKER + body;
    var rest := header + after;
    var text := OPENING + rest;
    assert text[4 + |header|..] == after;
    forall i | 4 <= i < 4 + |header| ensures !MarkerAt(text, i) {
      NoEarlyMarker(lines, after, i - 4);
      assert text[i..] == rest[i - 4..];
    }
    FoundAt(text, 4, 4 + |header|);
  }

  /** A header stands between a first line of three dashes and the next such line that is not
      the second of the document. */
  lemma HeaderRead(text: string, header: string, rest: string)
    requires Unify(text) == "---\n" + (header + ("\n---\n" + rest))
    requires forall i :: 0 <= i < |header| ==> !("\n---\n" <= (header + ("\n---\n" + rest))[i..])
    ensures Parse(text) == Found(ReadLines(SplitLines(header)))
  {
    var after := header + ("\n---\n" + rest);
    var all := "---\n" + after;
    assert all[4 + |header|..] == "\n---\n" + rest;
    forall i | 4 <= i < 4 + |header| ensures !MarkerAt(all, i) { assert all[i..] == after[i - 4..]; }
    FoundAt(all, 4, 4 + |header|);
    assert all[4..4 + |header|] == header;
  }

  /** There is none exactly when the first line is another, or no such line follows. */
  lemma MissingExactly(text: string)
    ensures var all := Unify(text);
      Parse(text) == MissingFrontmatter <==>
        !("---\n" <= all) || forall i :: 4 <= i <= |all| ==> !("\n---\n" <= all[i..])
  {
    var all := Unify(text);
    if "---\n" <= all {
      var found := FindMarker(all, 4);
      forall i | 4 <= i <= |all| ensures MarkerAt(all, i) <==> "\n---\n" <= all[i..] {}
      if found.Some? { assert MarkerAt(all, found.value); }
    }
  }

  /** A document written with at least one field reads back as the fields it was written
      with, whatever its body. */
  lemma DocumentRoundTrip(entries: seq<(string, string)>, body: string)
    requires Writable(entries) && entries != []
    ensures Parse(Document(entries, body)) == Found(Denoted(entries))
  {
    var lines := Lines(entries);
    WrittenLong(entries);
    NoReturns(lines);
    var front := OPENING + Ended(lines) + OPENING;
    assert Document(entries, body) == front + body;
    UnifySplits(front, body);
    EndedJoined(lines);
    assert front + Unify(body) == OPENING + (Joined(lines) + (END_MARKER + Unify(body)));
    HeaderFound(lines, Unify(body));
    JoinedSplits(lines);
    LinesRead(entries);
  }

  lemma EmptyIsUnified(body: string)
    ensures Unify(Document([], body)) == OPENING + (OPENING + Unify(body))
  {
    assert Document([], body) == (OPENING + OPENING) + body;
    UnifySplits(OPENING + OPENING, body);
    assert (OPENING + OPENING) + Unify(body) == OPENING + (OPENING + Unify(body));
  }

  /** A marker after the opening line is one of what follows that line. */
  lemma MarkerAfterOpening(rest: string)
    ensures FindMarker(OPENING + rest, 4) ==
      match FindMarker(rest, 0) case None => None case Some(at) => Some(4 + at)
  {
    var text := OPENING + rest;
    forall i | 0 <= i <= |rest| ensures MarkerAt(text, 4 + i) <==> MarkerAt(rest, i) {
      assert text[4 + i..] == rest[i..];
    }
    if FindMarker(text, 4).Some? {
      var found := FindMarker(text, 4).value;
      assert MarkerAt(rest, found - 4);
      forall i | 0 <= i < found - 4 ensures !MarkerAt(rest, i) { assert !MarkerAt(text, 4 + i); }
      FoundAt(rest, 0, found - 4);
    }
  }

  /** What is read from a document without fields: its body up to a marker. */
  lemma EmptyHeaderReads(body: string)
    ensures var rest := OPENING + Unify(body);
      Parse(Document([], body)) ==
        match FindMarker(rest, 0) case None => MissingFrontmatter case Some(at) => Found(ReadLines(SplitLines(rest[..at])))
  {
    var rest := OPENING + Unify(body);
    EmptyIsUnified(body);
    MarkerAfterOpening(rest);
    if FindMarker(rest, 0).Some? {
      var at := FindMarker(rest, 0).value;
      assert (OPENING + rest)[4..4 + at] == rest[..at];
    }
  }

  /** Without any field the header is lost exactly when no end marker occurs in the rest of
      the document: the closing line cannot be one, having no line before it. */
  lemma EmptyHeaderLostExactly(body: string)
    ensures var rest := OPENING + Unify(body);
      Parse(Document([], body)) == MissingFrontmatter <==> forall i :: 0 <= i <= |rest| ==> !MarkerAt(rest, i)
  {
    EmptyHeaderReads(body);
  }

  /** The line is blank, a comment, or without a colon. */
  predicate NoField(raw: string) {
    Strip(raw) == [] || Strip(raw)[0] == '#' || ':' !in Strip(raw)
  }

  lemma NoFieldExactly(raw: string)
    ensures ReadLine(raw).None? <==> NoField(raw)
  {
    var line := Strip(raw);
    var i := IndexOf(line, ':');
    if i == |line| { assert line[..i] == line; }
  }

  lemma {:induction false} NoFieldsExactly(lines: seq<string>)
    ensures ReadLines(lines) == map[] <==> forall i :: 0 <= i < |lines| ==> NoField(lines[i])
  {
    if lines != [] {
      var front, last := lines[..|lines| - 1], lines[|lines| - 1];
      NoFieldsExactly(front);
      NoFieldExactly(last);
      assert forall i :: 0 <= i < |front| ==> front[i] == lines[i];
      if ReadLine(last).Some? { assert ReadLine(last).value.0 in ReadLines(lines); }
    }
  }

  /** It reads back, as no fields, exactly when a marker is found further down and every line
      before it is blank, a comment, or without a colon. */
  lemma EmptyDocumentReadsExactly(body: string)
    ensures var rest := OPENING + Unify(body);
      Parse(Document([], body)) == Found(map[]) <==>
        FindMarker(rest, 0).Some? &&
        var lines := SplitLines(rest[..FindMarker(rest, 0).value]); forall i :: 0 <= i < |lines| ==> NoField(lines[i])
  {
    EmptyHeaderReads(body);
    var rest := OPENING + Unify(body);
    if FindMarker(rest, 0).Some? { NoFieldsExactly(SplitLines(rest[..FindMarker(rest, 0).value])); }
  }

  /** The document without fields and body never reads back. */
  lemma EmptyHeaderLost()
    ensures Parse(Document([], "")) == MissingFrontmatter
  {
    EmptyHeaderLostExactly("");
    var rest := OPENING + Unify("");
    forall i | 0 <= i <= |rest| ensures !MarkerAt(rest, i) { assert |rest[i..]| < 5; }
  }

  // ---- line endings ----

  /** The text with CRLF line endings. */
  function ToCrlf(text: string): string {
    if text == [] then [] else (if text[0] == '\n' then "\r\n" else [text[0]]) + ToCrlf(text[1..])
  }

  lemma {:induction false} UnifyToCrlf(text: string)
    ensures Unify(ToCrlf(text)) == text
  {
    if text != [] {
      UnifyToCrlf(text[1..]);
      var rest := ToCrlf(text[1..]);
      if text[0] == '\n' {
        assert ToCrlf(text) == "\r\n" + rest;
        assert ToCrlf(text)[2..] == rest;
      } else {
        assert ToCrlf(text)[1..] == rest;
        CrlfStarts(text[1..]);
      }
    }
  }

  lemma CrlfStarts(text: string)
    ensures ToCrlf(text) != [] ==> ToCrlf(text)[0] != '\n'
  {}

  predicate CrlfAt(text: string, i: nat) {
    i + 1 < |text| && text[i] == '\r' && text[i + 1] == '\n'
  }

  lemma CrlfFirst(text: string)
    ensures CrlfAt(text, 0) <==> "\r\n" <= text
  {
    if |text| >= 2 { assert text[..2] == [text[0], text[1]]; }
  }

  lemma {:induction false} UnifyFixedExactly(text: string)
    ensures Unify(text) == text <==> forall i :: 0 <= i < |text| ==> !CrlfAt(text, i)
  {
    CrlfFirst(text);
    if "\r\n" <= text {
      UnifyShrinks(text[2..]);
    } else if text != [] {
      var rest := text[1..];
      UnifyFixedExactly(rest);
      assert text == [text[0]] + rest;
      assert forall i :: 0 <= i < |rest| ==> CrlfAt(rest, i) == CrlfAt(text, i + 1);
      assert (forall i :: 0 <= i < |text| ==> !CrlfAt(text, i)) ==> forall i :: 0 <= i < |rest| ==> !CrlfAt(rest, i);
      if j :| 0 <= j < |text| && CrlfAt(text, j) {
        assert CrlfAt(rest, j - 1);
      }
    }
  }

  lemma UnifyShrinks(text: string)
    ensures |Unify(text)| <= |text|
  {}

  /** The CRLF form of a text parses like the text with its LF endings; the two texts
      themselves parse alike whenever the latter has no CRLF of its own. */
  lemma LineEndingsParseAlike(text: string)
    ensures Parse(ToCrlf(text)) == ParseUnified(text)
    ensures (forall i :: 0 <= i < |text| ==> !CrlfAt(text, i)) ==> Parse(ToCrlf(text)) == Parse(text)
  {
    UnifyToCrlf(text);
    UnifyFixedExactly(text);
  }
}
