/**
 The textual rewrite of the switches file: finding an entry's table by its header's spellings, bounding it,
 finding a key's line, and putting the off entry in its place.
 */
module SwitchText {
  import opened Text
  import opened TomlLex
  import opened TomlDoc

  // --- the patterns the rewrite searches with ---

  predicate IsBareName(name: string) {
    name != "" && forall i :: 0 <= i < |name| ==> IsBare(name[i])
  }

  /** A name as a key: bare where it may be, a quoted string else. */
  function TableKey(name: string): string {
    if IsBareName(name) then name else TomlString(name)
  }

  /** What follows one of the spellings of `name` the search knows: quoted, bare or literal. */
  function AfterSpelling(s: string, name: string): Option<string> {
    if StartsWith(s, TomlString(name)) then Some(s[|TomlString(name)|..])
    else if IsBareName(name) && StartsWith(s, name) then Some(s[|name|..])
    else if '\'' !in name && StartsWith(s, "'" + name + "'") then Some(s[|name| + 2..])
    else None
  }

  predicate EndsLine(s: string) {
    var r := SkipSpace(s);
    r == [] || r[0] == '#'
  }

  /** The line opens the table of `switches` and `name`. */
  predicate EntryHeader(line: string, name: string) {
    var s := SkipSpace(line);
    s != [] && s[0] == '['
    && match AfterSpelling(SkipSpace(s[1..]), "switches")
       case None => false
       case Some(r1) =>
         var dot := SkipSpace(r1);
         dot != [] && dot[0] == '.'
         && match AfterSpelling(SkipSpace(dot[1..]), name)
            case None => false
            case Some(r2) =>
              var close := SkipSpace(r2);
              close != [] && close[0] == ']' && EndsLine(close[1..])
  }

  /** The line assigns `key`. */
  predicate KeyLine(line: string, key: string) {
    match AfterSpelling(SkipSpace(line), key)
    case None => false
    case Some(r) => SkipSpace(r) != [] && SkipSpace(r)[0] == '='
  }

  /** What follows a header key, judged by its shape alone. */
  function AfterRawKey(s: string): (r: Option<string>)
    ensures r.Some? ==> |r.value| < |s|
  {
    if s == [] then None
    else if s[0] == '"' then AfterRawBasic(s[1..])
    else if s[0] == '\'' then AfterRawLiteral(s[1..])
    else if BareLength(s) == 0 then None
    else Some(s[BareLength(s)..])
  }

  function AfterRawBasic(s: string): (r: Option<string>)
    ensures r.Some? ==> |r.value| < |s|
    decreases |s|
  {
    if s == [] then None
    else if s[0] == '"' then Some(s[1..])
    else if s[0] == '\\' then (if |s| < 2 then None else AfterRawBasic(s[2..]))
    else AfterRawBasic(s[1..])
  }

  function AfterRawLiteral(s: string): (r: Option<string>)
    ensures r.Some? ==> |r.value| < |s|
  {
    if s == [] then None else if s[0] == '\'' then Some(s[1..]) else AfterRawLiteral(s[1..])
  }

  function AfterRawPath(s: string): Option<string>
    decreases |s|
  {
    match AfterRawKey(SkipSpace(s))
    case None => None
    case Some(after) =>
      var rest := SkipSpace(after);
      if rest == [] then None
      else if rest[0] == ']' then Some(rest[1..])
      else if rest[0] == '.' then AfterRawPath(rest[1..])
      else None
  }

  /** The line is a full table or array-of-tables header. */
  predicate TableHeader(line: string) {
    var s := SkipSpace(line);
    s != [] && s[0] == '['
    && match AfterRawPath(if StartsWith(s, "[[") then s[2..] else s[1..])
       case None => false
       case Some(r) => EndsLine(if r != [] && r[0] == ']' then r[1..] else r)
  }

  /** The three spellings of a key the search knows: a basic string as written, bare, and a literal string. */
  lemma SpelledExactly(s: string, name: string, rest: string)
    ensures AfterSpelling(s, name) == Some(rest) <==>
      || s == TomlString(name) + rest || (IsBareName(name) && s == name + rest)
      || ('\'' !in name && s == "'" + name + "'" + rest)
  {
    hide Escape;
    assert TomlString(name)[0] == '"';
    Opened(s, TomlString(name), rest);
    Opened(s, name, rest);
    Opened(s, "'" + name + "'", rest);
    assert IsBareName(name) ==> name[0] != '"' && name[0] != '\'';
  }

  lemma Opened(s: string, head: string, rest: string)
    ensures s == head + rest <==> StartsWith(s, head) && s[|head|..] == rest
  {
  }

  /** An array of tables opens one too, and ends the table before it. */
  lemma ArrayHeader(name: string)
    requires IsBareName(name)
    ensures TableHeader("[[" + name + "]]") && TableHeader("[" + name + "]")
  {
    BareRead(name, "]");
    BareRead(name, "]]");
    hide AfterRawPath;
    HeaderOver("[", name + "]");
    HeaderOver("[[", name + "]]");
    assert "[" + (name + "]") == "[" + name + "]" && "[[" + (name + "]]") == "[[" + name + "]]";
  }

  lemma HeaderOver(marks: string, inner: string)
    requires marks in {"[", "[["} && inner != "" && inner[0] != '['
    requires AfterRawPath(inner) == Some(if marks == "[" then "" else "]")
    ensures TableHeader(marks + inner)
  {
    hide AfterRawPath;
    var s := marks + inner;
    assert s[|marks|..] == inner && s[0] == '[' && SkipSpace(s) == s;
    if marks == "[" {
      assert s[1] == inner[0];
    } else {
      assert s[..2] == "[[";
    }
  }

  lemma {:induction false} BareRead(name: string, rest: string)
    requires IsBareName(name) && rest != "" && rest[0] == ']'
    ensures AfterRawPath(name + rest) == Some(rest[1..])
  {
    var s := name + rest;
    BareStretch(name, rest);
    assert SkipSpace(s) == s && s[|name|..] == rest && SkipSpace(rest) == rest;
  }

  lemma {:induction false} BareStretch(name: string, rest: string)
    requires (forall i :: 0 <= i < |name| ==> IsBare(name[i])) && rest != "" && rest[0] == ']'
    ensures BareLength(name + rest) == |name|
  {
    var s := name + rest;
    if name != "" {
      BareStretch(name[1..], rest);
      assert s[1..] == name[1..] + rest;
    }
  }

  /** Every trailing carriage return dropped. */
  function RStripCr(line: string): string {
    if EndsWith(line, "\r") then RStripCr(line[..|line| - 1]) else line
  }

  /** Every carriage return at the end goes, and nothing else. */
  lemma {:induction false} RStripIs(line: string)
    ensures var out := RStripCr(line);
      && |out| <= |line| && line[..|out|] == out && (out == "" || out[|out| - 1] != '\r')
      && forall i :: |out| <= i < |line| ==> line[i] == '\r'
  {
    if EndsWith(line, "\r") {
      var n := |line| - 1;
      assert line[n..] == "\r" && line[n] == '\r';
      RStripIs(line[..n]);
      assert forall i :: 0 <= i < n ==> line[..n][i] == line[i];
      assert line[..n][..|RStripCr(line)|] == line[..|RStripCr(line)|];
    } else if line != "" {
      assert line[|line| - 1..] == [line[|line| - 1]];
    }
  }

  // --- the search ---

  /** The indices in `[lo, hi)` whose lines satisfy `p`. */
  function Matching(lines: seq<string>, lo: nat, hi: nat, p: string -> bool): seq<nat>
    requires hi <= |lines|
    decreases hi
  {
    if hi <= lo then [] else Matching(lines, lo, hi - 1, p) + if p(lines[hi - 1]) then [hi - 1] else []
  }

  method FindMatching(lines: seq<string>, lo: nat, hi: nat, p: string -> bool) returns (found: seq<nat>)
    requires lo <= hi <= |lines|
    ensures found == Matching(lines, lo, hi, p)
  {
    found := [];
    for i := lo to hi
      invariant found == Matching(lines, lo, i, p)
    {
      if p(lines[i]) {
        found := found + [i];
      }
    }
  }

  function IsEntryHeader(name: string): string -> bool {
    (line: string) => EntryHeader(RStripCr(line), name)
  }

  function IsKeyLine(key: string): string -> bool {
    (line: string) => KeyLine(StripCr(line), key)
  }

  /** The first table header at or after `i`, or the end. */
  function TableEnd(lines: seq<string>, i: nat): (e: nat)
    requires i <= |lines|
    ensures i <= e <= |lines|
    ensures forall k :: i <= k < e ==> !TableHeader(RStripCr(lines[k]))
    ensures e < |lines| ==> TableHeader(RStripCr(lines[e]))
    decreases |lines| - i
  {
    if i == |lines| || TableHeader(RStripCr(lines[i])) then i else TableEnd(lines, i + 1)
  }

  function Stripped(lines: seq<string>): (out: seq<string>)
    ensures |out| == |lines| && forall i :: 0 <= i < |lines| ==> out[i] == StripCr(lines[i])
  {
    if lines == [] then [] else [StripCr(lines[0])] + Stripped(lines[1..])
  }

  /** The lines make a document on their own. */
  predicate ParsesAlone(lines: seq<string>) {
    Parse(JoinWith(Stripped(lines), '\n')).Some?
  }

  function EntrySpan(lines: seq<string>, name: string): (span: Option<(nat, nat)>)
    ensures span.Some? ==> span.value.0 < span.value.1 <= |lines|
  {
    var matches := Matching(lines, 0, |lines|, IsEntryHeader(name));
    if |matches| != 1 || matches[0] >= |lines| then None
    else
      var start := matches[0];
      var end := TableEnd(lines, start + 1);
      if ParsesAlone(lines[start + 1..end]) then Some((start, end)) else None
  }

  /** The entry's table: its header's line and the line after its last, where both can be trusted. */
  method FindEntrySpan(lines: seq<string>, name: string) returns (span: Option<(nat, nat)>)
    ensures span == EntrySpan(lines, name)
  {
    hide EntryHeader, TableHeader, ParsesAlone, Matching, RStripCr;
    var matches := FindMatching(lines, 0, |lines|, IsEntryHeader(name));
    if |matches| != 1 || matches[0] >= |lines| {
      return None;
    }
    var start := matches[0];
    var end := start + 1;
    while end < |lines| && !TableHeader(RStripCr(lines[end]))
      invariant start < end <= |lines|
      invariant TableEnd(lines, start + 1) == TableEnd(lines, end)
    {
      end := end + 1;
    }
    if !ParsesAlone(lines[start + 1..end]) {
      return None;
    }
    return Some((start, end));
  }

  /** The least end at which the lines from `start` make a document. */
  function FirstParse(lines: seq<string>, start: nat, end: nat, hi: nat): Option<nat>
    requires start <= end && hi <= |lines|
    decreases hi + 1 - end
  {
    if end > hi then None
    else if ParsesAlone(lines[start..end]) then Some(end)
    else FirstParse(lines, start, end + 1, hi)
  }

  function KeyPair(lines: seq<string>, lo: nat, hi: nat, key: string): Option<(nat, nat)>
    requires lo <= hi <= |lines|
  {
    var matches := Matching(lines, lo, hi, IsKeyLine(key));
    if |matches| != 1 then None
    else match FirstParse(lines, matches[0], matches[0] + 1, hi)
      case None => None
      case Some(end) => Some((matches[0], end))
  }

  /** The span of the pair assigning `key`, where one line could and its value completes. */
  method FindKeyPair(lines: seq<string>, lo: nat, hi: nat, key: string) returns (pair: Option<(nat, nat)>)
    requires lo <= hi <= |lines|
    ensures pair == KeyPair(lines, lo, hi, key)
  {
    hide KeyLine, ParsesAlone, Matching;
    var matches := FindMatching(lines, lo, hi, IsKeyLine(key));
    if |matches| != 1 {
      return None;
    }
    var start := matches[0];
    var end := start + 1;
    while end <= hi
      invariant start < end
      invariant FirstParse(lines, start, start + 1, hi) == FirstParse(lines, start, end, hi)
      decreases hi + 1 - end
    {
      if ParsesAlone(lines[start..end]) {
        return Some((start, end));
      }
      end := end + 1;
    }
    return None;
  }

  lemma {:induction false} MatchingRange(lines: seq<string>, lo: nat, hi: nat, p: string -> bool)
    requires hi <= |lines|
    ensures forall k :: k in Matching(lines, lo, hi, p) <==> lo <= k < hi && p(lines[k])
    decreases hi
  {
    if hi > lo {
      MatchingRange(lines, lo, hi - 1, p);
    }
  }

  // --- the rewrite ---

  /** A located pair and the lines that replace it. */
  datatype Edit = Edit(start: nat, end: nat, lines: seq<string>)

  predicate Overlap(a: Edit, b: Edit) {
    a.start < b.end && b.start < a.end
  }

  /** The lines from `i` to `hi` with the edits made. */
  function Edited(lines: seq<string>, i: nat, hi: nat, edits: seq<Edit>): seq<string>
    requires hi <= |lines|
    decreases if i < hi then hi - i else 0
  {
    if i >= hi then []
    else match EditAt(edits, i)
      case Some(e) => e.lines + Edited(lines, if i < e.end then e.end else i + 1, hi, edits)
      case None => [lines[i]] + Edited(lines, i + 1, hi, edits)
  }

  function EditAt(edits: seq<Edit>, i: nat): (r: Option<Edit>)
    ensures r.Some? ==> r.value in edits && r.value.start == i
  {
    if edits == [] then None
    else if edits[0].start == i then Some(edits[0])
    else EditAt(edits[1..], i)
  }

  function WithEnding(lines: seq<string>, suffix: string): (out: seq<string>)
    ensures |out| == |lines| && forall i :: 0 <= i < |lines| ==> out[i] == lines[i] + suffix
  {
    if lines == [] then [] else [lines[0] + suffix] + WithEnding(lines[1..], suffix)
  }

  function StateLine(): string {
    "state = \"off\""
  }

  function TaskLine(task: string): string {
    "task = " + TomlString(task)
  }

  function ReasonLine(reason: string): string {
    "reason = " + TomlString(reason)
  }

  /** The edits of an on entry's table, or nothing where a pair cannot be located or the two overlap. */
  function BodyEdits(lines: seq<string>, lo: nat, hi: nat, task: string, reason: string,
                     crlf: bool): (r: Option<seq<Edit>>)
    requires lo <= hi <= |lines|
  {
    var suffix := if crlf then "\r" else "";
    match (KeyPair(lines, lo, hi, "state"), KeyPair(lines, lo, hi, "task"))
    case (Some(s), Some(t)) =>
      var first := Edit(s.0, s.1, WithEnding([StateLine()], suffix));
      var second := Edit(t.0, t.1, WithEnding([TaskLine(task), ReasonLine(reason)], suffix));
      if Overlap(first, second) then None else Some([first, second])
    case _ => None
  }

  lemma {:induction false} FirstParseAfter(lines: seq<string>, start: nat, end: nat, hi: nat)
    requires start < end && hi <= |lines|
    ensures FirstParse(lines, start, end, hi).Some? ==> end <= FirstParse(lines, start, end, hi).value <= hi
    decreases hi + 1 - end
  {
    hide ParsesAlone;
    if end <= hi {
      FirstParseAfter(lines, start, end + 1, hi);
    }
  }

  lemma KeyPairAfter(lines: seq<string>, lo: nat, hi: nat, key: string)
    requires lo <= hi <= |lines|
    ensures KeyPair(lines, lo, hi, key).Some? ==>
      var (start, end) := KeyPair(lines, lo, hi, key).value;
      lo <= start < end <= hi
  {
    hide KeyLine, ParsesAlone, FirstParse, Matching, StripCr;
    var matches := Matching(lines, lo, hi, IsKeyLine(key));
    MatchingRange(lines, lo, hi, IsKeyLine(key));
    if |matches| == 1 {
      assert matches[0] in matches;
      FirstParseAfter(lines, matches[0], matches[0] + 1, hi);
    }
  }

  function EntryBody(lines: seq<string>, lo: nat, hi: nat, task: string, reason: string,
                     crlf: bool): Option<seq<string>>
    requires lo <= hi <= |lines|
  {
    match BodyEdits(lines, lo, hi, task, reason, crlf)
    case None => None
    case Some(edits) => Some(Edited(lines, lo, hi, edits))
  }

  /** The lines from `lo` to `hi`, each located pair replaced by its edit's lines. */
  method ReplacePairs(lines: seq<string>, lo: nat, hi: nat, edits: seq<Edit>) returns (out: seq<string>)
    requires lo <= hi <= |lines| && (forall e :: e in edits ==> e.start < e.end)
    ensures out == Edited(lines, lo, hi, edits)
  {
    hide EditAt;
    out := [];
    var index := lo;
    while index < hi
      invariant lo <= index
      invariant out + Edited(lines, index, hi, edits) == Edited(lines, lo, hi, edits)
      decreases hi - index
    {
      ghost var before := out;
      match EditAt(edits, index)
      case Some(e) =>
        out := out + e.lines;
        assert before + (e.lines + Edited(lines, e.end, hi, edits)) == out + Edited(lines, e.end, hi, edits);
        index := e.end;
      case None =>
        out := out + [lines[index]];
        assert before + ([lines[index]] + Edited(lines, index + 1, hi, edits))
          == out + Edited(lines, index + 1, hi, edits);
        index := index + 1;
    }
    assert out + [] == out;
  }

  /** The table's own lines with the switch's pairs rewritten, every other line as it was. */
  method RewriteEntryBody(lines: seq<string>, lo: nat, hi: nat, task: string, reason: string, crlf: bool)
    returns (body: Option<seq<string>>)
    requires lo <= hi <= |lines|
    ensures body == EntryBody(lines, lo, hi, task, reason, crlf)
  {
    hide KeyPair, StateLine, TaskLine, ReasonLine, WithEnding, Edited;
    KeyPairAfter(lines, lo, hi, "state");
    KeyPairAfter(lines, lo, hi, "task");
    var suffix := if crlf then "\r" else "";
    var state := FindKeyPair(lines, lo, hi, "state");
    if state.None? {
      return None;
    }
    var first := Edit(state.value.0, state.value.1, WithEnding([StateLine()], suffix));
    var taskPair := FindKeyPair(lines, lo, hi, "task");
    if taskPair.None? {
      return None;
    }
    var second := Edit(taskPair.value.0, taskPair.value.1, WithEnding([TaskLine(task), ReasonLine(reason)], suffix));
    if Overlap(first, second) {
      return None;
    }
    var out := ReplacePairs(lines, lo, hi, [first, second]);
    return Some(out);
  }

  function EntryLines(task: string, reason: string): seq<string> {
    [StateLine(), TaskLine(task), ReasonLine(reason)]
  }

  function HeaderLine(name: string): string {
    "[switches." + TableKey(name) + "]"
  }

  function Eol(text: string): string {
    if Contains(text, "\r\n") then "\r\n" else "\n"
  }

  /** The text with a new table appended after a blank line. */
  function Appended(text: string, table: seq<string>): string {
    var closed := if EndsWith(text, "\n") then text else text + "\n";
    var spaced := if EndsWith(closed, "\n\n") then closed else closed + "\n";
    spaced + JoinAll(table, Eol(text))
  }

  /** The lines, each closed by `eol`. */
  function JoinAll(lines: seq<string>, eol: string): string {
    if lines == [] then "" else lines[0] + eol + JoinAll(lines[1..], eol)
  }

  function Skeleton(table: seq<string>): string {
    "format = 1\n\n[switches]\n\n" + JoinAll(table, "\n")
  }

  /** The new text: a file created, a table rewritten in place, or a table appended. */
  function SwitchesText(text: Option<string>, name: string, span: Option<(nat, nat)>, task: string,
                        reason: string): Option<string>
    requires text.Some? && span.Some? ==> span.value.0 < span.value.1 <= |SplitOn(text.value, '\n')|
  {
    match text
    case None => Some(Skeleton([HeaderLine(name)] + EntryLines(task, reason)))
    case Some(was) =>
      match span
      case Some((start, end)) =>
        var lines := SplitOn(was, '\n');
        (match EntryBody(lines, start + 1, end, task, reason, Contains(was, "\r\n"))
         case None => None
         case Some(body) => Some(JoinWith(lines[..start + 1] + body + lines[end..], '\n')))
      case None => Some(Appended(was, [HeaderLine(name)] + EntryLines(task, reason)))
  }
}
