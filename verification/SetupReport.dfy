/** The report a stage's child writes and the parent's reading of it, and the two together around the setup. */
module SetupReport {
  import opened Text
  import opened Utf8
  import opened Isolation

  // --- what the child writes ---

  /** A problem's text on one line. */
  function Spaced(s: string): (r: string)
    ensures |r| == |s| && forall i :: 0 <= i < |s| ==> r[i] == if s[i] == '\n' then ' ' else s[i]
  {
    if s == "" then "" else [if s[0] == '\n' then ' ' else s[0]] + Spaced(s[1..])
  }

  /** The reason a guarantee is named with, the last where more than one. */
  function ReasonOf(problems: Problems, name: string): Option<string> {
    if problems == [] then None
    else if problems[|problems| - 1].0 == name then Some(Spaced(problems[|problems| - 1].1))
    else ReasonOf(problems[..|problems| - 1], name)
  }

  function ValueOf(problems: Problems, name: string): string {
    match ReasonOf(problems, name) case None => "ok" case Some(reason) => reason
  }

  /** One line for each guarantee asked for. */
  function Report(problems: Problems, requested: seq<string>): string {
    if requested == [] then ""
    else requested[0] + "=" + ValueOf(problems, requested[0]) + "\n" + Report(problems, requested[1..])
  }

  // --- what the parent reads ---

  function FirstBreak(s: string): (k: nat)
    ensures k <= |s| && NoBreaks(s[..k]) && (k < |s| ==> IsBreak(s[k]))
  {
    if s == "" || IsBreak(s[0]) then 0 else 1 + FirstBreak(s[1..])
  }

  /** `splitlines`: a carriage return and line feed together are one break, and a last break opens no line. */
  function SplitLines(s: string): seq<string>
    decreases |s|
  {
    if s == "" then []
    else
      var k := FirstBreak(s);
      if k == |s| then [s] else [s[..k]] + SplitLines(s[NextLine(s, k)..])
  }

  /** Where the next line starts after a break. */
  function NextLine(s: string, k: nat): (n: nat)
    requires k < |s|
    ensures k < n <= |s|
  {
    if s[k] == '\r' && k + 1 < |s| && s[k + 1] == '\n' then k + 2 else k + 1
  }

  /** The characters a line of the report ends at: Python's line boundaries. */
  lemma BreaksAt(a: string, c: char, b: string)
    requires forall i :: 0 <= i < |a| ==> !IsBreak(a[i])
    ensures c != '\r' && c as int in {0x0A, 0x0B, 0x0C, 0x1C, 0x1D, 0x1E, 0x85, 0x2028, 0x2029} ==>
      SplitLines(a + [c] + b) == [a] + SplitLines(b)
    ensures SplitLines(a + "\r\n" + b) == [a] + SplitLines(b)
    ensures b == "" || b[0] != '\n' ==> SplitLines(a + "\r" + b) == [a] + SplitLines(b)
    ensures c as int !in {0x0A, 0x0B, 0x0C, 0x0D, 0x1C, 0x1D, 0x1E, 0x85, 0x2028, 0x2029} ==>
      SplitLines(a + [c]) == [a + [c]]
  {
    hide SplitLines;
    BreakSplits(a, c, b);
    BreakSplits(a, '\r', "\n" + b);
    BreakSplits(a, '\r', b);
    assert a + ['\r'] + ("\n" + b) == a + "\r\n" + b && a + ['\r'] + b == a + "\r" + b;
  }

  lemma BreakSplits(a: string, c: char, b: string)
    requires NoBreaks(a)
    ensures IsBreak(c) ==>
      SplitLines(a + [c] + b) == [a] + SplitLines(if c == '\r' && b != "" && b[0] == '\n' then b[1..] else b)
    ensures !IsBreak(c) ==> SplitLines(a + [c]) == [a + [c]]
  {
    hide IsBreak;
    var s := a + [c] + b;
    if IsBreak(c) {
      FirstIs(s, |a|);
      assert s[..|a|] == a && s[|a|] == c;
      assert s[|a| + 1..] == b;
      assert b != "" ==> s[|a| + 1] == b[0] && s[|a| + 2..] == b[1..];
    } else {
      var t := a + [c];
      assert FirstBreak(t) == |t|;
    }
  }

  lemma FirstIs(s: string, k: nat)
    requires k < |s| && NoBreaks(s[..k]) && IsBreak(s[k])
    ensures FirstBreak(s) == k
  {
    hide IsBreak;
    var n := FirstBreak(s);
    assert forall i :: 0 <= i < k ==> s[..k][i] == s[i];
    assert forall i :: 0 <= i < n ==> s[..n][i] == s[i];
  }

  /** A line's label and value, where it has both. */
  function FieldOf(line: string): Option<(string, string)> {
    var k := FirstEquals(line);
    if k == |line| then None else Some((line[..k], line[k + 1..]))
  }

  function FirstEquals(s: string): (k: nat)
    ensures k <= |s| && '=' !in s[..k] && (k < |s| ==> s[k] == '=')
  {
    if s == "" || s[0] == '=' then 0 else 1 + FirstEquals(s[1..])
  }

  /** The fields of some lines, the first of each label standing. */
  function Reported(lines: seq<string>): map<string, string> {
    if lines == [] then map[]
    else
      var before := Reported(lines[..|lines| - 1]);
      match FieldOf(lines[|lines| - 1])
      case Some((name, value)) => if name in before then before else before[name := value]
      case None => before
  }

  function Absent(): string {
    "the child's setup report did not arrive before exec"
  }

  function Verdict(reported: map<string, string>, name: string): seq<(string, string)> {
    if name !in reported then [(name, Absent())]
    else if reported[name] != "ok" then [(name, reported[name])]
    else []
  }

  function Failures(data: seq<Byte>, network: bool, readonly: bool): seq<(string, string)> {
    var reported := Reported(SplitLines(DecodeWith(data, Replace)));
    (if network then Verdict(reported, Network()) else []) + if readonly then Verdict(reported, ReadOnly()) else []
  }

  /** `parse_setup_report`. */
  method ParseSetupReport(data: seq<Byte>, network: bool, readonly: bool) returns (failures: seq<(string, string)>)
    ensures failures == Failures(data, network, readonly)
  {
    hide FieldOf, SplitLines, DecodeWith;
    var lines := SplitLines(DecodeWith(data, Replace));
    var reported: map<string, string> := map[];
    for i := 0 to |lines|
      invariant reported == Reported(lines[..i])
    {
      assert lines[..i + 1][..i] == lines[..i] && lines[..i + 1][i] == lines[i];
      var field := FieldOf(lines[i]);
      if field.Some? && field.value.0 !in reported {
        reported := reported[field.value.0 := field.value.1];
      }
    }
    assert lines[..|lines|] == lines;
    failures := [];
    if network {
      failures := failures + Verdict(reported, Network());
    }
    if readonly {
      failures := failures + Verdict(reported, ReadOnly());
    }
  }

  predicate Lists(failures: seq<(string, string)>, name: string) {
    exists i :: 0 <= i < |failures| && failures[i].0 == name
  }

  // --- the two together ---

  lemma {:induction false} FirstBreakAfter(line: string, tail: string)
    requires NoBreaks(line) && tail != "" && IsBreak(tail[0])
    ensures FirstBreak(line + tail) == |line|
  {
    if line == "" {
      assert line + tail == tail;
    } else {
      assert (line + tail)[1..] == line[1..] + tail;
      FirstBreakAfter(line[1..], tail);
    }
  }

  lemma SplitLineOff(line: string, rest: string)
    requires NoBreaks(line)
    ensures SplitLines(line + "\n" + rest) == [line] + SplitLines(rest)
  {
    hide FirstBreak;
    var s := line + "\n" + rest;
    assert s == line + ("\n" + rest);
    FirstBreakAfter(line, "\n" + rest);
    assert s[..|line|] == line && s[|line| + 1..] == rest;
  }

  lemma {:induction false} FirstEqualsAfter(name: string, tail: string)
    requires '=' !in name && tail != "" && tail[0] == '='
    ensures FirstEquals(name + tail) == |name|
  {
    if name == "" {
      assert name + tail == tail;
    } else {
      assert (name + tail)[1..] == name[1..] + tail;
      FirstEqualsAfter(name[1..], tail);
    }
  }

  lemma FieldOfPair(name: string, value: string)
    requires '=' !in name
    ensures FieldOf(name + "=" + value) == Some((name, value))
  {
    var line := name + "=" + value;
    FirstEqualsAfter(name, "=" + value);
    assert line == name + ("=" + value);
    assert line[..|name|] == name && line[|name| + 1..] == value;
  }

  /** The lines of a report no value of which holds a line break. */
  lemma {:induction false} ReportLines(problems: Problems, requested: seq<string>)
    requires forall i :: 0 <= i < |requested| ==> NoBreaks(requested[i]) && NoBreaks(ValueOf(problems, requested[i]))
    ensures var lines := SplitLines(Report(problems, requested));
      |lines| == |requested| && forall i :: 0 <= i < |lines| ==>
        lines[i] == requested[i] + "=" + ValueOf(problems, requested[i])
  {
    hide ValueOf, SplitLines;
    if requested == [] {
      assert SplitLines("") == [] by { NoLines(); }
    } else {
      ReportLines(problems, requested[1..]);
      SplitLineOff(requested[0] + "=" + ValueOf(problems, requested[0]), Report(problems, requested[1..]));
    }
  }

  lemma NoLines()
    ensures SplitLines("") == []
  {
  }

  lemma RequestedPlain(network: bool, readonly: bool)
    ensures forall i :: 0 <= i < |Requested(network, readonly)| ==> NoBreaks(Requested(network, readonly)[i])
    ensures '=' !in Network() && '=' !in ReadOnly() && Network() != ReadOnly()
  {
    LabelsDiffer();
    assert NoBreaks(Network()) && NoBreaks(ReadOnly());
  }

  lemma OneReported(line: string)
    ensures Reported([line]) == match FieldOf(line) case Some((name, value)) => map[name := value] case None => map[]
  {
    assert [line][..0] == [];
  }

  /** What is reported is what was written, where no value holds a line break. */
  lemma ReportReads(problems: Problems, network: bool, readonly: bool)
    requires forall l :: l in Requested(network, readonly) ==> NoBreaks(ValueOf(problems, l))
    ensures var reported := Reported(SplitLines(Report(problems, Requested(network, readonly))));
      forall l :: l in Requested(network, readonly) ==> l in reported && reported[l] == ValueOf(problems, l)
  {
    hide ValueOf, SplitLines, FieldOf, NoBreaks, Network, ReadOnly, Report;
    var requested := Requested(network, readonly);
    RequestedPlain(network, readonly);
    forall i | 0 <= i < |requested|
      ensures NoBreaks(ValueOf(problems, requested[i]))
    {
      assert requested[i] in requested;
    }
    ReportLines(problems, requested);
    var lines := SplitLines(Report(problems, requested));
    FieldOfPair(Network(), ValueOf(problems, Network()));
    FieldOfPair(ReadOnly(), ValueOf(problems, ReadOnly()));
    if |requested| == 2 {
      OneReported(lines[0]);
      assert lines[..1] == [lines[0]];
    } else if |requested| == 1 {
      OneReported(lines[0]);
      assert lines == [lines[0]];
    }
  }

  lemma {:induction false} ReasonNames(problems: Problems, name: string)
    ensures ReasonOf(problems, name).Some? <==> exists i :: 0 <= i < |problems| && problems[i].0 == name
    ensures ReasonOf(problems, name).Some? ==>
      exists i :: 0 <= i < |problems| && problems[i].0 == name
        && ReasonOf(problems, name).value == Spaced(problems[i].1)
  {
    if problems != [] {
      var n := |problems| - 1;
      ReasonNames(problems[..n], name);
      assert forall i :: 0 <= i < n ==> problems[..n][i] == problems[i];
      assert problems[n].0 == name ==> ReasonOf(problems, name).value == Spaced(problems[n].1);
    }
  }

  /** An error text the report carries whole and never as a success: no break but line feeds, and not `ok` itself. */
  predicate Carried(text: string) {
    NoBreaks(Spaced(text)) && text != "ok"
  }

  lemma SpacedNotOk(text: string)
    ensures Spaced(text) == "ok" ==> text == "ok"
  {
    if Spaced(text) == "ok" {
      assert |text| == 2 && text[0] == 'o' && text[1] == 'k';
    }
  }

  /** Failed guarantees, and only they, are listed; the texts are the problems' own. */
  lemma ReportHonest(problems: Problems, failed: set<string>, network: bool, readonly: bool)
    requires Named(problems, failed) && forall i :: 0 <= i < |problems| ==> Carried(problems[i].1)
    ensures var failures := Failures(Encode(Report(problems, Requested(network, readonly))), network, readonly);
      forall l :: l in Requested(network, readonly) ==> (Lists(failures, l) <==> l in failed)
  {
    hide SplitLines, FieldOf, DecodeWith, Encode, Spaced, NoBreaks, Report, Network, ReadOnly;
    var requested := Requested(network, readonly);
    var text := Report(problems, requested);
    RequestedPlain(network, readonly);
    DecodeOfEncode(text);
    DecodedText(text);
    assert NoBreaks("ok") by { OkPlain(); }
    forall l | l in requested
      ensures NoBreaks(ValueOf(problems, l)) && (ValueOf(problems, l) != "ok" <==> l in failed)
    {
      ReasonNames(problems, l);
      if ReasonOf(problems, l).Some? {
        var i :| 0 <= i < |problems| && problems[i].0 == l && ReasonOf(problems, l).value == Spaced(problems[i].1);
        assert Carried(problems[i].1);
        SpacedNotOk(problems[i].1);
      }
    }
    ReportReads(problems, network, readonly);
    VerdictsList(Reported(SplitLines(text)), network, readonly);
  }

  lemma OkPlain()
    ensures NoBreaks("ok")
  {
  }

  lemma DecodedText(text: string)
    ensures DecodeWith(Encode(text), Replace) == text
  {
    DecodeOfEncode(text);
    HandlerIrrelevant(Encode(text), Replace, Replace);
  }

  lemma VerdictsList(reported: map<string, string>, network: bool, readonly: bool)
    ensures var failures :=
      (if network then Verdict(reported, Network()) else []) + if readonly then Verdict(reported, ReadOnly()) else [];
      forall l :: l in Requested(network, readonly) ==>
        (Lists(failures, l) <==> !(l in reported && reported[l] == "ok"))
  {
    LabelsDiffer();
    hide Network, ReadOnly, Absent;
    var failures := (if network then Verdict(reported, Network()) else [])
      + if readonly then Verdict(reported, ReadOnly()) else [];
    forall l | l in Requested(network, readonly)
      ensures Lists(failures, l) <==> !(l in reported && reported[l] == "ok")
    {
      if !(l in reported && reported[l] == "ok") {
        var i := if network && l == ReadOnly() then |Verdict(reported, Network())| else 0;
        assert failures[i].0 == l;
      }
    }
  }

  /** A report that never arrived vouches for nothing. */
  lemma AbsentVouchesNothing(network: bool, readonly: bool)
    ensures forall l :: l in Requested(network, readonly) ==> Lists(Failures([], network, readonly), l)
  {
    hide Network, ReadOnly, Absent;
    assert DecodeWith([], Replace) == "" && SplitLines("") == [];
    VerdictsList(map[], network, readonly);
  }

  lemma PrefixPlain()
    ensures NoBreaks(DropPrefix()) && |DropPrefix()| > 2
  {
  }

  lemma DropCarried(step: string, detail: string)
    requires NoBreaks(step) && Carried(detail)
    ensures Carried(DropPrefix() + step + detail)
  {
    PrefixPlain();
    hide DropPrefix;
    var head := DropPrefix() + step;
    var text := head + detail;
    forall i | 0 <= i < |text|
      ensures !IsBreak(Spaced(text)[i])
    {
      if i < |head| {
        assert !IsBreak(head[i]) by { assert i < |DropPrefix()| ==> head[i] == DropPrefix()[i];
          assert i >= |DropPrefix()| ==> head[i] == step[i - |DropPrefix()|]; }
      } else {
        assert !IsBreak(Spaced(detail)[i - |head|]);
      }
    }
  }

  /** The texts of a setup's problems are carried, where the system's own are. */
  lemma AnswersCarried(answer: nat -> Outcome, text: string)
    requires FromAnswer(answer, text) && forall k: nat :: !answer(k).Done? ==> Carried(answer(k).detail)
    ensures Carried(text)
  {
    hide Carried, NoBreaks, DropPrefix;
    var k: nat :| !answer(k).Done? && (text == answer(k).detail || Drops(text, answer(k).detail));
    if text != answer(k).detail {
      var step :| NoBreaks(step) && text == DropPrefix() + step + answer(k).detail;
      DropCarried(step, answer(k).detail);
    }
  }

  /**
   Main result: a stage's setup from its first call to the parent's reading, for every answer to every call. A guarantee
   the parent does not list as failed really holds; one it does list was named failed, or no report arrived.
   */
  method RunSetup(answer: nat -> Outcome, lastCap: nat, network: bool, readonly: bool, written: bool)
    returns (child: Child, failures: seq<(string, string)>)
    requires network || readonly
    requires forall k: nat :: !answer(k).Done? ==> Carried(answer(k).detail)
    ensures forall l :: l in Requested(network, readonly) && !Lists(failures, l) ==> child.Enforced(l)
    ensures written ==> forall l :: l in Requested(network, readonly) ==> (Lists(failures, l) <==> l in child.failed)
    ensures !written ==> forall l :: l in Requested(network, readonly) ==> Lists(failures, l)
  {
    hide Report, Failures, Lists, Named, FromAnswer, Carried, Network, ReadOnly;
    child := new Child(answer, lastCap);
    child.Setup(network, readonly);
    var report := if written then Encode(Report(child.problems, Requested(network, readonly))) else [];
    failures := ParseSetupReport(report, network, readonly);
    forall i | 0 <= i < |child.problems|
      ensures Carried(child.problems[i].1)
    {
      AnswersCarried(answer, child.problems[i].1);
    }
    ReportHonest(child.problems, child.failed, network, readonly);
    AbsentVouchesNothing(network, readonly);
  }

  // --- why the texts matter ---

  /** What of a value stands before its first line break. */
  function FirstLine(value: string): string {
    value[..FirstBreak(value)]
  }

  lemma {:induction false} FirstBreakOf(head: string, value: string, rest: string)
    requires NoBreaks(head)
    ensures FirstBreak(head + value + ("\n" + rest)) == |head| + FirstBreak(value)
    decreases |head|, |value|
  {
    var s := head + value + ("\n" + rest);
    if head != "" {
      assert s[1..] == head[1..] + value + ("\n" + rest);
      FirstBreakOf(head[1..], value, rest);
    } else if value != "" && !IsBreak(value[0]) {
      assert s[1..] == "" + value[1..] + ("\n" + rest);
      FirstBreakOf("", value[1..], rest);
    } else if value != "" {
      assert s[0] == value[0];
    } else {
      assert s[0] == '\n';
    }
  }

  /** What of a value follows its first line, in the report. */
  function AfterFirst(value: string): string {
    var s := value + "\n";
    var k := FirstBreak(s);
    if k == |s| then "" else s[NextLine(s, k)..]
  }

  /** A field of that label that a value holds on a line after its first. */
  function Smuggled(value: string, name: string): Option<string> {
    var fields := Reported(SplitLines(AfterFirst(value)));
    if name in fields then Some(fields[name]) else None
  }

  /** What the parent reads for a guarantee: an earlier value's field of its label before its own line. */
  function ReadValue(problems: Problems, network: bool, name: string): string {
    var own := FirstLine(ValueOf(problems, name));
    if name == Network() || !network then own
    else match Smuggled(ValueOf(problems, Network()), name) case Some(value) => value case None => own
  }

  lemma BreakBefore(u: string, rest: string)
    requires u != "" && u[|u| - 1] == '\n'
    ensures FirstBreak(u + rest) == FirstBreak(u) < |u|
    decreases |u|
  {
    if !IsBreak(u[0]) {
      assert (u + rest)[1..] == u[1..] + rest;
      BreakBefore(u[1..], rest);
    }
  }

  /** A text cut after a line feed splits into the two parts' lines. */
  lemma {:induction false} SplitAfterFeed(u: string, rest: string)
    requires u != "" ==> u[|u| - 1] == '\n'
    ensures SplitLines(u + rest) == SplitLines(u) + SplitLines(rest)
    decreases |u|
  {
    hide FirstBreak, IsBreak, SplitLines;
    if u == "" {
      assert u + rest == rest;
      NoLines();
    } else {
      BreakBefore(u, rest);
      var k := FirstBreak(u);
      var n := NextLine(u, k);
      assert NextLine(u + rest, k) == n;
      assert (u + rest)[..k] == u[..k] && (u + rest)[n..] == u[n..] + rest;
      SplitFirst(u);
      SplitFirst(u + rest);
      SplitAfterFeed(u[n..], rest);
    }
  }

  lemma SplitFirst(s: string)
    requires FirstBreak(s) < |s|
    ensures var k := FirstBreak(s); SplitLines(s) == [s[..k]] + SplitLines(s[NextLine(s, k)..])
  {
    hide FirstBreak;
  }

  lemma {:induction false} ReportedAppend(a: seq<string>, b: seq<string>)
    ensures Reported(a + b) == Reported(b) + Reported(a)
    decreases |b|
  {
    hide FieldOf;
    if b == [] {
      assert a + b == a;
    } else {
      var n := |b| - 1;
      assert (a + b)[..|a + b| - 1] == a + b[..n];
      ReportedAppend(a, b[..n]);
    }
  }

  /** The lines one guarantee's value makes. */
  lemma OwnLines(head: string, value: string)
    requires NoBreaks(head)
    ensures SplitLines(head + value + "\n") == [head + FirstLine(value)] + SplitLines(AfterFirst(value))
  {
    hide FirstBreak, SplitLines, NoBreaks, NextLine;
    var s := head + value + "\n";
    var after := value + "\n";
    OwnBreaks(head, value);
    var k := FirstBreak(after);
    assert after[..k] == value[..k];
    assert s == head + after;
    AfterHead(head, after, k);
    SplitFirst(s);
  }

  lemma OwnBreaks(head: string, value: string)
    requires NoBreaks(head)
    ensures FirstBreak(value + "\n") == FirstBreak(value) <= |value|
    ensures FirstBreak(head + value + "\n") == |head| + FirstBreak(value)
  {
    hide FirstBreak;
    FirstBreakOf(head, value, "");
    FirstBreakOf("", value, "");
    assert head + value + "\n" == head + value + ("\n" + "") && value + "\n" == "" + value + ("\n" + "");
  }

  /** A break and what follows it, behind a head. */
  lemma AfterHead(head: string, after: string, k: nat)
    requires k < |after|
    ensures var s := head + after;
      && s[..|head| + k] == head + after[..k]
      && s[NextLine(s, |head| + k)..] == after[NextLine(after, k)..]
  {
    var s := head + after;
    assert forall i :: 0 <= i < |after| ==> s[|head| + i] == after[i];
    var n := NextLine(after, k);
    assert NextLine(s, |head| + k) == |head| + n;
  }

  lemma OwnFields(name: string, value: string)
    requires NoBreaks(name) && '=' !in name
    ensures Reported(SplitLines(name + "=" + value + "\n"))
      == Reported(SplitLines(AfterFirst(value))) + map[name := FirstLine(value)]
  {
    hide FieldOf, SplitLines, FirstLine, AfterFirst;
    HeadPlain(name);
    OwnLines(name + "=", value);
    var line := name + "=" + FirstLine(value);
    ReportedAppend([line], SplitLines(AfterFirst(value)));
    OneReported(line);
    FieldOfPair(name, FirstLine(value));
  }

  lemma HeadPlain(name: string)
    requires NoBreaks(name)
    ensures NoBreaks(name + "=")
  {
  }

  /** The first guarantee's lines, then the second's. */
  lemma ReportFields(problems: Problems, network: bool, readonly: bool, name: string)
    requires name in Requested(network, readonly)
    ensures var reported := Reported(SplitLines(Report(problems, Requested(network, readonly))));
      name in reported && reported[name] == ReadValue(problems, network, name)
  {
    hide FieldOf, SplitLines, FirstLine, AfterFirst, ValueOf, Network, ReadOnly, NoBreaks;
    RequestedPlain(network, readonly);
    LabelsPlain();
    var n, r := ValueOf(problems, Network()), ValueOf(problems, ReadOnly());
    var first, second := Network() + "=" + n + "\n", ReadOnly() + "=" + r + "\n";
    OwnFields(Network(), n);
    OwnFields(ReadOnly(), r);
    assert first + "" == first && second + "" == second;
    if network && readonly {
      assert Report(problems, Requested(network, readonly)) == first + second by { BothLines(problems); }
      SplitAfterFeed(first, second);
      ReportedAppend(SplitLines(first), SplitLines(second));
    } else {
      assert Report(problems, Requested(network, readonly))
        == if network then first else second by { OneLine(problems, network); }
    }
  }

  lemma LabelsPlain()
    ensures NoBreaks(Network()) && NoBreaks(ReadOnly())
  {
  }

  lemma BothLines(problems: Problems)
    ensures Report(problems, [Network(), ReadOnly()])
      == Network() + "=" + ValueOf(problems, Network()) + "\n"
        + (ReadOnly() + "=" + ValueOf(problems, ReadOnly()) + "\n")
    ensures Requested(true, true) == [Network(), ReadOnly()]
  {
    hide ValueOf, Network, ReadOnly;
    var requested := [Network(), ReadOnly()];
    assert requested[1..] == [ReadOnly()] && requested[1..][1..] == [];
    assert Report(problems, []) == "";
    var second := ReadOnly() + "=" + ValueOf(problems, ReadOnly()) + "\n";
    assert Report(problems, [ReadOnly()]) == second + "";
  }

  lemma OneLine(problems: Problems, network: bool)
    ensures var name := if network then Network() else ReadOnly();
      Report(problems, Requested(network, !network)) == name + "=" + ValueOf(problems, name) + "\n"
  {
    hide ValueOf, Network, ReadOnly;
    var name := if network then Network() else ReadOnly();
    assert Requested(network, !network) == [name] && [name][1..] == [];
    assert Report(problems, []) == "";
    var line := name + "=" + ValueOf(problems, name) + "\n";
    assert line + "" == line;
  }

  /**
   Whatever the texts and whichever guarantees are asked for, each is listed exactly when what is read for it is not
   `ok`: its value's first line, unless the network's value holds, on a later line, a field of the other's label.
   */
  lemma ListedExactly(problems: Problems, network: bool, readonly: bool, name: string)
    requires name in Requested(network, readonly)
    ensures Lists(Failures(Encode(Report(problems, Requested(network, readonly))), network, readonly), name)
      <==> ReadValue(problems, network, name) != "ok"
  {
    hide FieldOf, DecodeWith, Encode, ReadValue, Network, ReadOnly, SplitLines, Report;
    var text := Report(problems, Requested(network, readonly));
    ReportFields(problems, network, readonly, name);
    DecodedText(text);
    VerdictsList(Reported(SplitLines(text)), network, readonly);
  }

  /** Every call refused with the text `ok`: nothing is made, every guarantee is named failed, and none is listed. */
  method OkTextForges(lastCap: nat, network: bool, readonly: bool)
    returns (child: Child, failures: seq<(string, string)>)
    requires network || readonly
    ensures forall k: nat :: child.answer(k) == OsError("ok")
    ensures forall l :: l in Requested(network, readonly) ==>
      l in child.failed && !child.Enforced(l) && !Lists(failures, l)
  {
    hide Report, Failures, Named, Network, ReadOnly, Requested, ReadValue, Texts;
    child := new Child((k: nat) => OsError("ok"), lastCap);
    child.Setup(network, readonly);
    failures := ParseSetupReport(Encode(Report(child.problems, Requested(network, readonly))), network, readonly);
    forall i | 0 <= i < |child.problems|
      ensures child.problems[i].1 == "ok"
    {
    }
    forall l | l in Requested(network, readonly)
      ensures l in child.failed && !Lists(failures, l)
    {
      ListedExactly(child.problems, network, readonly, l);
      OkReads(child.problems, network, l);
    }
  }

  lemma OkValue(problems: Problems, name: string)
    requires forall i :: 0 <= i < |problems| ==> problems[i].1 == "ok"
    ensures ValueOf(problems, name) == "ok"
  {
    hide Spaced;
    SpacedOk();
    ReasonNames(problems, name);
  }

  lemma OkReads(problems: Problems, network: bool, name: string)
    requires forall i :: 0 <= i < |problems| ==> problems[i].1 == "ok"
    ensures ReadValue(problems, network, name) == "ok"
  {
    OkValue(problems, name);
    OkValue(problems, Network());
    hide ValueOf, Network;
    OkLines();
  }

  lemma OkLines()
    ensures FirstLine("ok") == "ok" && SplitLines(AfterFirst("ok")) == [] && Reported([]) == map[]
  {
    assert "ok"[1..] == "k" && "k"[1..] == "" && FirstBreak("") == 0 && FirstBreak("k") == 1 && FirstBreak("ok") == 2;
    var s := "ok" + "\n";
    assert s[1..][1..] == "\n" && FirstBreak("\n") == 0 && FirstBreak(s[1..]) == 1 && FirstBreak(s) == 2;
    assert NextLine(s, 2) == 3 && s[3..] == "";
  }

  lemma SpacedOk()
    ensures Spaced("ok") == "ok"
  {
    assert Spaced("k") == "k";
  }
}
