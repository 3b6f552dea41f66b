/** Runs of pairs: string values written under their keys, the lines they make and the leaves they add to a table. */
module TomlFields {
  import opened Text
  import opened TomlValues
  import opened TomlLex
  import opened TomlDoc
  import opened SwitchText
  import opened TomlShapes
  import opened TomlLines

  lemma StringValue(value: string)
    ensures ReadValue(TomlString(value)) == Some((Str(value), ""))
  {
    hide ReadBasic;
    var s := TomlString(value);
    ReadOfEscaped(value, "");
    assert s[1..] == Escape(value) + ("\"" + "");
    if StartsWith(s, "\"\"\"") {
      assert s[1] == '"' && s[2] == '"';
    }
    NotTripled(value);
  }

  lemma NotTripled(value: string)
    ensures !StartsWith(TomlString(value), "\"\"\"")
  {
    var s := TomlString(value);
    if value != [] {
      assert s[1] == EscapeChar(value[0])[0];
    }
  }

  /** A pair whose key is spelled in a way the parser reads as `key`. */
  lemma SpeltPairReads(spelt: string, key: string, value: string)
    requires spelt != [] && !IsSpace(spelt[0]) && spelt[0] != '[' && spelt[0] != '#'
    requires ReadKey(spelt + (" = " + TomlString(value))) == Some((key, " = " + TomlString(value)))
    ensures LexLine(spelt + " = " + TomlString(value)) == Some(Assign(key, Str(value)))
  {
    hide ReadKey, ReadValue, TomlString;
    var line := spelt + " = " + TomlString(value);
    var rest := " = " + TomlString(value);
    assert line == spelt + rest;
    assert line[0] == spelt[0] && SkipSpace(line) == line;
    assert rest[1..] == "= " + TomlString(value) && SkipSpace(rest) == rest[1..];
    assert rest[1..][1..] == " " + TomlString(value);
    assert (" " + TomlString(value))[1..] == TomlString(value);
    QuoteOpens(value);
    assert SkipSpace(TomlString(value)) == TomlString(value);
    StringValue(value);
  }

  lemma PairReads(key: string, value: string)
    requires IsBareName(key)
    ensures LexLine(key + " = " + TomlString(value)) == Some(Assign(key, Str(value)))
  {
    hide ReadKey, ReadValue, TomlString, LexLine;
    assert IsBare(key[0]);
    BareKey(key, " = " + TomlString(value));
    SpeltPairReads(key, key, value);
  }

  lemma QuotedPairReads(key: string, value: string)
    ensures LexLine(TomlString(key) + " = " + TomlString(value)) == Some(Assign(key, Str(value)))
  {
    hide ReadKey, ReadValue, TomlString, LexLine;
    QuoteOpens(key);
    QuotedKey(key, " = " + TomlString(value));
    SpeltPairReads(TomlString(key), key, value);
  }

  lemma QuoteOpens(value: string)
    ensures TomlString(value) != [] && TomlString(value)[0] == '"'
  {
  }

  /** A line of the grammar with its line ending's carriage return, or without. */
  lemma Suffixed(line: string, suffix: string)
    requires LexLine(line).Some? && suffix in {"", "\r"}
    ensures Inner(line + suffix) == LexLine(line) && '\n' !in line + suffix
    ensures EndsWith(line + suffix, "\r") <==> suffix == "\r"
  {
    hide LexLine;
    LexClean(line);
    NoCrStrips(line);
    assert forall i :: 0 <= i < |line| ==> line[i] != '\n' && line[i] != '\r' by {
      assert forall i :: 0 <= i < |line| ==> !IsControl(line[i]);
    }
    if suffix == "" {
      assert line + suffix == line;
    } else {
      assert (line + suffix)[..|line + suffix| - 1] == line;
      assert (line + suffix)[|line + suffix| - 1..] == "\r";
    }
  }

  /** The written fields of a table: keys and string values. */
  type Fields = seq<(string, string)>

  predicate Distinct(fields: Fields) {
    forall i, j :: 0 <= i < j < |fields| ==> fields[i].0 != fields[j].0
  }

  predicate WellKeyed(fields: Fields) {
    (forall i :: 0 <= i < |fields| ==> IsBareName(fields[i].0)) && Distinct(fields)
  }

  function FieldLines(fields: Fields): (out: seq<string>)
    ensures |out| == |fields|
    ensures forall i :: 0 <= i < |out| ==> out[i] == fields[i].0 + " = " + TomlString(fields[i].1)
  {
    if fields == [] then [] else [fields[0].0 + " = " + TomlString(fields[0].1)] + FieldLines(fields[1..])
  }

  function FieldLeaves(path: Path, fields: Fields): map<Path, Value> {
    if fields == [] then map[]
      else FieldLeaves(path, fields[..|fields| - 1])[path + [fields[|fields| - 1].0] := Str(fields[|fields| - 1].1)]
  }

  function Assigns(fields: Fields): (out: seq<Option<Line>>)
    ensures |out| == |fields| && forall i :: 0 <= i < |out| ==> out[i] == Some(Assign(fields[i].0, Str(fields[i].1)))
  {
    if fields == [] then [] else [Some(Assign(fields[0].0, Str(fields[0].1)))] + Assigns(fields[1..])
  }

  lemma {:induction false} FieldsInner(fields: Fields, suffix: string)
    requires WellKeyed(fields) && suffix in {"", "\r"}
    ensures InnerAll(WithEnding(FieldLines(fields), suffix)) == Assigns(fields)
    ensures forall i :: 0 <= i < |fields| ==> '\n' !in WithEnding(FieldLines(fields), suffix)[i]
  {
    hide LexLine, Inner, TomlString, IsBareName;
    forall i | 0 <= i < |fields|
      ensures InnerAll(WithEnding(FieldLines(fields), suffix))[i] == Assigns(fields)[i]
      ensures '\n' !in WithEnding(FieldLines(fields), suffix)[i]
    {
      PairReads(fields[i].0, fields[i].1);
      Suffixed(fields[i].0 + " = " + TomlString(fields[i].1), suffix);
    }
  }

  lemma {:induction false} FieldKeys(path: Path, fields: Fields)
    ensures forall p :: p in FieldLeaves(path, fields) <==> exists i :: 0 <= i < |fields| && p == path + [fields[i].0]
  {
    if fields != [] {
      var init := fields[..|fields| - 1];
      FieldKeys(path, init);
      forall p
        ensures p in FieldLeaves(path, fields) <==> exists i :: 0 <= i < |fields| && p == path + [fields[i].0]
      {
        if p in FieldLeaves(path, init) {
          var i :| 0 <= i < |init| && p == path + [init[i].0];
          assert fields[i] == init[i];
        }
        if i :| 0 <= i < |fields| && p == path + [fields[i].0] {
          assert i < |init| ==> p == path + [init[i].0];
        }
      }
    }
  }

  lemma KeysApart(path: Path, a: string, b: string)
    ensures path + [a] == path + [b] ==> a == b
  {
    assert (path + [a])[|path|] == a && (path + [b])[|path|] == b;
  }

  lemma LastField(st: St, fields: Fields, key: string, value: string)
    requires (forall i :: 0 <= i < |fields| ==> fields[i].0 != key) && st.cur + [key] !in Nodes(st.doc)
    ensures var p := st.cur + [key];
      var mid := St(Doc(st.doc.leaves + FieldLeaves(st.cur, fields), st.doc.tables), st.cur, st.defined);
      StepLine(mid, Assign(key, Str(value)))
      == Some(St(Doc(st.doc.leaves + FieldLeaves(st.cur, fields)[p := Str(value)], st.doc.tables), st.cur, st.defined))
  {
    hide FieldLeaves;
    var p := st.cur + [key];
    FieldKeys(st.cur, fields);
    forall i | 0 <= i < |fields|
      ensures p != st.cur + [fields[i].0]
    {
      KeysApart(st.cur, key, fields[i].0);
    }
    assert (st.doc.leaves + FieldLeaves(st.cur, fields))[p := Str(value)]
      == st.doc.leaves + FieldLeaves(st.cur, fields)[p := Str(value)];
  }

  lemma FieldLeavesSplit(path: Path, fields: Fields)
    requires fields != []
    ensures FieldLeaves(path, fields)
      == FieldLeaves(path, fields[..|fields| - 1])[path + [fields[|fields| - 1].0] := Str(fields[|fields| - 1].1)]
  {
  }

  lemma NoLinesRun(st: St, fields: Fields)
    requires fields == []
    ensures Run(st, []) == Some(St(Doc(st.doc.leaves + FieldLeaves(st.cur, fields), st.doc.tables), st.cur, st.defined))
  {
    assert st.doc.leaves + map[] == st.doc.leaves;
  }

  /** A table none of whose keys is yet a node takes the fields. */
  lemma {:induction false} FieldsRun(st: St, fields: Fields)
    requires Distinct(fields) && forall i :: 0 <= i < |fields| ==> st.cur + [fields[i].0] !in Nodes(st.doc)
    ensures Run(st, Assigns(fields))
      == Some(St(Doc(st.doc.leaves + FieldLeaves(st.cur, fields), st.doc.tables), st.cur, st.defined))
    decreases |fields|
  {
    hide IsBareName, StepLine, Nodes, Run, FieldLeaves;
    if fields == [] {
      NoLinesRun(st, fields);
    } else {
      var n := |fields| - 1;
      var init := fields[..n];
      var last := Assign(fields[n].0, Str(fields[n].1));
      FieldsRun(st, init);
      assert Assigns(fields) == Assigns(init) + [Some(last)];
      RunAppend(st, Assigns(init), [Some(last)]);
      RunOne(Run(st, Assigns(init)).value, last);
      LastField(st, init, fields[n].0, fields[n].1);
      FieldLeavesSplit(st.cur, fields);
    }
  }
}
