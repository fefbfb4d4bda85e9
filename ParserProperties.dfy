/**
 * What the example reader guarantees about its result, and its quirks stated
 * as theorems: the shape of every parsed section, where a section ends, which
 * lines the reader looks at, and the line it skips after every nested block.
 */
module ParserProperties {
  import opened Text
  import opened Dicts
  import opened ExampleParser

  /** A key an assignment line can produce. */
  predicate ScalarKey(k: string) {
    IsStripped(k) && '=' !in k && '\n' !in k && !StartsWith(k, "under")
  }

  /** A value an assignment line can produce: no newline, no leading
      whitespace, no trailing semicolon. */
  predicate ScalarText(v: string) {
    '\n' !in v && (v == [] || (!IsSpace(v[0]) && v[|v| - 1] != ';'))
  }

  /** What a line of the text, once read, can be. */
  predicate LineOk(l: Line) {
    match l
    case Header(name) => IsWord(name)
    case Assign(k, v) => ScalarKey(k) && ScalarText(v)
    case _ => true
  }

  predicate AllLinesOk(lines: seq<Line>) {
    forall k :: 0 <= k < |lines| ==> LineOk(lines[k])
  }

  /** One entry of a parsed section: text under an assignment key, or a
      nested section under `under NAME`. */
  predicate SectionEntryOk(e: (string, Value)) {
    match e.1
    case Str(t) => ScalarKey(e.0) && ScalarText(t)
    case Dict(_) => StartsWith(e.0, "under ") && IsWord(e.0[6..])
  }

  /** A parsed section, all the way down. */
  predicate WellFormed(v: Value) {
    match v
    case Str(_) => true
    case Dict(es) =>
      DistinctKeys(es) && forall i :: 0 <= i < |es| ==> SectionEntryOk(es[i]) && WellFormed(es[i].1)
  }

  /** One entry of the parsed document: a section under its bare name. */
  predicate TopEntryOk(e: (string, Value)) {
    IsWord(e.0) && e.1.Dict? && WellFormed(e.1)
  }

  /** The key of an assignment is a prefix of the stripped line. */
  lemma AssignmentKeyPrefix(line: string)
    requires IsStripped(line) && '=' in line
    ensures StartsWith(line, Assignment(line).0)
  {
    var parts := SplitAtFirst(line, '=');
    assert StartsWith(line, parts.0) by {
      assert line == parts.0 + ([ '=' ] + parts.1);
    }
    assert parts.0 == [] || !IsSpace(parts.0[0]) by {
      if parts.0 != [] {
        assert line[0] == parts.0[0];
      }
    }
    StripUnpadded(parts.0);
    StartsWithTrans(line, parts.0, Strip(parts.0));
  }

  /** Every line of the text reads as a `LineOk` line. In particular a line
      starting with `under` is never taken for an assignment, so an
      assignment key never starts with `under`. */
  lemma ReadLineOk(raw: string)
    requires '\n' !in raw
    ensures LineOk(ReadLine(raw))
  {
    var line := Strip(raw);
    if StartsWith(line, "under") {
      if MatchHeader(line).Some? {
        var name := MatchHeader(line).value;
        var _, _, _ := MatchHeaderSound(line, name);
        ReadsAsHeader(raw, name);
      }
    } else if !EndsWith(line, "}") && '=' in line {
      AssignmentLineOk(raw);
    }
  }

  /** The assignment branch of `ReadLineOk`. */
  lemma AssignmentLineOk(raw: string)
    requires '\n' !in raw
    requires !StartsWith(Strip(raw), "under") && !EndsWith(Strip(raw), "}") && '=' in Strip(raw)
    ensures LineOk(ReadLine(raw))
  {
    var line := Strip(raw);
    var kv := Assignment(line);
    StripAvoids(raw, '\n');
    AssignmentAvoids(line, '\n');
    AssignmentKeyPrefix(line);
    assert !StartsWith(kv.0, "under") by {
      if StartsWith(kv.0, "under") {
        StartsWithTrans(line, kv.0, "under");
      }
    }
    ReadsAsAssignment(raw, kv.0, kv.1);
  }

  lemma ReadLinesOk(raw: seq<string>)
    requires forall k :: 0 <= k < |raw| ==> '\n' !in raw[k]
    ensures AllLinesOk(ReadLines(raw))
  {
    forall k | 0 <= k < |raw| {
      ReadLineOk(raw[k]);
    }
  }

  /** `section[k] = v` keeps a section well formed. */
  lemma PutWellFormed(es: seq<(string, Value)>, k: string, v: Value)
    requires WellFormed(Dict(es)) && SectionEntryOk((k, v)) && WellFormed(v)
    ensures WellFormed(Dict(Put(es, k, v)))
  {
    PutDistinct(es, k, v);
    PutEntries(es, k, v);
    var r := Put(es, k, v);
    forall i | 0 <= i < |r|
      ensures SectionEntryOk(r[i]) && WellFormed(r[i].1)
    {
      if r[i] != (k, v) {
        var j :| 0 <= j < |es| && es[j] == r[i];
      }
    }
  }

  /** Every section the reader returns is well formed: keys distinct, an
      assignment key holds text, a nested section is keyed `under NAME`. */
  lemma {:induction false} SectionWellFormed(lines: seq<Line>, i: nat, acc: Entries)
    requires AllLinesOk(lines) && WellFormed(Dict(acc))
    ensures WellFormed(Dict(Section(lines, i, acc).0))
    decreases |lines| - i
  {
    if i < |lines| {
      assert LineOk(lines[i]);
      match lines[i]
      case Header(name) =>
        var sub := Section(lines, i + 1, []);
        SectionWellFormed(lines, i + 1, []);
        var key := "under " + name;
        assert key[6..] == name && key[..6] == "under ";
        PutWellFormed(acc, key, Dict(sub.0));
        SectionWellFormed(lines, sub.1 + 1, Put(acc, key, Dict(sub.0)));
      case Closer =>
      case Assign(k, v) =>
        PutWellFormed(acc, k, Str(v));
        SectionWellFormed(lines, i + 1, Put(acc, k, Str(v)));
      case Ignored =>
        SectionWellFormed(lines, i + 1, acc);
    }
  }

  /** The top level holds only sections, each under the bare name of a
      header line of the text; keys are distinct. */
  lemma {:induction false} DocumentWellFormed(lines: seq<Line>, i: nat, structure: Entries)
    requires AllLinesOk(lines) && DistinctKeys(structure)
    requires forall e :: 0 <= e < |structure| ==> TopEntryOk(structure[e])
    requires forall e :: 0 <= e < |structure| ==> Header(structure[e].0) in lines
    ensures var r := Document(lines, i, structure);
      DistinctKeys(r)
      && (forall e :: 0 <= e < |r| ==> TopEntryOk(r[e]))
      && (forall e :: 0 <= e < |r| ==> Header(r[e].0) in lines)
    decreases |lines| - i
  {
    if i < |lines| {
      match lines[i]
      case Header(name) =>
        assert LineOk(lines[i]);
        var sub := Section(lines, i + 1, []);
        SectionWellFormed(lines, i + 1, []);
        TopPut(lines, structure, name, sub.0);
        DocumentWellFormed(lines, sub.1 + 1, Put(structure, name, Dict(sub.0)));
      case _ =>
        DocumentWellFormed(lines, i + 1, structure);
    }
  }

  /** Recording a section read under a header of the text keeps the top
      level as `DocumentWellFormed` describes it. */
  lemma TopPut(lines: seq<Line>, structure: Entries, name: string, section: Entries)
    requires DistinctKeys(structure) && IsWord(name) && Header(name) in lines
    requires WellFormed(Dict(section))
    requires forall e :: 0 <= e < |structure| ==> TopEntryOk(structure[e])
    requires forall e :: 0 <= e < |structure| ==> Header(structure[e].0) in lines
    ensures var s := Put(structure, name, Dict(section));
      DistinctKeys(s)
      && (forall e :: 0 <= e < |s| ==> TopEntryOk(s[e]))
      && (forall e :: 0 <= e < |s| ==> Header(s[e].0) in lines)
  {
    var s := Put(structure, name, Dict(section));
    PutDistinct(structure, name, Dict(section));
    PutEntries(structure, name, Dict(section));
    forall e | 0 <= e < |s|
      ensures TopEntryOk(s[e]) && Header(s[e].0) in lines
    {
      if s[e] != (name, Dict(section)) {
        var j :| 0 <= j < |structure| && structure[j] == s[e];
      }
    }
  }

  /** The parsed example: a dictionary of sections, each keyed by the name a
      header line of the text matched, each well formed. */
  lemma ParseWellFormed(exampleText: string)
    ensures var r := Parse(exampleText);
      var lines := ReadLines(Split(exampleText, '\n'));
      DistinctKeys(r)
      && (forall e :: 0 <= e < |r| ==> TopEntryOk(r[e]))
      && (forall e :: 0 <= e < |r| ==> Header(r[e].0) in lines)
  {
    ReadLinesOk(Split(exampleText, '\n'));
    DocumentWellFormed(ReadLines(Split(exampleText, '\n')), 0, []);
  }

  /** Where a section ends: one past a closing line, or at or beyond the end
      of the lines when they run out. */
  lemma {:induction false} SectionEnd(lines: seq<Line>, i: nat, acc: Entries)
    ensures var r := Section(lines, i, acc);
      r.1 >= |lines| || (0 < r.1 && lines[r.1 - 1] == Closer)
    decreases |lines| - i
  {
    if i < |lines| {
      match lines[i]
      case Header(name) =>
        var sub := Section(lines, i + 1, []);
        SectionEnd(lines, sub.1 + 1, Put(acc, "under " + name, Dict(sub.0)));
      case Closer =>
      case Assign(k, v) =>
        SectionEnd(lines, i + 1, Put(acc, k, Str(v)));
      case Ignored =>
        SectionEnd(lines, i + 1, acc);
    }
  }

  /** A section with neither header nor closing line ahead of the closing
      line at `j` ends right after it, having recorded the assignments. */
  lemma {:induction false} SectionStopsAtCloser(lines: seq<Line>, i: nat, j: nat, acc: Entries)
    requires i <= j < |lines| && lines[j] == Closer
    requires forall k :: i <= k < j ==> lines[k].Assign? || lines[k] == Ignored
    ensures Section(lines, i, acc).1 == j + 1
    decreases j - i
  {
    if i < j {
      match lines[i]
      case Assign(k, v) => SectionStopsAtCloser(lines, i + 1, j, Put(acc, k, Str(v)));
      case Ignored => SectionStopsAtCloser(lines, i + 1, j, acc);
    }
  }

  /** Without headers and closing lines ahead, a section runs to the end of
      the lines and closes there without complaint. */
  lemma {:induction false} SectionRunsOut(lines: seq<Line>, i: nat, acc: Entries)
    requires i <= |lines|
    requires forall k :: i <= k < |lines| ==> lines[k].Assign? || lines[k] == Ignored
    ensures Section(lines, i, acc).1 == |lines|
    decreases |lines| - i
  {
    if i < |lines| {
      match lines[i]
      case Assign(k, v) => SectionRunsOut(lines, i + 1, Put(acc, k, Str(v)));
      case Ignored => SectionRunsOut(lines, i + 1, acc);
    }
  }

  /** A section depends only on the lines between its start and its end. */
  lemma {:induction false} SectionFrame(lines: seq<Line>, lines': seq<Line>, i: nat, acc: Entries)
    requires |lines'| == |lines|
    requires forall k :: i <= k < Section(lines, i, acc).1 && k < |lines| ==> lines'[k] == lines[k]
    ensures Section(lines', i, acc) == Section(lines, i, acc)
    decreases |lines| - i
  {
    if i < |lines| {
      assert lines'[i] == lines[i];
      match lines[i]
      case Header(name) =>
        var sub := Section(lines, i + 1, []);
        var acc' := Put(acc, "under " + name, Dict(sub.0));
        assert Section(lines, i, acc) == Section(lines, sub.1 + 1, acc');
        SectionFrame(lines, lines', i + 1, []);
        SectionFrame(lines, lines', sub.1 + 1, acc');
        assert Section(lines', i, acc) == Section(lines', sub.1 + 1, acc');
      case Closer =>
      case Assign(k, v) =>
        SectionFrame(lines, lines', i + 1, Put(acc, k, Str(v)));
      case Ignored =>
        SectionFrame(lines, lines', i + 1, acc);
    }
  }

  /** The document depends only on the lines from the cursor on. */
  lemma {:induction false} DocumentFrame(lines: seq<Line>, lines': seq<Line>, i: nat, structure: Entries)
    requires |lines'| == |lines|
    requires forall k :: i <= k < |lines| ==> lines'[k] == lines[k]
    ensures Document(lines', i, structure) == Document(lines, i, structure)
    decreases |lines| - i
  {
    if i < |lines| {
      assert lines'[i] == lines[i];
      match lines[i]
      case Header(name) =>
        var sub := Section(lines, i + 1, []);
        SectionFrame(lines, lines', i + 1, []);
        DocumentFrame(lines, lines', sub.1 + 1, Put(structure, name, Dict(sub.0)));
      case _ =>
        DocumentFrame(lines, lines', i + 1, structure);
    }
  }

  /** The line right after a nested block's end is never looked at: the
      section reads the same whatever that line holds. */
  lemma SectionSkipsLineAfterBlock(lines: seq<Line>, i: nat, acc: Entries, x: Line)
    requires i < |lines| && lines[i].Header?
    requires Section(lines, i + 1, []).1 < |lines|
    ensures Section(lines[Section(lines, i + 1, []).1 := x], i, acc) == Section(lines, i, acc)
  {
    var sub := Section(lines, i + 1, []);
    var lines' := lines[sub.1 := x];
    SectionFrame(lines, lines', i + 1, []);
    var acc' := Put(acc, "under " + lines[i].name, Dict(sub.0));
    SectionFrame(lines, lines', sub.1 + 1, acc');
  }

  /** The same at the top level: the line after a top-level block's end is
      never looked at. */
  lemma DocumentSkipsLineAfterBlock(lines: seq<Line>, i: nat, structure: Entries, x: Line)
    requires i < |lines| && lines[i].Header?
    requires Section(lines, i + 1, []).1 < |lines|
    ensures Document(lines[Section(lines, i + 1, []).1 := x], i, structure) == Document(lines, i, structure)
  {
    var sub := Section(lines, i + 1, []);
    var lines' := lines[sub.1 := x];
    SectionFrame(lines, lines', i + 1, []);
    DocumentFrame(lines, lines', sub.1 + 1, Put(structure, lines[i].name, Dict(sub.0)));
  }

  /** Top-level assignments and stray closing lines contribute nothing: with
      no header ahead, the document is what it was. */
  lemma {:induction false} DocumentWithoutHeaders(lines: seq<Line>, i: nat, structure: Entries)
    requires forall k :: i <= k < |lines| ==> !lines[k].Header?
    ensures Document(lines, i, structure) == structure
    decreases |lines| - i
  {
    if i < |lines| {
      DocumentWithoutHeaders(lines, i + 1, structure);
    }
  }

  /** A block written right after a sibling's closing line is dropped: its
      header is the skipped line, so its assignments land in the parent. */
  lemma SkippedBlockLandsInParent()
    ensures Document([Header("A"), Header("B"), Assign("x", "1"), Closer,
                      Header("C"), Assign("y", "2"), Closer, Closer], 0, [])
         == [("A", Dict([("under B", Dict([("x", Str("1"))])), ("y", Str("2"))]))]
  {
    var lines := [Header("A"), Header("B"), Assign("x", "1"), Closer,
                  Header("C"), Assign("y", "2"), Closer, Closer];
    assert Put([], "x", Str("1")) == [("x", Str("1"))];
    assert Section(lines, 3, [("x", Str("1"))]) == ([("x", Str("1"))], 4);
    assert Section(lines, 2, []) == ([("x", Str("1"))], 4);
    var b := [("under B", Dict([("x", Str("1"))]))];
    assert Put([], "under B", Dict([("x", Str("1"))])) == b;
    assert IndexOf(b, "y") == 1;
    assert Put(b, "y", Str("2")) == b + [("y", Str("2"))];
    assert Section(lines, 6, b + [("y", Str("2"))]) == (b + [("y", Str("2"))], 7);
    assert Section(lines, 5, b) == (b + [("y", Str("2"))], 7);
    assert "under " + "B" == "under B";
    assert Section(lines, 1, []) == (b + [("y", Str("2"))], 7);
    assert Put([], "A", Dict(b + [("y", Str("2"))])) == [("A", Dict(b + [("y", Str("2"))]))];
    assert Document(lines, 0, []) == Document(lines, 8, [("A", Dict(b + [("y", Str("2"))]))]);
    assert b + [("y", Str("2"))] == [("under B", Dict([("x", Str("1"))])), ("y", Str("2"))];
  }

  /** A line starting with `under` that is not a header is ignored, even
      when it holds `=`. */
  lemma UnderAssignmentIgnored()
    ensures ReadLine("underRelax = 0.5;") == Ignored
  {
    var a := "underRelax = 0.5;";
    StripStripped(a);
    assert a[..5] == "under";
    var rest := "Relax = 0.5;";
    assert a[5..] == rest;
    assert MatchGap(rest) == None by {
      LStripSpaces([], rest);
      assert [] + rest == rest;
    }
  }

  /** A header whose name has a character outside `\w` is ignored. */
  lemma DottedHeaderIgnored()
    ensures ReadLine("under A.B {") == Ignored
  {
    var b := "under A.B {";
    StripStripped(b);
    assert b[..5] == "under" && b[5..] == " " + "A.B {";
    assert MatchName("A.B {") == None by {
      WordPrefixOf("A", ".B {");
      assert "A" + ".B {" == "A.B {";
      assert !MatchBrace(".B {") by {
        LStripSpaces([], ".B {");
        assert [] + ".B {" == ".B {";
      }
    }
    assert MatchGap(b[5..]) == None by {
      LStripSpaces(" ", "A.B {");
    }
  }
}
