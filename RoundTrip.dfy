/**
 * The formatter and the example reader of llm-aero-v2.py are inverse on a
 * single top-level block of assignments: reading back the rendering of such
 * a block gives the block. Nothing wider holds: after a nested block the
 * reader skips the line that follows its closing `}` (see
 * `ParserProperties.SectionSkipsLineAfterBlock`), so a second top-level
 * block, or any entry rendered after a nested one, is lost.
 */
module RoundTrip {
  import opened Text
  import opened Dicts
  import opened ExampleParser
  import opened ParserProperties
  import opened Formatter

  /** An entry the round trip covers: text under a key an assignment line
      can produce, the text stripped and free of newlines and of a trailing
      semicolon. */
  predicate ScalarEntry(e: (string, Value)) {
    e.1.Str? && ScalarKey(e.0) && IsStripped(e.1.text) && ScalarText(e.1.text)
  }

  /** The rendering of assignments: one `key = value;` line each. */
  lemma {:induction false} ScalarLines(es: Entries, level: nat)
    requires forall i :: 0 <= i < |es| ==> es[i].1.Str?
    ensures |FormatLines(es, level)| == |es|
    ensures forall i :: 0 <= i < |es| ==>
      FormatLines(es, level)[i] == Indent(level) + es[i].0 + " = " + es[i].1.text + ";"
  {
    if es != [] {
      ScalarLines(es[1..], level);
    }
  }

  /** The formatter's header line reads back as a header with the bare
      name, whether the key is the bare word (a top-level section) or
      already starts with `under ` (a nested section, as the reader stores
      it), at any indentation. */
  lemma HeaderReadsBack(key: string, name: string, level: nat)
    requires IsWord(name)
    requires key == "under " + name || (key == name && !StartsWith(name, "under"))
    ensures ReadLine(Indent(level) + HeaderText(key) + " {") == Header(name)
  {
    HeaderLine(key, name, level);
    ReadPaddedHeader(Indent(level), name);
  }

  lemma HeaderLine(key: string, name: string, level: nat)
    requires key == "under " + name || (key == name && !StartsWith(name, "under"))
    ensures Indent(level) + HeaderText(key) + " {" == Indent(level) + ("under" + (" " + (name + (" " + "{"))))
  {
    if key == "under " + name {
      assert key[..5] == "under";
    }
    assert HeaderText(key) == "under " + name;
  }

  lemma ReadPaddedHeader(w: string, name: string)
    requires AllSpace(w) && IsWord(name)
    ensures ReadLine(w + ("under" + (" " + (name + (" " + "{"))))) == Header(name)
  {
    var h := "under" + (" " + (name + (" " + "{")));
    assert h[0] == 'u';
    StripLeadingSpaces(w, h);
    SameStripSameRead(w + h, h);
    ReadHeaderText(name);
  }

  /** A line is read by its stripped text. */
  lemma SameStripSameRead(raw: string, s: string)
    requires Strip(raw) == Strip(s)
    ensures ReadLine(raw) == ReadLine(s)
  {
  }

  /** The rendered header of a top-level block reads as that header. */
  lemma ReadHeaderLine(name: string)
    requires IsWord(name) && !StartsWith(name, "under")
    ensures ReadLine(Indent(0) + HeaderText(name) + " {") == Header(name)
  {
    HeaderReadsBack(name, name, 0);
  }

  lemma ReadHeaderText(name: string)
    requires IsWord(name)
    ensures ReadLine("under" + (" " + (name + (" " + "{")))) == Header(name)
  {
    var h := "under" + (" " + (name + (" " + "{")));
    HeaderMatches(name);
    HeaderStripped(name);
    ReadsAsHeader(h, name);
  }

  lemma HeaderMatches(name: string)
    requires IsWord(name)
    ensures MatchHeader("under" + (" " + (name + (" " + "{")))) == Some(name)
  {
    MatchHeaderComplete(" ", name, " ", "");
    assert "{" + "" == "{";
  }

  lemma HeaderStripped(name: string)
    requires IsWord(name)
    ensures var h := "under" + (" " + (name + (" " + "{")));
      Strip(h) == h && StartsWith(h, "under")
  {
    var h := "under" + (" " + (name + (" " + "{")));
    assert h[0] == 'u' && h[|h| - 1] == '{';
    StripStripped(h);
  }

  lemma ReadCloserLine()
    ensures ReadLine(Indent(0) + "}") == Closer
  {
    assert Indent(0) + "}" == "}";
    StripStripped("}");
    ReadsAsCloser("}");
  }

  lemma ReadEmptyLine()
    ensures ReadLine([]) == Ignored
  {
    StripStripped([]);
    ReadsAsIgnored([]);
  }

  /** The stripped text of a rendered assignment, with the key part `key `
      (nothing for an empty key, whose line strips to `= value;`). */
  function KeyPart(k: string): string {
    if k == [] then [] else k + " "
  }

  function AssignmentText(k: string, v: string): string {
    KeyPart(k) + ['='] + (" " + v + ";")
  }

  /** `key = value;` never starts with `under` when the key does not. */
  lemma AssignmentTextNotUnder(k: string, v: string)
    requires !StartsWith(k, "under")
    ensures !StartsWith(AssignmentText(k, v), "under")
  {
    var t := AssignmentText(k, v);
    if |k| >= 5 {
      assert t[..5] == k[..5];
    } else if k != [] {
      assert t[|k|] == ' ';
    } else {
      assert t[0] == '=';
    }
  }

  /** The stripped key part gives the key. */
  lemma StripKeyPart(k: string)
    requires IsStripped(k)
    ensures Strip(KeyPart(k)) == k
  {
    if k == [] {
      StripStripped([]);
    } else {
      StripPadded([], k, " ");
      assert [] + k + " " == k + " ";
    }
  }

  /** The value part ` value;` of an assignment line gives the value. */
  lemma ValuePart(v: string)
    requires IsStripped(v) && ScalarText(v)
    ensures RStripChar(Strip(" " + v + ";"), ';') == v
  {
    var w := v + ";";
    assert IsStripped(w) && w != [] by {
      if v != [] {
        assert w[0] == v[0];
      }
      assert w[|w| - 1] == ';';
    }
    assert Strip(" " + v + ";") == w by {
      StripPadded(" ", w, []);
      assert " " + w + [] == " " + w;
      Assoc(" ", v, ";");
    }
    assert RStripChar(w, ';') == v by {
      RStripCharAppended(v, ';');
    }
  }

  /** A rendered assignment reads as that assignment. */
  lemma ReadScalarLine(k: string, v: string)
    requires ScalarKey(k) && IsStripped(v) && ScalarText(v)
    ensures ReadLine(Indent(1) + k + " = " + v + ";") == Assign(k, v)
  {
    var raw := Indent(1) + k + " = " + v + ";";
    ScalarLineStripped(k, v);
    AssignmentTextNotUnder(k, v);
    ScalarLineShape(k, v);
    ScalarLineAssignment(k, v);
    ReadsAsAssignment(raw, k, v);
  }

  lemma ScalarLineStripped(k: string, v: string)
    requires IsStripped(k)
    ensures Strip(Indent(1) + k + " = " + v + ";") == AssignmentText(k, v)
  {
    var t := AssignmentText(k, v);
    assert IsStripped(t) && t != [] by {
      if k != [] {
        assert t[0] == k[0];
      } else {
        assert t[0] == '=';
      }
      assert t[|t| - 1] == ';';
    }
    var pad := if k == [] then Indent(1) + " " else Indent(1);
    ScalarLinePadded(k, v);
    StripPadded(pad, t, []);
    assert pad + t + [] == pad + t;
  }

  /** A rendered assignment line is its stripped text behind indentation. */
  lemma ScalarLinePadded(k: string, v: string)
    ensures Indent(1) + k + " = " + v + ";"
         == (if k == [] then Indent(1) + " " else Indent(1)) + AssignmentText(k, v)
  {
    var u := " " + v + ";";
    var w := Indent(1) + k + " = " + v + ";";
    assert w == Indent(1) + k + (" =" + u) by {
      Assoc(Indent(1) + k + " = ", v, ";");
      Assoc(Indent(1) + k, " = ", v + ";");
      Assoc(" =", " " + v, ";");
      Assoc(" =", " ", v);
      assert " = " == " =" + " ";
    }
    assert " =" + u == " " + (['='] + u) by {
      Assoc(" ", ['='], u);
      assert " =" == " " + ['='];
    }
    if k == [] {
      assert Indent(1) + k == Indent(1);
      Assoc(Indent(1), " ", ['='] + u);
    } else {
      Assoc(Indent(1), k, " " + (['='] + u));
      Assoc(k, " ", ['='] + u);
      Assoc(k + " ", ['='], u);
    }
  }

  lemma ScalarLineShape(k: string, v: string)
    ensures !EndsWith(AssignmentText(k, v), "}") && '=' in AssignmentText(k, v)
  {
    var t := AssignmentText(k, v);
    assert t[|t| - 1] == ';';
    assert t[|KeyPart(k)|] == '=';
  }

  lemma ScalarLineAssignment(k: string, v: string)
    requires ScalarKey(k) && IsStripped(v) && ScalarText(v)
    ensures Assignment(AssignmentText(k, v)) == (k, v)
  {
    assert '=' !in KeyPart(k);
    SplitAtFirstUnique(KeyPart(k), '=', " " + v + ";");
    StripKeyPart(k);
    ValuePart(v);
  }

  /** Reading consecutive assignments up to a closing line rebuilds the
      entries, in order, one `Put` of a new key each. */
  lemma {:induction false} SectionOfAssignments(lines: seq<Line>, es: Entries, j: nat)
    requires j <= |es| && |lines| >= |es| + 2
    requires DistinctKeys(es) && forall m :: 0 <= m < |es| ==> es[m].1.Str?
    requires forall m :: 0 <= m < |es| ==> lines[1 + m] == Assign(es[m].0, es[m].1.text)
    requires lines[1 + |es|] == Closer
    ensures Section(lines, 1 + j, es[..j]) == (es, |es| + 2)
    decreases |es| - j
  {
    if j == |es| {
      assert es[..j] == es;
    } else {
      assert es[j].0 !in Keys(es[..j]);
      PutNew(es[..j], es[j].0, es[j].1);
      assert es[..j] + [es[j]] == es[..j + 1];
      assert es[j] == (es[j].0, Str(es[j].1.text));
      SectionOfAssignments(lines, es, j + 1);
    }
  }

  /** The lines of a rendered top-level block. */
  function BlockLines(name: string, es: Entries): seq<string> {
    [Indent(0) + HeaderText(name) + " {"] + FormatLines(es, 1) + [Indent(0) + "}"]
  }

  lemma FormatBlock(name: string, es: Entries)
    ensures FormatLines([(name, Dict(es))], 0) == BlockLines(name, es)
  {
    assert [(name, Dict(es))][1..] == [];
  }

  lemma {:induction false} BlockLinesSingle(name: string, es: Entries)
    requires IsWord(name) && !StartsWith(name, "under") && forall i :: 0 <= i < |es| ==> ScalarEntry(es[i])
    ensures forall i :: 0 <= i < |BlockLines(name, es)| ==> '\n' !in BlockLines(name, es)[i]
  {
    var L := BlockLines(name, es);
    var body := FormatLines(es, 1);
    ScalarLines(es, 1);
    assert '\n' !in L[0] by {
      assert Indent(0) == [];
      assert L[0] == "under " + name + " {";
    }
    assert L[|L| - 1] == "}";
    forall i | 0 < i < |L| - 1
      ensures '\n' !in L[i]
    {
      assert L[i] == body[i - 1];
      assert body[i - 1] == Indent(1) + es[i - 1].0 + " = " + es[i - 1].1.text + ";";
    }
  }

  /** Lines that read as a header, one assignment per entry, a closer and
      an ignored last line. */
  predicate ReadsAsBlock(lines: seq<Line>, name: string, es: Entries) {
    && |lines| == |es| + 3
    && lines[0] == Header(name)
    && (forall m :: 0 <= m < |es| ==> es[m].1.Str? && lines[1 + m] == Assign(es[m].0, es[m].1.text))
    && lines[1 + |es|] == Closer
    && lines[2 + |es|] == Ignored
  }

  /** How the lines of a rendered top-level block read back. */
  lemma ReadBlock(name: string, es: Entries)
    requires IsWord(name) && !StartsWith(name, "under")
    requires forall i :: 0 <= i < |es| ==> ScalarEntry(es[i])
    ensures ReadsAsBlock(ReadLines(BlockLines(name, es) + [[]]), name, es)
  {
    var body := FormatLines(es, 1);
    var h, c := Indent(0) + HeaderText(name) + " {", Indent(0) + "}";
    assert [h] + (body + [c, []]) == BlockLines(name, es) + [[]];
    ReadAssignmentLines(es);
    ReadHeaderLine(name);
    ReadCloserLine();
    ReadsAsBlockOf(h, body, c, name, es);
  }

  lemma ReadsAsBlockOf(h: string, body: seq<string>, c: string, name: string, es: Entries)
    requires ReadLine(h) == Header(name) && ReadLine(c) == Closer && |body| == |es|
    requires forall m :: 0 <= m < |es| ==> es[m].1.Str? && ReadLine(body[m]) == Assign(es[m].0, es[m].1.text)
    ensures ReadsAsBlock(ReadLines([h] + (body + [c, []])), name, es)
  {
    ReadEmptyLine();
    ReadOneLine(h, Header(name));
    ReadTwoLines(c, [], Closer, Ignored);
    ReadLinesAppend(body, [c, []]);
    ReadLinesAppend([h], body + [c, []]);
    BlockOfLines(ReadLines(body), name, es);
  }

  lemma BlockOfLines(ys: seq<Line>, name: string, es: Entries)
    requires |ys| == |es|
    requires forall m :: 0 <= m < |es| ==> es[m].1.Str? && ys[m] == Assign(es[m].0, es[m].1.text)
    ensures ReadsAsBlock([Header(name)] + (ys + [Closer, Ignored]), name, es)
  {
    var lines := [Header(name)] + (ys + [Closer, Ignored]);
    assert lines[1..] == ys + [Closer, Ignored];
  }

  lemma ReadAssignmentLines(es: Entries)
    requires forall i :: 0 <= i < |es| ==> ScalarEntry(es[i])
    ensures |FormatLines(es, 1)| == |es|
    ensures forall m :: 0 <= m < |es| ==>
      es[m].1.Str? && ReadLine(FormatLines(es, 1)[m]) == Assign(es[m].0, es[m].1.text)
  {
    ScalarLines(es, 1);
    forall m | 0 <= m < |es|
      ensures ReadLine(FormatLines(es, 1)[m]) == Assign(es[m].0, es[m].1.text)
    {
      ReadScalarLine(es[m].0, es[m].1.text);
    }
  }

  /** The reading of such lines: one top-level section holding the entries. */
  lemma ReadBlockDocument(lines: seq<Line>, name: string, es: Entries)
    requires ReadsAsBlock(lines, name, es)
    requires DistinctKeys(es) && forall i :: 0 <= i < |es| ==> es[i].1.Str?
    ensures Document(lines, 0, []) == [(name, Dict(es))]
  {
    SectionOfAssignments(lines, es, 0);
    assert es[..0] == [];
    assert Put([], name, Dict(es)) == [(name, Dict(es))];
    assert Document(lines, 0, []) == Document(lines, |es| + 3, [(name, Dict(es))]);
  }

  /** Reading back the rendering of a single top-level block of
      assignments gives that block. */
  lemma RoundTrip(name: string, es: Entries)
    requires IsWord(name) && !StartsWith(name, "under")
    requires DistinctKeys(es) && forall i :: 0 <= i < |es| ==> ScalarEntry(es[i])
    ensures Parse(Format([(name, Dict(es))], 0)) == [(name, Dict(es))]
  {
    FormatBlock(name, es);
    BlockLinesSingle(name, es);
    SplitTerminated(BlockLines(name, es), '\n');
    ReadBlock(name, es);
    ReadBlockDocument(ReadLines(BlockLines(name, es) + [[]]), name, es);
  }

  /** Two top-level blocks do not survive: the second header is the line
      right after the first block's closing `}`, so it is skipped, and the
      second block's assignments and closer are top-level lines the reader
      ignores. */
  lemma SecondTopLevelBlockLost(a: string, x: Entries, b: string, y: Entries)
    requires IsWord(a) && !StartsWith(a, "under") && IsWord(b) && !StartsWith(b, "under")
    requires DistinctKeys(x) && forall i :: 0 <= i < |x| ==> ScalarEntry(x[i])
    requires forall i :: 0 <= i < |y| ==> ScalarEntry(y[i])
    ensures Parse(Format([(a, Dict(x)), (b, Dict(y))], 0)) == [(a, Dict(x))]
  {
    var la, lb := BlockLines(a, x), BlockLines(b, y);
    TwoBlocksLines(a, x, b, y);
    BlockLinesSingle(a, x);
    BlockLinesSingle(b, y);
    NoSeparatorAppend(la, lb, '\n');
    SplitTerminated(la + lb, '\n');
    ReadTwoBlocks(la, lb);
    ReadBlock(a, x);
    ReadBlock(b, y);
    TwoBlocksDocument(ReadLines(la), ReadLines(lb + [[]]), a, x, b, y);
  }

  lemma TwoBlocksLines(a: string, x: Entries, b: string, y: Entries)
    ensures FormatLines([(a, Dict(x)), (b, Dict(y))], 0) == BlockLines(a, x) + BlockLines(b, y)
  {
    assert [(a, Dict(x)), (b, Dict(y))] == [(a, Dict(x))] + [(b, Dict(y))];
    FormatLinesConcat([(a, Dict(x))], [(b, Dict(y))], 0);
    FormatBlock(a, x);
    FormatBlock(b, y);
  }

  lemma NoSeparatorAppend(p: seq<string>, q: seq<string>, c: char)
    requires forall i :: 0 <= i < |p| ==> c !in p[i]
    requires forall i :: 0 <= i < |q| ==> c !in q[i]
    ensures forall i :: 0 <= i < |p + q| ==> c !in (p + q)[i]
  {
    forall i | 0 <= i < |p + q|
      ensures c !in (p + q)[i]
    {
      if i < |p| {
        assert (p + q)[i] == p[i];
      } else {
        assert (p + q)[i] == q[i - |p|];
      }
    }
  }

  lemma ReadTwoBlocks(la: seq<string>, lb: seq<string>)
    ensures ReadLines(la + lb + [[]]) == ReadLines(la) + ReadLines(lb + [[]])
    ensures ReadLines(la + [[]]) == ReadLines(la) + [Ignored]
  {
    assert la + lb + [[]] == la + (lb + [[]]);
    ReadLinesAppend(la, lb + [[]]);
    ReadLinesAppend(la, [[]]);
    ReadEmptyLine();
    ReadOneLine([], Ignored);
  }

  /** The reading of a first block's lines followed by a second block's. */
  lemma TwoBlocksDocument(ra: seq<Line>, rb: seq<Line>, a: string, x: Entries, b: string, y: Entries)
    requires |ra| == |x| + 2 && ReadsAsBlock(ra + [Ignored], a, x)
    requires ReadsAsBlock(rb, b, y)
    requires DistinctKeys(x) && forall i :: 0 <= i < |x| ==> x[i].1.Str?
    ensures Document(ra + rb, 0, []) == [(a, Dict(x))]
  {
    var lines := ra + rb;
    forall m | 0 <= m < |ra|
      ensures lines[m] == (ra + [Ignored])[m]
    {
    }
    SectionOfAssignments(lines, x, 0);
    assert x[..0] == [];
    assert Put([], a, Dict(x)) == [(a, Dict(x))];
    assert Document(lines, 0, []) == Document(lines, |x| + 3, [(a, Dict(x))]);
    forall k | |x| + 3 <= k < |lines|
      ensures !lines[k].Header?
    {
      var n := k - |ra|;
      assert lines[k] == rb[n];
      if n <= |y| {
        assert rb[1 + (n - 1)] == Assign(y[n - 1].0, y[n - 1].1.text);
      }
    }
    DocumentWithoutHeaders(lines, |x| + 3, [(a, Dict(x))]);
  }

  lemma ReadOneLine(a: string, la: Line)
    requires ReadLine(a) == la
    ensures ReadLines([a]) == [la]
  {
  }

  /** Two lines read one by one. */
  lemma ReadTwoLines(a: string, b: string, la: Line, lb: Line)
    requires ReadLine(a) == la && ReadLine(b) == lb
    ensures ReadLines([a, b]) == [la, lb]
  {
    ReadTwoParts(a, b, la, lb);
    PairOfLines(ReadLines([a, b]), la, lb);
  }

  lemma ReadTwoParts(a: string, b: string, la: Line, lb: Line)
    requires ReadLine(a) == la && ReadLine(b) == lb
    ensures var r := ReadLines([a, b]); |r| == 2 && r[0] == la && r[1] == lb
  {
  }

  lemma PairOfLines(r: seq<Line>, la: Line, lb: Line)
    requires |r| == 2 && r[0] == la && r[1] == lb
    ensures r == [la, lb]
  {
  }
}
