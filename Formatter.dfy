/**
 * `format_structure_for_prompt` (llm-aero-v2.py): a nested dictionary
 * rendered back to Aero-F text. Every entry becomes a block of lines indented
 * by two spaces per nesting level: text as `key = value;`, a dictionary as a
 * header `under key {` (or the key itself when it already starts with
 * `under`), its children one level deeper, and a closing `}` at the
 * header's own indentation.
 */
module Formatter {
  import opened Text
  import opened Dicts

  /** The header text of a dictionary-valued entry. */
  function HeaderText(key: string): (r: string)
    ensures StartsWith(r, "under")
    ensures StartsWith(key, "under") ==> r == key
    ensures !StartsWith(key, "under") ==> r == "under " + key && r[6..] == key
  {
    if StartsWith(key, "under") then key else "under " + key
  }

  /** The lines of the rendering, without their newlines. */
  function FormatLines(d: Entries, level: nat): seq<string>
    decreases d
  {
    if d == [] then [] else EntryLines(d[0], level) + FormatLines(d[1..], level)
  }

  function EntryLines(e: (string, Value), level: nat): seq<string>
    decreases e
  {
    match e.1
    case Dict(children) =>
      [Indent(level) + HeaderText(e.0) + " {"]
      + FormatLines(children, level + 1)
      + [Indent(level) + "}"]
    case Str(text) => [Indent(level) + e.0 + " = " + text + ";"]
  }

  /** The rendered text: every line followed by a newline. */
  function Format(d: Entries, level: nat): string {
    Terminated(FormatLines(d, level), '\n')
  }

  /** Entries are rendered in the dictionary's own order, one after the
      other. */
  lemma {:induction false} FormatLinesConcat(a: Entries, b: Entries, level: nat)
    ensures FormatLines(a + b, level) == FormatLines(a, level) + FormatLines(b, level)
  {
    if a == [] {
      assert a + b == b;
    } else {
      assert (a + b)[0] == a[0];
      assert (a + b)[1..] == a[1..] + b;
      FormatLinesConcat(a[1..], b, level);
    }
  }

  lemma FormatConcat(a: Entries, b: Entries, level: nat)
    ensures Format(a + b, level) == Format(a, level) + Format(b, level)
  {
    FormatLinesConcat(a, b, level);
    TerminatedAppend(FormatLines(a, level), FormatLines(b, level), '\n');
  }

  /** `format_structure_for_prompt(structure, indent_level)`: the `for` loop
      over the entries, appending to the text, recursing into dictionaries. */
  method FormatStructureForPrompt(structure: Entries, indentLevel: nat) returns (promptStr: string)
    ensures promptStr == Format(structure, indentLevel)
    decreases Dict(structure)
  {
    promptStr := "";
    var indent := Indent(indentLevel);
    for i := 0 to |structure|
      invariant promptStr == Format(structure[..i], indentLevel)
    {
      var key := structure[i].0;
      var block: string;
      match structure[i].1 {
        case Dict(children) =>
          var inner := FormatStructureForPrompt(children, indentLevel + 1);
          if StartsWith(key, "under") {
            block := indent + key + " {\n" + inner + indent + "}\n";
          } else {
            block := indent + ("under " + key) + " {\n" + inner + indent + "}\n";
          }
          DictEntryText(key, children, indentLevel);
        case Str(text) =>
          block := indent + key + " = " + text + ";\n";
          StrEntryText(key, text, indentLevel);
      }
      assert structure[..i + 1] == structure[..i] + [structure[i]];
      FormatConcat(structure[..i], [structure[i]], indentLevel);
      promptStr := promptStr + block;
    }
    assert structure[..|structure|] == structure;
  }

  /** The text of a dictionary-valued entry, spelled out. */
  lemma DictEntryText(key: string, children: Entries, level: nat)
    ensures Format([(key, Dict(children))], level)
         == Indent(level) + HeaderText(key) + " {\n" + Format(children, level + 1) + Indent(level) + "}\n"
  {
    var e := (key, Dict(children));
    assert FormatLines([e], level) == EntryLines(e, level) by {
      assert [e][1..] == [];
    }
    var x := Indent(level) + HeaderText(key);
    var h, c := x + " {", Indent(level) + "}";
    var body := FormatLines(children, level + 1);
    TerminatedAppend([h] + body, [c], '\n');
    TerminatedAppend([h], body, '\n');
    TerminatedOne(h, '\n');
    TerminatedOne(c, '\n');
    var y, f := x + " {\n", Format(children, level + 1);
    assert h + "\n" == y;
    assert c + "\n" == Indent(level) + "}\n";
    assert y + f + (Indent(level) + "}\n") == y + f + Indent(level) + "}\n";
  }

  /** The text of an assignment entry, spelled out. */
  lemma StrEntryText(key: string, text: string, level: nat)
    ensures Format([(key, Str(text))], level) == Indent(level) + key + " = " + text + ";\n"
  {
    var e := (key, Str(text));
    assert FormatLines([e], level) == EntryLines(e, level) by {
      assert [e][1..] == [];
    }
    var line := Indent(level) + key + " = " + text + ";";
    assert [line][1..] == [];
    assert Terminated([line], '\n') == line + "\n";
    assert line + "\n" == Indent(level) + key + " = " + text + ";\n";
  }

  lemma {:induction false} IndentSucc(level: nat)
    ensures Indent(level + 1) == Indent(level) + "  "
  {
    if level > 0 {
      IndentSucc(level - 1);
    }
  }

  /** Two spaces per nesting level: every line of a dictionary rendered at
      `level` starts with `level` times two spaces. */
  lemma {:induction false} FormatIndented(d: Entries, level: nat)
    ensures forall k :: 0 <= k < |FormatLines(d, level)| ==> StartsWith(FormatLines(d, level)[k], Indent(level))
    decreases d
  {
    if d != [] {
      EntryIndented(d[0], level);
      FormatIndented(d[1..], level);
      var a, b := EntryLines(d[0], level), FormatLines(d[1..], level);
      assert forall k :: 0 <= k < |a + b| ==> (a + b)[k] == if k < |a| then a[k] else b[k - |a|];
    }
  }

  lemma {:induction false} EntryIndented(e: (string, Value), level: nat)
    ensures forall k :: 0 <= k < |EntryLines(e, level)| ==> StartsWith(EntryLines(e, level)[k], Indent(level))
    decreases e
  {
    match e.1 {
      case Dict(children) =>
        var h, c := Indent(level) + HeaderText(e.0) + " {", Indent(level) + "}";
        var body := FormatLines(children, level + 1);
        FormatIndented(children, level + 1);
        IndentSucc(level);
        forall k | 0 <= k < |body|
          ensures StartsWith(body[k], Indent(level))
        {
          assert body[k][..|Indent(level)|] == Indent(level + 1)[..|Indent(level)|];
        }
        assert h[..|Indent(level)|] == Indent(level);
        assert c[..|Indent(level)|] == Indent(level);
        var all := [h] + body + [c];
        assert forall k :: 0 <= k < |all| ==> all[k] == if k == 0 then h else if k <= |body| then body[k - 1] else c;
      case Str(text) =>
        var line := Indent(level) + e.0 + " = " + text + ";";
        assert line[..|Indent(level)|] == Indent(level);
    }
  }

  /** How a rendered line moves the nesting depth: a line ending in `{`
      opens a block, a line that strips to `}` closes one. */
  function Step(line: string): int {
    if EndsWith(line, "{") then 1 else if Strip(line) == "}" then -1 else 0
  }

  function Depth(lines: seq<string>): int {
    if lines == [] then 0 else Step(lines[0]) + Depth(lines[1..])
  }

  /** Braces balance: the depth never drops below zero and ends at zero. */
  predicate Balanced(lines: seq<string>) {
    Depth(lines) == 0 && forall k :: 0 <= k <= |lines| ==> Depth(lines[..k]) >= 0
  }

  lemma {:induction false} DepthConcat(a: seq<string>, b: seq<string>)
    ensures Depth(a + b) == Depth(a) + Depth(b)
  {
    if a == [] {
      assert a + b == b;
    } else {
      assert (a + b)[0] == a[0];
      assert (a + b)[1..] == a[1..] + b;
      DepthConcat(a[1..], b);
    }
  }

  lemma BalancedConcat(a: seq<string>, b: seq<string>)
    requires Balanced(a) && Balanced(b)
    ensures Balanced(a + b)
  {
    DepthConcat(a, b);
    forall k | 0 <= k <= |a + b|
      ensures Depth((a + b)[..k]) >= 0
    {
      if k <= |a| {
        assert (a + b)[..k] == a[..k];
      } else {
        assert (a + b)[..k] == a + b[..k - |a|];
        DepthConcat(a, b[..k - |a|]);
      }
    }
  }

  /** The last character of a text survives stripping when it is not
      whitespace. */
  lemma StripKeepsLast(s: string)
    requires s != [] && !IsSpace(s[|s| - 1])
    ensures Strip(s) != [] && Strip(s)[|Strip(s)| - 1] == s[|s| - 1]
  {
    var lo, hi := StripSlice(s);
  }

  /** The rendering of a dictionary is balanced. */
  lemma {:induction false} FormatBalanced(d: Entries, level: nat)
    ensures Balanced(FormatLines(d, level))
    decreases d
  {
    if d == [] {
      var none: seq<string> := [];
      assert forall k :: 0 <= k <= 0 ==> none[..k] == [];
    } else {
      EntryBalanced(d[0], level);
      FormatBalanced(d[1..], level);
      BalancedConcat(EntryLines(d[0], level), FormatLines(d[1..], level));
    }
  }

  /** A header line opens a block. */
  lemma HeaderStep(level: nat, key: string)
    ensures Step(Indent(level) + HeaderText(key) + " {") == 1
  {
    var h := Indent(level) + HeaderText(key) + " {";
    assert h[|h| - 1..] == "{";
  }

  /** A closing line closes one. */
  lemma CloserStep(level: nat)
    ensures Step(Indent(level) + "}") == -1
  {
    var c := Indent(level) + "}";
    assert c[|c| - 1..] == "}";
    StripPadded(Indent(level), "}", []);
    assert Indent(level) + "}" + [] == c;
  }

  /** An assignment line neither opens nor closes a block. */
  lemma ScalarStep(level: nat, key: string, text: string)
    ensures Step(Indent(level) + key + " = " + text + ";") == 0
  {
    var line := Indent(level) + key + " = " + text + ";";
    assert line[|line| - 1] == ';';
    StripKeepsLast(line);
  }

  lemma DepthCons(h: string, rest: seq<string>)
    ensures Depth([h] + rest) == Step(h) + Depth(rest)
  {
    assert ([h] + rest)[0] == h && ([h] + rest)[1..] == rest;
  }

  lemma BlockPrefix(h: string, body: seq<string>, c: string, k: nat)
    requires 0 < k <= |body| + 1
    ensures ([h] + body + [c])[..k] == [h] + body[..k - 1]
  {
  }

  /** An opening line, balanced lines and a closing line make a balanced
      block that stays open until its last line. */
  lemma BlockBalanced(h: string, body: seq<string>, c: string)
    requires Step(h) == 1 && Step(c) == -1 && Balanced(body)
    ensures Balanced([h] + body + [c])
    ensures forall k :: 0 < k < |[h] + body + [c]| ==> Depth(([h] + body + [c])[..k]) >= 1
  {
    var all := [h] + body + [c];
    BlockDepth(h, body, c);
    forall k | 0 < k < |all|
      ensures Depth(all[..k]) >= 1
    {
      BlockOpenAt(h, body, c, k);
    }
    OpenUntilLast(all);
  }

  /** Lines whose depth ends at zero and stays positive before the end are
      balanced. */
  lemma OpenUntilLast(lines: seq<string>)
    requires Depth(lines) == 0
    requires forall k :: 0 < k < |lines| ==> Depth(lines[..k]) >= 1
    ensures Balanced(lines)
  {
    assert lines[..0] == [];
    assert lines[..|lines|] == lines;
  }

  lemma BlockDepth(h: string, body: seq<string>, c: string)
    requires Step(h) == 1 && Step(c) == -1 && Depth(body) == 0
    ensures Depth([h] + body + [c]) == 0
  {
    assert [h] + body + [c] == [h] + (body + [c]);
    DepthCons(h, body + [c]);
    DepthConcat(body, [c]);
    DepthCons(c, []);
  }

  lemma BlockOpenAt(h: string, body: seq<string>, c: string, k: nat)
    requires Step(h) == 1 && Balanced(body) && 0 < k < |body| + 2
    ensures Depth(([h] + body + [c])[..k]) >= 1
  {
    BlockPrefix(h, body, c, k);
    DepthCons(h, body[..k - 1]);
  }

  /** The rendering of one entry is balanced, and a header's block stays open
      until its own closing line, the last one. */
  lemma {:induction false} EntryBalanced(e: (string, Value), level: nat)
    ensures Balanced(EntryLines(e, level))
    ensures forall k :: 0 < k < |EntryLines(e, level)| ==> Depth(EntryLines(e, level)[..k]) >= 1
    decreases e
  {
    match e.1 {
      case Dict(children) =>
        FormatBalanced(children, level + 1);
        HeaderStep(level, e.0);
        CloserStep(level);
        BlockBalanced(Indent(level) + HeaderText(e.0) + " {", FormatLines(children, level + 1), Indent(level) + "}");
      case Str(text) =>
        var line := Indent(level) + e.0 + " = " + text + ";";
        ScalarStep(level, e.0, text);
        assert [line][1..] == [];
        assert [line][..0] == [] && [line][..1] == [line];
    }
  }
}
