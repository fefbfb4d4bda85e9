/**
 * The text of the inferred parameters that goes into the prompt.
 * llm-aero-v1.py writes it with three nested loops of its own;
 * llm-aero-v2.py hands the dictionary to `format_structure_for_prompt`.
 */
module ParameterSection {
  import opened Text
  import opened Dicts
  import opened Formatter
  import opened Parameters

  // ---------------------------------------------------------------------
  // The first generator's renderer, as written
  // ---------------------------------------------------------------------

  /** The renderer reaches three levels: sections, their parameters, and
      the entries of a dictionary-valued parameter, which it prints as text. */
  predicate ParamsRenderable(params: Entries) {
    forall j :: 0 <= j < |params| && params[j].1.Dict? ==> AllText(params[j].1.entries)
  }

  predicate AllText(d: Entries) {
    forall m :: 0 <= m < |d| ==> d[m].1.Str?
  }

  predicate Renderable(parameters: Entries) {
    forall i :: 0 <= i < |parameters| ==>
      parameters[i].1.Dict? && ParamsRenderable(parameters[i].1.entries)
  }

  /** `f"    {sub_param} = {sub_value};\n"` */
  function SubLine(e: (string, Value)): string
    requires e.1.Str?
  {
    "    " + e.0 + " = " + e.1.text + ";\n"
  }

  function SubLines(d: Entries): string
    requires AllText(d)
  {
    if d == [] then "" else SubLines(d[..|d| - 1]) + SubLine(d[|d| - 1])
  }

  /** `f"  under {param} {{\n"` */
  function OpenLine(param: string): string {
    "  under " + param + " {\n"
  }

  /** The closing line of a parameter block: the literal `"  }}\n"`, which
      is not an f-string, so both braces are printed. */
  const CloseLine := "  }}\n"

  /** A parameter: a nested block, or `f"  {param} = {value};\n"`. */
  function ParamText(e: (string, Value)): string
    requires e.1.Dict? ==> AllText(e.1.entries)
  {
    match e.1
    case Dict(sub) => OpenLine(e.0) + SubLines(sub) + CloseLine
    case Str(text) => "  " + e.0 + " = " + text + ";\n"
  }

  function ParamsText(params: Entries): string
    requires ParamsRenderable(params)
  {
    if params == [] then "" else ParamsText(params[..|params| - 1]) + ParamText(params[|params| - 1])
  }

  /** `f"under {section} {{\n"` */
  function SectionOpen(section: string): string {
    "under " + section + " {\n"
  }

  /** The closing line of a section, the literal `"}}\n"`. */
  const SectionClose := "}}\n"

  function SectionText(e: (string, Value)): string
    requires e.1.Dict? && ParamsRenderable(e.1.entries)
  {
    SectionOpen(e.0) + ParamsText(e.1.entries) + SectionClose
  }

  function SectionsText(parameters: Entries): string
    requires Renderable(parameters)
  {
    if parameters == [] then ""
    else SectionsText(parameters[..|parameters| - 1]) + SectionText(parameters[|parameters| - 1])
  }

  /** The three nested loops of llm-aero-v1.py building `parameter_section`;
      the loop over a section's parameters is `AppendParams`, the loop over
      a nested block's entries is `AppendSubLines`. */
  method RenderParametersV1(parameters: Entries) returns (parameterSection: string)
    requires Renderable(parameters)
    ensures parameterSection == SectionsText(parameters)
  {
    parameterSection := "";
    for i := 0 to |parameters|
      invariant parameterSection == SectionsText(parameters[..i])
    {
      assert parameters[..i + 1][..i] == parameters[..i];
      var before := parameterSection;
      parameterSection := parameterSection + SectionOpen(parameters[i].0);
      parameterSection := AppendParams(parameterSection, parameters[i].1.entries);
      parameterSection := parameterSection + SectionClose;
      Assoc(before + SectionOpen(parameters[i].0), ParamsText(parameters[i].1.entries), SectionClose);
      Assoc(before, SectionOpen(parameters[i].0) + ParamsText(parameters[i].1.entries), SectionClose);
      Assoc(before, SectionOpen(parameters[i].0), ParamsText(parameters[i].1.entries));
    }
    assert parameters[..|parameters|] == parameters;
  }

  /** `for param, value in params.items(): ...` appended to `text`. */
  method AppendParams(text: string, params: Entries) returns (r: string)
    requires ParamsRenderable(params)
    ensures r == text + ParamsText(params)
  {
    r := text;
    for j := 0 to |params|
      invariant r == text + ParamsText(params[..j])
    {
      assert params[..j + 1][..j] == params[..j];
      var outer := r;
      match params[j].1 {
        case Dict(sub) =>
          r := r + OpenLine(params[j].0);
          r := AppendSubLines(r, sub);
          r := r + CloseLine;
          Assoc(outer + OpenLine(params[j].0), SubLines(sub), CloseLine);
          Assoc(outer, OpenLine(params[j].0) + SubLines(sub), CloseLine);
          Assoc(outer, OpenLine(params[j].0), SubLines(sub));
        case Str(value) =>
          r := r + ("  " + params[j].0 + " = " + value + ";\n");
      }
      assert r == outer + ParamText(params[j]);
      Assoc(text, ParamsText(params[..j]), ParamText(params[j]));
    }
    assert params[..|params|] == params;
  }

  /** `for sub_param, sub_value in value.items(): ...` appended to `text`. */
  method AppendSubLines(text: string, sub: Entries) returns (r: string)
    requires AllText(sub)
    ensures r == text + SubLines(sub)
  {
    r := text;
    for m := 0 to |sub|
      invariant r == text + SubLines(sub[..m])
    {
      assert sub[..m + 1][..m] == sub[..m];
      Assoc(text, SubLines(sub[..m]), SubLine(sub[m]));
      r := r + SubLine(sub[m]);
    }
    assert sub[..|sub|] == sub;
  }

  /** The inferred dictionary meets the renderer's demands. */
  lemma ParameterTreeRenderable(simulationType: string, fileName: string, reynoldsNumber: string,
                                machNumber: string, order: string)
    ensures Renderable(ParameterTree(simulationType, fileName, reynoldsNumber, machNumber, order))
  {
    ParameterTreeOrdered(simulationType, fileName, reynoldsNumber, machNumber, order);
    var p, n, b, d := ProblemPart(simulationType), InputPart(fileName, reynoldsNumber),
                      BoundaryPart(machNumber), DiscretizationPart(order);
    RenderableAppend(p, n);
    RenderableAppend(p + n, b);
    RenderableAppend(p + n + b, d);
  }

  lemma RenderableAppend(a: Entries, b: Entries)
    requires Renderable(a) && Renderable(b)
    ensures Renderable(a + b)
  {
    assert forall i :: 0 <= i < |a + b| ==> (a + b)[i] == if i < |a| then a[i] else b[i - |a|];
  }

  // ---------------------------------------------------------------------
  // What the first renderer prints
  // ---------------------------------------------------------------------

  /** The number of occurrences of `c` in `s`. */
  function Count(s: string, c: char): nat {
    if s == [] then 0 else (if s[0] == c then 1 else 0) + Count(s[1..], c)
  }

  lemma {:induction false} CountAppend(a: string, b: string, c: char)
    ensures Count(a + b, c) == Count(a, c) + Count(b, c)
    decreases |a|
  {
    if a == [] {
      assert a + b == b;
    } else {
      assert (a + b)[1..] == a[1..] + b;
      CountAppend(a[1..], b, c);
    }
  }

  lemma {:induction false} CountAbsent(s: string, c: char)
    requires c !in s
    ensures Count(s, c) == 0
    decreases |s|
  {
    if s != [] {
      assert c !in s[1..];
      CountAbsent(s[1..], c);
    }
  }

  /** No key and no text of `d`, down to the third level, holds a brace. */
  predicate BraceFree(d: Entries) {
    forall i :: 0 <= i < |d| ==>
      '{' !in d[i].0 && '}' !in d[i].0 &&
      match d[i].1
      case Str(t) => '{' !in t && '}' !in t
      case Dict(sub) => forall j :: 0 <= j < |sub| ==>
        '{' !in sub[j].0 && '}' !in sub[j].0 &&
        match sub[j].1
        case Str(t) => '{' !in t && '}' !in t
        case Dict(leaves) => forall m :: 0 <= m < |leaves| ==>
          '{' !in leaves[m].0 && '}' !in leaves[m].0 &&
          (leaves[m].1.Str? ==> '{' !in leaves[m].1.text && '}' !in leaves[m].1.text)
  }

  /** An opening line holds one opening brace and no closing one. */
  lemma OpenCounts(prefix: string, key: string)
    requires prefix == "  under " || prefix == "under "
    requires '{' !in key && '}' !in key
    ensures Count(prefix + key + " {\n", '{') == 1 && Count(prefix + key + " {\n", '}') == 0
  {
    CountAbsent(prefix + key, '{');
    CountAbsent(prefix + key, '}');
    CountAppend(prefix + key, " {\n", '{');
    CountAppend(prefix + key, " {\n", '}');
    assert Count(" {\n", '{') == 1 && Count(" {\n", '}') == 0;
  }

  /** The literal closing lines hold two closing braces each. */
  lemma CloseCounts()
    ensures Count(CloseLine, '{') == 0 && Count(CloseLine, '}') == 2
    ensures Count(SectionClose, '{') == 0 && Count(SectionClose, '}') == 2
  {
  }

  lemma {:induction false} SubLinesBraceFree(d: Entries)
    requires AllText(d)
    requires forall m :: 0 <= m < |d| ==> '{' !in d[m].0 && '}' !in d[m].0 && '{' !in d[m].1.text && '}' !in d[m].1.text
    ensures Count(SubLines(d), '{') == 0 && Count(SubLines(d), '}') == 0
    decreases |d|
  {
    if d != [] {
      var e := d[|d| - 1];
      SubLinesBraceFree(d[..|d| - 1]);
      CountAppend(SubLines(d[..|d| - 1]), SubLine(e), '{');
      CountAppend(SubLines(d[..|d| - 1]), SubLine(e), '}');
      CountAbsent(SubLine(e), '{');
      CountAbsent(SubLine(e), '}');
    }
  }

  /** The counts of three pieces. */
  lemma Counts3(a: string, b: string, c: string, x: char)
    ensures Count(a + b + c, x) == Count(a, x) + Count(b, x) + Count(c, x)
  {
    CountAppend(a + b, c, x);
    CountAppend(a, b, x);
  }

  /** A nested block opens one brace and prints two closing braces; a
      scalar parameter prints none. */
  lemma ParamBraces(e: (string, Value))
    requires e.1.Dict? ==> AllText(e.1.entries)
    requires BraceFree([e])
    ensures Count(ParamText(e), '}') == 2 * Count(ParamText(e), '{')
  {
    assert [e][0] == e;
    match e.1
    case Dict(sub) =>
      assert forall m :: 0 <= m < |sub| ==> sub[m].1.Str?;
      SubLinesBraceFree(sub);
      OpenCounts("  under ", e.0);
      CloseCounts();
      Counts3(OpenLine(e.0), SubLines(sub), CloseLine, '{');
      Counts3(OpenLine(e.0), SubLines(sub), CloseLine, '}');
    case Str(text) =>
      CountAbsent(ParamText(e), '{');
      CountAbsent(ParamText(e), '}');
  }

  lemma {:induction false} ParamsBraces(params: Entries)
    requires ParamsRenderable(params) && BraceFree(params)
    ensures Count(ParamsText(params), '}') == 2 * Count(ParamsText(params), '{')
    decreases |params|
  {
    if params != [] {
      var last := params[|params| - 1];
      assert BraceFree([last]);
      assert BraceFree(params[..|params| - 1]);
      ParamsBraces(params[..|params| - 1]);
      ParamBraces(last);
      CountAppend(ParamsText(params[..|params| - 1]), ParamText(last), '{');
      CountAppend(ParamsText(params[..|params| - 1]), ParamText(last), '}');
    }
  }

  /** A section opens one brace more than its parameters and closes two more. */
  lemma SectionBraces(e: (string, Value))
    requires e.1.Dict? && ParamsRenderable(e.1.entries)
    requires BraceFree([e])
    ensures Count(SectionText(e), '}') == 2 * Count(SectionText(e), '{')
  {
    assert [e][0] == e;
    assert BraceFree(e.1.entries);
    ParamsBraces(e.1.entries);
    OpenCounts("under ", e.0);
    CloseCounts();
    Counts3(SectionOpen(e.0), ParamsText(e.1.entries), SectionClose, '{');
    Counts3(SectionOpen(e.0), ParamsText(e.1.entries), SectionClose, '}');
  }

  /** As written, the first renderer prints two closing braces for every
      opening brace: the closing lines are plain strings, so their doubled
      braces are not collapsed as they are in the f-strings. */
  lemma {:induction false} V1DoublesClosingBraces(parameters: Entries)
    requires Renderable(parameters) && BraceFree(parameters)
    ensures Count(SectionsText(parameters), '}') == 2 * Count(SectionsText(parameters), '{')
    decreases |parameters|
  {
    if parameters != [] {
      var last := parameters[|parameters| - 1];
      var init := parameters[..|parameters| - 1];
      assert BraceFree(init);
      assert BraceFree([last]);
      V1DoublesClosingBraces(init);
      SectionBraces(last);
      CountAppend(SectionsText(init), SectionText(last), '{');
      CountAppend(SectionsText(init), SectionText(last), '}');
    }
  }

  /** The empty text is a left unit. */
  lemma EmptyPrefix(x: string)
    ensures "" + x == x
  {
  }

  /** As written, a nested key that already reads `under Inlet` is printed
      with a second `under`, and both blocks close with doubled braces. */
  lemma V1DoublesUnder(machNumber: string)
    ensures SectionsText([("BoundaryConditions", Dict([("under Inlet", Dict([("Mach", Str(machNumber))]))]))])
         == SectionOpen("BoundaryConditions") + OpenLine("under Inlet") + SubLine(("Mach", Str(machNumber)))
            + CloseLine + SectionClose
    ensures OpenLine("under Inlet") == "  under under Inlet {\n"
    ensures CloseLine == "  }}\n" && SectionClose == "}}\n"
  {
    var sub := [("Mach", Str(machNumber))];
    var params := [("under Inlet", Dict(sub))];
    var parameters := [("BoundaryConditions", Dict(params))];
    assert sub[..0] == [] && params[..0] == [] && parameters[..0] == [];
    EmptyPrefix(SubLine(sub[0]));
    assert SubLines(sub) == SubLine(sub[0]);
    EmptyPrefix(ParamText(params[0]));
    assert ParamsText(params) == ParamText(params[0]);
    EmptyPrefix(SectionText(parameters[0]));
    assert SectionsText(parameters) == SectionText(parameters[0]);
    assert SectionText(parameters[0]) == SectionOpen("BoundaryConditions") + ParamText(params[0]) + SectionClose;
    assert ParamText(params[0]) == OpenLine("under Inlet") + SubLine(sub[0]) + CloseLine;
    Assoc(SectionOpen("BoundaryConditions"), OpenLine("under Inlet") + SubLine(sub[0]), CloseLine);
    Assoc(SectionOpen("BoundaryConditions"), OpenLine("under Inlet"), SubLine(sub[0]));
    Assoc(SectionOpen("BoundaryConditions") + OpenLine("under Inlet") + SubLine(sub[0]), CloseLine, SectionClose);
  }

  // ---------------------------------------------------------------------
  // The second generator: the dictionary rendered by the structure formatter
  // ---------------------------------------------------------------------

  /** `self.format_structure_for_prompt(parameters)` in llm-aero-v2.py. */
  method RenderParametersV2(parameters: Entries) returns (parameterSection: string)
    ensures parameterSection == Format(parameters, 0)
    ensures Balanced(FormatLines(parameters, 0))
  {
    parameterSection := FormatStructureForPrompt(parameters, 0);
    FormatBalanced(parameters, 0);
  }

  /** The second generator prints a nested key that reads `under Inlet`
      once, prefixes `under` to a plain section name, and closes every
      block with a single brace. */
  lemma V2KeepsUnder(machNumber: string)
    ensures var leaf := ("Mach", Str(machNumber));
      var inlet := ("under Inlet", Dict([leaf]));
      && Format([("BoundaryConditions", Dict([inlet]))], 0)
         == "under " + "BoundaryConditions" + " {\n" + Format([inlet], 1) + "}\n"
      && Format([inlet], 1) == "  under Inlet {\n" + Format([leaf], 2) + "  }\n"
      && Format([leaf], 2) == "    Mach = " + machNumber + ";\n"
  {
    V2MachLine(machNumber);
    V2InletBlock(("Mach", Str(machNumber)));
    V2BoundaryBlock(("under Inlet", Dict([("Mach", Str(machNumber))])));
  }

  lemma V2MachLine(machNumber: string)
    ensures Format([("Mach", Str(machNumber))], 2) == "    Mach = " + machNumber + ";\n"
  {
    assert Indent(2) == "    " by {
      assert Indent(2) == "  " + Indent(1) && Indent(1) == "  " + Indent(0);
    }
    StrEntryText("Mach", machNumber, 2);
    assert "    " + "Mach" + " = " == "    Mach = ";
  }

  lemma V2InletBlock(leaf: (string, Value))
    ensures Format([("under Inlet", Dict([leaf]))], 1) == "  under Inlet {\n" + Format([leaf], 2) + "  }\n"
  {
    assert Indent(1) == "  " by {
      assert Indent(1) == "  " + Indent(0);
    }
    DictEntryText("under Inlet", [leaf], 1);
    assert StartsWith("under Inlet", "under");
    assert "  " + "under Inlet" + " {\n" == "  under Inlet {\n";
    Assoc("  under Inlet {\n" + Format([leaf], 2), "  ", "}\n");
  }

  lemma V2BoundaryBlock(inlet: (string, Value))
    ensures Format([("BoundaryConditions", Dict([inlet]))], 0)
         == "under " + "BoundaryConditions" + " {\n" + Format([inlet], 1) + "}\n"
  {
    DictEntryText("BoundaryConditions", [inlet], 0);
    assert "BoundaryConditions"[0] != "under"[0];
    UnindentedBlock("under " + "BoundaryConditions", " {\n", Format([inlet], 1), "}\n");
  }

  /** At level 0 the indentation is empty. */
  lemma UnindentedBlock(header: string, open: string, body: string, close: string)
    ensures Indent(0) + header + open + body + Indent(0) + close == header + open + body + close
  {
    assert Indent(0) == [];
  }
}
