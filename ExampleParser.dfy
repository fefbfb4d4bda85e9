/**
 * The line-based reader of Aero-F example input files
 * (`parse_aero_f_example` with its inner `parse_section`, llm-aero-v2.py).
 *
 * The text is split at newlines and every line is stripped. A line
 * `under NAME {` opens a nested section, a line ending in `}` closes the
 * current one, and `key = value;` records an assignment. An index cursor is
 * threaded through the recursive calls; after a nested section returns, the
 * caller advances the cursor once more, so the line right after a closing
 * `}` is never looked at. Running out of lines closes everything silently:
 * the reader never fails.
 *
 * `Section` and `Document` are the reading as functions; `ParseSection` and
 * `ParseAeroFExample` are the loops of the source, proved equal to them.
 */
module ExampleParser {
  import opened Text
  import opened Dicts

  /** `re.match(r"under\s+(\w+)\s*\{", line)` and its group 1. Both `\s+`
      and `\w+` are followed by something their own class cannot match, so
      the regular expression has exactly one way to succeed: take the maximal
      runs. The match is read in three steps, one per part of the pattern. */
  function MatchHeader(line: string): Option<string> {
    if StartsWith(line, "under") then MatchGap(line[5..]) else None
  }

  /** `\s+(\w+)\s*\{` */
  function MatchGap(rest: string): Option<string> {
    var afterGap := LStrip(rest);
    if |afterGap| == |rest| then None else MatchName(afterGap)
  }

  /** `(\w+)\s*\{` */
  function MatchName(s: string): Option<string> {
    var name := WordPrefix(s);
    if name != [] && MatchBrace(s[|name|..]) then Some(name) else None
  }

  /** `\s*\{` */
  predicate MatchBrace(s: string) {
    var t := LStrip(s);
    t != [] && t[0] == '{'
  }

  lemma MatchBraceComplete(ws: string, tail: string)
    requires AllSpace(ws)
    ensures MatchBrace(ws + ("{" + tail))
  {
    LStripSpaces(ws, "{" + tail);
  }

  lemma MatchBraceSound(s: string) returns (ws: string, tail: string)
    requires MatchBrace(s)
    ensures AllSpace(ws) && s == ws + ("{" + tail)
  {
    var t := LStrip(s);
    ws := s[..|s| - |t|];
    tail := t[1..];
    assert s == ws + t;
    assert t == "{" + tail;
  }

  lemma MatchNameComplete(name: string, ws: string, tail: string)
    requires IsWord(name) && AllSpace(ws)
    ensures MatchName(name + (ws + ("{" + tail))) == Some(name)
  {
    var after := ws + ("{" + tail);
    assert after[0] == if ws == [] then '{' else ws[0];
    WordPrefixOf(name, after);
    assert (name + after)[|name|..] == after;
    MatchBraceComplete(ws, tail);
  }

  lemma MatchNameSound(s: string, name: string) returns (ws: string, tail: string)
    requires MatchName(s) == Some(name)
    ensures IsWord(name) && AllSpace(ws) && s == name + (ws + ("{" + tail))
  {
    assert name == WordPrefix(s);
    var after := s[|name|..];
    assert MatchBrace(after);
    ws, tail := MatchBraceSound(after);
    assert s == name + after by {
      assert s[..|name|] == name;
    }
  }

  lemma MatchGapComplete(ws1: string, name: string, ws2: string, tail: string)
    requires |ws1| > 0 && AllSpace(ws1) && IsWord(name) && AllSpace(ws2)
    ensures MatchGap(ws1 + (name + (ws2 + ("{" + tail)))) == Some(name)
  {
    var s := name + (ws2 + ("{" + tail));
    assert s[0] == name[0];
    LStripSpaces(ws1, s);
    MatchNameComplete(name, ws2, tail);
  }

  lemma MatchGapSound(rest: string, name: string) returns (ws1: string, ws2: string, tail: string)
    requires MatchGap(rest) == Some(name)
    ensures |ws1| > 0 && AllSpace(ws1) && IsWord(name) && AllSpace(ws2)
    ensures rest == ws1 + (name + (ws2 + ("{" + tail)))
  {
    var afterGap := LStrip(rest);
    ws1 := rest[..|rest| - |afterGap|];
    assert rest == ws1 + afterGap;
    ws2, tail := MatchNameSound(afterGap, name);
  }

  /** Every text of the shape `under\s+NAME\s*{...` is matched, with group 1
      equal to NAME. */
  lemma MatchHeaderComplete(ws1: string, name: string, ws2: string, tail: string)
    requires |ws1| > 0 && AllSpace(ws1) && IsWord(name) && AllSpace(ws2)
    ensures MatchHeader("under" + (ws1 + (name + (ws2 + ("{" + tail))))) == Some(name)
  {
    var rest := ws1 + (name + (ws2 + ("{" + tail)));
    var line := "under" + rest;
    assert line[..5] == "under" && line[5..] == rest;
    MatchGapComplete(ws1, name, ws2, tail);
  }

  /** Whatever is matched has the shape `under\s+NAME\s*{...`. */
  lemma MatchHeaderSound(line: string, name: string) returns (ws1: string, ws2: string, tail: string)
    requires MatchHeader(line) == Some(name)
    ensures |ws1| > 0 && AllSpace(ws1) && IsWord(name) && AllSpace(ws2)
    ensures line == "under" + (ws1 + (name + (ws2 + ("{" + tail))))
  {
    var rest := line[5..];
    ws1, ws2, tail := MatchGapSound(rest, name);
    StartsWithSplit(line, "under");
  }

  /** `line.split("=", 1)`, the stripped key and the stripped value with its
      trailing semicolons removed. */
  function Assignment(line: string): (r: (string, string))
    requires '=' in line
    ensures IsStripped(r.0) && '=' !in r.0
    ensures r.1 == [] || (!IsSpace(r.1[0]) && r.1[|r.1| - 1] != ';')
  {
    var parts := SplitAtFirst(line, '=');
    var value := Strip(parts.1);
    var text := RStripChar(value, ';');
    assert text != [] ==> text[0] == value[0];
    (Strip(parts.0), text)
  }

  /** `split("=", 1)` on any line `a=b` whose `a` holds no `=`: the key is
      `a` stripped, the value is `b` stripped with its trailing semicolons
      removed. */
  lemma AssignmentOfSplit(a: string, b: string)
    requires '=' !in a
    ensures '=' in a + "=" + b
    ensures Assignment(a + "=" + b) == (Strip(a), RStripChar(Strip(b), ';'))
  {
    assert (a + "=" + b)[|a|] == '=';
    SplitAtFirstUnique(a, '=', b);
  }

  /** Neither part of an assignment holds a character its line does not. */
  lemma AssignmentAvoids(line: string, x: char)
    requires '=' in line && x !in line
    ensures x !in Assignment(line).0 && x !in Assignment(line).1
  {
    var parts := SplitAtFirst(line, '=');
    assert x !in parts.0 && x !in parts.1;
    StripAvoids(parts.0, x);
    StripAvoids(parts.1, x);
    var value := Strip(parts.1);
    assert RStripChar(value, ';') == value[..|RStripChar(value, ';')|];
  }

  /** What one line means to `parse_section`, tested in the source's order:
      a stripped line starting with `under` is a header or nothing; otherwise
      a line ending in `}` closes the section; otherwise a line holding `=`
      is an assignment; anything else is ignored. */
  datatype Line = Header(name: string) | Closer | Assign(key: string, value: string) | Ignored

  /** How one line is read inside a section. */
  function ReadLine(raw: string): Line {
    var line := Strip(raw);
    if StartsWith(line, "under") then
      match MatchHeader(line)
      case Some(name) => Header(name)
      case None => Ignored
    else if EndsWith(line, "}") then Closer
    else if '=' in line then
      var kv := Assignment(line);
      Assign(kv.0, kv.1)
    else Ignored
  }

  /** The four ways a line can read, one lemma each, so that proofs about
      particular lines need not unfold `ReadLine`. */
  lemma ReadsAsHeader(raw: string, name: string)
    requires StartsWith(Strip(raw), "under") && MatchHeader(Strip(raw)) == Some(name)
    ensures ReadLine(raw) == Header(name)
  {
  }

  lemma ReadsAsCloser(raw: string)
    requires !StartsWith(Strip(raw), "under") && EndsWith(Strip(raw), "}")
    ensures ReadLine(raw) == Closer
  {
  }

  lemma ReadsAsAssignment(raw: string, key: string, value: string)
    requires !StartsWith(Strip(raw), "under") && !EndsWith(Strip(raw), "}") && '=' in Strip(raw)
    requires Assignment(Strip(raw)) == (key, value)
    ensures ReadLine(raw) == Assign(key, value)
  {
  }

  lemma ReadsAsIgnored(raw: string)
    requires !StartsWith(Strip(raw), "under") && !EndsWith(Strip(raw), "}") && '=' !in Strip(raw)
    ensures ReadLine(raw) == Ignored
  {
  }

  /** Each line read on its own: reading a line depends on nothing else. */
  function ReadLines(lines: seq<string>): (r: seq<Line>)
    ensures |r| == |lines| && forall k :: 0 <= k < |lines| ==> r[k] == ReadLine(lines[k])
  {
    seq(|lines|, k requires 0 <= k < |lines| => ReadLine(lines[k]))
  }

  /** Reading a text's lines piecewise gives the same lines. */
  lemma ReadLinesAppend(x: seq<string>, y: seq<string>)
    ensures ReadLines(x + y) == ReadLines(x) + ReadLines(y)
  {
    var r := ReadLines(x + y);
    forall k | 0 <= k < |x| + |y|
      ensures r[k] == (ReadLines(x) + ReadLines(y))[k]
    {
      if k < |x| {
        assert (x + y)[k] == x[k];
      } else {
        assert (x + y)[k] == y[k - |x|];
      }
    }
  }

  /** `parse_section(name, lines, i)` as a function over the lines as read:
      `acc` is the section built so far, the result is the section and the
      cursor it returns. The cursor only moves forward, and strictly when a
      line is left. */
  function Section(lines: seq<Line>, i: nat, acc: Entries): (r: (Entries, nat))
    ensures r.1 >= i
    ensures i < |lines| ==> r.1 > i
    decreases |lines| - i
  {
    if i >= |lines| then (acc, i)
    else
      match lines[i]
      case Header(name) =>
        var sub := Section(lines, i + 1, []);
        Section(lines, sub.1 + 1, Put(acc, "under " + name, Dict(sub.0)))
      case Closer => (acc, i + 1)
      case Assign(key, value) => Section(lines, i + 1, Put(acc, key, Str(value)))
      case Ignored => Section(lines, i + 1, acc)
  }

  /** The outer loop of `parse_aero_f_example` as a function: only header
      lines are looked at; top-level sections are keyed by the bare name. */
  function Document(lines: seq<Line>, i: nat, structure: Entries): Entries
    decreases |lines| - i
  {
    if i >= |lines| then structure
    else
      match lines[i]
      case Header(name) =>
        var sub := Section(lines, i + 1, []);
        Document(lines, sub.1 + 1, Put(structure, name, Dict(sub.0)))
      case _ => Document(lines, i + 1, structure)
  }

  function Parse(exampleText: string): Entries {
    Document(ReadLines(Split(exampleText, '\n')), 0, [])
  }

  /** `parse_section`: the `while` loop over the cursor, recursing into
      nested sections. It receives the lines as `ReadLine` reads them. */
  method ParseSection(lines: seq<Line>, start: nat) returns (section: Entries, next: nat)
    ensures (section, next) == Section(lines, start, [])
    decreases |lines| - start
  {
    section := [];
    var i := start;
    while i < |lines|
      invariant start <= i
      invariant Section(lines, i, section) == Section(lines, start, [])
      decreases |lines| - i
    {
      match lines[i] {
        case Header(name) =>
          var sub, j := ParseSection(lines, i + 1);
          section := Put(section, "under " + name, Dict(sub));
          i := j;
        case Closer =>
          return section, i + 1;
        case Assign(key, value) =>
          section := Put(section, key, Str(value));
        case Ignored =>
      }
      i := i + 1;
    }
    next := i;
  }

  /** The outer `while` loop of `parse_aero_f_example`. */
  method ParseDocument(lines: seq<Line>) returns (structure: Entries)
    ensures structure == Document(lines, 0, [])
  {
    structure := [];
    var i: nat := 0;
    while i < |lines|
      invariant Document(lines, i, structure) == Document(lines, 0, [])
      decreases |lines| - i
    {
      match lines[i] {
        case Header(name) =>
          var section, j := ParseSection(lines, i + 1);
          structure := Put(structure, name, Dict(section));
          i := j;
        case _ =>
      }
      i := i + 1;
    }
  }

  /** `parse_aero_f_example`. Each line is stripped and classified once,
      before the loops run; as reading a line depends on that line alone,
      this gives what classifying it inside the loop gives. */
  method ParseAeroFExample(exampleText: string) returns (structure: Entries)
    ensures structure == Parse(exampleText)
  {
    var lines := ReadLines(Split(exampleText, '\n'));
    structure := ParseDocument(lines);
  }
}
