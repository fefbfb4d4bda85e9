# llm-aero-input-generator, modelled in Dafny

The tool writes input files for the Aero-F flow solver by prompting a
language model. Four versions of the script are modelled, and only their
deterministic text and tree routines:

- **Code-block sorting and training prompts** (`llm-aero-v0.py`). Each code
  block of the documentation page is stripped. Blank blocks are dropped. A
  block that mentions `example` or `input` is an example; any other block is
  stored as `section_0`, `section_1`, …. Every example and every structure
  block then becomes one training prompt.
- **Example grouping** (`parse_html` in `llm-aero-v1.py`,
  `llm-aero-v1_agentic.py` and `llm-aero-v2.py`). A loop over the elements
  after the examples heading collects code blocks into examples under their
  headings. The three copies differ only in the heading tags, which are a
  parameter here.
- **Example reader** (`parse_aero_f_example` in `llm-aero-v2.py`). It reads
  Aero-F text (`under NAME {`, `key = value;` and `}` lines) into a nested
  dictionary.
- **Formatter** (`format_structure_for_prompt` in `llm-aero-v2.py`). It writes
  a nested dictionary back as indented Aero-F text.
- **Parameter inference** (`generate_input_file` in `llm-aero-v1.py` and
  `llm-aero-v2.py`). Substring tests on the lowered request pick a simulation
  type and an accuracy order. The regular-expression captures for the mesh
  file, Reynolds number and Mach number are inputs. The parameter dictionary
  is built from these by in-place updates.
- **Parameter text.** `llm-aero-v1.py` renders the dictionary with nested
  loops of its own. `llm-aero-v2.py` renders it with the formatter.

Python dictionaries are sequences of key/value pairs in insertion order
(`Dicts.Put`): assigning to an existing key overwrites the value in place,
and a new key is appended. Values are text or nested dictionaries
(`Dicts.Value`). `strip`, `lower`, `\s` and `\w` are modelled on ASCII.
The loops of the source are methods with loop invariants. Each is proved
equal to a function, and the properties are lemmas about those functions.

The reader's quirks are kept and stated as theorems:

- After a nested block returns, the caller advances the cursor once more.
  So the line right after a block's closing `}` is never read.
- Top-level assignments and stray closing lines are ignored.
- Running out of lines closes every open section without error.
- The round trip (read back the formatter's text) holds for a single
  top-level block of plain assignments. It fails for two top-level blocks.

## Model

| member | source | states |
|---|---|---|
| `CodeBlocks.ParseCodeBlocks` | llm-aero-v0.py:27-41 | the sorting loop returns `Classify` of the block texts, in document order |
| `CodeBlocks.SortBlock` | llm-aero-v0.py:30-36 | one block: skipped when its stripped text is empty, appended to the examples when it mentions `example` or `input`, otherwise stored under `section_<count>` |
| `CodeBlocks.ClassifyNumbered` | llm-aero-v0.py:36 | the structure keys are exactly `section_0`, `section_1`, … in order, so storing a block never overwrites another; there are at most as many results as blocks |
| `CodeBlocks.ClassifyKeysDistinct` | llm-aero-v0.py:36 | no structure key occurs twice |
| `CodeBlocks.SectionKeyInjective` | llm-aero-v0.py:36 | distinct counts give distinct `section_<n>` keys |
| `CodeBlocks.ClassifyKeepsBlocks` | llm-aero-v0.py:29-36 | the examples and the structure texts together are, as a multiset, exactly the stripped non-blank blocks: nothing lost, nothing invented |
| `CodeBlocks.ClassifyInOrder` | llm-aero-v0.py:29-36 | the examples are exactly the kept blocks that mention a keyword, and the structure texts in key order exactly the other kept blocks, both in document order |
| `CodeBlocks.ClassifySorts` | llm-aero-v0.py:30-36 | every example is non-blank, stripped and mentions a keyword; every structure text is non-blank, stripped and mentions none |
| `CodeBlocks.AddKeepsBlock` | llm-aero-v0.py:30-36 | one block adds its stripped text, if not blank, to exactly one of the two parts |
| `CodeBlocks.TrainingPrompts` | llm-aero-v0.py:43-60 | the prompt list has one prompt per example plus one per structure entry |
| `CodeBlocks.CreateTrainingPrompts` | llm-aero-v0.py:43-60 | the two appending loops give, at position i, the example prompt (fixed system text, fixed request followed by the example, the example as answer), then at position `|examples| + j` the structure prompt (fixed system text, fixed request followed by the text, empty answer) |
| `CodeBlocks.PromptsRecoverBlocks` | llm-aero-v0.py:27-60 | the examples and the numbered structure texts can be read back from the prompts: the prompts lose nothing `parse_html` found |
| `CodeBlocks.RecoverStructure` | llm-aero-v0.py:53-58 | structure prompts read back as the structure texts, renumbered in order |
| `CodeBlocks.RecoverExamples` | llm-aero-v0.py:46-51 | example prompts read back as the examples |
| `CodeBlocks.PromptPerBlock` | llm-aero-v0.py:29-60 | there is exactly one training prompt per non-blank code block |
| `Grouping.GroupExamples` | llm-aero-v2.py:46-62 | the loop and the final flush return `Group` of the elements, for any set of heading tags |
| `Grouping.GroupKeepsCode` | llm-aero-v1.py:147-163 | the emitted contents, one after another, are all code texts (each stripped, with a newline) in document order: nothing lost, duplicated or reordered |
| `Grouping.RunKeepsCode` | llm-aero-v1_agentic.py:194-210 | between elements, the emitted contents followed by the pending example are all code text so far |
| `Grouping.GroupContentOk` | llm-aero-v1.py:156-163 | every emitted example is non-empty and ends in a newline |
| `Grouping.GroupEmptyIffNoCode` | llm-aero-v1_agentic.py:202-210 | some example is emitted exactly when there is some code element |
| `Grouping.GroupHeadings` | llm-aero-v1.py:147-163 | every emitted example is tied to the moment that emitted it: a heading or ordinary element, or the final flush; its content is what was pending then, and its heading is `HeadingAfter` the elements before that moment |
| `Grouping.RunHeading` | llm-aero-v1_agentic.py:194-207 | after every element the loop's heading is exactly `HeadingAfter` of the elements so far: the last heading element's stripped text, or empty when there is none or when a code element after it was followed by an ordinary element; while that heading's example is open, something is pending exactly when code followed the heading |
| `Grouping.HeadingElementEffect` | llm-aero-v1.py:150-154 | a heading element emits the pending example when there is one and sets the heading to its own stripped text with nothing pending |
| `Grouping.OtherElementEffect` | llm-aero-v1_agentic.py:204-207 | an element that is neither heading nor code changes nothing when nothing is pending, and otherwise flushes and resets heading and pending |
| `ExampleParser.MatchHeaderSound` | llm-aero-v2.py:86-89 | whatever the header pattern matches has the shape `under`, whitespace, a word, optional whitespace, `{` |
| `ExampleParser.MatchHeaderComplete` | llm-aero-v2.py:86-89 | every line of that shape matches, with the word as group 1 |
| `ExampleParser.AssignmentOfSplit` | llm-aero-v2.py:94-96 | any line `a=b` whose `a` holds no `=` reads as the key `a` stripped and the value `b` stripped with its trailing semicolons removed |
| `ExampleParser.Section` | llm-aero-v2.py:82-98 | the returned index never moves backwards and moves forwards whenever lines remain |
| `ExampleParser.ParseSection` | llm-aero-v2.py:82-98 | the `while` loop with its recursive calls returns `Section` of the lines, section and next index |
| `ExampleParser.ParseDocument` | llm-aero-v2.py:100-108 | the outer loop returns `Document` of the lines |
| `ExampleParser.ParseAeroFExample` | llm-aero-v2.py:76-110 | splitting, stripping and both loops return `Parse` of the text |
| `ExampleParser.ReadLinesAppend` | llm-aero-v2.py:79 | each line is read independently of the others |
| `ParserProperties.ParseWellFormed` | llm-aero-v2.py:100-110 | the result holds only sections, each under the bare name of a header line of the text, keys distinct, nested sections under `under NAME`, assignments under stripped `=`-free keys |
| `ParserProperties.SectionWellFormed` | llm-aero-v2.py:82-98 | every section read is well formed at every depth |
| `ParserProperties.DocumentWellFormed` | llm-aero-v2.py:100-108 | the outer loop keeps the top level well formed |
| `ParserProperties.PutWellFormed` | llm-aero-v2.py:86-96 | a dictionary assignment of a well-formed entry keeps a section well formed |
| `ParserProperties.SectionEnd` | llm-aero-v2.py:92-98 | a section ends one past a closing line, or at or beyond the end of the lines |
| `ParserProperties.SectionStopsAtCloser` | llm-aero-v2.py:92-93 | with only assignments and ignored lines before a closer, the section ends right after it |
| `ParserProperties.SectionRunsOut` | llm-aero-v2.py:84-98 | with no header or closer ahead, the section runs to the end without error |
| `ParserProperties.SectionFrame` | llm-aero-v2.py:82-98 | a section depends only on the lines between its start and its end |
| `ParserProperties.DocumentFrame` | llm-aero-v2.py:100-108 | the document depends only on the lines from the cursor on |
| `ParserProperties.SectionSkipsLineAfterBlock` | llm-aero-v2.py:90-97 | the line right after a nested block's end is never examined: replacing it changes nothing |
| `ParserProperties.DocumentSkipsLineAfterBlock` | llm-aero-v2.py:106-108 | the same at the top level |
| `ParserProperties.DocumentWithoutHeaders` | llm-aero-v2.py:100-108 | without header lines the document is unchanged: top-level assignments and stray closers contribute nothing |
| `ParserProperties.SkippedBlockLandsInParent` | llm-aero-v2.py:90-97 | a block written right after a sibling's closer is dropped and its assignment lands in the parent |
| `ParserProperties.UnderAssignmentIgnored` | llm-aero-v2.py:86-91 | `underRelax = 0.5;` is ignored although it holds `=` |
| `ParserProperties.DottedHeaderIgnored` | llm-aero-v2.py:86-91 | `under A.B {` is ignored |
| `ParserProperties.ReadLineOk` | llm-aero-v2.py:84-96 | every line of the text reads as a header with a word name, a closer, an assignment with a well-formed key and value, or nothing |
| `Formatter.FormatStructureForPrompt` | llm-aero-v2.py:248-266 | the recursive loop returns `Format` of the dictionary at the indentation level |
| `Formatter.FormatConcat` | llm-aero-v2.py:253 | entries are rendered in the dictionary's order, one after the other |
| `Formatter.DictEntryText` | llm-aero-v2.py:254-262 | a dictionary entry renders as the indented header line, its children one level deeper, and a `}` line at the header's indentation |
| `Formatter.StrEntryText` | llm-aero-v2.py:263-264 | a text entry renders as the indented `key = value;` line |
| `Formatter.FormatIndented` | llm-aero-v2.py:251 | every line at level n starts with 2n spaces |
| `Formatter.FormatBalanced` | llm-aero-v2.py:254-262 | the braces of the rendering balance: the depth never drops below zero and ends at zero |
| `Formatter.EntryBalanced` | llm-aero-v2.py:254-264 | each entry's lines are balanced, and a header's block stays open until its last line |
| `RoundTrip.RoundTrip` | llm-aero-v2.py:76-110 | reading back the rendering of one top-level block of assignments (word name not starting with `under`, stripped `=`-free keys, stripped one-line values without trailing `;`) gives the block |
| `RoundTrip.SecondTopLevelBlockLost` | llm-aero-v2.py:100-110 | for all pairs of top-level blocks of assignments, reading back the rendering gives only the first block: the round trip does not extend to two blocks |
| `RoundTrip.ReadScalarLine` | llm-aero-v2.py:94-96 | a rendered assignment line reads as that assignment |
| `RoundTrip.HeaderReadsBack` | llm-aero-v2.py:254-262 | a header the formatter writes, at any indentation, reads back as a header with the bare name, both for a top-level word and for a nested key that already starts with `under ` |
| `Parameters.SimulationTypeUnreachable` | llm-aero-v1.py:214-222 | the simulation type is never `Incompressible` and never `Unsteady` |
| `Parameters.IncompressibleReadAsNavierStokes` | llm-aero-v2.py:158-166 | a request for an incompressible flow simulation is read as `NavierStokes` |
| `Parameters.UnsteadyReadAsSteady` | llm-aero-v1.py:219-222 | an unsteady request without the compressible phrase is read as `Steady` |
| `Parameters.CorrectedSimulationTypeSound` | llm-aero-v1.py:214-222 | with the longer phrases tested first, each type is chosen exactly when its phrase occurs and no more specific one does |
| `Parameters.AccuracyOrder` | llm-aero-v1.py:239-243 | `2` exactly when `second order` occurs, `1` exactly when only `first order` occurs, the sentinel otherwise |
| `Parameters.BuildParameters` | llm-aero-v1.py:246-270 | the in-place updates build `ParameterTree` of the five values |
| `Parameters.SetInSection` | llm-aero-v1.py:253-256 | `d[s][k] = v` after creating `d[s]` when missing: the section is updated where it stands or appended |
| `Parameters.SetInSubsection` | llm-aero-v2.py:202-214 | `d[s][c][k] = v` after creating `d[s] = {c: {}}` when missing |
| `Parameters.InferParameters` | llm-aero-v2.py:158-214 | inference from the request and the captures, then construction, gives `ParameterTree` of the inferred values |
| `Parameters.InferParametersCorrected` | llm-aero-v1.py:214-270 | the same with the corrected classification |
| `Parameters.ParameterTreeOrdered` | llm-aero-v1.py:246-270 | the top-level keys are Problem, Input, BoundaryConditions, Space, Time in that order (those present), distinct, each holding a dictionary |
| `Parameters.PartKeys` | llm-aero-v1.py:247-270 | each section is present exactly when its value is known (Input when the file or the Reynolds number is) |
| `Parameters.InputSection` | llm-aero-v1.py:250-256 | Input holds Geometry before ReynoldsNumber when both are known, and only the known ones |
| `Parameters.ParameterTreeLeaves` | llm-aero-v1.py:246-270 | each leaf path holds its value exactly when the value is known; Reconstruction is `Linear` exactly for order `2`; Time Order is the order |
| `Parameters.InferredParameters` | llm-aero-v1.py:214-270 | the inferred dictionary never holds an incompressible or unsteady problem; Reconstruction is `Linear` exactly when the request says `second order`; Time Order is `1` exactly when it says only `first order` |
| `Parameters.CorrectedInferredType` | llm-aero-v1.py:214-222 | with the correction, the problem type is `Incompressible` exactly for an incompressible request and `Unsteady` exactly for an unsteady request without the compressible phrase |
| `ParameterSection.RenderParametersV1` | llm-aero-v1.py:273-284 | the three nested loops build `SectionsText` of the dictionary |
| `ParameterSection.AppendParams` | llm-aero-v1.py:276-283 | the loop over a section's parameters appends their text |
| `ParameterSection.AppendSubLines` | llm-aero-v1.py:279-280 | the loop over a nested block appends one `    k = v;` line per entry |
| `ParameterSection.ParameterTreeRenderable` | llm-aero-v1.py:246-284 | the inferred dictionary has the shape the renderer handles |
| `ParameterSection.V1DoublesClosingBraces` | llm-aero-v1.py:273-284 | on brace-free data the text has exactly twice as many `}` as `{` |
| `ParameterSection.V1DoublesUnder` | llm-aero-v1.py:275-284 | the Mach section renders with the header `  under under Inlet {` and the closers `  }}` and `}}` |
| `ParameterSection.RenderParametersV2` | llm-aero-v2.py:216 | the second generator's text is the formatter's rendering, and its braces balance |
| `ParameterSection.V2KeepsUnder` | llm-aero-v2.py:248-264 | the Mach section renders as `under BoundaryConditions {`, `  under Inlet {`, `    Mach = m;`, `  }`, `}` |

## Left out

- Fetching the documentation, the language-model client, the Gradio
  interface, and file, JSON and YAML input and output. These are network,
  user-interface and file I/O.
- The HTML library. The code blocks (v0) and the sibling elements of the
  examples heading (tag, classes, text) are inputs. `get_text` is the
  element's text.
- The "Examples" heading lookup and its warning. When the heading is
  missing the example list stays empty; the model starts from the element
  list.
- The regular-expression searches for the mesh file, the Reynolds number
  and the Mach number. Their captured groups are inputs (`Parameters.Captures`).
- The prompt templates, the knowledge-base literal and the loop that
  writes the examples into the prompt. They are templating and constant
  data.
- `create_training_prompts` of llm-aero-v1.py and llm-aero-v2.py. It
  repeats the v0 one, which is modelled.
- The glue of llm-aero-v1_agentic.py outside its grouping loop.
- Unicode: `strip`, `lower`, `\s` and `\w` are modelled on ASCII only.
- `ParameterSection.RenderParametersV1` requires every section to be a
  dictionary and every entry of a nested block to be text. The source
  raises on a text-valued section, and prints nested dictionaries with
  Python's `repr`; neither is modelled. `ParameterTreeRenderable` shows
  that the inferred dictionary always meets the requirement.
- `ParameterSection.V1DoublesClosingBraces` requires keys and values
  without braces. Braces inside the data would be counted too.
- `RoundTrip.RoundTrip` covers one top-level block of plain assignments.
  Nothing wider holds: see `RoundTrip.SecondTopLevelBlockLost`.

## Findings

| source | as written | input that shows it | evidently intended | confidence | as-written member | corrected member |
|---|---|---|---|---|---|---|
| llm-aero-v1.py:215-222 (same at llm-aero-v2.py:159-166) | the `elif` chain tests `compressible flow simulation` before `incompressible flow simulation`, and `steady` before `unsteady`; each longer phrase contains the shorter one | `run an incompressible flow simulation` gives `NavierStokes`; `an unsteady run` gives `Steady` | the longer phrase tested first, so `Incompressible` and `Unsteady` can be chosen | high; not executed | `Parameters.SimulationTypeUnreachable`, `Parameters.IncompressibleReadAsNavierStokes`, `Parameters.UnsteadyReadAsSteady` | `Parameters.CorrectedSimulationTypeSound`, `Parameters.CorrectedInferredType` |
| llm-aero-v1.py:281-284 | the closers `"  }}\n"` and `"}}\n"` are plain strings, not f-strings, so two braces are printed | Mach `0.5` alone gives `  }}` and `}}` closing lines | one `}` per block, as the f-string escapes elsewhere in the renderer produce | high; not executed | `ParameterSection.V1DoublesClosingBraces` | `ParameterSection.RenderParametersV2`, `Formatter.FormatBalanced` |
| llm-aero-v1.py:278 | the nested key is stored as `under Inlet` and printed behind another `under ` | Mach `0.5` alone gives `  under under Inlet {` | `  under Inlet {`, as the formatter writes it | high; not executed | `ParameterSection.V1DoublesUnder` | `ParameterSection.V2KeepsUnder`, `RoundTrip.HeaderReadsBack` |
