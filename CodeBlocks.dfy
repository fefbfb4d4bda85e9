/**
 * The first version of the tool (llm-aero-v0.py): the code blocks of the
 * documentation page are sorted into examples and structure notes, and every
 * one of them becomes a training prompt. The HTML parsing that finds the
 * blocks is not modelled; the text of the blocks, in document order, is the
 * input.
 */
module CodeBlocks {
  import opened Text
  import opened Dicts

  /** What `parse_html` returns: the example blocks in document order and the
      structure blocks, keyed `section_0`, `section_1`, ... */
  datatype Parsed = Parsed(examples: seq<string>, structure: seq<(string, string)>)

  /** A block is an example when its lower-cased text mentions `example` or `input`. */
  predicate IsExample(content: string) {
    Contains(Lower(content), "example") || Contains(Lower(content), "input")
  }

  /** The key of the structure block stored when `n` are already stored. */
  function SectionKey(n: nat): string {
    "section_" + NatToString(n)
  }

  lemma SectionKeyInjective(m: nat, n: nat)
    requires SectionKey(m) == SectionKey(n)
    ensures m == n
  {
    assert SectionKey(m)[8..] == NatToString(m);
    assert SectionKey(n)[8..] == NatToString(n);
    NatToStringInjective(m, n);
  }

  /** What one block does to the result, given its stripped text: a blank
      block is skipped, an example is appended, any other block is stored
      under the next key. */
  function Add(p: Parsed, content: string): Parsed {
    if content == [] then p
    else if IsExample(content) then Parsed(p.examples + [content], p.structure)
    else Parsed(p.examples, Put(p.structure, SectionKey(|p.structure|), content))
  }

  /** The classification of the blocks, one block at a time. */
  function Classify(blocks: seq<string>): Parsed
    decreases |blocks|
  {
    if blocks == [] then Parsed([], [])
    else Add(Classify(blocks[..|blocks| - 1]), Strip(blocks[|blocks| - 1]))
  }

  lemma ClassifyPrefix(blocks: seq<string>, i: nat)
    requires i < |blocks|
    ensures Classify(blocks[..i + 1]) == Add(Classify(blocks[..i]), Strip(blocks[i]))
  {
    assert blocks[..i + 1][..i] == blocks[..i];
  }

  /** The body of the sorting loop of `parse_html`: one block. */
  method SortBlock(parsed: Parsed, block: string) returns (parsed': Parsed)
    ensures parsed' == Add(parsed, Strip(block))
  {
    parsed' := parsed;
    var content := Strip(block);
    if content != [] {
      if IsExample(content) {
        parsed' := parsed'.(examples := parsed'.examples + [content]);
      } else {
        parsed' := parsed'.(structure := Put(parsed'.structure, SectionKey(|parsed'.structure|), content));
      }
    }
  }

  /** The sorting loop of `parse_html`. */
  method ParseCodeBlocks(blocks: seq<string>) returns (parsed: Parsed)
    ensures parsed == Classify(blocks)
  {
    parsed := Parsed([], []);
    for i := 0 to |blocks|
      invariant parsed == Classify(blocks[..i])
    {
      ClassifyPrefix(blocks, i);
      parsed := SortBlock(parsed, blocks[i]);
    }
    assert blocks[..|blocks|] == blocks;
  }

  /** The structure keys are `section_0`, `section_1`, ... in order. */
  predicate Numbered(structure: seq<(string, string)>) {
    forall i :: 0 <= i < |structure| ==> structure[i].0 == SectionKey(i)
  }

  /** Storing under the next number appends, so the numbering continues. */
  lemma NumberedNext(structure: seq<(string, string)>, content: string)
    requires Numbered(structure)
    ensures Put(structure, SectionKey(|structure|), content)
         == structure + [(SectionKey(|structure|), content)]
    ensures Numbered(structure + [(SectionKey(|structure|), content)])
  {
    var k := SectionKey(|structure|);
    if k in Keys(structure) {
      var j :| 0 <= j < |structure| && Keys(structure)[j] == k;
      SectionKeyInjective(j, |structure|);
    }
    PutNew(structure, k, content);
  }

  /** Every stored structure block gets a fresh consecutive key, so no block
      overwrites another. */
  lemma {:induction false} ClassifyNumbered(blocks: seq<string>)
    ensures Numbered(Classify(blocks).structure)
    ensures |Classify(blocks).examples| + |Classify(blocks).structure| <= |blocks|
    decreases |blocks|
  {
    if blocks != [] {
      ClassifyNumbered(blocks[..|blocks| - 1]);
      AddNumbered(Classify(blocks[..|blocks| - 1]), Strip(blocks[|blocks| - 1]));
    }
  }

  lemma AddNumbered(p: Parsed, content: string)
    requires Numbered(p.structure)
    ensures Numbered(Add(p, content).structure)
    ensures |Add(p, content).examples| + |Add(p, content).structure| <= |p.examples| + |p.structure| + 1
  {
    if content != [] && !IsExample(content) {
      NumberedNext(p.structure, content);
    }
  }

  lemma NumberedDistinct(structure: seq<(string, string)>)
    requires Numbered(structure)
    ensures DistinctKeys(structure)
  {
    forall i, j | 0 <= i < j < |structure|
      ensures structure[i].0 != structure[j].0
    {
      if structure[i].0 == structure[j].0 {
        SectionKeyInjective(i, j);
      }
    }
  }

  /** The stripped text of the blocks that are kept: those not blank. */
  function Kept(blocks: seq<string>): (r: seq<string>)
    ensures |r| <= |blocks|
    decreases |blocks|
  {
    if blocks == [] then []
    else
      var content := Strip(blocks[|blocks| - 1]);
      Kept(blocks[..|blocks| - 1]) + (if content == [] then [] else [content])
  }

  /** The stored texts of the structure blocks, in key order. */
  function Contents(structure: seq<(string, string)>): (r: seq<string>)
    ensures |r| == |structure|
    ensures forall i :: 0 <= i < |structure| ==> r[i] == structure[i].1
  {
    seq(|structure|, i requires 0 <= i < |structure| => structure[i].1)
  }

  lemma ContentsAppend(structure: seq<(string, string)>, entry: (string, string))
    ensures Contents(structure + [entry]) == Contents(structure) + [entry.1]
  {
  }

  /** One block adds its stripped text, if any, to exactly one of the two parts. */
  lemma AddKeepsBlock(p: Parsed, content: string)
    requires Numbered(p.structure)
    ensures var q := Add(p, content);
      multiset(q.examples) + multiset(Contents(q.structure))
      == multiset(p.examples) + multiset(Contents(p.structure))
         + multiset(if content == [] then [] else [content])
  {
    if content != [] && !IsExample(content) {
      NumberedNext(p.structure, content);
      ContentsAppend(p.structure, (SectionKey(|p.structure|), content));
    }
  }

  /** Sorting loses no kept block and invents none: the examples and the
      structure texts together are the kept blocks. */
  lemma {:induction false} ClassifyKeepsBlocks(blocks: seq<string>)
    ensures multiset(Classify(blocks).examples) + multiset(Contents(Classify(blocks).structure))
         == multiset(Kept(blocks))
    decreases |blocks|
  {
    if blocks != [] {
      var init := blocks[..|blocks| - 1];
      var last := blocks[|blocks| - 1];
      ClassifyKeepsBlocks(init);
      ClassifyNumbered(init);
      AddKeepsBlock(Classify(init), Strip(last));
      assert Kept(blocks) == Kept(init) + (if Strip(last) == [] then [] else [Strip(last)]);
    }
  }

  /** The kept texts that are examples, in order. */
  function Examples(kept: seq<string>): seq<string>
    decreases |kept|
  {
    if kept == [] then []
    else
      var last := kept[|kept| - 1];
      Examples(kept[..|kept| - 1]) + (if IsExample(last) then [last] else [])
  }

  /** The kept texts that are not examples, in order. */
  function Notes(kept: seq<string>): seq<string>
    decreases |kept|
  {
    if kept == [] then []
    else
      var last := kept[|kept| - 1];
      Notes(kept[..|kept| - 1]) + (if IsExample(last) then [] else [last])
  }

  lemma FiltersSnoc(kept: seq<string>, content: string)
    ensures Examples(kept + [content]) == Examples(kept) + (if IsExample(content) then [content] else [])
    ensures Notes(kept + [content]) == Notes(kept) + (if IsExample(content) then [] else [content])
  {
    assert (kept + [content])[..|kept|] == kept;
  }

  /** Sorting keeps document order on both sides: the examples are the kept
      blocks that mention a keyword, and the structure texts, in key order,
      are the other kept blocks, each in the order of the page. */
  lemma {:induction false} ClassifyInOrder(blocks: seq<string>)
    ensures Classify(blocks).examples == Examples(Kept(blocks))
    ensures Contents(Classify(blocks).structure) == Notes(Kept(blocks))
    decreases |blocks|
  {
    if blocks != [] {
      var init := blocks[..|blocks| - 1];
      var content := Strip(blocks[|blocks| - 1]);
      var p := Classify(init);
      ClassifyInOrder(init);
      ClassifyNumbered(init);
      if content == [] {
        assert Kept(blocks) == Kept(init) + [];
        assert Kept(init) + [] == Kept(init);
      } else {
        assert Kept(blocks) == Kept(init) + [content];
        FiltersSnoc(Kept(init), content);
        if !IsExample(content) {
          NumberedNext(p.structure, content);
          ContentsAppend(p.structure, (SectionKey(|p.structure|), content));
        }
      }
    }
  }

  /** Every example is a non-blank stripped text that mentions a keyword;
      every structure text is a non-blank stripped text that mentions none. */
  predicate RightlySorted(p: Parsed) {
    && (forall e :: e in p.examples ==> e != [] && IsStripped(e) && IsExample(e))
    && (forall i :: 0 <= i < |p.structure| ==>
          p.structure[i].1 != [] && IsStripped(p.structure[i].1) && !IsExample(p.structure[i].1))
  }

  lemma AddSorts(p: Parsed, content: string)
    requires Numbered(p.structure) && RightlySorted(p) && IsStripped(content)
    ensures RightlySorted(Add(p, content))
  {
    if content != [] && !IsExample(content) {
      NumberedNext(p.structure, content);
    }
  }

  /** Every block lands on the side its keywords call for. */
  lemma {:induction false} ClassifySorts(blocks: seq<string>)
    ensures RightlySorted(Classify(blocks))
    decreases |blocks|
  {
    if blocks != [] {
      var init := blocks[..|blocks| - 1];
      ClassifySorts(init);
      ClassifyNumbered(init);
      AddSorts(Classify(init), Strip(blocks[|blocks| - 1]));
    }
  }

  /** One training prompt: a system message, a request and the expected answer. */
  datatype Prompt = Prompt(system: string, user: string, assistant: string)

  const ExampleSystem := "You are an expert in generating aero-f input files. Follow the examples closely."
  const ExampleRequest := "Generate an aero-f input file based on this example:\n"
  const StructureSystem := "You are an expert in generating aero-f input files. Adhere to these structural guidelines."
  const StructureRequest := "Generate an aero-f input file following these requirements:\n"

  function ExamplePrompt(example: string): Prompt {
    Prompt(ExampleSystem, ExampleRequest + example, example)
  }

  function StructurePrompt(content: string): Prompt {
    Prompt(StructureSystem, StructureRequest + content, "")
  }

  /** The prompts `create_training_prompts` builds: one per example, then one
      per structure entry in key order. */
  function TrainingPrompts(parsed: Parsed): (r: seq<Prompt>)
    ensures |r| == |parsed.examples| + |parsed.structure|
  {
    seq(|parsed.examples|, i requires 0 <= i < |parsed.examples| => ExamplePrompt(parsed.examples[i]))
    + seq(|parsed.structure|, j requires 0 <= j < |parsed.structure| => StructurePrompt(parsed.structure[j].1))
  }

  /** `create_training_prompts`: two appending loops. */
  method CreateTrainingPrompts(parsed: Parsed) returns (prompts: seq<Prompt>)
    ensures prompts == TrainingPrompts(parsed)
    ensures |prompts| == |parsed.examples| + |parsed.structure|
    ensures forall i :: 0 <= i < |parsed.examples| ==>
      prompts[i].system == ExampleSystem && prompts[i].user == ExampleRequest + parsed.examples[i]
      && prompts[i].assistant == parsed.examples[i]
    ensures forall j :: 0 <= j < |parsed.structure| ==>
      var q := prompts[|parsed.examples| + j];
      q.system == StructureSystem && q.user == StructureRequest + parsed.structure[j].1 && q.assistant == ""
  {
    prompts := [];
    var i := 0;
    while i < |parsed.examples|
      invariant 0 <= i <= |parsed.examples|
      invariant |prompts| == i
      invariant forall k :: 0 <= k < i ==> prompts[k] == ExamplePrompt(parsed.examples[k])
    {
      prompts := prompts + [ExamplePrompt(parsed.examples[i])];
      i := i + 1;
    }
    var j := 0;
    while j < |parsed.structure|
      invariant 0 <= j <= |parsed.structure|
      invariant |prompts| == |parsed.examples| + j
      invariant forall k :: 0 <= k < |parsed.examples| ==> prompts[k] == ExamplePrompt(parsed.examples[k])
      invariant forall k :: 0 <= k < j ==> prompts[|parsed.examples| + k] == StructurePrompt(parsed.structure[k].1)
    {
      prompts := prompts + [StructurePrompt(parsed.structure[j].1)];
      j := j + 1;
    }
  }

  /** Reading the parsed blocks back from a list of prompts: an example prompt
      carries its example as the answer, a structure prompt carries its text
      after the fixed request and is renumbered in order. */
  function Recover(prompts: seq<Prompt>): Parsed
    decreases |prompts|
  {
    if prompts == [] then Parsed([], [])
    else
      var p := Recover(prompts[..|prompts| - 1]);
      var last := prompts[|prompts| - 1];
      if last.system == ExampleSystem then Parsed(p.examples + [last.assistant], p.structure)
      else if StartsWith(last.user, StructureRequest) then
        Parsed(p.examples, p.structure + [(SectionKey(|p.structure|), last.user[|StructureRequest|..])])
      else p
  }

  lemma SystemsDiffer()
    ensures ExampleSystem != StructureSystem
  {
    assert ExampleSystem[52] == 'F' && StructureSystem[52] == 'A';
  }

  lemma {:induction false} RecoverExamples(examples: seq<string>)
    ensures Recover(TrainingPrompts(Parsed(examples, []))) == Parsed(examples, [])
    decreases |examples|
  {
    var ps := TrainingPrompts(Parsed(examples, []));
    if examples != [] {
      var init := examples[..|examples| - 1];
      RecoverExamples(init);
      assert ps[..|ps| - 1] == TrainingPrompts(Parsed(init, []));
      assert examples == init + [examples[|examples| - 1]];
    }
  }

  /** A structure prompt read back appends its text under the next key. */
  lemma RecoverStructurePrompt(prompts: seq<Prompt>, content: string)
    ensures var p := Recover(prompts);
      Recover(prompts + [StructurePrompt(content)])
      == Parsed(p.examples, p.structure + [(SectionKey(|p.structure|), content)])
  {
    var ps := prompts + [StructurePrompt(content)];
    assert ps[..|ps| - 1] == prompts;
    SystemsDiffer();
    assert (StructureRequest + content)[..|StructureRequest|] == StructureRequest;
    assert (StructureRequest + content)[|StructureRequest|..] == content;
  }

  lemma TrainingPromptsSnoc(examples: seq<string>, structure: seq<(string, string)>)
    requires structure != []
    ensures TrainingPrompts(Parsed(examples, structure))
         == TrainingPrompts(Parsed(examples, structure[..|structure| - 1]))
            + [StructurePrompt(structure[|structure| - 1].1)]
  {
  }

  lemma {:induction false} RecoverStructure(examples: seq<string>, structure: seq<(string, string)>)
    requires Numbered(structure)
    ensures Recover(TrainingPrompts(Parsed(examples, structure))) == Parsed(examples, structure)
    decreases |structure|
  {
    if structure == [] {
      RecoverExamples(examples);
    } else {
      var init := structure[..|structure| - 1];
      var last := structure[|structure| - 1];
      RecoverStructure(examples, init);
      TrainingPromptsSnoc(examples, structure);
      RecoverStructurePrompt(TrainingPrompts(Parsed(examples, init)), last.1);
      assert structure == init + [(SectionKey(|init|), last.1)];
    }
  }

  /** The prompts keep everything `parse_html` found: the examples and the
      numbered structure texts can be read back from them. */
  lemma PromptsRecoverBlocks(blocks: seq<string>)
    ensures Recover(TrainingPrompts(Classify(blocks))) == Classify(blocks)
  {
    ClassifyNumbered(blocks);
    RecoverStructure(Classify(blocks).examples, Classify(blocks).structure);
  }

  /** The structure dictionary never holds a key twice. */
  lemma ClassifyKeysDistinct(blocks: seq<string>)
    ensures DistinctKeys(Classify(blocks).structure)
  {
    ClassifyNumbered(blocks);
    NumberedDistinct(Classify(blocks).structure);
  }

  /** There is one training prompt per non-blank code block. */
  lemma PromptPerBlock(blocks: seq<string>)
    ensures |TrainingPrompts(Classify(blocks))| == |Kept(blocks)|
  {
    var p := Classify(blocks);
    ClassifyKeepsBlocks(blocks);
    assert |multiset(p.examples) + multiset(Contents(p.structure))| == |multiset(Kept(blocks))|;
  }
}
