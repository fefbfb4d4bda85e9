/**
 * The grouping of the documentation's example section into examples: the
 * loop of `parse_html` in llm-aero-v1.py, llm-aero-v1_agentic.py and
 * llm-aero-v2.py. The loop walks the elements that follow the examples
 * heading. A heading element starts a new example group under its text; a
 * `pre` element of class `code` adds its stripped text and a newline to the
 * pending example; any other element ends the pending example and forgets
 * the heading. The three copies differ only in which tags count as headings,
 * so the heading tags are a parameter.
 *
 * `Advance` is one turn of the loop and `Run` the loop as a function;
 * `GroupExamples` is the loop of the source, proved equal to `Group`.
 */
module Grouping {
  import opened Text
  import opened Dicts

  /** One sibling element of the examples heading, as the HTML library
      presents it: its tag name, its classes and its text. */
  datatype Element = Element(tag: string, classes: seq<string>, text: string)

  /** One emitted example: `{"heading": ..., "content": ...}`. */
  datatype Example = Example(heading: string, content: string)

  /** The heading tags of llm-aero-v1.py and llm-aero-v1_agentic.py. */
  const V1Headings: seq<string> := ["h4", "h5", "h6", "h7", "h8", "h9"]

  /** The heading tags of llm-aero-v2.py. */
  const V2Headings: seq<string> := ["h3", "h4", "h5", "h6", "h7", "h8", "h9"]

  datatype Kind = HeadingElement | CodeElement | OtherElement

  /** The three branches of the loop body, tested in the source's order. */
  function KindOf(e: Element, headings: seq<string>): Kind {
    if e.tag in headings then HeadingElement
    else if e.tag == "pre" && "code" in e.classes then CodeElement
    else OtherElement
  }

  /** The loop's variables: the examples emitted so far, `current_heading`
      and `current_example`. */
  datatype State = State(examples: seq<Example>, heading: string, pending: string)

  /** The pending example, when there is one, emitted under the heading. */
  function Flush(st: State): seq<Example> {
    if st.pending != [] then st.examples + [Example(st.heading, st.pending)] else st.examples
  }

  /** One turn of the loop. */
  function Advance(st: State, e: Element, headings: seq<string>): State {
    match KindOf(e, headings)
    case HeadingElement => State(Flush(st), Strip(e.text), [])
    case CodeElement => State(st.examples, st.heading, st.pending + Strip(e.text) + "\n")
    case OtherElement => if st.pending != [] then State(Flush(st), [], []) else st
  }

  /** The loop over the first `|es|` elements, from empty variables. */
  function Run(es: seq<Element>, headings: seq<string>): State
    decreases |es|
  {
    if es == [] then State([], [], [])
    else Advance(Run(es[..|es| - 1], headings), es[|es| - 1], headings)
  }

  /** The examples `parse_html` returns: the loop, then the final flush. */
  function Group(es: seq<Element>, headings: seq<string>): seq<Example> {
    Flush(Run(es, headings))
  }

  /** The loop of `parse_html`, on the sibling elements. */
  method GroupExamples(elements: seq<Element>, headings: seq<string>) returns (examples: seq<Example>)
    ensures examples == Group(elements, headings)
  {
    examples := [];
    var currentExample := "";
    var currentHeading := "";
    for i := 0 to |elements|
      invariant State(examples, currentHeading, currentExample) == Run(elements[..i], headings)
    {
      var element := elements[i];
      assert elements[..i + 1][..i] == elements[..i];
      if element.tag in headings {
        if currentExample != [] {
          examples := examples + [Example(currentHeading, currentExample)];
          currentExample := "";
        }
        currentHeading := Strip(element.text);
      } else if element.tag == "pre" && "code" in element.classes {
        currentExample := currentExample + Strip(element.text) + "\n";
      } else if currentExample != [] {
        examples := examples + [Example(currentHeading, currentExample)];
        currentExample := "";
        currentHeading := "";
      }
    }
    assert elements[..|elements|] == elements;
    if currentExample != [] {
      examples := examples + [Example(currentHeading, currentExample)];
    }
  }

  // ---------------------------------------------------------------------
  // What the grouping promises

  /** The text of a code element as it enters an example. */
  function CodeText(e: Element): string {
    Strip(e.text) + "\n"
  }

  /** All code text of the elements, in document order. */
  function AllCode(es: seq<Element>, headings: seq<string>): string
    decreases |es|
  {
    if es == [] then []
    else
      var last := es[|es| - 1];
      AllCode(es[..|es| - 1], headings) + (if KindOf(last, headings) == CodeElement then CodeText(last) else [])
  }

  /** The contents of examples, one after the other. */
  function Contents(xs: seq<Example>): string
    decreases |xs|
  {
    if xs == [] then [] else Contents(xs[..|xs| - 1]) + xs[|xs| - 1].content
  }

  lemma ContentsSnoc(xs: seq<Example>, x: Example)
    ensures Contents(xs + [x]) == Contents(xs) + x.content
  {
    assert (xs + [x])[..|xs|] == xs;
  }

  /** What an example's content is: some code text, each piece ending in a
      newline. */
  predicate ContentOk(c: string) {
    c != [] && c[|c| - 1] == '\n'
  }

  predicate StateOk(st: State) {
    (forall k :: 0 <= k < |st.examples| ==> ContentOk(st.examples[k].content))
    && (st.pending == [] || ContentOk(st.pending))
  }

  lemma FlushOk(st: State)
    requires StateOk(st)
    ensures forall k :: 0 <= k < |Flush(st)| ==> ContentOk(Flush(st)[k].content)
  {
  }

  lemma AdvanceOk(st: State, e: Element, headings: seq<string>)
    requires StateOk(st)
    ensures StateOk(Advance(st, e, headings))
  {
    FlushOk(st);
    if KindOf(e, headings) == CodeElement {
      var p := st.pending + Strip(e.text) + "\n";
      assert p[|p| - 1] == '\n';
    }
  }

  lemma {:induction false} RunOk(es: seq<Element>, headings: seq<string>)
    ensures StateOk(Run(es, headings))
    decreases |es|
  {
    if es != [] {
      RunOk(es[..|es| - 1], headings);
      AdvanceOk(Run(es[..|es| - 1], headings), es[|es| - 1], headings);
    }
  }

  /** No emitted example is empty, and each ends in a newline. */
  lemma GroupContentOk(es: seq<Element>, headings: seq<string>)
    ensures forall k :: 0 <= k < |Group(es, headings)| ==> ContentOk(Group(es, headings)[k].content)
  {
    RunOk(es, headings);
    FlushOk(Run(es, headings));
  }

  /** Between two elements, the emitted contents followed by the pending
      example are exactly the code text seen so far. */
  lemma {:induction false} RunKeepsCode(es: seq<Element>, headings: seq<string>)
    ensures Contents(Run(es, headings).examples) + Run(es, headings).pending == AllCode(es, headings)
    decreases |es|
  {
    if es != [] {
      var init, last := es[..|es| - 1], es[|es| - 1];
      RunKeepsCode(init, headings);
      AdvanceKeepsCode(Run(init, headings), last, headings);
    }
  }

  lemma AdvanceKeepsCode(st: State, e: Element, headings: seq<string>)
    ensures var st' := Advance(st, e, headings);
      Contents(st'.examples) + st'.pending
      == Contents(st.examples) + st.pending + (if KindOf(e, headings) == CodeElement then CodeText(e) else [])
  {
    var st' := Advance(st, e, headings);
    FlushContents(st);
    match KindOf(e, headings)
    case HeadingElement =>
      assert st'.pending == [];
    case CodeElement =>
      Assoc(Contents(st.examples), st.pending, Strip(e.text) + "\n");
      Assoc(st.pending, Strip(e.text), "\n");
    case OtherElement =>
  }

  lemma FlushContents(st: State)
    ensures Contents(Flush(st)) == Contents(st.examples) + st.pending
  {
    if st.pending != [] {
      ContentsSnoc(st.examples, Example(st.heading, st.pending));
    } else {
      assert Contents(st.examples) + st.pending == Contents(st.examples);
    }
  }

  /** Nothing is lost, duplicated or reordered: the examples' contents, one
      after the other, are the code elements' stripped texts, each followed
      by a newline, in document order. */
  lemma GroupKeepsCode(es: seq<Element>, headings: seq<string>)
    ensures Contents(Group(es, headings)) == AllCode(es, headings)
  {
    RunKeepsCode(es, headings);
    FlushContents(Run(es, headings));
  }

  /** Contents of non-empty examples are empty only when there are none. */
  lemma {:induction false} ContentsEmpty(xs: seq<Example>)
    requires forall k :: 0 <= k < |xs| ==> ContentOk(xs[k].content)
    ensures Contents(xs) == [] <==> xs == []
    decreases |xs|
  {
    if xs != [] {
      assert ContentOk(xs[|xs| - 1].content);
      assert |Contents(xs)| >= |xs[|xs| - 1].content|;
    }
  }

  /** Some example is emitted exactly when there is some code element. */
  lemma GroupEmptyIffNoCode(es: seq<Element>, headings: seq<string>)
    ensures Group(es, headings) == [] <==> AllCode(es, headings) == []
  {
    GroupContentOk(es, headings);
    GroupKeepsCode(es, headings);
    ContentsEmpty(Group(es, headings));
  }

  /** The position of the last heading element of `es`, if there is one. */
  function LastHeading(es: seq<Element>, headings: seq<string>): (r: Option<nat>)
    ensures r.None? <==> forall m :: 0 <= m < |es| ==> KindOf(es[m], headings) != HeadingElement
    ensures r.Some? ==> r.value < |es| && KindOf(es[r.value], headings) == HeadingElement
    ensures r.Some? ==> forall m :: r.value < m < |es| ==> KindOf(es[m], headings) != HeadingElement
    decreases |es|
  {
    if es == [] then None
    else if KindOf(es[|es| - 1], headings) == HeadingElement then Some(|es| - 1)
    else LastHeading(es[..|es| - 1], headings)
  }

  /** A code element follows position `j`. */
  predicate CodeAfter(es: seq<Element>, j: nat, headings: seq<string>) {
    exists m :: j < m < |es| && KindOf(es[m], headings) == CodeElement
  }

  /** After position `j`, a code element is followed later by an element that
      is neither heading nor code: that element emitted the example and
      dropped the heading. */
  predicate ClosedAfter(es: seq<Element>, j: nat, headings: seq<string>) {
    exists m1, m2 :: j < m1 < m2 < |es|
      && KindOf(es[m1], headings) == CodeElement && KindOf(es[m2], headings) == OtherElement
  }

  /** The heading in force after the elements `es`, read off the elements
      alone: the stripped text of the last heading element, or empty when
      there is none yet or when, after it, a code element was followed by an
      ordinary element. An ordinary element with nothing pending keeps the
      heading. */
  function HeadingAfter(es: seq<Element>, headings: seq<string>): string {
    match LastHeading(es, headings)
    case None => []
    case Some(j) => if ClosedAfter(es, j, headings) then [] else Strip(es[j].text)
  }

  /** While the last heading's example is open, something is pending exactly
      when a code element followed that heading. */
  predicate PendingRule(es: seq<Element>, pending: string, headings: seq<string>) {
    match LastHeading(es, headings)
    case None => true
    case Some(j) => !ClosedAfter(es, j, headings) ==> (pending != [] <==> CodeAfter(es, j, headings))
  }

  /** A heading element emits the pending example, if any, and sets the
      heading to its own stripped text with nothing pending. */
  lemma HeadingElementEffect(st: State, e: Element, headings: seq<string>)
    requires KindOf(e, headings) == HeadingElement
    ensures Advance(st, e, headings) == State(Flush(st), Strip(e.text), [])
    ensures st.pending == [] ==> Flush(st) == st.examples
    ensures st.pending != [] ==> Flush(st) == st.examples + [Example(st.heading, st.pending)]
  {
  }

  /** After every element the loop holds exactly `HeadingAfter` of the
      elements so far. */
  lemma {:induction false} RunHeading(es: seq<Element>, headings: seq<string>)
    ensures Run(es, headings).heading == HeadingAfter(es, headings)
    ensures PendingRule(es, Run(es, headings).pending, headings)
    decreases |es|
  {
    if es != [] {
      RunHeading(es[..|es| - 1], headings);
      HeadingStep(es, Run(es[..|es| - 1], headings), headings);
    }
  }

  lemma HeadingStep(es: seq<Element>, st: State, headings: seq<string>)
    requires es != []
    requires st.heading == HeadingAfter(es[..|es| - 1], headings)
    requires PendingRule(es[..|es| - 1], st.pending, headings)
    ensures Advance(st, es[|es| - 1], headings).heading == HeadingAfter(es, headings)
    ensures PendingRule(es, Advance(st, es[|es| - 1], headings).pending, headings)
  {
    var init, last := es[..|es| - 1], es[|es| - 1];
    var st' := Advance(st, last, headings);
    if KindOf(last, headings) == HeadingElement {
      assert LastHeading(es, headings) == Some(|es| - 1);
      assert !ClosedAfter(es, |es| - 1, headings);
      assert !CodeAfter(es, |es| - 1, headings);
    } else {
      assert LastHeading(es, headings) == LastHeading(init, headings);
      match LastHeading(init, headings)
      case None =>
      case Some(j) =>
        assert es[j] == init[j];
        ExtendAfter(es, j, headings);
        if KindOf(last, headings) == CodeElement {
          assert ClosedAfter(es, j, headings) == ClosedAfter(init, j, headings);
          assert CodeAfter(es, j, headings);
        } else if !ClosedAfter(init, j, headings) && st.pending != [] {
          assert ClosedAfter(es, j, headings);
        }
    }
  }

  /** How `CodeAfter` and `ClosedAfter` grow by one more element. */
  lemma ExtendAfter(es: seq<Element>, j: nat, headings: seq<string>)
    requires j < |es| - 1
    ensures var init, last := es[..|es| - 1], es[|es| - 1];
      && (CodeAfter(es, j, headings) <==> CodeAfter(init, j, headings) || KindOf(last, headings) == CodeElement)
      && (ClosedAfter(es, j, headings) <==>
            ClosedAfter(init, j, headings) || (CodeAfter(init, j, headings) && KindOf(last, headings) == OtherElement))
  {
    CodeAfterGrow(es, j, headings);
    ClosedAfterGrow(es, j, headings);
    ClosedAfterShrink(es, j, headings);
  }

  lemma CodeAfterGrow(es: seq<Element>, j: nat, headings: seq<string>)
    requires j < |es| - 1
    ensures CodeAfter(es, j, headings)
      <==> CodeAfter(es[..|es| - 1], j, headings) || KindOf(es[|es| - 1], headings) == CodeElement
  {
    var init := es[..|es| - 1];
    if CodeAfter(init, j, headings) {
      var m :| j < m < |init| && KindOf(init[m], headings) == CodeElement;
      assert es[m] == init[m];
    }
    if CodeAfter(es, j, headings) && KindOf(es[|es| - 1], headings) != CodeElement {
      var m :| j < m < |es| && KindOf(es[m], headings) == CodeElement;
      assert init[m] == es[m];
    }
  }

  lemma ClosedAfterGrow(es: seq<Element>, j: nat, headings: seq<string>)
    requires j < |es| - 1
    ensures ClosedAfter(es[..|es| - 1], j, headings) ==> ClosedAfter(es, j, headings)
    ensures CodeAfter(es[..|es| - 1], j, headings) && KindOf(es[|es| - 1], headings) == OtherElement
      ==> ClosedAfter(es, j, headings)
  {
    var init := es[..|es| - 1];
    if ClosedAfter(init, j, headings) {
      var m1, m2 :| j < m1 < m2 < |init|
        && KindOf(init[m1], headings) == CodeElement && KindOf(init[m2], headings) == OtherElement;
      assert es[m1] == init[m1] && es[m2] == init[m2];
    }
    if CodeAfter(init, j, headings) && KindOf(es[|es| - 1], headings) == OtherElement {
      var m :| j < m < |init| && KindOf(init[m], headings) == CodeElement;
      assert es[m] == init[m];
      assert j < m < |es| - 1 < |es|;
    }
  }

  lemma ClosedAfterShrink(es: seq<Element>, j: nat, headings: seq<string>)
    requires j < |es| - 1
    ensures ClosedAfter(es, j, headings) ==>
      ClosedAfter(es[..|es| - 1], j, headings)
      || (CodeAfter(es[..|es| - 1], j, headings) && KindOf(es[|es| - 1], headings) == OtherElement)
  {
    var init := es[..|es| - 1];
    if ClosedAfter(es, j, headings) {
      var m1, m2 :| j < m1 < m2 < |es|
        && KindOf(es[m1], headings) == CodeElement && KindOf(es[m2], headings) == OtherElement;
      assert init[m1] == es[m1];
      if m2 < |init| {
        assert init[m2] == es[m2];
      }
    }
  }

  /** The example `x` was emitted by element `j`, a heading or ordinary
      element, as the pending example under the heading held before it. */
  predicate EmittedBy(x: Example, es: seq<Element>, j: int, headings: seq<string>) {
    0 <= j < |es| && KindOf(es[j], headings) != CodeElement
    && x == Example(Run(es[..j], headings).heading, Run(es[..j], headings).pending)
  }

  /** Some element of `es` emitted `x`. */
  predicate Emitted(x: Example, es: seq<Element>, headings: seq<string>) {
    exists j :: 0 <= j < |es| && EmittedBy(x, es, j, headings)
  }

  lemma {:induction false} RunMoments(es: seq<Element>, headings: seq<string>)
    ensures forall k :: 0 <= k < |Run(es, headings).examples| ==> Emitted(Run(es, headings).examples[k], es, headings)
    decreases |es|
  {
    if es != [] {
      RunMoments(es[..|es| - 1], headings);
      forall k | 0 <= k < |Run(es, headings).examples|
        ensures Emitted(Run(es, headings).examples[k], es, headings)
      {
        MomentStep(es, k, headings);
      }
    }
  }

  lemma MomentStep(es: seq<Element>, k: nat, headings: seq<string>)
    requires es != [] && k < |Run(es, headings).examples|
    requires k < |Run(es[..|es| - 1], headings).examples|
      ==> Emitted(Run(es[..|es| - 1], headings).examples[k], es[..|es| - 1], headings)
    ensures Emitted(Run(es, headings).examples[k], es, headings)
  {
    var init := es[..|es| - 1];
    var st := Run(init, headings);
    assert Run(es, headings) == Advance(st, es[|es| - 1], headings);
    AdvanceEmits(st, es[|es| - 1], headings);
    if k < |st.examples| {
      MomentEarlier(Run(es, headings).examples[k], es, headings);
    } else {
      assert KindOf(es[|es| - 1], headings) != CodeElement;
      assert Run(es, headings).examples[k] == Example(st.heading, st.pending);
      MomentAt(Run(es, headings).examples[k], es, |es| - 1, headings);
    }
  }

  /** What an element of a prefix emitted, an element of `es` emitted. */
  lemma MomentEarlier(x: Example, es: seq<Element>, headings: seq<string>)
    requires es != [] && Emitted(x, es[..|es| - 1], headings)
    ensures Emitted(x, es, headings)
  {
    var init := es[..|es| - 1];
    var j :| 0 <= j < |init| && EmittedBy(x, init, j, headings);
    PrefixOfInit(es, j);
    MomentAt(x, es, j, headings);
  }

  lemma MomentAt(x: Example, es: seq<Element>, j: nat, headings: seq<string>)
    requires EmittedBy(x, es, j, headings)
    ensures Emitted(x, es, headings)
  {
  }

  lemma PrefixOfInit(es: seq<Element>, j: nat)
    requires j < |es|
    ensures es[..|es| - 1][..j] == es[..j]
  {
  }

  /** One turn of the loop emits at most the example pending before it, and
      a code element emits nothing. */
  lemma AdvanceEmits(st: State, e: Element, headings: seq<string>)
    ensures Advance(st, e, headings).examples == st.examples
      || Advance(st, e, headings).examples == st.examples + [Example(st.heading, st.pending)]
    ensures KindOf(e, headings) == CodeElement ==> Advance(st, e, headings).examples == st.examples
  {
  }

  /** The example `x` is the pending example at moment `j`, emitted there by
      a heading or ordinary element or by the final flush, and its heading
      is the heading in force at that moment. */
  predicate EmittedAt(x: Example, es: seq<Element>, j: int, headings: seq<string>) {
    0 <= j <= |es| && (j < |es| ==> KindOf(es[j], headings) != CodeElement)
    && x.content == Run(es[..j], headings).pending
    && x.heading == HeadingAfter(es[..j], headings)
  }

  /** Some moment of the loop over `es` emitted `x`. */
  predicate EmittedSomewhere(x: Example, es: seq<Element>, headings: seq<string>) {
    exists j :: 0 <= j <= |es| && EmittedAt(x, es, j, headings)
  }

  /** Every emitted example carries the heading in force at the moment it
      was emitted. */
  lemma GroupHeadings(es: seq<Element>, headings: seq<string>)
    ensures forall k :: 0 <= k < |Group(es, headings)| ==> EmittedSomewhere(Group(es, headings)[k], es, headings)
  {
    RunMoments(es, headings);
    forall k | 0 <= k < |Group(es, headings)|
      ensures EmittedSomewhere(Group(es, headings)[k], es, headings)
    {
      var x := Group(es, headings)[k];
      if k < |Run(es, headings).examples| {
        assert Emitted(x, es, headings);
        var j :| 0 <= j < |es| && EmittedBy(x, es, j, headings);
        HeadingAtMoment(x, es, j, headings);
        assert 0 <= j <= |es| && EmittedAt(x, es, j, headings);
      } else {
        assert es[..|es|] == es;
        HeadingAtMoment(x, es, |es|, headings);
        assert 0 <= |es| <= |es| && EmittedAt(x, es, |es|, headings);
      }
    }
  }

  lemma HeadingAtMoment(x: Example, es: seq<Element>, j: nat, headings: seq<string>)
    requires j <= |es| && (j < |es| ==> KindOf(es[j], headings) != CodeElement)
    requires x == Example(Run(es[..j], headings).heading, Run(es[..j], headings).pending)
    ensures EmittedAt(x, es, j, headings)
  {
    RunHeading(es[..j], headings);
  }


  /** An element that is neither a heading nor code changes nothing when no
      example is pending, and otherwise emits it and clears both variables. */
  lemma OtherElementEffect(st: State, e: Element, headings: seq<string>)
    requires KindOf(e, headings) == OtherElement
    ensures st.pending == [] ==> Advance(st, e, headings) == st
    ensures st.pending != [] ==>
      Advance(st, e, headings) == State(st.examples + [Example(st.heading, st.pending)], [], [])
  {
  }

  /** An `h3` element is a heading in llm-aero-v2.py but not in the other
      two copies, where it ends the pending example and drops the heading. */
  lemma H3Heading(classes: seq<string>, text: string)
    ensures KindOf(Element("h3", classes, text), V2Headings) == HeadingElement
    ensures KindOf(Element("h3", classes, text), V1Headings) == OtherElement
  {
    assert "h3" == V2Headings[0];
    assert "h3" !in V1Headings;
  }
}
