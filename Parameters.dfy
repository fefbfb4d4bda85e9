/**
 * Parameter inference of the input-file generators (llm-aero-v1.py and
 * llm-aero-v2.py, `generate_input_file`): a few keywords and numbers are
 * picked out of the user's request and arranged as a nested dictionary of
 * Aero-F sections that is shown to the language model.
 *
 * The regular-expression searches for the mesh file name, the Reynolds
 * number and the Mach number are inputs of this model (their captured
 * groups, when there is a match).
 */
module Parameters {
  import opened Text
  import opened Dicts

  /** The generators' sentinel for "not found in the request". */
  const Unknown := "unknown"

  const CompressiblePhrase := "compressible flow simulation"
  const IncompressiblePhrase := "incompressible flow simulation"

  /** The simulation type, tested on the lowered request in the generators'
      order: the first phrase found decides. */
  function SimulationType(prompt: string): string {
    var p := Lower(prompt);
    if Contains(p, CompressiblePhrase) then "NavierStokes"
    else if Contains(p, IncompressiblePhrase) then "Incompressible"
    else if Contains(p, "steady") then "Steady"
    else if Contains(p, "unsteady") then "Unsteady"
    else Unknown
  }

  /** "second order" wins over "first order". */
  function AccuracyOrder(prompt: string): (r: string)
    ensures r == "2" <==> Contains(Lower(prompt), "second order")
    ensures r == "1" <==> !Contains(Lower(prompt), "second order") && Contains(Lower(prompt), "first order")
    ensures r == Unknown <==> !Contains(Lower(prompt), "second order") && !Contains(Lower(prompt), "first order")
  {
    var p := Lower(prompt);
    if Contains(p, "second order") then "2"
    else if Contains(p, "first order") then "1"
    else Unknown
  }

  /** A regular-expression group when the search matched, the sentinel otherwise. */
  function Found(capture: Option<string>): string {
    if capture.Some? then capture.value else Unknown
  }

  /** What a request mentioning the incompressible phrase also mentions. */
  lemma IncompressibleMentionsCompressible(p: string)
    requires Contains(p, IncompressiblePhrase)
    ensures Contains(p, CompressiblePhrase)
  {
    assert IncompressiblePhrase == "in" + CompressiblePhrase;
    ContainsSuffix(p, "in", CompressiblePhrase);
  }

  lemma UnsteadyMentionsSteady(p: string)
    requires Contains(p, "unsteady")
    ensures Contains(p, "steady")
  {
    assert "unsteady" == "un" + "steady";
    ContainsSuffix(p, "un", "steady");
  }

  /** As written, the incompressible and the unsteady branches are never
      taken: each phrase contains the phrase tested before it. */
  lemma SimulationTypeUnreachable(prompt: string)
    ensures SimulationType(prompt) != "Incompressible"
    ensures SimulationType(prompt) != "Unsteady"
  {
    var p := Lower(prompt);
    if Contains(p, IncompressiblePhrase) {
      IncompressibleMentionsCompressible(p);
    }
    if Contains(p, "unsteady") {
      UnsteadyMentionsSteady(p);
    }
  }

  /** A request for an incompressible simulation is read as compressible. */
  lemma IncompressibleReadAsNavierStokes(prompt: string)
    requires Contains(Lower(prompt), IncompressiblePhrase)
    ensures SimulationType(prompt) == "NavierStokes"
  {
    IncompressibleMentionsCompressible(Lower(prompt));
  }

  /** A request for an unsteady simulation is read as steady. */
  lemma UnsteadyReadAsSteady(prompt: string)
    requires Contains(Lower(prompt), "unsteady") && !Contains(Lower(prompt), CompressiblePhrase)
    ensures SimulationType(prompt) == "Steady"
  {
    UnsteadyMentionsSteady(Lower(prompt));
    if Contains(Lower(prompt), IncompressiblePhrase) {
      IncompressibleMentionsCompressible(Lower(prompt));
    }
  }

  /** The classification the four branches evidently intend: the longer
      phrase is tested before the phrase it contains. */
  function CorrectedSimulationType(prompt: string): string {
    var p := Lower(prompt);
    if Contains(p, IncompressiblePhrase) then "Incompressible"
    else if Contains(p, CompressiblePhrase) then "NavierStokes"
    else if Contains(p, "unsteady") then "Unsteady"
    else if Contains(p, "steady") then "Steady"
    else Unknown
  }

  /** Each type of the corrected classification is chosen exactly when its
      own phrase occurs and no more specific phrase does. */
  lemma CorrectedSimulationTypeSound(prompt: string)
    ensures var p, r := Lower(prompt), CorrectedSimulationType(prompt);
      && (r == "Incompressible" <==> Contains(p, IncompressiblePhrase))
      && (r == "NavierStokes" <==> Contains(p, CompressiblePhrase) && !Contains(p, IncompressiblePhrase))
      && (r == "Unsteady" <==> Contains(p, "unsteady") && !Contains(p, CompressiblePhrase))
      && (r == "Steady" <==>
            Contains(p, "steady") && !Contains(p, "unsteady") && !Contains(p, CompressiblePhrase))
      && (r == Unknown <==> !Contains(p, "steady") && !Contains(p, CompressiblePhrase))
  {
    var p := Lower(prompt);
    if Contains(p, IncompressiblePhrase) {
      IncompressibleMentionsCompressible(p);
    }
    if Contains(p, "unsteady") {
      UnsteadyMentionsSteady(p);
    }
  }

  /** Where neither longer phrase occurs, the correction changes nothing. */
  lemma CorrectedAgrees(prompt: string)
    requires !Contains(Lower(prompt), IncompressiblePhrase) && !Contains(Lower(prompt), "unsteady")
    ensures CorrectedSimulationType(prompt) == SimulationType(prompt)
  {
  }

  // ---------------------------------------------------------------------
  // The dictionary of parameters
  // ---------------------------------------------------------------------

  /** `xs` when `c` holds, nothing otherwise. */
  function When<T>(c: bool, xs: seq<T>): seq<T> {
    if c then xs else []
  }

  function Reconstruction(order: string): string {
    if order == "2" then "Linear" else "Constant"
  }

  /** The sections the generators build, one part per known value, in the
      order in which the generators insert them. */
  function ProblemPart(simulationType: string): Entries {
    When(simulationType != Unknown, [("Problem", Dict([("Type", Str(simulationType))]))])
  }

  function InputPart(fileName: string, reynoldsNumber: string): Entries {
    When(fileName != Unknown || reynoldsNumber != Unknown,
      [("Input", Dict(When(fileName != Unknown, [("Geometry", Str(fileName))])
                      + When(reynoldsNumber != Unknown, [("ReynoldsNumber", Str(reynoldsNumber))])))])
  }

  function BoundaryPart(machNumber: string): Entries {
    When(machNumber != Unknown,
      [("BoundaryConditions", Dict([("under Inlet", Dict([("Mach", Str(machNumber))]))]))])
  }

  function DiscretizationPart(order: string): Entries {
    When(order != Unknown, [SpaceEntry(order), TimeEntry(order)])
  }

  function SpaceEntry(order: string): (string, Value) {
    ("Space", Dict([("under NavierStokes", Dict([("Reconstruction", Str(Reconstruction(order)))]))]))
  }

  function TimeEntry(order: string): (string, Value) {
    ("Time", Dict([("under Implicit", Dict([("Order", Str(order))]))]))
  }

  /** The whole dictionary, declaratively. */
  function ParameterTree(simulationType: string, fileName: string, reynoldsNumber: string,
                         machNumber: string, order: string): Entries
  {
    ProblemPart(simulationType) + InputPart(fileName, reynoldsNumber)
    + BoundaryPart(machNumber) + DiscretizationPart(order)
  }

  /** `d[k][k2] = v`: the nested dictionary is updated where it stands. */
  function PutIn(d: Entries, k: string, k2: string, v: Value): Entries
    requires Get(d, k).Some? && Get(d, k).value.Dict?
  {
    Put(d, k, Dict(Put(Get(d, k).value.entries, k2, v)))
  }

  /** `d[k][k2][k3] = v`. */
  function PutIn2(d: Entries, k: string, k2: string, k3: string, v: Value): Entries
    requires Get(d, k).Some? && Get(d, k).value.Dict?
    requires Get(Get(d, k).value.entries, k2).Some? && Get(Get(d, k).value.entries, k2).value.Dict?
  {
    Put(d, k, Dict(PutIn(Get(d, k).value.entries, k2, k3, v)))
  }

  lemma KeysAppend(a: Entries, b: Entries)
    ensures Keys(a + b) == Keys(a) + Keys(b)
  {
  }

  /** The keys each part contributes. */
  lemma PartKeys(simulationType: string, fileName: string, reynoldsNumber: string,
                 machNumber: string, order: string)
    ensures Keys(ProblemPart(simulationType)) == When(simulationType != Unknown, ["Problem"])
    ensures Keys(InputPart(fileName, reynoldsNumber))
         == When(fileName != Unknown || reynoldsNumber != Unknown, ["Input"])
    ensures Keys(BoundaryPart(machNumber)) == When(machNumber != Unknown, ["BoundaryConditions"])
    ensures Keys(DiscretizationPart(order)) == When(order != Unknown, ["Space", "Time"])
  {
  }

  /** A later section is not among the keys of the sections before it. */
  lemma LaterKeyAbsent(simulationType: string, fileName: string, reynoldsNumber: string,
                       machNumber: string, k: string)
    requires k == "BoundaryConditions" || k == "Space" || k == "Time"
    ensures k !in Keys(ProblemPart(simulationType) + InputPart(fileName, reynoldsNumber))
    ensures k != "BoundaryConditions" ==>
      k !in Keys(ProblemPart(simulationType) + InputPart(fileName, reynoldsNumber) + BoundaryPart(machNumber))
  {
    PartKeys(simulationType, fileName, reynoldsNumber, machNumber, Unknown);
    KeysAppend(ProblemPart(simulationType), InputPart(fileName, reynoldsNumber));
    KeysAppend(ProblemPart(simulationType) + InputPart(fileName, reynoldsNumber), BoundaryPart(machNumber));
  }

  lemma PutSingle(k: string, v: Value, w: Value)
    ensures Put([(k, v)], k, w) == [(k, w)]
  {
    assert IndexOf([(k, v)], k) == 0;
  }

  /** `if section not in d: d[section] = {}` followed by
      `d[section][key] = value`. */
  method SetInSection(d: Entries, section: string, key: string, value: Value) returns (r: Entries)
    requires section in Keys(d) ==> Get(d, section).Some? && Get(d, section).value.Dict?
    ensures r == if section in Keys(d) then PutIn(d, section, key, value)
                 else d + [(section, Dict([(key, value)]))]
  {
    r := d;
    if section !in Keys(r) {
      PutNew(d, section, Dict([]));
      r := Put(r, section, Dict([]));
      PutLast(d, section, Dict([]), Dict([(key, value)]));
      PutNew([], key, value);
      assert [] + [(key, value)] == [(key, value)];
    }
    r := PutIn(r, section, key, value);
  }

  /** `if section not in d: d[section] = {child: {}}` followed by
      `d[section][child][key] = value`. */
  method SetInSubsection(d: Entries, section: string, child: string, key: string, value: Value)
    returns (r: Entries)
    requires section in Keys(d) ==>
      && Get(d, section).Some? && Get(d, section).value.Dict?
      && Get(Get(d, section).value.entries, child).Some?
      && Get(Get(d, section).value.entries, child).value.Dict?
    ensures r == if section in Keys(d) then PutIn2(d, section, child, key, value)
                 else d + [(section, Dict([(child, Dict([(key, value)]))]))]
  {
    r := d;
    if section !in Keys(r) {
      PutNew(d, section, Dict([(child, Dict([]))]));
      r := Put(r, section, Dict([(child, Dict([]))]));
      PutLast(d, section, Dict([(child, Dict([]))]), Dict([(child, Dict([(key, value)]))]));
      PutNew([], key, value);
      assert [] + [(key, value)] == [(key, value)];
      PutSingle(child, Dict([]), Dict([(key, value)]));
      assert Get([(child, Dict([]))], child) == Some(Dict([]));
    }
    r := PutIn2(r, section, child, key, value);
  }

  /** The mesh file opens the input section. */
  lemma GeometryStep(simulationType: string, fileName: string)
    requires fileName != Unknown
    ensures Put(ProblemPart(simulationType), "Input", Dict([("Geometry", Str(fileName))]))
         == ProblemPart(simulationType) + [("Input", Dict([("Geometry", Str(fileName))]))]
  {
    PartKeys(simulationType, fileName, Unknown, Unknown, Unknown);
    PutNew(ProblemPart(simulationType), "Input", Dict([("Geometry", Str(fileName))]));
  }

  /** The dictionary before the Reynolds number is written. */
  function BeforeReynolds(simulationType: string, fileName: string): Entries {
    if fileName != Unknown then ProblemPart(simulationType) + [("Input", Dict([("Geometry", Str(fileName))]))]
    else ProblemPart(simulationType)
  }

  /** The Reynolds number joins the input section, which is created when
      there is no mesh file. */
  lemma ReynoldsStep(simulationType: string, fileName: string, reynoldsNumber: string)
    ensures var a := BeforeReynolds(simulationType, fileName);
      && ("Input" in Keys(a) <==> fileName != Unknown)
      && ("Input" in Keys(a) ==> Get(a, "Input").Some? && Get(a, "Input").value.Dict?)
      && (reynoldsNumber != Unknown ==>
            (if "Input" in Keys(a) then PutIn(a, "Input", "ReynoldsNumber", Str(reynoldsNumber))
             else a + [("Input", Dict([("ReynoldsNumber", Str(reynoldsNumber))]))])
            == ProblemPart(simulationType) + InputPart(fileName, reynoldsNumber))
  {
    var p := ProblemPart(simulationType);
    PartKeys(simulationType, fileName, reynoldsNumber, Unknown, Unknown);
    if fileName != Unknown {
      var geometry := [("Geometry", Str(fileName))];
      KeysAppend(p, [("Input", Dict(geometry))]);
      PutLast(p, "Input", Dict(geometry), Dict(geometry + [("ReynoldsNumber", Str(reynoldsNumber))]));
      PutNew(geometry, "ReynoldsNumber", Str(reynoldsNumber));
    } else {
      assert "Input" !in Keys(p);
      assert [] + [("ReynoldsNumber", Str(reynoldsNumber))] == [("ReynoldsNumber", Str(reynoldsNumber))];
    }
  }

  /** A key other than the appended one stays absent. */
  lemma AbsentAfterAppend(a: Entries, k: string, e: (string, Value))
    requires k !in Keys(a) && k != e.0
    ensures k !in Keys(a + [e])
  {
    KeysAppend(a, [e]);
  }

  lemma AppendTwo(a: Entries, x: (string, Value), y: (string, Value))
    ensures a + [x] + [y] == a + [x, y]
  {
  }

  /** The generators' construction, statement by statement, from the
      inferred values (the sentinel marks a value that was not found). */
  method BuildParameters(simulationType: string, fileName: string, reynoldsNumber: string,
                         machNumber: string, accuracyOrder: string) returns (parameters: Entries)
    ensures parameters == ParameterTree(simulationType, fileName, reynoldsNumber, machNumber, accuracyOrder)
  {
    parameters := [];
    if simulationType != Unknown {
      parameters := Put(parameters, "Problem", Dict([("Type", Str(simulationType))]));
    }
    assert parameters == ProblemPart(simulationType);
    if fileName != Unknown {
      GeometryStep(simulationType, fileName);
      parameters := Put(parameters, "Input", Dict([("Geometry", Str(fileName))]));
    }
    assert parameters == BeforeReynolds(simulationType, fileName);
    if reynoldsNumber != Unknown {
      ReynoldsStep(simulationType, fileName, reynoldsNumber);
      parameters := SetInSection(parameters, "Input", "ReynoldsNumber", Str(reynoldsNumber));
    } else {
      assert [("Geometry", Str(fileName))] + [] == [("Geometry", Str(fileName))];
    }
    ghost var input := ProblemPart(simulationType) + InputPart(fileName, reynoldsNumber);
    assert parameters == input;
    if machNumber != Unknown {
      LaterKeyAbsent(simulationType, fileName, reynoldsNumber, machNumber, "BoundaryConditions");
      parameters := SetInSubsection(parameters, "BoundaryConditions", "under Inlet", "Mach", Str(machNumber));
    }
    ghost var upper := input + BoundaryPart(machNumber);
    assert parameters == upper;
    if accuracyOrder != Unknown {
      LaterKeyAbsent(simulationType, fileName, reynoldsNumber, machNumber, "Space");
      LaterKeyAbsent(simulationType, fileName, reynoldsNumber, machNumber, "Time");
      parameters := SetInSubsection(parameters, "Space", "under NavierStokes", "Reconstruction",
                                    Str(Reconstruction(accuracyOrder)));
      assert parameters == upper + [SpaceEntry(accuracyOrder)];
      AbsentAfterAppend(upper, "Time", SpaceEntry(accuracyOrder));
      parameters := SetInSubsection(parameters, "Time", "under Implicit", "Order", Str(accuracyOrder));
      assert parameters == upper + [SpaceEntry(accuracyOrder)] + [TimeEntry(accuracyOrder)];
      AppendTwo(upper, SpaceEntry(accuracyOrder), TimeEntry(accuracyOrder));
      assert DiscretizationPart(accuracyOrder) == [SpaceEntry(accuracyOrder), TimeEntry(accuracyOrder)];
    } else {
      assert upper + [] == upper;
      assert DiscretizationPart(accuracyOrder) == [];
    }
    assert parameters == upper + DiscretizationPart(accuracyOrder);
  }

  /** The captured groups of the three searches of the request. */
  datatype Captures = Captures(fileName: Option<string>, reynoldsNumber: Option<string>,
                               machNumber: Option<string>)

  /** Inference from the request, then construction; the regular-expression
      searches are represented by their captures. */
  method InferParameters(prompt: string, captures: Captures) returns (parameters: Entries)
    ensures parameters == ParameterTree(SimulationType(prompt), Found(captures.fileName),
                                        Found(captures.reynoldsNumber), Found(captures.machNumber),
                                        AccuracyOrder(prompt))
  {
    parameters := BuildParameters(SimulationType(prompt), Found(captures.fileName),
                                  Found(captures.reynoldsNumber), Found(captures.machNumber),
                                  AccuracyOrder(prompt));
  }

  // ---------------------------------------------------------------------
  // What the dictionary holds
  // ---------------------------------------------------------------------

  /** `v[path[0]][path[1]]...` when every step exists. */
  function Lookup(v: Value, path: seq<string>): Option<Value>
    decreases |path|
  {
    if path == [] then Some(v)
    else if v.Str? then None
    else match Get(v.entries, path[0])
      case None => None
      case Some(child) => Lookup(child, path[1..])
  }

  /** `d[k1][k2]`. */
  lemma Lookup2(d: Entries, k1: string, k2: string)
    ensures Lookup(Dict(d), [k1, k2]) ==
      if Get(d, k1).Some? && Get(d, k1).value.Dict? then Get(Get(d, k1).value.entries, k2) else None
  {
    assert [k1, k2][1..] == [k2];
    assert [k2][1..] == [];
    match Get(d, k1)
    case None =>
    case Some(c) =>
      assert Lookup(Dict(d), [k1, k2]) == Lookup(c, [k2]);
      if c.Dict? {
        match Get(c.entries, k2)
        case None =>
        case Some(g) =>
          assert Lookup(c, [k2]) == Lookup(g, []);
      }
  }

  /** `d[k1][k2][k3]`. */
  lemma Lookup3(d: Entries, k1: string, k2: string, k3: string)
    ensures Lookup(Dict(d), [k1, k2, k3]) ==
      if Get(d, k1).Some? && Get(d, k1).value.Dict? then Lookup(Get(d, k1).value, [k2, k3]) else None
  {
    assert [k1, k2, k3][1..] == [k2, k3];
  }

  /** The position of a section in the generators' fixed order. */
  function Rank(key: string): nat {
    if key == "Problem" then 0
    else if key == "Input" then 1
    else if key == "BoundaryConditions" then 2
    else if key == "Space" then 3
    else if key == "Time" then 4
    else 5
  }

  /** Keys of ranks in `[lo, hi)`, strictly increasing. */
  predicate RankedWithin(keys: seq<string>, lo: nat, hi: nat) {
    (forall i :: 0 <= i < |keys| ==> lo <= Rank(keys[i]) < hi)
    && forall i, j :: 0 <= i < j < |keys| ==> Rank(keys[i]) < Rank(keys[j])
  }

  lemma RankedAppend(x: seq<string>, y: seq<string>, lo: nat, mid: nat, hi: nat)
    requires lo <= mid <= hi
    requires RankedWithin(x, lo, mid) && RankedWithin(y, mid, hi)
    ensures RankedWithin(x + y, lo, hi)
  {
    forall i | 0 <= i < |x + y|
      ensures lo <= Rank((x + y)[i]) < hi
    {
      if i < |x| {
        assert (x + y)[i] == x[i];
      } else {
        assert (x + y)[i] == y[i - |x|];
      }
    }
    forall i, j | 0 <= i < j < |x + y|
      ensures Rank((x + y)[i]) < Rank((x + y)[j])
    {
      if j < |x| {
        assert (x + y)[i] == x[i] && (x + y)[j] == x[j];
        assert Rank(x[i]) < Rank(x[j]);
      } else if i < |x| {
        assert (x + y)[i] == x[i] && (x + y)[j] == y[j - |x|];
        assert Rank(x[i]) < mid <= Rank(y[j - |x|]);
      } else {
        assert (x + y)[i] == y[i - |x|] && (x + y)[j] == y[j - |x|];
        assert Rank(y[i - |x|]) < Rank(y[j - |x|]);
      }
    }
  }

  /** Every value of `d` is a dictionary. */
  predicate SectionsOnly(d: Entries) {
    forall i :: 0 <= i < |d| ==> d[i].1.Dict?
  }

  lemma SectionsOnlyAppend(a: Entries, b: Entries)
    requires SectionsOnly(a) && SectionsOnly(b)
    ensures SectionsOnly(a + b)
  {
    assert forall i :: 0 <= i < |a + b| ==> (a + b)[i] == if i < |a| then a[i] else b[i - |a|];
  }

  lemma RankedWhen(c: bool, keys: seq<string>, lo: nat, hi: nat)
    requires RankedWithin(keys, lo, hi)
    ensures RankedWithin(When(c, keys), lo, hi)
  {
  }

  lemma SectionRanks()
    ensures RankedWithin(["Problem"], 0, 1)
    ensures RankedWithin(["Input"], 1, 2)
    ensures RankedWithin(["BoundaryConditions"], 2, 3)
    ensures RankedWithin(["Space", "Time"], 3, 5)
  {
    assert Rank("Problem") == 0;
    assert Rank("Input") == 1;
    assert Rank("BoundaryConditions") == 2;
    assert Rank("Space") == 3;
    assert Rank("Time") == 4;
  }

  lemma PartsRanked(simulationType: string, fileName: string, reynoldsNumber: string,
                    machNumber: string, order: string)
    ensures RankedWithin(Keys(ProblemPart(simulationType)), 0, 1)
    ensures RankedWithin(Keys(InputPart(fileName, reynoldsNumber)), 1, 2)
    ensures RankedWithin(Keys(BoundaryPart(machNumber)), 2, 3)
    ensures RankedWithin(Keys(DiscretizationPart(order)), 3, 5)
  {
    PartKeys(simulationType, fileName, reynoldsNumber, machNumber, order);
    SectionRanks();
    RankedWhen(simulationType != Unknown, ["Problem"], 0, 1);
    RankedWhen(fileName != Unknown || reynoldsNumber != Unknown, ["Input"], 1, 2);
    RankedWhen(machNumber != Unknown, ["BoundaryConditions"], 2, 3);
    RankedWhen(order != Unknown, ["Space", "Time"], 3, 5);
  }

  lemma FourRanked(a: Entries, b: Entries, c: Entries, d: Entries)
    requires RankedWithin(Keys(a), 0, 1) && RankedWithin(Keys(b), 1, 2)
    requires RankedWithin(Keys(c), 2, 3) && RankedWithin(Keys(d), 3, 5)
    ensures RankedWithin(Keys(a + b + c + d), 0, 5)
  {
    RankedAppend(Keys(a), Keys(b), 0, 1, 2);
    RankedAppend(Keys(a) + Keys(b), Keys(c), 0, 2, 3);
    RankedAppend(Keys(a) + Keys(b) + Keys(c), Keys(d), 0, 3, 5);
    KeysAppend(a, b);
    KeysAppend(a + b, c);
    KeysAppend(a + b + c, d);
  }

  /** The keys of the top level, by rank. */
  lemma KeysRanked(simulationType: string, fileName: string, reynoldsNumber: string,
                   machNumber: string, order: string)
    ensures RankedWithin(Keys(ParameterTree(simulationType, fileName, reynoldsNumber, machNumber, order)), 0, 5)
  {
    PartsRanked(simulationType, fileName, reynoldsNumber, machNumber, order);
    FourRanked(ProblemPart(simulationType), InputPart(fileName, reynoldsNumber),
               BoundaryPart(machNumber), DiscretizationPart(order));
  }

  lemma TreeSectionsOnly(simulationType: string, fileName: string, reynoldsNumber: string,
                         machNumber: string, order: string)
    ensures SectionsOnly(ParameterTree(simulationType, fileName, reynoldsNumber, machNumber, order))
  {
    var p, n, b, d := ProblemPart(simulationType), InputPart(fileName, reynoldsNumber),
                      BoundaryPart(machNumber), DiscretizationPart(order);
    SectionsOnlyAppend(p, n);
    SectionsOnlyAppend(p + n, b);
    SectionsOnlyAppend(p + n + b, d);
  }

  /** The top level of the dictionary: sections in the fixed order
      Problem, Input, BoundaryConditions, Space, Time (so no key occurs
      twice), each holding a dictionary. */
  lemma ParameterTreeOrdered(simulationType: string, fileName: string, reynoldsNumber: string,
                             machNumber: string, order: string)
    ensures var t := ParameterTree(simulationType, fileName, reynoldsNumber, machNumber, order);
      && (forall i, j :: 0 <= i < j < |t| ==> Rank(t[i].0) < Rank(t[j].0))
      && DistinctKeys(t)
      && SectionsOnly(t)
  {
    var t := ParameterTree(simulationType, fileName, reynoldsNumber, machNumber, order);
    KeysRanked(simulationType, fileName, reynoldsNumber, machNumber, order);
    TreeSectionsOnly(simulationType, fileName, reynoldsNumber, machNumber, order);
    forall i, j | 0 <= i < j < |t|
      ensures Rank(t[i].0) < Rank(t[j].0)
    {
      assert Keys(t)[i] == t[i].0 && Keys(t)[j] == t[j].0;
    }
  }

  /** A key found in exactly one of the four parts is looked up there. */
  lemma SectionGet(p: Entries, n: Entries, b: Entries, d: Entries, k: string)
    ensures Get(p + n + b + d, k) ==
      if k in Keys(p) then Get(p, k) else if k in Keys(n) then Get(n, k)
      else if k in Keys(b) then Get(b, k) else Get(d, k)
  {
    GetAppend(p + n + b, d, k);
    GetAppend(p + n, b, k);
    GetAppend(p, n, k);
    KeysAppend(p, n);
    KeysAppend(p + n, b);
  }

  lemma ProblemSection(simulationType: string, fileName: string, reynoldsNumber: string,
                       machNumber: string, order: string)
    ensures Get(ParameterTree(simulationType, fileName, reynoldsNumber, machNumber, order), "Problem")
         == if simulationType == Unknown then None else Some(Dict([("Type", Str(simulationType))]))
  {
    PartKeys(simulationType, fileName, reynoldsNumber, machNumber, order);
    SectionGet(ProblemPart(simulationType), InputPart(fileName, reynoldsNumber),
               BoundaryPart(machNumber), DiscretizationPart(order), "Problem");
  }

  lemma InputSection(simulationType: string, fileName: string, reynoldsNumber: string,
                     machNumber: string, order: string)
    ensures Get(ParameterTree(simulationType, fileName, reynoldsNumber, machNumber, order), "Input")
         == if fileName == Unknown && reynoldsNumber == Unknown then None
            else Some(Dict(When(fileName != Unknown, [("Geometry", Str(fileName))])
                           + When(reynoldsNumber != Unknown, [("ReynoldsNumber", Str(reynoldsNumber))])))
  {
    PartKeys(simulationType, fileName, reynoldsNumber, machNumber, order);
    SectionGet(ProblemPart(simulationType), InputPart(fileName, reynoldsNumber),
               BoundaryPart(machNumber), DiscretizationPart(order), "Input");
  }

  lemma BoundarySection(simulationType: string, fileName: string, reynoldsNumber: string,
                        machNumber: string, order: string)
    ensures Get(ParameterTree(simulationType, fileName, reynoldsNumber, machNumber, order), "BoundaryConditions")
         == if machNumber == Unknown then None
            else Some(Dict([("under Inlet", Dict([("Mach", Str(machNumber))]))]))
  {
    PartKeys(simulationType, fileName, reynoldsNumber, machNumber, order);
    SectionGet(ProblemPart(simulationType), InputPart(fileName, reynoldsNumber),
               BoundaryPart(machNumber), DiscretizationPart(order), "BoundaryConditions");
  }

  lemma DiscretizationSections(simulationType: string, fileName: string, reynoldsNumber: string,
                               machNumber: string, order: string)
    ensures Get(ParameterTree(simulationType, fileName, reynoldsNumber, machNumber, order), "Space")
         == if order == Unknown then None else Some(SpaceEntry(order).1)
    ensures Get(ParameterTree(simulationType, fileName, reynoldsNumber, machNumber, order), "Time")
         == if order == Unknown then None else Some(TimeEntry(order).1)
  {
    PartKeys(simulationType, fileName, reynoldsNumber, machNumber, order);
    SectionGet(ProblemPart(simulationType), InputPart(fileName, reynoldsNumber),
               BoundaryPart(machNumber), DiscretizationPart(order), "Space");
    SectionGet(ProblemPart(simulationType), InputPart(fileName, reynoldsNumber),
               BoundaryPart(machNumber), DiscretizationPart(order), "Time");
    if order != Unknown {
      var d := [SpaceEntry(order), TimeEntry(order)];
      assert IndexOf(d, "Space") == 0;
      assert IndexOf(d[1..], "Time") == 0;
      assert IndexOf(d, "Time") == 1;
    }
  }

  /** The values shown to the model, by their paths: each leaf holds
      exactly the inferred value and is absent when that value was not
      found; an order of "2" asks for linear reconstruction, any other
      known order for constant reconstruction. */
  lemma ParameterTreeLeaves(simulationType: string, fileName: string, reynoldsNumber: string,
                            machNumber: string, order: string)
    ensures var t := Dict(ParameterTree(simulationType, fileName, reynoldsNumber, machNumber, order));
      && Lookup(t, ["Problem", "Type"]) == (if simulationType == Unknown then None else Some(Str(simulationType)))
      && Lookup(t, ["Input", "Geometry"]) == (if fileName == Unknown then None else Some(Str(fileName)))
      && Lookup(t, ["Input", "ReynoldsNumber"]) ==
           (if reynoldsNumber == Unknown then None else Some(Str(reynoldsNumber)))
      && Lookup(t, ["BoundaryConditions", "under Inlet", "Mach"]) ==
           (if machNumber == Unknown then None else Some(Str(machNumber)))
      && Lookup(t, ["Space", "under NavierStokes", "Reconstruction"]) ==
           (if order == Unknown then None else if order == "2" then Some(Str("Linear")) else Some(Str("Constant")))
      && Lookup(t, ["Time", "under Implicit", "Order"]) == (if order == Unknown then None else Some(Str(order)))
  {
    ProblemLeaf(simulationType, fileName, reynoldsNumber, machNumber, order);
    InputLeaves(simulationType, fileName, reynoldsNumber, machNumber, order);
    MachLeaf(simulationType, fileName, reynoldsNumber, machNumber, order);
    OrderLeaves(simulationType, fileName, reynoldsNumber, machNumber, order);
  }

  lemma ProblemLeaf(simulationType: string, fileName: string, reynoldsNumber: string,
                    machNumber: string, order: string)
    ensures Lookup(Dict(ParameterTree(simulationType, fileName, reynoldsNumber, machNumber, order)), ["Problem", "Type"])
         == if simulationType == Unknown then None else Some(Str(simulationType))
  {
    ProblemSection(simulationType, fileName, reynoldsNumber, machNumber, order);
    Lookup2(ParameterTree(simulationType, fileName, reynoldsNumber, machNumber, order), "Problem", "Type");
  }

  lemma InputLeaves(simulationType: string, fileName: string, reynoldsNumber: string,
                    machNumber: string, order: string)
    ensures Lookup(Dict(ParameterTree(simulationType, fileName, reynoldsNumber, machNumber, order)), ["Input", "Geometry"])
         == if fileName == Unknown then None else Some(Str(fileName))
    ensures Lookup(Dict(ParameterTree(simulationType, fileName, reynoldsNumber, machNumber, order)), ["Input", "ReynoldsNumber"])
         == if reynoldsNumber == Unknown then None else Some(Str(reynoldsNumber))
  {
    var t := ParameterTree(simulationType, fileName, reynoldsNumber, machNumber, order);
    InputSection(simulationType, fileName, reynoldsNumber, machNumber, order);
    Lookup2(t, "Input", "Geometry");
    Lookup2(t, "Input", "ReynoldsNumber");
    var g := When(fileName != Unknown, [("Geometry", Str(fileName))]);
    var r := When(reynoldsNumber != Unknown, [("ReynoldsNumber", Str(reynoldsNumber))]);
    GetAppend(g, r, "Geometry");
    GetAppend(g, r, "ReynoldsNumber");
  }

  lemma MachLeaf(simulationType: string, fileName: string, reynoldsNumber: string,
                 machNumber: string, order: string)
    ensures Lookup(Dict(ParameterTree(simulationType, fileName, reynoldsNumber, machNumber, order)),
                   ["BoundaryConditions", "under Inlet", "Mach"])
         == if machNumber == Unknown then None else Some(Str(machNumber))
  {
    var t := ParameterTree(simulationType, fileName, reynoldsNumber, machNumber, order);
    BoundarySection(simulationType, fileName, reynoldsNumber, machNumber, order);
    Lookup3(t, "BoundaryConditions", "under Inlet", "Mach");
    Lookup2([("under Inlet", Dict([("Mach", Str(machNumber))]))], "under Inlet", "Mach");
  }

  lemma OrderLeaves(simulationType: string, fileName: string, reynoldsNumber: string,
                    machNumber: string, order: string)
    ensures Lookup(Dict(ParameterTree(simulationType, fileName, reynoldsNumber, machNumber, order)),
                   ["Space", "under NavierStokes", "Reconstruction"])
         == if order == Unknown then None else if order == "2" then Some(Str("Linear")) else Some(Str("Constant"))
    ensures Lookup(Dict(ParameterTree(simulationType, fileName, reynoldsNumber, machNumber, order)),
                   ["Time", "under Implicit", "Order"])
         == if order == Unknown then None else Some(Str(order))
  {
    var t := ParameterTree(simulationType, fileName, reynoldsNumber, machNumber, order);
    DiscretizationSections(simulationType, fileName, reynoldsNumber, machNumber, order);
    Lookup3(t, "Space", "under NavierStokes", "Reconstruction");
    Lookup3(t, "Time", "under Implicit", "Order");
    Lookup2(SpaceEntry(order).1.entries, "under NavierStokes", "Reconstruction");
    Lookup2(TimeEntry(order).1.entries, "under Implicit", "Order");
  }

  /** What the inference makes of the request: never an incompressible or
      unsteady problem, and linear reconstruction exactly when the request
      mentions second order. */
  lemma InferredParameters(prompt: string, captures: Captures)
    ensures var t := Dict(ParameterTree(SimulationType(prompt), Found(captures.fileName),
                                        Found(captures.reynoldsNumber), Found(captures.machNumber),
                                        AccuracyOrder(prompt)));
      && Lookup(t, ["Problem", "Type"]) != Some(Str("Incompressible"))
      && Lookup(t, ["Problem", "Type"]) != Some(Str("Unsteady"))
      && (Lookup(t, ["Space", "under NavierStokes", "Reconstruction"]) == Some(Str("Linear"))
          <==> Contains(Lower(prompt), "second order"))
      && (Lookup(t, ["Time", "under Implicit", "Order"]) == Some(Str("1"))
          <==> !Contains(Lower(prompt), "second order") && Contains(Lower(prompt), "first order"))
  {
    SimulationTypeUnreachable(prompt);
    ParameterTreeLeaves(SimulationType(prompt), Found(captures.fileName), Found(captures.reynoldsNumber),
                        Found(captures.machNumber), AccuracyOrder(prompt));
  }

  /** The inference with the corrected classification. */
  method InferParametersCorrected(prompt: string, captures: Captures) returns (parameters: Entries)
    ensures parameters == ParameterTree(CorrectedSimulationType(prompt), Found(captures.fileName),
                                        Found(captures.reynoldsNumber), Found(captures.machNumber),
                                        AccuracyOrder(prompt))
  {
    parameters := BuildParameters(CorrectedSimulationType(prompt), Found(captures.fileName),
                                  Found(captures.reynoldsNumber), Found(captures.machNumber),
                                  AccuracyOrder(prompt));
  }

  /** With the correction, an incompressible request yields an incompressible
      problem and an unsteady request without the compressible phrase an
      unsteady one. */
  lemma CorrectedInferredType(prompt: string, captures: Captures)
    ensures var t := Dict(ParameterTree(CorrectedSimulationType(prompt), Found(captures.fileName),
                                        Found(captures.reynoldsNumber), Found(captures.machNumber),
                                        AccuracyOrder(prompt)));
      var p := Lower(prompt);
      && (Lookup(t, ["Problem", "Type"]) == Some(Str("Incompressible")) <==> Contains(p, IncompressiblePhrase))
      && (Lookup(t, ["Problem", "Type"]) == Some(Str("Unsteady"))
          <==> Contains(p, "unsteady") && !Contains(p, CompressiblePhrase))
  {
    CorrectedSimulationTypeSound(prompt);
    ProblemLeaf(CorrectedSimulationType(prompt), Found(captures.fileName), Found(captures.reynoldsNumber),
                Found(captures.machNumber), AccuracyOrder(prompt));
  }
}
