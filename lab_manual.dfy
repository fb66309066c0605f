/**
 * `_create_fallback_manual` of the lab manual generator agent: the manual
 * built without the language model, with modules numbered from 1, two
 * experiments in each of the first two modules and three in every later one,
 * and experiment numbers running on across modules.
 */
module LabManual {
  import opened Text

  /** The five module topics; module 5 and every later one take the last. */
  const ModuleTopics: seq<string> := [
    "Introduction and Basics",
    "Core Concepts and Implementation",
    "Advanced Topics",
    "Practical Applications",
    "Project-Based Learning"
  ]

  const DefaultObjective := "Practical implementation"

  /** The fixed text of every fallback description after the objective. */
  const DescriptionTail :=
    "\n\nTasks to perform:\n"
    + "1. Analyze the problem requirements and design the solution approach\n"
    + "2. Write code/program to implement the solution\n"
    + "3. Test the implementation with sample data\n"
    + "4. Document the results and observations\n"
    + "5. Submit the source code along with output screenshots and a brief report\n\n"
    + "Expected deliverables:\n"
    + "- Complete source code file(s)\n"
    + "- Output screenshots demonstrating the working solution\n"
    + "- Brief report explaining the approach and results"

  datatype Experiment = Experiment(number: nat, title: string, objective: string, description: string)

  datatype LabModule = LabModule(number: nat, title: string, selection: string, experiments: seq<Experiment>)

  datatype Manual = Manual(
    subject: string,
    courseCode: string,
    prerequisites: string,
    objectives: seq<string>,
    outcomes: seq<string>,
    modules: seq<LabModule>)

  /** How many experiments module m has. */
  function ExperimentCount(m: nat): nat
  {
    if m <= 2 then 2 else 3
  }

  function Min(a: int, b: int): int
  {
    if a <= b then a else b
  }

  /** The topic of module m (1-based): its index is clamped to the last of the five. */
  function ModuleTopic(m: nat): string
    requires m >= 1
  {
    ModuleTopics[Min(m - 1, |ModuleTopics| - 1)]
  }

  /** The objective the i-th experiment of a module is about. */
  function ObjectiveText(objectives: seq<string>, i: nat): string
  {
    if objectives != [] then objectives[Min(i, |objectives| - 1)] else DefaultObjective
  }

  /** Experiment n about `objective`. */
  function MakeExperiment(n: nat, objective: string): (e: Experiment)
    ensures e.number == n
  {
    Experiment(n,
      "Experiment " + NatToString(n) + ": Practical Implementation - " + Prefix(objective, 50),
      "To understand and implement " + Lower(objective),
      "Students will implement a practical solution related to: " + objective + DescriptionTail)
  }

  /** The first `count` experiments of a module whose first experiment is number `first`. */
  function ModuleExperiments(first: nat, count: nat, objectives: seq<string>): (r: seq<Experiment>)
    ensures |r| == count
  {
    if count == 0 then []
    else ModuleExperiments(first, count - 1, objectives) + [MakeExperiment(first + count - 1, ObjectiveText(objectives, count - 1))]
  }

  /** The i-th experiment of the block is number first + i, about the i-th objective. */
  lemma {:induction false} ModuleExperimentAt(first: nat, count: nat, objectives: seq<string>, i: nat)
    requires i < count
    ensures ModuleExperiments(first, count, objectives)[i] == MakeExperiment(first + i, ObjectiveText(objectives, i))
  {
    hide MakeExperiment, ObjectiveText;
    if i < count - 1 {
      ModuleExperimentAt(first, count - 1, objectives, i);
    }
  }

  /** How many experiments modules 1 .. m-1 hold together. */
  function ExperimentsBefore(m: nat): nat
  {
    if m <= 1 then 0 else ExperimentsBefore(m - 1) + ExperimentCount(m - 1)
  }

  /** Module m of the fallback manual. */
  function FallbackModule(m: nat, objectives: seq<string>): LabModule
    requires m >= 1
  {
    LabModule(m,
      "Module " + NatToString(m) + ": " + ModuleTopic(m),
      if m <= 2 then "All" else "Any Two",
      ModuleExperiments(ExperimentsBefore(m) + 1, ExperimentCount(m), objectives))
  }

  /** Modules 1 .. n of the fallback manual. */
  function FallbackModules(n: nat, objectives: seq<string>): (r: seq<LabModule>)
    ensures |r| == n
  {
    if n == 0 then [] else FallbackModules(n - 1, objectives) + [FallbackModule(n, objectives)]
  }

  /** The fallback manual; `range(1, num_modules + 1)` is empty for a count below 1. */
  function FallbackManual(subject: string, objectives: seq<string>, outcomes: seq<string>,
                          prerequisites: string, numModules: int): Manual
  {
    Manual(subject, "N/A", prerequisites, objectives, outcomes,
      FallbackModules(if numModules > 0 then numModules else 0, objectives))
  }

  /** The experiments of `mods`, module after module. */
  function AllExperiments(mods: seq<LabModule>): seq<Experiment>
  {
    if mods == [] then [] else AllExperiments(mods[..|mods| - 1]) + mods[|mods| - 1].experiments
  }

  /**
   * `_create_fallback_manual`: the outer loop over module numbers and the
   * running experiment number.
   */
  method CreateFallbackManual(subject: string, objectives: seq<string>, outcomes: seq<string>,
                              prerequisites: string, numModules: int) returns (manual: Manual)
    ensures manual == FallbackManual(subject, objectives, outcomes, prerequisites, numModules)
  {
    hide ModuleExperiments;
    var modules: seq<LabModule> := [];
    var expNum: nat := 1;
    var modNum: nat := 1;
    while modNum <= numModules
      invariant 1 <= modNum <= if numModules >= 1 then numModules + 1 else 1
      invariant modules == FallbackModules(modNum - 1, objectives)
      invariant expNum == ExperimentsBefore(modNum) + 1
    {
      var numExperiments := if modNum <= 2 then 2 else 3;
      var moduleTopic := ModuleTopics[Min(modNum - 1, |ModuleTopics| - 1)];
      var experiments;
      experiments, expNum := BuildExperiments(expNum, numExperiments, objectives);
      modules := modules + [LabModule(modNum, "Module " + NatToString(modNum) + ": " + moduleTopic,
                                      if modNum <= 2 then "All" else "Any Two", experiments)];
      modNum := modNum + 1;
    }
    manual := Manual(subject, "N/A", prerequisites, objectives, outcomes, modules);
  }

  /** The inner loop: `count` experiments from number `first`, and the number after them. */
  method BuildExperiments(first: nat, count: nat, objectives: seq<string>) returns (experiments: seq<Experiment>, next: nat)
    ensures experiments == ModuleExperiments(first, count, objectives)
    ensures next == first + count
  {
    hide MakeExperiment;
    experiments := [];
    next := first;
    var i := 0;
    while i < count
      invariant 0 <= i <= count && next == first + i
      invariant experiments == ModuleExperiments(first, i, objectives)
    {
      var objIdx := if objectives != [] then Min(i, |objectives| - 1) else 0;
      var objectiveText := if objectives != [] then objectives[objIdx] else DefaultObjective;
      experiments := experiments + [MakeExperiment(next, objectiveText)];
      next := next + 1;
      i := i + 1;
    }
  }

  // ----- what the fallback manual promises -----

  /** Modules 1 and 2 hold two experiments each, every later module three. */
  lemma {:induction false} ExperimentsBeforeClosedForm(m: nat)
    ensures m <= 3 ==> ExperimentsBefore(m) == if m <= 1 then 0 else 2 * (m - 1)
    ensures m >= 3 ==> ExperimentsBefore(m) == 3 * m - 5
  {
    if m > 3 {
      ExperimentsBeforeClosedForm(m - 1);
    }
  }

  /**
   * The manual has one module per number 1 .. num_modules, in order, each
   * with its count of experiments, its selection rule and its clamped topic;
   * the caller's fields pass through and the course code is "N/A".
   */
  lemma FallbackShape(subject: string, objectives: seq<string>, outcomes: seq<string>,
                      prerequisites: string, numModules: int)
    ensures var r := FallbackManual(subject, objectives, outcomes, prerequisites, numModules);
      && |r.modules| == (if numModules > 0 then numModules else 0)
      && r.subject == subject && r.courseCode == "N/A" && r.prerequisites == prerequisites
      && r.objectives == objectives && r.outcomes == outcomes
      && forall k :: 0 <= k < |r.modules| ==>
           && r.modules[k].number == k + 1
           && |r.modules[k].experiments| == (if k + 1 <= 2 then 2 else 3)
           && r.modules[k].selection == (if k + 1 <= 2 then "All" else "Any Two")
           && r.modules[k].title == "Module " + NatToString(k + 1) + ": " + ModuleTopics[if k < 4 then k else 4]
  {
    hide ModuleExperiments, MakeExperiment, NatToString, DescriptionTail;
    var n := if numModules > 0 then numModules else 0;
    forall k | 0 <= k < n
      ensures FallbackModules(n, objectives)[k] == FallbackModule(k + 1, objectives)
    {
      ModuleAt(n, objectives, k);
    }
  }

  /** Module k+1 sits at index k. */
  lemma {:induction false} ModuleAt(n: nat, objectives: seq<string>, k: nat)
    requires k < n
    ensures FallbackModules(n, objectives)[k] == FallbackModule(k + 1, objectives)
  {
    hide FallbackModule;
    if k < n - 1 {
      ModuleAt(n - 1, objectives, k);
    }
  }

  /** Experiment numbers run 1, 2, 3, ... across all modules, with no gap and no repeat. */
  lemma {:induction false} ConsecutiveExperimentNumbers(n: nat, objectives: seq<string>)
    ensures var all := AllExperiments(FallbackModules(n, objectives));
      && |all| == ExperimentsBefore(n + 1)
      && forall j :: 0 <= j < |all| ==> all[j].number == j + 1
  {
    hide ModuleTopic, ModuleExperiments, ObjectiveText, MakeExperiment, NatToString, DescriptionTail, FallbackModule;
    if n > 0 {
      ConsecutiveExperimentNumbers(n - 1, objectives);
      var mods := FallbackModules(n, objectives);
      assert mods[..n - 1] == FallbackModules(n - 1, objectives);
      var last := mods[n - 1].experiments;
      LastModule(n, objectives);
      BlockNumbers(ExperimentsBefore(n) + 1, ExperimentCount(n), objectives);
      NumbersAppend(AllExperiments(mods[..n - 1]), last);
    }
  }

  /** The last of modules 1 .. n is module n, with its block of experiments. */
  lemma LastModule(n: nat, objectives: seq<string>)
    requires n >= 1
    ensures FallbackModules(n, objectives)[n - 1].experiments
      == ModuleExperiments(ExperimentsBefore(n) + 1, ExperimentCount(n), objectives)
  {
    hide ModuleExperiments, ModuleTopic, NatToString;
  }

  /** A block of experiments from `first` is numbered first, first + 1, ... */
  lemma BlockNumbers(first: nat, count: nat, objectives: seq<string>)
    ensures forall i :: 0 <= i < count ==> ModuleExperiments(first, count, objectives)[i].number == first + i
  {
    hide ModuleExperiments, MakeExperiment, ObjectiveText;
    forall i | 0 <= i < count ensures ModuleExperiments(first, count, objectives)[i].number == first + i {
      ModuleExperimentAt(first, count, objectives, i);
    }
  }

  /** Numbering 1 .. |front| followed by a block from |front| + 1 is numbering 1 .. |front + last|. */
  lemma NumbersAppend(front: seq<Experiment>, last: seq<Experiment>)
    requires forall j :: 0 <= j < |front| ==> front[j].number == j + 1
    requires forall i :: 0 <= i < |last| ==> last[i].number == |front| + 1 + i
    ensures forall j :: 0 <= j < |front + last| ==> (front + last)[j].number == j + 1
  {
    forall j | |front| <= j < |front + last| ensures (front + last)[j].number == j + 1 {
      assert (front + last)[j] == last[j - |front|];
    }
  }

  /** Each experiment is about the objective at its position, or the last one, or the default text. */
  lemma ObjectiveChoice(objectives: seq<string>, i: nat)
    ensures objectives == [] ==> ObjectiveText(objectives, i) == DefaultObjective
    ensures i < |objectives| ==> ObjectiveText(objectives, i) == objectives[i]
    ensures objectives != [] && i >= |objectives| ==> ObjectiveText(objectives, i) == objectives[|objectives| - 1]
  {
  }

  /** An experiment's title names its number and at most fifty characters of its objective. */
  lemma ExperimentTitle(n: nat, objective: string)
    ensures var e := MakeExperiment(n, objective);
      && e.number == n
      && exists excerpt :: |excerpt| <= 50 && excerpt <= objective
           && e.title == "Experiment " + NatToString(n) + ": Practical Implementation - " + excerpt
  {
    hide Lower, NatToString, DescriptionTail;
    var excerpt := Prefix(objective, 50);
    assert MakeExperiment(n, objective).title == "Experiment " + NatToString(n) + ": Practical Implementation - " + excerpt;
  }
}
