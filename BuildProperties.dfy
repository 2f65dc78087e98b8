/** What the stage sequence of `handleBuildCommandCollection` guarantees, stated over `Build`. */
module BuildProperties {
  import opened Wrappers
  import opened Commands
  import opened BuildCollection
  import opened CentralHandler

  // ---------------------------------------------------------------- stage order

  /** The names of the stages started, in the order their Started events appear. */
  function StartedNames(effects: seq<Effect>): seq<string>
    decreases |effects|
  {
    if effects == [] then []
    else (if effects[0].Started? then [effects[0].name] else []) + StartedNames(effects[1..])
  }

  /** `a` can be obtained from `b` by deleting elements. */
  predicate Subsequence(a: seq<string>, b: seq<string>)
    decreases |b|
  {
    if a == [] then true
    else if b == [] then false
    else (a[0] == b[0] && Subsequence(a[1..], b[1..])) || Subsequence(a, b[1..])
  }

  function StepNames(s: Step): seq<string> {
    if s.Run? then [s.stage.name] else []
  }

  function PlanNames(steps: seq<Step>): seq<string>
    decreases |steps|
  {
    if steps == [] then [] else StepNames(steps[0]) + PlanNames(steps[1..])
  }

  lemma {:induction false} StartedNamesAppend(a: seq<Effect>, b: seq<Effect>)
    ensures StartedNames(a + b) == StartedNames(a) + StartedNames(b)
    decreases |a|
  {
    if a == [] {
      assert a + b == b;
    } else {
      assert (a + b)[0] == a[0] && (a + b)[1..] == a[1..] + b;
      StartedNamesAppend(a[1..], b);
    }
  }

  lemma {:induction false} SubsequenceExtendLeft(b: seq<string>, x: seq<string>, y: seq<string>)
    requires Subsequence(b, y)
    ensures Subsequence(b, x + y)
    decreases |x|
  {
    if x != [] {
      assert (x + y)[1..] == x[1..] + y;
      SubsequenceExtendLeft(b, x[1..], y);
    } else {
      assert x + y == y;
    }
  }

  lemma {:induction false} SubsequenceAppend(a: seq<string>, b: seq<string>, x: seq<string>, y: seq<string>)
    requires Subsequence(a, x) && Subsequence(b, y)
    ensures Subsequence(a + b, x + y)
    decreases |x|
  {
    if a == [] {
      assert a + b == b;
      SubsequenceExtendLeft(b, x, y);
    } else {
      assert (x + y)[0] == x[0] && (x + y)[1..] == x[1..] + y;
      if a[0] == x[0] && Subsequence(a[1..], x[1..]) {
        assert (a + b)[0] == a[0] && (a + b)[1..] == a[1..] + b;
        SubsequenceAppend(a[1..], b, x[1..], y);
      } else {
        SubsequenceAppend(a, b, x[1..], y);
      }
    }
  }

  lemma {:induction false} ItemsStartNothing(name: string, cmds: seq<Command>, run: Handlers)
    ensures StartedNames(ItemsTrace(name, cmds, run).effects) == []
    decreases |cmds|
  {
    if cmds != [] && Target(cmds[0]).Some? && Handle(cmds[0], run).None? {
      var p := Progressed(name, Target(cmds[0]).value);
      ItemsStartNothing(name, cmds[1..], run);
      StartedNamesAppend([p], ItemsTrace(name, cmds[1..], run).effects);
    }
  }

  /** A step starts its own stage at most once, and no other stage. */
  lemma StepStartsOwnStage(s: Step, run: Handlers)
    ensures Subsequence(StartedNames(StepTrace(s, run).effects), StepNames(s))
  {
    if s.Run? && s.stage.Repeat? && s.stage.cmds != [] {
      var name, cmds := s.stage.name, s.stage.cmds;
      var items := ItemsTrace(name, cmds, run);
      var st := Started(name, true, Some(|cmds|));
      ItemsStartNothing(name, cmds, run);
      StartedNamesAppend([st] + items.effects, [EndEvent(name, items.thrown)]);
      StartedNamesAppend([st], items.effects);
      assert StartedNames(StepTrace(s, run).effects) == [name];
    } else if s.Run? && s.stage.Single? && s.stage.slot.Some? {
      var name := s.stage.name;
      var e := StepTrace(s, run).effects;
      assert e[1..][1..] == [];
      assert StartedNames(e) == [name];
    }
  }

  lemma {:induction false} PlanStartsInOrder(steps: seq<Step>, run: Handlers)
    ensures Subsequence(StartedNames(PlanTrace(steps, run).effects), PlanNames(steps))
    decreases |steps|
  {
    if steps != [] {
      var t := StepTrace(steps[0], run);
      StepStartsOwnStage(steps[0], run);
      if t.thrown.Some? {
        SubsequenceAppend(StartedNames(t.effects), [], StepNames(steps[0]), PlanNames(steps[1..]));
        assert StartedNames(t.effects) + [] == StartedNames(t.effects);
      } else {
        var rest := PlanTrace(steps[1..], run);
        PlanStartsInOrder(steps[1..], run);
        StartedNamesAppend(t.effects, rest.effects);
        SubsequenceAppend(StartedNames(t.effects), StartedNames(rest.effects), StepNames(steps[0]), PlanNames(steps[1..]));
      }
    }
  }

  /**
   * Stages start in the fixed order copy-resources, artwork, empty images,
   * package, post-process, preview, optimize, compress, transfer, copy-back,
   * each at most once.
   */
  lemma StagesStartInFixedOrder(v: CollectionValue, run: Handlers)
    ensures Subsequence(StartedNames(Build(v, run).effects), StageOrder)
  {
    PlanStartsInOrder(Plan(v), run);
    StartedNamesAppend(Prelude, PlanTrace(Plan(v), run).effects);
    assert StartedNames(Prelude) == [] by {
      assert Prelude[1..][1..][1..][1..] == [];
    }
    PlanNamesOfPlan(v);
    assert StartedNames(Build(v, run).effects) == StartedNames(PlanTrace(Plan(v), run).effects);
  }

  lemma PlanNamesFrom9(v: CollectionValue)
    ensures PlanNames(Plan(v)[9..]) == StageOrder[8..]
  {
    var plan, order := Plan(v), StageOrder;
    assert PlanNames(plan[11..]) == order[10..] by { assert plan[11..] == []; }
    assert PlanNames(plan[10..]) == order[9..] by { PlanNamesAt(plan, 10); assert order[9..] == [order[9]] + order[10..]; }
    assert PlanNames(plan[9..]) == order[8..] by { PlanNamesAt(plan, 9); assert order[8..] == [order[8]] + order[9..]; }
  }

  lemma PlanNamesFrom6(v: CollectionValue)
    ensures PlanNames(Plan(v)[6..]) == StageOrder[5..]
  {
    var plan, order := Plan(v), StageOrder;
    PlanNamesFrom9(v);
    assert PlanNames(plan[8..]) == order[7..] by { PlanNamesAt(plan, 8); assert order[7..] == [order[7]] + order[8..]; }
    assert PlanNames(plan[7..]) == order[6..] by { PlanNamesAt(plan, 7); assert order[6..] == [order[6]] + order[7..]; }
    assert PlanNames(plan[6..]) == order[5..] by { PlanNamesAt(plan, 6); assert order[5..] == [order[5]] + order[6..]; }
  }

  lemma PlanNamesFrom3(v: CollectionValue)
    ensures PlanNames(Plan(v)[3..]) == StageOrder[3..]
  {
    var plan, order := Plan(v), StageOrder;
    PlanNamesFrom6(v);
    assert PlanNames(plan[5..]) == order[4..] by { PlanNamesAt(plan, 5); assert order[4..] == [order[4]] + order[5..]; }
    assert PlanNames(plan[4..]) == order[3..] by { PlanNamesAt(plan, 4); assert order[3..] == [order[3]] + order[4..]; }
    assert PlanNames(plan[3..]) == order[3..] by { PlanNamesAt(plan, 3); }
  }

  lemma PlanNamesFrom0(v: CollectionValue)
    ensures PlanNames(Plan(v)[0..]) == StageOrder[0..]
  {
    var plan, order := Plan(v), StageOrder;
    PlanNamesFrom3(v);
    assert PlanNames(plan[2..]) == order[2..] by { PlanNamesAt(plan, 2); assert order[2..] == [order[2]] + order[3..]; }
    assert PlanNames(plan[1..]) == order[1..] by { PlanNamesAt(plan, 1); assert order[1..] == [order[1]] + order[2..]; }
    assert PlanNames(plan[0..]) == order[0..] by { PlanNamesAt(plan, 0); assert order[0..] == [order[0]] + order[1..]; }
  }

  /** The stages of the plan carry the names of the fixed order. */
  lemma PlanNamesOfPlan(v: CollectionValue)
    ensures PlanNames(Plan(v)) == StageOrder
  {
    PlanNamesFrom0(v);
    assert Plan(v)[0..] == Plan(v) && StageOrder[0..] == StageOrder;
  }

  lemma PlanNamesAt(steps: seq<Step>, k: nat)
    requires k < |steps|
    ensures PlanNames(steps[k..]) == StepNames(steps[k]) + PlanNames(steps[k + 1..])
  {
    assert steps[k..][0] == steps[k] && steps[k..][1..] == steps[k + 1..];
  }

  /** The output wipe and the missing-rom reset come before any stage event. */
  lemma PreludeComesFirst(v: CollectionValue, run: Handlers)
    ensures |Build(v, run).effects| >= 4
    ensures Build(v, run).effects[..4] == Prelude
    ensures forall i :: 0 <= i < 4 ==> !Build(v, run).effects[i].Started?
  {
  }

  // ---------------------------------------------------------------- failure policy

  /** Running steps that all complete concatenates their effects. */
  lemma {:induction false} PlanTraceSplit(steps: seq<Step>, k: nat, run: Handlers)
    requires k <= |steps|
    requires forall j :: 0 <= j < k ==> StepTrace(steps[j], run).thrown.None?
    ensures PlanTrace(steps, run) ==
      Trace(Concat(steps[..k], run) + PlanTrace(steps[k..], run).effects, PlanTrace(steps[k..], run).thrown)
    decreases k
  {
    if k == 0 {
      assert steps[..0] == [] && steps[0..] == steps;
    } else {
      assert steps[1..][..k - 1] == steps[1..k];
      assert steps[1..][k - 1..] == steps[k..];
      forall j | 0 <= j < k - 1 ensures StepTrace(steps[1..][j], run).thrown.None? {
        assert steps[1..][j] == steps[j + 1];
      }
      PlanTraceSplit(steps[1..], k - 1, run);
      var t := StepTrace(steps[0], run);
      var rest := PlanTrace(steps[k..], run);
      assert PlanTrace(steps, run) == Trace(t.effects + PlanTrace(steps[1..], run).effects, PlanTrace(steps[1..], run).thrown);
      assert Concat(steps[..k], run) == t.effects + Concat(steps[1..k], run) by {
        assert steps[..k][0] == steps[0] && steps[..k][1..] == steps[1..k];
      }
      assert t.effects + (Concat(steps[1..k], run) + rest.effects) == (t.effects + Concat(steps[1..k], run)) + rest.effects;
    }
  }

  /** A stage that throws ends with its Failed event, carrying the exception's message. */
  lemma ThrowingStageEndsFailed(s: Stage, run: Handlers)
    requires StageTrace(s, run).thrown.Some?
    ensures StageTrace(s, run).effects != []
    ensures StageTrace(s, run).effects[|StageTrace(s, run).effects| - 1] ==
            Failed(s.name, StageTrace(s, run).thrown.value.message)
  {
  }

  /**
   * A critical stage that fails (or the package check, step 3) re-throws: the
   * build ends right there, with exactly the effects of the earlier stages and
   * of the failing one, and nothing of any later stage.
   */
  lemma CriticalFailureHalts(v: CollectionValue, run: Handlers, k: nat)
    requires k < 6
    requires forall j :: 0 <= j < k ==> StepTrace(Plan(v)[j], run).thrown.None?
    requires StepTrace(Plan(v)[k], run).thrown.Some?
    ensures Build(v, run) ==
      Trace(Prelude + Concat(Plan(v)[..k], run) + StepTrace(Plan(v)[k], run).effects, StepTrace(Plan(v)[k], run).thrown)
    ensures k != 3 ==>
      Build(v, run).effects[|Build(v, run).effects| - 1] == Failed(Plan(v)[k].stage.name, Build(v, run).thrown.value.message)
  {
    var plan := Plan(v);
    PlanTraceSplit(plan, k, run);
    assert plan[k..][0] == plan[k];
    if k != 3 {
      ThrowingStageEndsFailed(plan[k].stage, run);
    }
  }

  /** A copy-resources failure stops the build before the package stage can start. */
  lemma CopyResourcesFailureStopsBuild(v: CollectionValue, run: Handlers)
    requires v.copyResources.Some? && run(v.copyResources.value).Some?
    requires HasHandler(v.copyResources.value)
    ensures Build(v, run) ==
      Trace(Prelude + [Started(CopyResourcesName, false, None), Failed(CopyResourcesName, run(v.copyResources.value).value.message)],
            run(v.copyResources.value))
  {
    CriticalFailureHalts(v, run, 0);
    assert Plan(v)[..0] == [];
  }

  /** A missing package command raises LogicException after the first three stages and before the package stage. */
  lemma MissingPackageRaisesLogicException(v: CollectionValue, run: Handlers)
    requires v.package.None?
    requires forall j :: 0 <= j < 3 ==> StepTrace(Plan(v)[j], run).thrown.None?
    ensures Build(v, run) ==
      Trace(Prelude + Concat(Plan(v)[..3], run), Some(Exception(LogicException, MissingPackageMessage)))
  {
    CriticalFailureHalts(v, run, 3);
    assert StepTrace(Plan(v)[3], run).effects == [];
    assert Prelude + Concat(Plan(v)[..3], run) + [] == Prelude + Concat(Plan(v)[..3], run);
  }

  /** A best-effort stage never lets an exception escape. */
  lemma BestEffortNeverThrows(v: CollectionValue, run: Handlers, k: nat)
    requires 6 <= k < |Plan(v)|
    ensures StepTrace(Plan(v)[k], run).thrown.None?
  {
  }

  lemma {:induction false} ConcatHas(steps: seq<Step>, k: nat, e: Effect, run: Handlers)
    requires k < |steps| && e in StepTrace(steps[k], run).effects
    ensures e in Concat(steps, run)
    decreases k
  {
    if k > 0 {
      assert steps[1..][k - 1] == steps[k];
      ConcatHas(steps[1..], k - 1, e, run);
    }
  }

  /**
   * Once the critical stages complete, the build returns normally and every
   * best-effort stage whose command is present starts, whether or not an
   * earlier best-effort stage failed.
   */
  lemma BestEffortStagesAllRun(v: CollectionValue, run: Handlers)
    requires forall j :: 0 <= j < 6 ==> StepTrace(Plan(v)[j], run).thrown.None?
    ensures Build(v, run) == Trace(Prelude + Concat(Plan(v), run), None)
    ensures v.preview != [] ==> Started(PreviewStage, true, Some(|v.preview|)) in Build(v, run).effects
    ensures v.optimize.Some? ==> Started(OptimizeName, false, None) in Build(v, run).effects
    ensures v.compressPackage.Some? ==> Started(CompressPackageName, false, None) in Build(v, run).effects
    ensures v.transfer.Some? ==> Started(TransferName, false, None) in Build(v, run).effects
    ensures v.copyBackPreview.Some? ==> Started(CopyBackPreviewName, false, None) in Build(v, run).effects
  {
    var plan := Plan(v);
    forall j | 0 <= j < |plan| ensures StepTrace(plan[j], run).thrown.None? {
      if j >= 6 { BestEffortNeverThrows(v, run, j); }
    }
    PlanTraceSplit(plan, |plan|, run);
    assert plan[..|plan|] == plan && plan[|plan|..] == [];
    assert Concat(plan, run) + [] == Concat(plan, run);
    if v.preview != [] { ConcatHas(plan, 6, Started(PreviewStage, true, Some(|v.preview|)), run); }
    if v.optimize.Some? { ConcatHas(plan, 7, Started(OptimizeName, false, None), run); }
    if v.compressPackage.Some? { ConcatHas(plan, 8, Started(CompressPackageName, false, None), run); }
    if v.transfer.Some? { ConcatHas(plan, 9, Started(TransferName, false, None), run); }
    if v.copyBackPreview.Some? { ConcatHas(plan, 10, Started(CopyBackPreviewName, false, None), run); }
  }

  // ---------------------------------------------------------------- repeatable stages

  /** A command of a repeatable stage fails when it has no target or its handler throws. */
  predicate ItemFails(c: Command, run: Handlers) {
    Target(c).None? || Handle(c, run).Some?
  }

  function ItemError(c: Command, run: Handlers): Exception
    requires ItemFails(c, run)
  {
    if Target(c).None? then NoTarget(c) else Handle(c, run).value
  }

  /** When every command succeeds, the stage reports one Progressed per command, in order, and no exception. */
  lemma {:induction false} ItemsAllSucceed(name: string, cmds: seq<Command>, run: Handlers)
    requires forall i :: 0 <= i < |cmds| ==> !ItemFails(cmds[i], run)
    ensures ItemsTrace(name, cmds, run).thrown.None?
    ensures |ItemsTrace(name, cmds, run).effects| == |cmds|
    ensures forall i :: 0 <= i < |cmds| ==>
      Target(cmds[i]).Some? && ItemsTrace(name, cmds, run).effects[i] == Progressed(name, Target(cmds[i]).value)
    decreases |cmds|
  {
    if cmds != [] {
      assert !ItemFails(cmds[0], run);
      forall i | 0 <= i < |cmds[1..]| ensures !ItemFails(cmds[1..][i], run) {
        assert cmds[1..][i] == cmds[i + 1];
      }
      ItemsAllSucceed(name, cmds[1..], run);
    }
  }

  /**
   * The first failing command of a repeatable stage stops the stage: the
   * commands before it have been reported, the ones after it never run, and
   * its exception is the stage's.
   */
  lemma {:induction false} FirstFailureStopsItems(name: string, cmds: seq<Command>, j: nat, run: Handlers)
    requires j < |cmds| && ItemFails(cmds[j], run)
    requires forall i :: 0 <= i < j ==> !ItemFails(cmds[i], run)
    ensures ItemsTrace(name, cmds, run).thrown == Some(ItemError(cmds[j], run))
    ensures |ItemsTrace(name, cmds, run).effects| == if Target(cmds[j]).Some? then j + 1 else j
    ensures forall i :: 0 <= i < |ItemsTrace(name, cmds, run).effects| ==>
      Target(cmds[i]).Some? && ItemsTrace(name, cmds, run).effects[i] == Progressed(name, Target(cmds[i]).value)
    decreases j
  {
    if j > 0 {
      assert !ItemFails(cmds[0], run);
      forall i | 0 <= i < j - 1 ensures !ItemFails(cmds[1..][i], run) {
        assert cmds[1..][i] == cmds[i + 1];
      }
      assert cmds[1..][j - 1] == cmds[j];
      FirstFailureStopsItems(name, cmds[1..], j - 1, run);
    }
  }

  /** A repeatable stage whose commands all succeed: Started(name, true, count), one Progressed each, Completed. */
  lemma RepeatStageShape(name: string, cmds: seq<Command>, critical: bool, run: Handlers)
    requires cmds != []
    requires forall i :: 0 <= i < |cmds| ==> !ItemFails(cmds[i], run)
    ensures var t := StageTrace(Repeat(name, cmds, critical), run);
      t.thrown.None? && |t.effects| == |cmds| + 2 &&
      t.effects[0] == Started(name, true, Some(|cmds|)) &&
      (forall i :: 1 <= i <= |cmds| ==>
        Target(cmds[i - 1]).Some? && t.effects[i] == Progressed(name, Target(cmds[i - 1]).value)) &&
      t.effects[|cmds| + 1] == Completed(name)
  {
    ItemsAllSucceed(name, cmds, run);
  }

  lemma {:induction false} ConcatOnlyOne(steps: seq<Step>, k: nat, run: Handlers)
    requires k < |steps|
    requires forall j :: 0 <= j < |steps| && j != k ==> StepTrace(steps[j], run).effects == []
    ensures Concat(steps, run) == StepTrace(steps[k], run).effects
    decreases |steps|
  {
    var tail := steps[k + 1..];
    forall j | 0 <= j < |tail| ensures StepTrace(tail[j], run).effects == [] {
      assert tail[j] == steps[k + 1 + j];
    }
    ConcatNone(tail, run);
    if k == 0 {
      assert steps[1..] == steps[k + 1..];
    } else {
      forall j | 0 <= j < |steps[1..]| && j != k - 1 ensures StepTrace(steps[1..][j], run).effects == [] {
        assert steps[1..][j] == steps[j + 1];
      }
      assert steps[1..][k - 1] == steps[k];
      ConcatOnlyOne(steps[1..], k - 1, run);
    }
  }

  lemma {:induction false} ConcatNone(steps: seq<Step>, run: Handlers)
    requires forall j :: 0 <= j < |steps| ==> StepTrace(steps[j], run).effects == []
    ensures Concat(steps, run) == []
    decreases |steps|
  {
    if steps != [] {
      forall j | 0 <= j < |steps[1..]| ensures StepTrace(steps[1..][j], run).effects == [] {
        assert steps[1..][j] == steps[j + 1];
      }
      ConcatNone(steps[1..], run);
    }
  }

  /** A collection holding only a package command whose handler completes. */
  lemma PackageOnlyBuild(p: string, run: Handlers)
    requires run(Package(p)).None?
    ensures var v := CollectionValue(None, Some(Package(p)), None, None, None, None, [], [], [], []);
      Build(v, run) == Trace(Prelude + [Started(PackageName, false, None), Completed(PackageName)], None)
  {
    var v := CollectionValue(None, Some(Package(p)), None, None, None, None, [], [], [], []);
    var plan := Plan(v);
    forall j | 0 <= j < 6 ensures StepTrace(plan[j], run).thrown.None? {
    }
    BestEffortStagesAllRun(v, run);
    forall j | 0 <= j < |plan| && j != 4 ensures StepTrace(plan[j], run).effects == [] {
    }
    ConcatOnlyOne(plan, 4, run);
  }
}
