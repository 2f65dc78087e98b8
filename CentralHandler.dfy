/**
 * The build orchestrator: `handle` dispatches one command to its handler, and
 * `handleBuildCommandCollection` runs a collection through the fixed stages.
 * The handlers themselves are an oracle `run` saying, for each command,
 * whether it completes (None) or throws (Some(e)); the event dispatcher and the
 * filesystem calls are recorded, in order, in an `EffectLog`.
 */
module CentralHandler {
  import opened Wrappers
  import opened Commands
  import opened BuildCollection

  /** What a handler does with a command: nothing observable, or an exception. */
  type Handlers = Command -> Option<Exception>

  /** An observable effect: a folder removal, the rom-file reset, or a dispatched stage event. */
  datatype Effect =
    | RemoveIfExists(path: string)
    | ResetMissingRomFile
    | Started(name: string, withProgression: bool, steps: Option<nat>)
    | Progressed(name: string, message: string)
    | Completed(name: string)
    | Failed(name: string, message: string)

  /** The effects of a piece of the build and the exception it ends with, if any. */
  datatype Trace = Trace(effects: seq<Effect>, thrown: Option<Exception>)

  const ArtworkStage := "generate-rom-and-folder-artwork"
  const EmptyImagesStage := "generate-empty-images"
  const PreviewStage := "preview"

  const MissingPackageMessage := "Package command must always be present"

  /** The output wipe of `deleteOutputFolder` (paths relative to the base path) and the rom-file reset. */
  const Prelude: seq<Effect> := [
    RemoveIfExists("temp/output"),
    RemoveIfExists("temp/artwork_tmp"),
    RemoveIfExists("temp/output/post-process"),
    ResetMissingRomFile
  ]

  /** `handle`: the command classes that have a registered handler. */
  predicate HasHandler(c: Command) {
    !c.GenerateStaticPreview?
  }

  function Handle(c: Command, run: Handlers): (r: Option<Exception>)
    ensures HasHandler(c) ==> r == run(c)
    ensures !HasHandler(c) ==> r.Some? && r.value.kind == RuntimeException
  {
    if HasHandler(c) then run(c)
    else Some(Exception(RuntimeException, "No handler registered for command of type `" + ClassName(c) + "`"))
  }

  /** The error PHP raises when `getTarget()` is called on a command class without that method. */
  function NoTarget(c: Command): Exception {
    Exception(UndefinedMethodError, "Call to undefined method " + ClassName(c) + "::getTarget()")
  }

  /** One stage of the build: a singleton slot or a repeatable list, critical (re-throws) or best-effort. */
  datatype Stage =
    | Single(name: string, slot: Option<Command>, critical: bool)
    | Repeat(name: string, cmds: seq<Command>, critical: bool)

  datatype Step = Run(stage: Stage) | RequirePackage(present: bool)

  /** The stages of `handleBuildCommandCollection`, in source order. */
  function Plan(v: CollectionValue): seq<Step> {
    [ Run(Single(CopyResourcesName, v.copyResources, true)),
      Run(Repeat(ArtworkStage, v.generateArtwork, true)),
      Run(Repeat(EmptyImagesStage, v.generateEmptyImage, true)),
      RequirePackage(v.package.Some?),
      Run(Single(PackageName, v.package, true)),
      Run(Repeat(PostProcessName, v.postProcess, true)),
      Run(Repeat(PreviewStage, v.preview, false)),
      Run(Single(OptimizeName, v.optimize, false)),
      Run(Single(CompressPackageName, v.compressPackage, false)),
      Run(Single(TransferName, v.transfer, false)),
      Run(Single(CopyBackPreviewName, v.copyBackPreview, false)) ]
  }

  /** The stage names in the order the build may start them. */
  const StageOrder: seq<string> := [
    CopyResourcesName, ArtworkStage, EmptyImagesStage, PackageName, PostProcessName,
    PreviewStage, OptimizeName, CompressPackageName, TransferName, CopyBackPreviewName ]

  /** The `foreach` of a repeatable stage: Progressed(target), then handle; the first exception ends it. */
  function ItemsTrace(name: string, cmds: seq<Command>, run: Handlers): Trace
    decreases |cmds|
  {
    if cmds == [] then Trace([], None)
    else
      var target := Target(cmds[0]);
      if target.None? then Trace([], Some(NoTarget(cmds[0])))
      else
        var r := Handle(cmds[0], run);
        if r.Some? then Trace([Progressed(name, target.value)], r)
        else
          var rest := ItemsTrace(name, cmds[1..], run);
          Trace([Progressed(name, target.value)] + rest.effects, rest.thrown)
  }

  function EndEvent(name: string, e: Option<Exception>): Effect {
    if e.None? then Completed(name) else Failed(name, e.value.message)
  }

  function StageTrace(s: Stage, run: Handlers): Trace {
    match s
    case Single(name, slot, critical) =>
      if slot.None? then Trace([], None)
      else
        var r := Handle(slot.value, run);
        Trace([Started(name, false, None), EndEvent(name, r)], if critical then r else None)
    case Repeat(name, cmds, critical) =>
      if cmds == [] then Trace([], None)
      else
        var items := ItemsTrace(name, cmds, run);
        Trace([Started(name, true, Some(|cmds|))] + items.effects + [EndEvent(name, items.thrown)],
              if critical then items.thrown else None)
  }

  function StepTrace(s: Step, run: Handlers): Trace {
    match s
    case Run(stage) => StageTrace(stage, run)
    case RequirePackage(present) =>
      if present then Trace([], None) else Trace([], Some(Exception(LogicException, MissingPackageMessage)))
  }

  /** Runs the steps in order and stops at the first one that throws. */
  function PlanTrace(steps: seq<Step>, run: Handlers): Trace
    decreases |steps|
  {
    if steps == [] then Trace([], None)
    else
      var t := StepTrace(steps[0], run);
      if t.thrown.Some? then t
      else
        var rest := PlanTrace(steps[1..], run);
        Trace(t.effects + rest.effects, rest.thrown)
  }

  /** What `handleBuildCommandCollection` does to a collection with the given contents. */
  function Build(v: CollectionValue, run: Handlers): Trace {
    var t := PlanTrace(Plan(v), run);
    Trace(Prelude + t.effects, t.thrown)
  }

  /** The effects of steps that all complete, concatenated. */
  function Concat(steps: seq<Step>, run: Handlers): seq<Effect>
    decreases |steps|
  {
    if steps == [] then [] else StepTrace(steps[0], run).effects + Concat(steps[1..], run)
  }

  // ---------------------------------------------------------------- the imperative orchestrator

  /** The event dispatcher and filesystem, as the sequence of effects they have seen. */
  class EffectLog {
    var effects: seq<Effect>

    constructor ()
      ensures effects == []
    {
      effects := [];
    }

    method Emit(e: Effect)
      modifies this
      ensures effects == old(effects) + [e]
    {
      effects := effects + [e];
    }
  }

  method DeleteOutputFolder(log: EffectLog)
    modifies log
    ensures log.effects == old(log.effects) + Prelude[..3]
  {
    log.Emit(RemoveIfExists("temp/output"));
    log.Emit(RemoveIfExists("temp/artwork_tmp"));
    log.Emit(RemoveIfExists("temp/output/post-process"));
  }

  /** A singleton stage: Started, handle, then Completed or Failed; re-throws when critical. */
  method RunSingle(log: EffectLog, name: string, slot: Option<Command>, critical: bool, run: Handlers)
    returns (thrown: Option<Exception>)
    modifies log
    ensures log.effects == old(log.effects) + StageTrace(Single(name, slot, critical), run).effects
    ensures thrown == StageTrace(Single(name, slot, critical), run).thrown
  {
    thrown := None;
    if slot.Some? {
      log.Emit(Started(name, false, None));
      var e := Handle(slot.value, run);
      if e.None? {
        log.Emit(Completed(name));
      } else {
        log.Emit(Failed(name, e.value.message));
        if critical {
          thrown := e;
        }
      }
    }
  }

  lemma AppendAssoc<T>(a: seq<T>, b: seq<T>, c: seq<T>, d: seq<T>)
    ensures a + b + c + d == a + (b + c + d)
  {
  }

  /** One command of a repeatable stage unfolded. */
  lemma ItemsTraceAt(name: string, cmds: seq<Command>, i: nat, run: Handlers)
    requires i < |cmds|
    ensures var target := Target(cmds[i]);
      ItemsTrace(name, cmds[i..], run) ==
        if target.None? then Trace([], Some(NoTarget(cmds[i])))
        else if Handle(cmds[i], run).Some? then Trace([Progressed(name, target.value)], Handle(cmds[i], run))
        else Trace([Progressed(name, target.value)] + ItemsTrace(name, cmds[i + 1..], run).effects,
                   ItemsTrace(name, cmds[i + 1..], run).thrown)
  {
    assert cmds[i..][0] == cmds[i] && cmds[i..][1..] == cmds[i + 1..];
  }

  /** The `foreach` of a repeatable stage, stopping at the first exception. */
  method RunItems(log: EffectLog, name: string, cmds: seq<Command>, run: Handlers)
    returns (err: Option<Exception>)
    modifies log
    ensures log.effects == old(log.effects) + ItemsTrace(name, cmds, run).effects
    ensures err == ItemsTrace(name, cmds, run).thrown
  {
    ghost var start := log.effects;
    ghost var done: seq<Effect> := [];
    var i := 0;
    err := None;
    while i < |cmds| && err.None?
      invariant 0 <= i <= |cmds|
      invariant log.effects == start + done
      invariant err.None? ==>
        ItemsTrace(name, cmds, run) ==
          Trace(done + ItemsTrace(name, cmds[i..], run).effects, ItemsTrace(name, cmds[i..], run).thrown)
      invariant err.Some? ==> ItemsTrace(name, cmds, run) == Trace(done, err)
      decreases |cmds| - i
    {
      ItemsTraceAt(name, cmds, i, run);
      ghost var here := ItemsTrace(name, cmds[i..], run);
      ghost var next := ItemsTrace(name, cmds[i + 1..], run);
      var target := Target(cmds[i]);
      if target.None? {
        err := Some(NoTarget(cmds[i]));
        assert here == Trace([], err);
        assert done + here.effects == done;
      } else {
        log.Emit(Progressed(name, target.value));
        err := Handle(cmds[i], run);
        assert here.effects == [Progressed(name, target.value)] + (if err.Some? then [] else next.effects);
        assert done + here.effects == (done + [Progressed(name, target.value)]) + (if err.Some? then [] else next.effects);
        done := done + [Progressed(name, target.value)];
      }
      i := i + 1;
    }
    assert err.None? ==> cmds[i..] == [];
  }

  /** A repeatable stage: Started with the count, one Progressed and handle per command, then the end event. */
  method RunRepeat(log: EffectLog, name: string, cmds: seq<Command>, critical: bool, run: Handlers)
    returns (thrown: Option<Exception>)
    modifies log
    ensures log.effects == old(log.effects) + StageTrace(Repeat(name, cmds, critical), run).effects
    ensures thrown == StageTrace(Repeat(name, cmds, critical), run).thrown
  {
    thrown := None;
    if cmds == [] {
      return;
    }
    log.Emit(Started(name, true, Some(|cmds|)));
    var err := RunItems(log, name, cmds, run);
    ghost var done := ItemsTrace(name, cmds, run).effects;
    if err.None? {
      log.Emit(Completed(name));
    } else {
      log.Emit(Failed(name, err.value.message));
      if critical {
        thrown := err;
      }
    }
    AppendAssoc(old(log.effects), [Started(name, true, Some(|cmds|))], done, [EndEvent(name, err)]);
  }

  /** `goal` is what remains to be seen once `effects` have been emitted and steps k.. are still to run. */
  ghost predicate Pending(goal: Trace, effects: seq<Effect>, plan: seq<Step>, k: nat, run: Handlers)
    requires k <= |plan|
  {
    goal == Trace(effects + PlanTrace(plan[k..], run).effects, PlanTrace(plan[k..], run).thrown)
  }

  /** Running step k moves the pending point to k + 1, or ends the build when the step throws. */
  lemma Advance(goal: Trace, effects: seq<Effect>, plan: seq<Step>, k: nat, run: Handlers)
    requires k < |plan| && Pending(goal, effects, plan, k, run)
    ensures var t := StepTrace(plan[k], run);
      if t.thrown.Some? then goal == Trace(effects + t.effects, t.thrown)
      else Pending(goal, effects + t.effects, plan, k + 1, run)
  {
    assert plan[k..][0] == plan[k] && plan[k..][1..] == plan[k + 1..];
  }

  /**
   * `handleBuildCommandCollection`, block by block as in the source. Its result
   * is the exception it lets escape (None when it returns normally).
   */
  method HandleBuildCommandCollection(collection: BuildCommandCollection, log: EffectLog, run: Handlers)
    returns (thrown: Option<Exception>)
    modifies log
    ensures log.effects == old(log.effects) + Build(collection.Value(), run).effects
    ensures thrown == Build(collection.Value(), run).thrown
  {
    var v := collection.Value();
    ghost var goal := Trace(log.effects + Build(v, run).effects, Build(v, run).thrown);
    DeleteOutputFolder(log);
    log.Emit(ResetMissingRomFile);
    assert Plan(v)[0..] == Plan(v);
    thrown := CriticalStages(v, log, run, goal);
    if thrown.Some? { return; }
    thrown := BestEffortStages(v, log, run, goal);
  }

  /** The blocks that re-throw: copy-resources, artwork, empty images, then the package stages. */
  method CriticalStages(v: CollectionValue, log: EffectLog, run: Handlers, ghost goal: Trace)
    returns (thrown: Option<Exception>)
    requires Pending(goal, log.effects, Plan(v), 0, run)
    modifies log
    ensures thrown.Some? ==> goal == Trace(log.effects, thrown)
    ensures thrown.None? ==> Pending(goal, log.effects, Plan(v), 6, run)
  {
    ghost var plan := Plan(v);
    Advance(goal, log.effects, plan, 0, run);
    thrown := RunSingle(log, CopyResourcesName, v.copyResources, true, run);
    if thrown.Some? { return; }

    Advance(goal, log.effects, plan, 1, run);
    thrown := RunRepeat(log, ArtworkStage, v.generateArtwork, true, run);
    if thrown.Some? { return; }

    Advance(goal, log.effects, plan, 2, run);
    thrown := RunRepeat(log, EmptyImagesStage, v.generateEmptyImage, true, run);
    if thrown.Some? { return; }

    thrown := PackageStages(v, log, run, goal);
  }

  /** The package check, the package block and the post-process block. */
  method PackageStages(v: CollectionValue, log: EffectLog, run: Handlers, ghost goal: Trace)
    returns (thrown: Option<Exception>)
    requires Pending(goal, log.effects, Plan(v), 3, run)
    modifies log
    ensures thrown.Some? ==> goal == Trace(log.effects, thrown)
    ensures thrown.None? ==> Pending(goal, log.effects, Plan(v), 6, run)
  {
    ghost var plan := Plan(v);
    Advance(goal, log.effects, plan, 3, run);
    if v.package.None? {
      thrown := Some(Exception(LogicException, MissingPackageMessage));
      return;
    }

    Advance(goal, log.effects, plan, 4, run);
    thrown := RunSingle(log, PackageName, v.package, true, run);
    if thrown.Some? { return; }

    thrown := PostProcessStage(v, log, run, goal);
  }

  method PostProcessStage(v: CollectionValue, log: EffectLog, run: Handlers, ghost goal: Trace)
    returns (thrown: Option<Exception>)
    requires Pending(goal, log.effects, Plan(v), 5, run)
    modifies log
    ensures thrown.Some? ==> goal == Trace(log.effects, thrown)
    ensures thrown.None? ==> Pending(goal, log.effects, Plan(v), 6, run)
  {
    Advance(goal, log.effects, Plan(v), 5, run);
    thrown := RunRepeat(log, PostProcessName, v.postProcess, true, run);
  }

  /** The blocks that catch and continue: preview, optimize, compress-package, transfer, copy-back-preview. */
  method BestEffortStages(v: CollectionValue, log: EffectLog, run: Handlers, ghost goal: Trace)
    returns (thrown: Option<Exception>)
    requires Pending(goal, log.effects, Plan(v), 6, run)
    modifies log
    ensures goal == Trace(log.effects, thrown)
  {
    ghost var plan := Plan(v);
    Advance(goal, log.effects, plan, 6, run);
    thrown := RunRepeat(log, PreviewStage, v.preview, false, run);

    Advance(goal, log.effects, plan, 7, run);
    thrown := RunSingle(log, OptimizeName, v.optimize, false, run);

    thrown := DeliveryStages(v, log, run, goal);
  }

  /** The best-effort blocks after optimize: compress-package, transfer, copy-back-preview. */
  method DeliveryStages(v: CollectionValue, log: EffectLog, run: Handlers, ghost goal: Trace)
    returns (thrown: Option<Exception>)
    requires Pending(goal, log.effects, Plan(v), 8, run)
    modifies log
    ensures goal == Trace(log.effects, thrown)
  {
    ghost var plan := Plan(v);
    Advance(goal, log.effects, plan, 8, run);
    thrown := RunSingle(log, CompressPackageName, v.compressPackage, false, run);

    Advance(goal, log.effects, plan, 9, run);
    thrown := RunSingle(log, TransferName, v.transfer, false, run);

    Advance(goal, log.effects, plan, 10, run);
    thrown := RunSingle(log, CopyBackPreviewName, v.copyBackPreview, false, run);
    assert plan[11..] == [];
  }
}
