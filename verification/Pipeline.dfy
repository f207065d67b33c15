/** The install pipeline (dxrk/pipeline.py). */
module Pipeline {
  // Stages of steps act on an external state, and a rollback undoes the succeeded apply steps in
  // reverse. An empty error string means success, as in the program.

  import opened Wrappers
  import opened Ordering

  datatype StepId = StepId(name: string)

  /** run and rollback return the new external state and an error, empty on success. */
  datatype Step<!W> = Step(id: StepId, run: W -> (W, string), rollback: Option<W -> (W, string)>)

  datatype Status = Succeeded | Failed | RolledBack

  datatype StepResult = StepResult(stepId: StepId, status: Status, error: string)

  datatype StageResult = StageResult(steps: seq<StepResult>, success: bool, error: string)

  datatype ExecutionResult =
    ExecutionResult(prepare: StageResult, apply: StageResult, rollback: StageResult, error: string)

  datatype FailurePolicy = StopOnError | ContinueOnError

  datatype StagePlan<!W> = StagePlan(prepare: seq<Step<W>>, apply: seq<Step<W>>)

  const EMPTY_STAGE := StageResult([], true, "")

  // ----- What a stage does, from left to right -----

  datatype Outcome<W> = Outcome(world: W, steps: seq<StepResult>, errors: seq<string>)

  function RunSteps<W>(policy: FailurePolicy, steps: seq<Step<W>>, w: W): Outcome<W> {
    if steps == [] then Outcome(w, [], [])
    else
      var (w1, err) := steps[0].run(w);
      if err == "" then
        var rest := RunSteps(policy, steps[1..], w1);
        rest.(steps := [StepResult(steps[0].id, Succeeded, "")] + rest.steps)
      else if policy.StopOnError? then
        Outcome(w1, [StepResult(steps[0].id, Failed, err)], [err])
      else
        var rest := RunSteps(policy, steps[1..], w1);
        Outcome(rest.world, [StepResult(steps[0].id, Failed, err)] + rest.steps, [err] + rest.errors)
  }

  function Join(errors: seq<string>): string {
    if errors == [] then ""
    else if |errors| == 1 then errors[0]
    else errors[0] + "; " + Join(errors[1..])
  }

  function StageOf<W>(policy: FailurePolicy, o: Outcome<W>): StageResult {
    StageResult(o.steps, o.errors == [],
                if o.errors == [] then "" else if policy.StopOnError? then o.errors[0] else Join(o.errors))
  }

  // ----- What a rollback does, from right to left -----

  function Capable<W>(r: StepResult, index: map<StepId, Step<W>>): bool {
    r.status.Succeeded? && r.stepId in index && index[r.stepId].rollback.Some?
  }

  function RollbackError(id: StepId, err: string): string {
    "rollback step '" + id.name + "': " + err
  }

  function Rollback<W>(results: seq<StepResult>, index: map<StepId, Step<W>>, w: W): (W, StageResult)
    decreases |results|
  {
    if results == [] then (w, EMPTY_STAGE)
    else
      var last, init := results[|results| - 1], results[..|results| - 1];
      if !Capable(last, index) then Rollback(init, index, w)
      else
        var step := index[last.stepId];
        var (w1, err) := step.rollback.value(w);
        if err != "" then
          (w1, StageResult([StepResult(step.id, Failed, err)], false, RollbackError(step.id, err)))
        else
          var (w2, rest) := Rollback(init, index, w1);
          (w2, rest.(steps := [StepResult(step.id, RolledBack, "")] + rest.steps))
  }

  function Index<W>(index: map<StepId, Step<W>>, steps: seq<Step<W>>): map<StepId, Step<W>> {
    if steps == [] then index
    else Index(index, steps[..|steps| - 1])[steps[|steps| - 1].id := steps[|steps| - 1]]
  }

  function Execution<W>(plan: StagePlan<W>, policy: FailurePolicy, rollBack: bool,
                        index: map<StepId, Step<W>>, w: W): (W, ExecutionResult)
  {
    var prepared := RunSteps(policy, plan.prepare, w);
    var prepare := StageOf(policy, prepared);
    if !prepare.success then (prepared.world, ExecutionResult(prepare, EMPTY_STAGE, EMPTY_STAGE, prepare.error))
    else
      var applied := RunSteps(policy, plan.apply, prepared.world);
      var apply := StageOf(policy, applied);
      if apply.success then (applied.world, ExecutionResult(prepare, apply, EMPTY_STAGE, ""))
      else if apply.error == "" || !rollBack then
        (applied.world, ExecutionResult(prepare, apply, EMPTY_STAGE, apply.error))
      else
        var (w', back) := Rollback(apply.steps, Index(Index(index, plan.prepare), plan.apply), applied.world);
        (w', ExecutionResult(prepare, apply, back, if back.success then apply.error else back.error))
  }

  function Behind<W>(results: seq<StepResult>, errs: seq<string>, rest: Outcome<W>): Outcome<W> {
    Outcome(rest.world, results + rest.steps, errs + rest.errors)
  }

  /** One step of a stage, behind the results so far. */
  lemma NextStep<W>(policy: FailurePolicy, steps: seq<Step<W>>, i: nat, w: W,
                    results: seq<StepResult>, errs: seq<string>)
    requires i < |steps|
    ensures var (w1, err) := steps[i].run(w);
            var rest := RunSteps(policy, steps[i + 1..], w1);
      Behind(results, errs, RunSteps(policy, steps[i..], w)) ==
        if err == "" then Behind(results + [StepResult(steps[i].id, Succeeded, "")], errs, rest)
        else if policy.StopOnError? then Outcome(w1, results + [StepResult(steps[i].id, Failed, err)], errs + [err])
        else Behind(results + [StepResult(steps[i].id, Failed, err)], errs + [err], rest)
  {
    assert steps[i..][0] == steps[i] && steps[i..][1..] == steps[i + 1..];
    var (w1, err) := steps[i].run(w);
    var rest := RunSteps(policy, steps[i + 1..], w1);
    var result := StepResult(steps[i].id, if err == "" then Succeeded else Failed, err);
    assert results + ([result] + rest.steps) == (results + [result]) + rest.steps;
    assert errs + ([err] + rest.errors) == (errs + [err]) + rest.errors;
  }

  // ----- The program -----

  class Orchestrator<W(!new)> {
    var world: W
    var policy: FailurePolicy
    var rollBackOnApplyFailure: bool
    var stepById: map<StepId, Step<W>>

    constructor (world: W, policy: FailurePolicy, rollBackOnApplyFailure: bool)
      ensures this.world == world && this.policy == policy
      ensures this.rollBackOnApplyFailure == rollBackOnApplyFailure && stepById == map[]
    {
      this.world, this.policy, this.rollBackOnApplyFailure := world, policy, rollBackOnApplyFailure;
      stepById := map[];
    }

    method RunStage(steps: seq<Step<W>>) returns (result: StageResult)
      modifies this`world
      ensures world == RunSteps(policy, steps, old(world)).world
      ensures result == StageOf(policy, RunSteps(policy, steps, old(world)))
    {
      var errs: seq<string> := [];
      var results: seq<StepResult> := [];
      ghost var whole := RunSteps(policy, steps, world);
      assert steps[0..] == steps && [] + whole.steps == whole.steps && [] + whole.errors == whole.errors;
      for i := 0 to |steps|
        invariant policy.StopOnError? ==> errs == []
        invariant whole == Behind(results, errs, RunSteps(policy, steps[i..], world))
      {
        NextStep(policy, steps, i, world, results, errs);
        var (w1, err) := steps[i].run(world);
        world := w1;
        if err != "" {
          results := results + [StepResult(steps[i].id, Failed, err)];
          errs := errs + [err];
          if policy.StopOnError? {
            return StageResult(results, false, err);
          }
          continue;
        }
        results := results + [StepResult(steps[i].id, Succeeded, "")];
      }
      assert results + [] == results && errs + [] == errs;
      return StageResult(results, errs == [], Join(errs));
    }

    method IndexSteps(steps: seq<Step<W>>)
      modifies this`stepById
      ensures stepById == Index(old(stepById), steps)
    {
      ghost var before := stepById;
      for i := 0 to |steps|
        invariant stepById == Index(before, steps[..i])
      {
        stepById := stepById[steps[i].id := steps[i]];
        assert steps[..i + 1][..i] == steps[..i];
      }
      assert steps[..|steps|] == steps;
    }

    method ExecuteRollback(results: seq<StepResult>) returns (result: StageResult)
      modifies this`world
      ensures (world, result) == Rollback(results, stepById, old(world))
    {
      var entries: seq<StepResult> := [];
      ghost var (w', whole) := Rollback(results, stepById, world);
      var i := |results|;
      assert results[..i] == results;
      while i > 0
        invariant 0 <= i <= |results|
        invariant var (w2, rest) := Rollback(results[..i], stepById, world);
          w2 == w' && whole == rest.(steps := entries + rest.steps)
      {
        i := i - 1;
        var r := results[i];
        assert results[..i + 1][..i] == results[..i];
        if !r.status.Succeeded? || r.stepId !in stepById || stepById[r.stepId].rollback.None? {
          continue;
        }
        var step := stepById[r.stepId];
        var (w1, err) := step.rollback.value(world);
        world := w1;
        if err != "" {
          return StageResult(entries + [StepResult(step.id, Failed, err)], false, RollbackError(step.id, err));
        }
        entries := entries + [StepResult(step.id, RolledBack, "")];
      }
      assert results[..0] == [] && entries + [] == entries;
      return StageResult(entries, true, "");
    }

    method Execute(plan: StagePlan<W>) returns (result: ExecutionResult)
      modifies this`world, this`stepById
      ensures (world, result)
           == Execution(plan, policy, rollBackOnApplyFailure, old(stepById), old(world))
      ensures stepById == Index(Index(old(stepById), plan.prepare), plan.apply)
    {
      IndexSteps(plan.prepare);
      IndexSteps(plan.apply);
      var prepare := RunStage(plan.prepare);
      if !prepare.success {
        return ExecutionResult(prepare, EMPTY_STAGE, EMPTY_STAGE, prepare.error);
      }
      var apply := RunStage(plan.apply);
      if apply.success {
        return ExecutionResult(prepare, apply, EMPTY_STAGE, "");
      }
      var error := apply.error;
      var rollback := EMPTY_STAGE;
      if error != "" && rollBackOnApplyFailure {
        rollback := ExecuteRollback(apply.steps);
        if !rollback.success {
          error := rollback.error;
        }
      }
      return ExecutionResult(prepare, apply, rollback, error);
    }
  }

  // ----- Errors -----

  lemma {:induction false} ErrorsAreReal<W>(policy: FailurePolicy, steps: seq<Step<W>>, w: W)
    ensures "" !in RunSteps(policy, steps, w).errors
  {
    if steps != [] {
      var (w1, err) := steps[0].run(w);
      ErrorsAreReal(policy, steps[1..], w1);
      var rest := RunSteps(policy, steps[1..], w1).errors;
      assert err != "" ==> "" !in [err] + rest;
    }
  }

  lemma StageErrorMeansFailure<W>(policy: FailurePolicy, steps: seq<Step<W>>, w: W)
    ensures var r := StageOf(policy, RunSteps(policy, steps, w));
      r.error == "" <==> r.success
  {
    ErrorsAreReal(policy, steps, w);
  }

  lemma {:induction false} RollbackErrorMeansFailure<W>(results: seq<StepResult>, index: map<StepId, Step<W>>, w: W)
    ensures var r := Rollback(results, index, w).1; r.error == "" <==> r.success
    decreases |results|
  {
    if results != [] {
      var last, init := results[|results| - 1], results[..|results| - 1];
      if Capable(last, index) {
        var (w1, err) := index[last.stepId].rollback.value(w);
        RollbackErrorMeansFailure(init, index, w1);
      } else {
        RollbackErrorMeansFailure(init, index, w);
      }
    }
  }

  /** The result carries no error exactly when prepare and apply both succeeded. */
  lemma NoErrorMeansSuccess<W>(plan: StagePlan<W>, policy: FailurePolicy, rollBack: bool,
                               index: map<StepId, Step<W>>, w: W)
    ensures var (w', r) := Execution(plan, policy, rollBack, index, w);
      && (r.error == "" <==> r.prepare.success && r.apply.success
                             && |r.prepare.steps| == |plan.prepare| && |r.apply.steps| == |plan.apply|)
      && (r.rollback != EMPTY_STAGE ==> rollBack && r.prepare.success && !r.apply.success)
  {
    var prepared := RunSteps(policy, plan.prepare, w);
    StageErrorMeansFailure(policy, plan.prepare, w);
    StageErrorMeansFailure(policy, plan.apply, prepared.world);
    SuccessRunsAll(policy, plan.prepare, w);
    SuccessRunsAll(policy, plan.apply, prepared.world);
    RollbackErrorMeansFailure(RunSteps(policy, plan.apply, prepared.world).steps,
                              Index(Index(index, plan.prepare), plan.apply),
                              RunSteps(policy, plan.apply, prepared.world).world);
  }

  /** A failed prepare stops everything: no apply step runs, nothing is rolled back, and its error is the result's. */
  lemma FailedPrepareStops<W>(plan: StagePlan<W>, policy: FailurePolicy, rollBack: bool,
                              index: map<StepId, Step<W>>, w: W)
    requires RunSteps(policy, plan.prepare, w).errors != []
    ensures var (w', r) := Execution(plan, policy, rollBack, index, w);
            var prepared := RunSteps(policy, plan.prepare, w);
      && w' == prepared.world && r.prepare.steps == prepared.steps && !r.prepare.success
      && r.apply.steps == [] && r.rollback.steps == []
      && r.error == r.prepare.error != ""
  {
    StageErrorMeansFailure(policy, plan.prepare, w);
  }

  /** Prepare and apply in turn, and no rollback: what both stages left, and the error of apply, if it failed. */
  lemma WithoutRollback<W>(plan: StagePlan<W>, policy: FailurePolicy, rollBack: bool,
                           index: map<StepId, Step<W>>, w: W)
    requires RunSteps(policy, plan.prepare, w).errors == []
    requires !rollBack || RunSteps(policy, plan.apply, RunSteps(policy, plan.prepare, w).world).errors == []
    ensures var (w', r) := Execution(plan, policy, rollBack, index, w);
            var prepared := RunSteps(policy, plan.prepare, w);
            var applied := RunSteps(policy, plan.apply, prepared.world);
      && w' == applied.world && r.rollback.steps == []
      && r.prepare.steps == prepared.steps && r.prepare.success && r.prepare.error == ""
      && r.apply.steps == applied.steps && (r.apply.success <==> applied.errors == [])
      && r.error == r.apply.error
  {
    StageErrorMeansFailure(policy, plan.prepare, w);
    StageErrorMeansFailure(policy, plan.apply, RunSteps(policy, plan.prepare, w).world);
  }

  /** A failed apply with rollback: the rollback's error stands when it fails, and else that of apply. */
  lemma WithRollback<W>(plan: StagePlan<W>, policy: FailurePolicy, index: map<StepId, Step<W>>, w: W)
    requires RunSteps(policy, plan.prepare, w).errors == []
    requires RunSteps(policy, plan.apply, RunSteps(policy, plan.prepare, w).world).errors != []
    ensures var (w', r) := Execution(plan, policy, true, index, w);
            var applied := RunSteps(policy, plan.apply, RunSteps(policy, plan.prepare, w).world);
            var final := Index(Index(index, plan.prepare), plan.apply);
      && (w', r.rollback) == Rollback(applied.steps, final, applied.world)
      && r.apply.steps == applied.steps && !r.apply.success
      && r.error != "" && r.error == (if r.rollback.success then r.apply.error else r.rollback.error)
  {
    var applied := RunSteps(policy, plan.apply, RunSteps(policy, plan.prepare, w).world);
    StageErrorMeansFailure(policy, plan.apply, RunSteps(policy, plan.prepare, w).world);
    RollbackErrorMeansFailure(applied.steps, Index(Index(index, plan.prepare), plan.apply), applied.world);
  }

  // ----- Which steps run, on which state -----

  /** The state before step k when all steps before it have run, whatever they brought. */
  function StateBefore<W>(steps: seq<Step<W>>, w: W, k: nat): W
    requires k <= |steps|
  {
    if k == 0 then w else steps[k - 1].run(StateBefore(steps, w, k - 1)).0
  }

  function ErrorOf<W>(steps: seq<Step<W>>, w: W, k: nat): string
    requires k < |steps|
  {
    steps[k].run(StateBefore(steps, w, k)).1
  }

  lemma {:induction false} StateBeforeShifts<W>(steps: seq<Step<W>>, w: W, k: nat)
    requires 0 < k <= |steps|
    ensures StateBefore(steps, w, k) == StateBefore(steps[1..], steps[0].run(w).0, k - 1)
  {
    if k > 1 {
      StateBeforeShifts(steps, w, k - 1);
    } else {
      assert StateBefore(steps, w, 0) == w;
    }
  }

  /** Each step runs on what the one before it left; a stopping stage ends with the first that fails. */
  ghost predicate RunsInOrder<W>(policy: FailurePolicy, steps: seq<Step<W>>, w: W, o: Outcome<W>) {
    && |o.steps| <= |steps| && o.world == StateBefore(steps, w, |o.steps|)
    && ResultsMatch(steps, w, o.steps)
    && EndsRight(policy, steps, w, |o.steps|)
    && o.errors == ErrorsIn(o.steps)
  }

  ghost predicate ResultsMatch<W>(steps: seq<Step<W>>, w: W, results: seq<StepResult>) {
    |results| <= |steps| && forall k :: 0 <= k < |results| ==> results[k] == ResultOf(steps, w, k)
  }

  function ResultOf<W>(steps: seq<Step<W>>, w: W, k: nat): StepResult
    requires k < |steps|
  {
    var err := ErrorOf(steps, w, k);
    StepResult(steps[k].id, if err == "" then Succeeded else Failed, err)
  }

  /** All steps have run, or those up to the first error under the stopping policy. */
  ghost predicate EndsRight<W>(policy: FailurePolicy, steps: seq<Step<W>>, w: W, n: nat) {
    && n <= |steps|
    && (n < |steps| ==> policy.StopOnError? && n > 0 && ErrorOf(steps, w, n - 1) != "")
    && (policy.StopOnError? ==> forall k :: 0 <= k < n - 1 ==> ErrorOf(steps, w, k) == "")
  }

  /** The errors of the failed steps, in their order. */
  function ErrorsIn(results: seq<StepResult>): seq<string> {
    if results == [] then []
    else (if results[0].status.Failed? then [results[0].error] else []) + ErrorsIn(results[1..])
  }

  lemma {:induction false} StageRunsInOrder<W>(policy: FailurePolicy, steps: seq<Step<W>>, w: W)
    ensures RunsInOrder(policy, steps, w, RunSteps(policy, steps, w))
  {
    if steps != [] {
      var (w1, err) := steps[0].run(w);
      StageRunsInOrder(policy, steps[1..], w1);
      FirstRunsInOrder(policy, steps, w);
    }
  }

  lemma FirstRunsInOrder<W>(policy: FailurePolicy, steps: seq<Step<W>>, w: W)
    requires steps != []
    requires RunsInOrder(policy, steps[1..], steps[0].run(w).0, RunSteps(policy, steps[1..], steps[0].run(w).0))
    ensures RunsInOrder(policy, steps, w, RunSteps(policy, steps, w))
  {
    var (w1, err) := steps[0].run(w);
    if err != "" && policy.StopOnError? {
      FirstStops(policy, steps, w);
    } else {
      var rest := RunSteps(policy, steps[1..], w1);
      FirstMatches(steps, w, rest.steps);
      FirstEnds(policy, steps, w, |rest.steps|);
      StateBeforeShifts(steps, w, 1 + |rest.steps|);
      ErrorsInCons(ResultOf(steps, w, 0), rest.steps);
      assert StateBefore(steps, w, 0) == w;
    }
  }

  lemma ErrorsInCons(r: StepResult, rest: seq<StepResult>)
    ensures ErrorsIn([r] + rest) == (if r.status.Failed? then [r.error] else []) + ErrorsIn(rest)
  {
    assert ([r] + rest)[1..] == rest;
  }

  lemma FirstMatches<W>(steps: seq<Step<W>>, w: W, rest: seq<StepResult>)
    requires steps != [] && ResultsMatch(steps[1..], steps[0].run(w).0, rest)
    ensures ResultsMatch(steps, w, [ResultOf(steps, w, 0)] + rest)
  {
    forall k | 0 < k <= |rest|
      ensures rest[k - 1] == ResultOf(steps, w, k)
    {
      ErrorShifts(steps, w, k);
    }
  }

  lemma FirstEnds<W>(policy: FailurePolicy, steps: seq<Step<W>>, w: W, n: nat)
    requires steps != [] && EndsRight(policy, steps[1..], steps[0].run(w).0, n)
    requires steps[0].run(w).1 == "" || policy.ContinueOnError?
    ensures EndsRight(policy, steps, w, 1 + n)
  {
    forall k | 0 <= k <= n && k < |steps|
      ensures ErrorOf(steps, w, k)
           == if k == 0 then steps[0].run(w).1 else ErrorOf(steps[1..], steps[0].run(w).0, k - 1)
    {
      ErrorShifts(steps, w, k);
    }
  }

  lemma FirstStops<W>(policy: FailurePolicy, steps: seq<Step<W>>, w: W)
    requires steps != [] && steps[0].run(w).1 != "" && policy.StopOnError?
    ensures RunsInOrder(policy, steps, w, RunSteps(policy, steps, w))
  {
    var o := RunSteps(policy, steps, w);
    assert StateBefore(steps, w, 0) == w && StateBefore(steps, w, 1) == steps[0].run(w).0;
    assert o.steps[1..] == [] && ErrorsIn(o.steps) == [o.steps[0].error] + ErrorsIn(o.steps[1..]);
  }

  lemma ErrorShifts<W>(steps: seq<Step<W>>, w: W, k: nat)
    requires k < |steps|
    ensures ErrorOf(steps, w, k)
         == if k == 0 then steps[0].run(w).1 else ErrorOf(steps[1..], steps[0].run(w).0, k - 1)
  {
    if k > 0 {
      StateBeforeShifts(steps, w, k);
    }
  }

  /** The error of a stage: the first when it stops there, and all of them in order otherwise. */
  lemma StageErrors<W>(policy: FailurePolicy, o: Outcome<W>)
    ensures policy.StopOnError? && o.errors != [] ==> StageOf(policy, o).error == o.errors[0]
    ensures policy.ContinueOnError? ==> StageOf(policy, o).error == Join(o.errors)
  {
  }

  lemma JoinSeparates(a: string, b: string, rest: seq<string>)
    ensures Join([]) == "" && Join([a]) == a && Join([a] + ([b] + rest)) == a + "; " + Join([b] + rest)
  {
    assert ([a] + ([b] + rest))[1..] == [b] + rest;
  }

  lemma {:induction false} SuccessRunsAll<W>(policy: FailurePolicy, steps: seq<Step<W>>, w: W)
    ensures var o := RunSteps(policy, steps, w);
      && |o.steps| <= |steps|
      && (forall i :: 0 <= i < |o.steps| ==> o.steps[i].stepId == steps[i].id)
      && (o.errors == [] || policy.ContinueOnError? ==> |o.steps| == |steps|)
      && (o.errors == [] <==> forall i :: 0 <= i < |o.steps| ==> o.steps[i].status.Succeeded?)
  {
    if steps != [] {
      SuccessRunsAll(policy, steps[1..], steps[0].run(w).0);
    }
  }

  // ----- Which steps are rolled back -----

  /** Ids of the succeeded steps that can be rolled back, last first. */
  function ToUndo<W>(results: seq<StepResult>, index: map<StepId, Step<W>>): seq<StepId> {
    if results == [] then []
    else
      var last, init := results[|results| - 1], results[..|results| - 1];
      (if Capable(last, index) then [last.stepId] else []) + ToUndo(init, index)
  }

  ghost predicate IndexedById<W>(index: map<StepId, Step<W>>) {
    forall id :: id in index ==> index[id].id == id
  }

  function Ids(entries: seq<StepResult>): seq<StepId> {
    if entries == [] then [] else [entries[0].stepId] + Ids(entries[1..])
  }

  /** All rolled back, or all but a last one that failed. */
  function EntriesEnd(r: StageResult): bool
    decreases |r.steps|
  {
    if r.steps == [] then r.success
    else if |r.steps| == 1 then
      if r.success then r.steps[0].status.RolledBack? else r.steps[0].status.Failed?
    else r.steps[0].status.RolledBack? && EntriesEnd(r.(steps := r.steps[1..]))
  }

  lemma {:induction false} IndexKeepsIds<W>(index: map<StepId, Step<W>>, steps: seq<Step<W>>)
    requires IndexedById(index)
    ensures IndexedById(Index(index, steps))
  {
    if steps != [] {
      IndexKeepsIds(index, steps[..|steps| - 1]);
    }
  }

  /** The entries are that list, cut after the first failed rollback. */
  lemma {:induction false} RollbackEntries<W>(results: seq<StepResult>, index: map<StepId, Step<W>>, w: W)
    requires IndexedById(index)
    ensures var r := Rollback(results, index, w).1;
      Ids(r.steps) <= ToUndo(results, index) && (r.success ==> Ids(r.steps) == ToUndo(results, index))
    decreases |results|
  {
    if results != [] {
      var last, init := results[|results| - 1], results[..|results| - 1];
      if Capable(last, index) {
        var (w1, err) := index[last.stepId].rollback.value(w);
        RollbackEntries(init, index, w1);
        var entry := StepResult(index[last.stepId].id, Failed, err);
        assert Ids([entry]) == [entry.stepId] + Ids([]);
      } else {
        RollbackEntries(init, index, w);
      }
    }
  }

  lemma {:induction false} RollbackEntriesEnd<W>(results: seq<StepResult>, index: map<StepId, Step<W>>, w: W)
    ensures EntriesEnd(Rollback(results, index, w).1)
    decreases |results|
  {
    if results != [] {
      var last, init := results[|results| - 1], results[..|results| - 1];
      if Capable(last, index) {
        var (w1, err) := index[last.stepId].rollback.value(w);
        RollbackEntriesEnd(init, index, w1);
      } else {
        RollbackEntriesEnd(init, index, w);
      }
    }
  }

  /** The steps to undo, last first, each with its rollback in the place of its run. */
  function Undoing<W>(results: seq<StepResult>, index: map<StepId, Step<W>>): seq<Step<W>> {
    if results == [] then []
    else
      var last, init := results[|results| - 1], results[..|results| - 1];
      (if Capable(last, index)
       then [Step(index[last.stepId].id, index[last.stepId].rollback.value, None)]
       else []) + Undoing(init, index)
  }

  function AsUndone(results: seq<StepResult>): seq<StepResult> {
    if results == [] then []
    else
      var first := if results[0].status.Succeeded? then results[0].(status := RolledBack) else results[0];
      [first] + AsUndone(results[1..])
  }

  lemma AsUndoneCons(r: StepResult, rest: seq<StepResult>)
    ensures AsUndone([r] + rest) == [if r.status.Succeeded? then r.(status := RolledBack) else r] + AsUndone(rest)
  {
    assert ([r] + rest)[1..] == rest;
  }

  predicate NamesFailure(error: string, failed: StepResult, err: string) {
    failed.status.Failed? && failed.error == err && error == "rollback step '" + failed.stepId.name + "': " + err
  }

  /** What a stopping stage of the undoing steps means as a rollback: the failed step and its error are named. */
  ghost predicate IsStageOf<W>(o: Outcome<W>, w: W, r: StageResult) {
    && w == o.world && r.steps == AsUndone(o.steps) && (r.success <==> o.errors == [])
    && (r.success ==> r.error == "")
    && (!r.success ==> o.steps != [] && NamesFailure(r.error, o.steps[|o.steps| - 1], o.errors[0]))
  }

  /** A rollback is a stage that stops at the first error; StageRunsInOrder says what such a stage does. */
  lemma {:induction false} RollbackIsStage<W>(results: seq<StepResult>, index: map<StepId, Step<W>>, w: W)
    ensures var (w', r) := Rollback(results, index, w);
      IsStageOf(RunSteps(StopOnError, Undoing(results, index), w), w', r)
    decreases |results|
  {
    if results != [] {
      var last, init := results[|results| - 1], results[..|results| - 1];
      if Capable(last, index) {
        var undo := index[last.stepId].rollback.value;
        RollbackIsStage(init, index, undo(w).0);
        LatestIsFirst(results, index, w);
      } else {
        RollbackIsStage(init, index, w);
        assert [] + Undoing(init, index) == Undoing(init, index);
      }
    }
  }

  lemma LatestIsFirst<W>(results: seq<StepResult>, index: map<StepId, Step<W>>, w: W)
    requires results != [] && Capable(results[|results| - 1], index)
    requires
      var w1 := index[results[|results| - 1].stepId].rollback.value(w).0;
      var (w', r) := Rollback(results[..|results| - 1], index, w1);
      IsStageOf(RunSteps(StopOnError, Undoing(results[..|results| - 1], index), w1), w', r)
    ensures var (w', r) := Rollback(results, index, w);
      IsStageOf(RunSteps(StopOnError, Undoing(results, index), w), w', r)
  {
    var last, init := results[|results| - 1], results[..|results| - 1];
    var (w1, err) := index[last.stepId].rollback.value(w);
    var steps := Undoing(results, index);
    assert steps[1..] == Undoing(init, index);
    var rest := RunSteps(StopOnError, steps[1..], w1);
    var first := StepResult(steps[0].id, if err == "" then Succeeded else Failed, err);
    AsUndoneCons(first, if err == "" then rest.steps else []);
  }

  // ----- Compensation -----

  /**
   A failing run changes nothing; a succeeding run is undone by a succeeding rollback,
   or changes nothing when the step has no rollback.
   */
  ghost predicate Compensates<W(!new)>(step: Step<W>) {
    && (forall w :: step.run(w).1 != "" ==> step.run(w).0 == w)
    && (forall w :: step.run(w).1 == "" ==>
          match step.rollback
          case None => step.run(w).0 == w
          case Some(undo) => undo(step.run(w).0).1 == "" ==> undo(step.run(w).0).0 == w)
  }

  /** Rolling back one more, earlier result is the last thing done. */
  lemma {:induction false} RollbackEarliest<W>(first: StepResult, rest: seq<StepResult>,
                                               index: map<StepId, Step<W>>, w: W)
    ensures var (w1, r1) := Rollback(rest, index, w);
            var (w2, r2) := Rollback([first] + rest, index, w);
      && (r2.success ==> r1.success)
      && (r1.success && !Capable(first, index) ==> w2 == w1)
      && (r1.success && Capable(first, index) ==>
            var (w3, err) := index[first.stepId].rollback.value(w1);
            w2 == w3 && (r2.success <==> err == ""))
    decreases |rest|
  {
    var all := [first] + rest;
    if rest == [] {
      assert all[..0] == [] && all[0] == first;
    } else {
      var last, init := rest[|rest| - 1], rest[..|rest| - 1];
      assert all[|all| - 1] == last && all[..|all| - 1] == [first] + init;
      if Capable(last, index) {
        RollbackEarliest(first, init, index, index[last.stepId].rollback.value(w).0);
      } else {
        RollbackEarliest(first, init, index, w);
      }
    }
  }

  /** Every step is found again under its id. */
  ghost predicate FoundByIds<W>(steps: seq<Step<W>>, index: map<StepId, Step<W>>) {
    forall i :: 0 <= i < |steps| ==> steps[i].id in index && index[steps[i].id] == steps[i]
  }

  lemma {:induction false} RollbackRestores<W(!new)>(policy: FailurePolicy, steps: seq<Step<W>>,
                                                     index: map<StepId, Step<W>>, w: W)
    requires FoundByIds(steps, index)
    requires forall i :: 0 <= i < |steps| ==> Compensates(steps[i])
    ensures var o := RunSteps(policy, steps, w);
            var (w', r) := Rollback(o.steps, index, o.world);
      r.success ==> w' == w
  {
    if steps != [] {
      var (w1, err) := steps[0].run(w);
      assert Compensates(steps[0]);
      assert steps[0].id in index && index[steps[0].id] == steps[0];
      if err != "" && policy.StopOnError? {
        var failed := StepResult(steps[0].id, Failed, err);
        assert [failed][..0] == [];
      } else {
        RollbackRestores(policy, steps[1..], index, w1);
        var first := StepResult(steps[0].id, if err == "" then Succeeded else Failed, err);
        var rest := RunSteps(policy, steps[1..], w1);
        RollbackEarliest(first, rest.steps, index, rest.world);
      }
    }
  }

  ghost predicate UniqueIds<W>(steps: seq<Step<W>>) {
    forall i, j :: 0 <= i < j < |steps| ==> steps[i].id != steps[j].id
  }

  lemma {:induction false} IndexFinds<W>(index: map<StepId, Step<W>>, steps: seq<Step<W>>, i: nat)
    requires UniqueIds(steps) && i < |steps|
    ensures var r := Index(index, steps); steps[i].id in r && r[steps[i].id] == steps[i]
  {
    var last := |steps| - 1;
    if i < last {
      IndexFinds(index, steps[..last], i);
      assert steps[..last][i] == steps[i];
    }
  }

  /**
   Compensation: with unique ids among the apply steps, a failed apply whose
   rollbacks all succeed leaves the state as prepare left it, under both policies.
   */
  lemma FailedApplyIsUndone<W(!new)>(plan: StagePlan<W>, policy: FailurePolicy, index: map<StepId, Step<W>>, w: W)
    requires UniqueIds(plan.apply)
    requires forall i :: 0 <= i < |plan.apply| ==> Compensates(plan.apply[i])
    ensures var (w', r) := Execution(plan, policy, true, index, w);
      r.prepare.success && !r.apply.success && r.rollback.success ==>
        w' == RunSteps(policy, plan.prepare, w).world
  {
    var prepared := RunSteps(policy, plan.prepare, w);
    var final := Index(Index(index, plan.prepare), plan.apply);
    forall i | 0 <= i < |plan.apply| {
      IndexFinds(Index(index, plan.prepare), plan.apply, i);
    }
    RollbackRestores(policy, plan.apply, final, prepared.world);
    StageErrorMeansFailure(policy, plan.apply, prepared.world);
  }

  // ----- Exactly which ids make a plan undoable -----

  function IdsOf<W>(steps: seq<Step<W>>): seq<StepId> {
    seq(|steps|, k requires 0 <= k < |steps| => steps[k].id)
  }

  ghost predicate Compensating<W(!new)>(steps: seq<Step<W>>) {
    forall i :: 0 <= i < |steps| ==> Compensates(steps[i])
  }

  /** A failed apply whose rollbacks all succeed leaves the state as prepare left it. */
  ghost predicate IsUndone<W>(plan: StagePlan<W>, policy: FailurePolicy, index: map<StepId, Step<W>>, w: W) {
    var (w', r) := Execution(plan, policy, true, index, w);
    r.prepare.success && !r.apply.success && r.rollback.success ==> w' == RunSteps(policy, plan.prepare, w).world
  }

  function Adder(id: StepId, n: int): Step<int> {
    Step(id, (w: int) => (w + n, ""), Some((w: int) => (w - n, "")))
  }

  function Failing(id: StepId): Step<int> {
    Step(id, (w: int) => (w, "boom"), None)
  }

  function Idle(id: StepId): Step<int> {
    Step(id, (w: int) => (w, ""), None)
  }

  /** A counter is raised at i, and the step at j fails; the others do nothing. */
  function StepAt(ids: seq<StepId>, i: nat, j: nat, k: nat): Step<int>
    requires k < |ids|
  {
    if k == i then Adder(ids[k], 1) else if k == j then Failing(ids[k]) else Idle(ids[k])
  }

  function StepsFor(ids: seq<StepId>, i: nat, j: nat): (steps: seq<Step<int>>)
    ensures |steps| == |ids| && forall k :: 0 <= k < |ids| ==> steps[k] == StepAt(ids, i, j, k)
  {
    seq(|ids|, k requires 0 <= k < |ids| => StepAt(ids, i, j, k))
  }

  lemma StepsCompensate(ids: seq<StepId>, i: nat, j: nat)
    ensures Compensating(StepsFor(ids, i, j)) && IdsOf(StepsFor(ids, i, j)) == ids
  {
    forall k | 0 <= k < |ids|
      ensures Compensates(StepsFor(ids, i, j)[k])
    {
    }
  }

  /** From step k on: the counter is raised while i lies ahead, and the stage fails while j does. */
  lemma {:induction false} StepsRun(policy: FailurePolicy, ids: seq<StepId>, i: nat, j: nat, k: nat, w: int)
    requires i < j < |ids| && k <= |ids|
    ensures var o := RunSteps(policy, StepsFor(ids, i, j)[k..], w);
      o.world == (if k <= i then w + 1 else w) && (k <= j ==> o.errors != [])
    decreases |ids| - k
  {
    if k < |ids| {
      var steps := StepsFor(ids, i, j);
      assert steps[k..][0] == steps[k] && steps[k..][1..] == steps[k + 1..];
      StepsRun(policy, ids, i, j, k + 1, steps[k].run(w).0);
    }
  }

  /** The index holds the last step of every id. */
  lemma {:induction false} IndexIsLast<W>(index: map<StepId, Step<W>>, steps: seq<Step<W>>, k: nat) returns (m: nat)
    requires k < |steps|
    ensures k <= m < |steps| && steps[m].id == steps[k].id
    ensures forall l :: m < l < |steps| ==> steps[l].id != steps[k].id
    ensures steps[k].id in Index(index, steps) && Index(index, steps)[steps[k].id] == steps[m]
  {
    var last := |steps| - 1;
    if steps[last].id == steps[k].id {
      return last;
    }
    m := IndexIsLast(index, steps[..last], k);
  }

  lemma {:induction false} NothingToUndo<W>(results: seq<StepResult>, index: map<StepId, Step<W>>, w: W)
    requires forall k :: 0 <= k < |results| ==> !Capable(results[k], index)
    ensures Rollback(results, index, w) == (w, EMPTY_STAGE)
    decreases |results|
  {
    if results != [] {
      NothingToUndo(results[..|results| - 1], index, w);
    }
  }

  /** The step that raises the counter is indexed under the same id as a later one, which undoes nothing. */
  lemma NoneCapable(policy: FailurePolicy, ids: seq<StepId>, i: nat, j: nat, w: int, k: nat)
    requires i < j < |ids| && ids[i] == ids[j] && k < |RunSteps(policy, StepsFor(ids, i, j), w).steps|
    ensures !Capable(RunSteps(policy, StepsFor(ids, i, j), w).steps[k], Index(map[], StepsFor(ids, i, j)))
  {
    var steps := StepsFor(ids, i, j);
    SuccessRunsAll(policy, steps, w);
    var m := IndexIsLast(map[], steps, k);
    assert m != i by {
      assert steps[j].id == ids[i];
    }
  }

  /** Any list with a repeated id has a compensating plan that is not undone, under either policy. */
  lemma RepeatedIdIsNotUndone(policy: FailurePolicy, ids: seq<StepId>, i: nat, j: nat)
    requires i < j < |ids| && ids[i] == ids[j]
    ensures !IsUndone(StagePlan([], StepsFor(ids, i, j)), policy, map[], 0)
  {
    var steps := StepsFor(ids, i, j);
    var o := RunSteps(policy, steps, 0);
    StepsRun(policy, ids, i, j, 0, 0);
    assert steps[0..] == steps;
    StageErrorMeansFailure(policy, steps, 0);
    assert Index<int>(map[], []) == map[];
    forall k | 0 <= k < |o.steps|
      ensures !Capable(o.steps[k], Index(map[], steps))
    {
      NoneCapable(policy, ids, i, j, 0, k);
    }
    NothingToUndo(o.steps, Index(map[], steps), o.world);
  }

  lemma UnrepeatedIsUndone<W(!new)>(plan: StagePlan<W>, policy: FailurePolicy, index: map<StepId, Step<W>>, w: W)
    requires Distinct(IdsOf(plan.apply)) && Compensating(plan.apply)
    ensures IsUndone(plan, policy, index, w)
  {
    var ids := IdsOf(plan.apply);
    assert forall k :: 0 <= k < |ids| ==> ids[k] == plan.apply[k].id;
    FailedApplyIsUndone(plan, policy, index, w);
  }

  /**
   For every list of ids and each policy: all compensating plans with these apply ids are
   undone after a failed apply with a successful rollback exactly when no id is repeated.
   */
  lemma UndoneIffUnrepeated(policy: FailurePolicy, ids: seq<StepId>)
    ensures Distinct(ids) <==>
            forall plan: StagePlan<int>, index, w {:trigger IsUndone(plan, policy, index, w)} ::
              IdsOf(plan.apply) == ids && Compensating(plan.apply) ==> IsUndone(plan, policy, index, w)
  {
    if Distinct(ids) {
      forall plan: StagePlan<int>, index, w | IdsOf(plan.apply) == ids && Compensating(plan.apply)
        ensures IsUndone(plan, policy, index, w)
      {
        UnrepeatedIsUndone(plan, policy, index, w);
      }
    } else {
      var i, j :| 0 <= i < j < |ids| && ids[i] == ids[j];
      var plan := StagePlan([], StepsFor(ids, i, j));
      StepsCompensate(ids, i, j);
      RepeatedIdIsNotUndone(policy, ids, i, j);
      assert !IsUndone(plan, policy, map[], 0);
    }
  }

  const A := StepId("a")
  const B := StepId("b")

  const SHARED: seq<Step<int>> := [Adder(A, 1), Adder(A, 10), Failing(B)]

  lemma SharedIdRun()
    ensures RunSteps(StopOnError, SHARED, 0)
         == Outcome(11, [StepResult(A, Succeeded, ""), StepResult(A, Succeeded, ""), StepResult(B, Failed, "boom")],
                    ["boom"])
  {
    assert SHARED[1..] == [Adder(A, 10), Failing(B)] && SHARED[1..][1..] == [Failing(B)];
    var ok, bad := StepResult(A, Succeeded, ""), StepResult(B, Failed, "boom");
    assert RunSteps(StopOnError, [Failing(B)], 11) == Outcome(11, [bad], ["boom"]);
    assert RunSteps(StopOnError, SHARED[1..], 1) == Outcome(11, [ok, bad], ["boom"]);
  }

  lemma SharedIdIndex()
    ensures var index := Index(Index(map[], []), SHARED); A in index && index[A] == Adder(A, 10)
  {
    assert A.name[0] != B.name[0];
    assert SHARED[..2] == [Adder(A, 1), Adder(A, 10)];
  }

  /** What can happen then: the step indexed last is rolled back in the place of both. */
  lemma SharedIdIsNotUndone()
    ensures Compensating(SHARED)
    ensures var (w', r) := Execution(StagePlan([], SHARED), StopOnError, true, map[], 0);
            r.prepare.success && !r.apply.success && r.rollback.success && w' == -9
  {
    SharedIdRun();
    SharedIdIndex();
    var ok, bad := StepResult(A, Succeeded, ""), StepResult(B, Failed, "boom");
    var index := Index(Index(map[], []), SHARED);
    assert [ok, ok, bad][..2] == [ok, ok] && [ok, ok][..1] == [ok] && [ok][..0] == [];
    assert Rollback([ok], index, 1).0 == -9 && Rollback([ok], index, 1).1.success;
    assert Rollback([ok, ok], index, 11).0 == -9 && Rollback([ok, ok], index, 11).1.success;
  }
}
