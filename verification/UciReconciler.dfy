/** The reconciler that hands a rendered plan to the `uci` tool and reloads the radios, run
    against a device that decodes the text line by line. */
module UciReconciler {
  import opened Wrappers
  import opened Config
  import opened UciText
  import opened UciStore
  import opened UciPlan
  import opened UciBatch

  /* ---- the device and the reconciler ---- */

  /** The commands a batch performs: all when it succeeds, some leading ones when it does not. */
  function Performed(commands: seq<Command>, ok: bool, completed: nat): seq<Command> {
    if ok || completed > |commands| then commands else commands[..completed]
  }

  /** The process executor and the device behind it. The n-th batch and the n-th reload succeed as
      the oracles say; a failing batch may have run any of its leading commands. */
  class UciExecutor {
    const batchOk: nat -> bool
    const reloadOk: nat -> bool
    const completed: nat -> nat
    var store: Store
    var batches: nat
    var reloads: nat

    constructor (store: Store, batchOk: nat -> bool, reloadOk: nat -> bool, completed: nat -> nat)
      ensures this.store == store && batches == 0 && reloads == 0
      ensures this.batchOk == batchOk && this.reloadOk == reloadOk && this.completed == completed
    {
      this.store, this.batches, this.reloads := store, 0, 0;
      this.batchOk, this.reloadOk, this.completed := batchOk, reloadOk, completed;
    }

    method ApplyBatch(batch: string) returns (result: ApplyResult)
      modifies this`store, this`batches
      ensures NonBlank(SplitLines(batch)) == 0 ==>
                result == ApplyResult(true, false, "") && store == old(store) && batches == old(batches)
      ensures NonBlank(SplitLines(batch)) > 0 ==>
                batches == old(batches) + 1 && result.ok == result.changed == batchOk(old(batches))
                && store == Run(Performed(DecodeBatch(batch), result.ok, completed(old(batches))), old(store))
    {
      var count := CommandCount(batch);
      if count == 0 {
        return ApplyResult(true, false, "");
      }
      var ok := batchOk(batches);
      store := Run(Performed(DecodeBatch(batch), ok, completed(batches)), store);
      batches := batches + 1;
      result := ApplyResult(ok, ok, "");
    }

    method ReloadWifi() returns (result: ApplyResult)
      modifies this`reloads
      ensures reloads == old(reloads) + 1
      ensures result.ok == result.changed == reloadOk(old(reloads))
    {
      var ok := reloadOk(reloads);
      reloads := reloads + 1;
      result := ApplyResult(ok, ok, "");
    }
  }

  class OpenWrtUciReconciler {
    const capabilities: Capabilities
    const executor: UciExecutor
    const options: PlanOptions

    constructor (capabilities: Capabilities, executor: UciExecutor, options: PlanOptions)
      ensures this.capabilities == capabilities && this.executor == executor && this.options == options
    {
      this.capabilities, this.executor, this.options := capabilities, executor, options;
    }

    static function JoinErrors(errors: seq<PlanError>): string {
      if errors == [] then ""
      else if |errors| == 1 then Message(errors[0])
      else Message(errors[0]) + "; " + JoinErrors(errors[1..])
    }

    /** An inadmissible update reaches neither the store nor the radios. An admissible one is sent as one
        batch, whatever its texts are; the radios are reloaded only after the batch took, and both must
        work for a success. When the texts are safe the batch is the plan. */
    method Apply(u: Update) returns (result: ApplyResult)
      modifies executor`store, executor`batches, executor`reloads
      ensures !Admissible(u, capabilities, options) ==>
                !result.ok && !result.changed && executor.store == old(executor.store)
                && executor.batches == old(executor.batches) && executor.reloads == old(executor.reloads)
      ensures Admissible(u, capabilities, options) && PlanCommands(u, capabilities, options) == [] ==>
                result == ApplyResult(true, false, "") && executor.store == old(executor.store)
                && executor.batches == old(executor.batches) && executor.reloads == old(executor.reloads)
      ensures Admissible(u, capabilities, options) && PlanCommands(u, capabilities, options) != [] ==>
                var (batchOk, reloadOk) := (executor.batchOk(old(executor.batches)), executor.reloadOk(old(executor.reloads)));
                var sent := DecodeBatch(RenderBatch(Texts(PlanCommands(u, capabilities, options))));
                && result.ok == (batchOk && reloadOk) && result.changed == batchOk
                && executor.batches == old(executor.batches) + 1
                && executor.reloads == old(executor.reloads) + (if batchOk then 1 else 0)
                && executor.store == Run(Performed(sent, batchOk, executor.completed(old(executor.batches))), old(executor.store))
                && (sent == PlanCommands(u, capabilities, options) <==> TextSafe(u, capabilities, options))
      ensures result.ok && TextSafe(u, capabilities, options) ==>
                executor.store == Run(PlanCommands(u, capabilities, options), old(executor.store))
    {
      hide PlanCommands, Admissible, DecodeBatch, RenderBatch, NonBlank, SplitLines, ValidationErrors, Message, Run, TextSafe;
      var plan := BuildUciPlan(u, capabilities, options);
      if !plan.ok {
        var error := JoinErrors(plan.errors);
        return ApplyResult(false, false, if error == "" then "UCI plan rejected update" else error);
      }
      ghost var commands := PlanCommands(u, capabilities, options);
      if !plan.changed {
        assert commands == [] && Run([], old(executor.store)) == old(executor.store) by { RunNothing(old(executor.store)); }
        return ApplyResult(true, false, "");
      }
      SomethingToRun(commands);
      PlanTextExactly(u, capabilities, options);
      var batch := RenderUciBatch(plan.commands);
      var applied := executor.ApplyBatch(batch);
      if !applied.ok {
        return ApplyResult(false, applied.changed, if applied.error == "" then "uci batch failed" else applied.error);
      }
      var reloaded := executor.ReloadWifi();
      if !reloaded.ok {
        return ApplyResult(false, true, if reloaded.error == "" then "wifi reload failed" else reloaded.error);
      }
      return ApplyResult(true, true, "");
    }
  }

  lemma RunNothing(s: Store)
    ensures Run([], s) == s
  {
  }
}
