/** The memoizing holder of a function's contract: a one-shot computation guarded by a
    three-state machine that turns re-entry during the computation into a fatal error. */
module LazyContracts {
  import opened Wrappers
  import opened ContractModel

  datatype ComputationState = NotProcessed | InProcess | Processed

  /** What the computation callback does with its provider, in order: store a contract,
      or ask the provider for its contract again (re-entry). */
  datatype ProviderCall = SetContract(contract: Option<ContractDescriptor>) | GetContract

  /** The provider's state while the callback runs, and the error that aborted it, if any. */
  datatype Progress = Progress(state: ComputationState, contract: Option<ContractDescriptor>, error: Option<InternalError>)

  /** One call made by the callback. A re-entrant get in `InProcess` throws; once the
      contract has been set, a re-entrant get just reads it. */
  function Step(p: Progress, call: ProviderCall): Progress {
    if p.error.Some? then p
    else match call
      case SetContract(c) => Progress(Processed, c, None)
      case GetContract => if p.state == InProcess then p.(error := Some(RecursiveContractEvaluation)) else p
  }

  function Run(calls: seq<ProviderCall>, start: Progress): Progress {
    if calls == [] then start else Step(Run(calls[..|calls| - 1], start), calls[|calls| - 1])
  }

  /** The outcome of the first `getContractDescriptor`: the state it leaves and what it returns. */
  function FirstEvaluation(calls: seq<ProviderCall>, stored: Option<ContractDescriptor>)
    : (ComputationState, Option<ContractDescriptor>, Result<Option<ContractDescriptor>, InternalError>)
  {
    var p := Run(calls, Progress(InProcess, stored, None));
    if p.error.Some? then (p.state, p.contract, Failure(p.error.value))
    else if p.state != Processed then (p.state, p.contract, Failure(ContractNotInitialized))
    else (p.state, p.contract, Success(p.contract))
  }

  class LazyContractProvider {
    const ownerFunction: FunctionDescriptor
    const computation: seq<ProviderCall>
    var contractDescriptor: Option<ContractDescriptor>
    var state: ComputationState

    constructor (ownerFunction: FunctionDescriptor, computation: seq<ProviderCall>)
      ensures this.ownerFunction == ownerFunction && this.computation == computation
      ensures state == NotProcessed && contractDescriptor == None
    {
      this.ownerFunction := ownerFunction;
      this.computation := computation;
      contractDescriptor := None;
      state := NotProcessed;
    }

    /** A provider that already holds `contract`, for contracts read from binary metadata. */
    static method CreateInitialized(ownerFunction: FunctionDescriptor, contract: Option<ContractDescriptor>)
      returns (p: LazyContractProvider)
      ensures fresh(p) && p.ownerFunction == ownerFunction && p.computation == []
      ensures p.state == Processed && p.contractDescriptor == contract
    {
      p := new LazyContractProvider(ownerFunction, []);
      p.SetContractDescriptor(contract);
    }

    method SetContractDescriptor(contract: Option<ContractDescriptor>)
      modifies this
      ensures contractDescriptor == contract && state == Processed
    {
      contractDescriptor := contract;
      state := Processed;
    }

    method GetContractDescriptor() returns (r: Result<Option<ContractDescriptor>, InternalError>)
      modifies this
      decreases if state == NotProcessed then 1 else 0
      ensures old(state) == Processed ==>
        r == Success(old(contractDescriptor)) && state == Processed && contractDescriptor == old(contractDescriptor)
      ensures old(state) == InProcess ==>
        r == Failure(RecursiveContractEvaluation) && state == InProcess && contractDescriptor == old(contractDescriptor)
      ensures old(state) == NotProcessed ==>
        (state, contractDescriptor, r) == FirstEvaluation(computation, old(contractDescriptor))
      ensures r.Success? <==> state == Processed
      ensures r.Success? ==> r.value == contractDescriptor
    {
      match state
      case Processed =>
        r := Success(contractDescriptor);
      case InProcess =>
        r := Failure(RecursiveContractEvaluation);
      case NotProcessed =>
        ghost var start := Progress(InProcess, contractDescriptor, None);
        state := InProcess;
        var i := 0;
        while i < |computation|
          invariant 0 <= i <= |computation|
          invariant state != NotProcessed
          invariant Run(computation[..i], start) == Progress(state, contractDescriptor, None)
        {
          assert computation[..i + 1][..i] == computation[..i];
          match computation[i] {
            case SetContract(c) =>
              SetContractDescriptor(c);
            case GetContract =>
              var nested := GetContractDescriptor();
              if nested.Failure? {
                ErrorPersists(computation, i + 1, start);
                assert computation[..|computation|] == computation;
                r := nested;
                return;
              }
          }
          i := i + 1;
        }
        assert computation[..i] == computation;
        RunStates(computation, old(contractDescriptor));
        if state != Processed {
          r := Failure(ContractNotInitialized);
        } else {
          r := Success(contractDescriptor);
        }
    }
  }

  /** Once a call has failed, the rest of the callback changes nothing. */
  lemma {:induction false} ErrorPersists(calls: seq<ProviderCall>, k: nat, start: Progress)
    requires k <= |calls| && Run(calls[..k], start).error.Some?
    ensures Run(calls, start) == Run(calls[..k], start)
    decreases |calls| - k
  {
    if k < |calls| {
      assert calls[..k + 1][..k] == calls[..k];
      ErrorPersists(calls, k + 1, start);
    } else {
      assert calls[..k] == calls;
    }
  }

  function LastSet(calls: seq<ProviderCall>): Option<ContractDescriptor>
    requires exists i :: 0 <= i < |calls| && calls[i].SetContract?
  {
    var last := calls[|calls| - 1];
    if last.SetContract? then last.contract else LastSet(calls[..|calls| - 1])
  }

  predicate NoSet(calls: seq<ProviderCall>) {
    forall i :: 0 <= i < |calls| ==> !calls[i].SetContract?
  }

  /** While the callback has not set a contract the provider stays `InProcess`, and any
      re-entrant get has failed with the recursive-evaluation error. */
  lemma {:induction false} RunWithoutSet(calls: seq<ProviderCall>, stored: Option<ContractDescriptor>)
    requires NoSet(calls)
    ensures Run(calls, Progress(InProcess, stored, None)).state == InProcess
    ensures Run(calls, Progress(InProcess, stored, None)).contract == stored
    ensures Run(calls, Progress(InProcess, stored, None)).error ==
      if GetContract in calls then Some(RecursiveContractEvaluation) else None
  {
    if calls != [] {
      var init := calls[..|calls| - 1];
      assert NoSet(init) by {
        forall i | 0 <= i < |init| ensures !init[i].SetContract? { assert init[i] == calls[i]; }
      }
      RunWithoutSet(init, stored);
      assert calls == init + [calls[|calls| - 1]];
      assert GetContract in calls <==> GetContract in init || calls[|calls| - 1] == GetContract;
    }
  }

  /** A callback that never stores a contract makes the first get fail: the post-computation
      assertion (or, after a re-entrant get, the recursive-evaluation error). */
  lemma NoSetFails(calls: seq<ProviderCall>, stored: Option<ContractDescriptor>)
    requires NoSet(calls)
    ensures FirstEvaluation(calls, stored).0 == InProcess
    ensures FirstEvaluation(calls, stored).2 ==
      Failure(if GetContract in calls then RecursiveContractEvaluation else ContractNotInitialized)
  {
    RunWithoutSet(calls, stored);
  }

  /** When every re-entrant get comes after a contract was stored, the first get succeeds
      and returns the last contract the callback stored; the provider ends `Processed`. */
  lemma {:induction false} SetBeforeGetSucceeds(calls: seq<ProviderCall>, stored: Option<ContractDescriptor>)
    requires calls != [] && calls[0].SetContract?
    ensures exists i :: 0 <= i < |calls| && calls[i].SetContract?
    ensures Run(calls, Progress(InProcess, stored, None)) == Progress(Processed, LastSet(calls), None)
    ensures FirstEvaluation(calls, stored) == (Processed, LastSet(calls), Success(LastSet(calls)))
  {
    assert calls[0].SetContract?;
    if |calls| == 1 {
      assert calls[..0] == [];
    } else {
      var init := calls[..|calls| - 1];
      assert init[0] == calls[0];
      SetBeforeGetSucceeds(init, stored);
    }
  }

  /** A failed first evaluation leaves the provider `InProcess` for good: every later get
      fails with the recursive-evaluation error. */
  lemma {:induction false} FailureLeavesInProcess(calls: seq<ProviderCall>, stored: Option<ContractDescriptor>)
    requires FirstEvaluation(calls, stored).2.Failure?
    ensures FirstEvaluation(calls, stored).0 == InProcess
  {
    RunStates(calls, stored);
  }

  lemma {:induction false} RunStates(calls: seq<ProviderCall>, stored: Option<ContractDescriptor>)
    ensures var p := Run(calls, Progress(InProcess, stored, None));
      p.state != NotProcessed && (p.error.Some? ==> p.state == InProcess)
  {
    if calls != [] {
      RunStates(calls[..|calls| - 1], stored);
    }
  }
}
