/** The cashback budget guard of consistency/withRedis.go. The Redis keys the
    code touches become one record: the total spend (a missing key is `None`),
    the campaign status, and whether the lock key exists. A request is one
    pure step over that record. */
module CashbackBudget {
  import opened GoInt
  import opened Options

  const CampaignBudgetLimit: Int64 := 10000
  const Active: string := "active"
  const Finished: string := "finished"

  datatype Store = Store(totalSpend: Option<Int64>, status: string, lockHeld: bool)

  /** The Redis call of a request that answers with a transport error, if any. */
  datatype Fault = NoFault | SetNXFault | GetFault | IncrByFault

  /** Where a request stopped. */
  datatype Outcome =
    | LockError      // SetNX returned an error
    | LockBusy       // SetNX found the lock taken: skipped
    | ReadError      // GET failed with an error other than a missing key
    | OverBudget     // the cashback would take the spend past the limit
    | IncrError      // INCRBY failed
    | Applied        // the spend grew by the cashback

  datatype Step = Step(store: Store, outcome: Outcome)

  /** The spend as the request reads it: a missing key reads as 0. */
  function Spend(st: Store): (v: Int64)
    ensures st.totalSpend.Some? ==> v == st.totalSpend.value
    ensures st.totalSpend.None? ==> v == 0
  {
    match st.totalSpend
    case None => 0
    case Some(v) => v
  }

  /** SETNX on the lock key: succeeds and takes the lock exactly when it is free. */
  function SetNX(st: Store): (r: (bool, Store))
    ensures r.0 <==> !st.lockHeld
    ensures r.1.lockHeld
    ensures r.1.totalSpend == st.totalSpend && r.1.status == st.status
  {
    if st.lockHeld then (false, st) else (true, st.(lockHeld := true))
  }

  /** INCRBY on the spend key: a missing key counts as 0, and a result outside
      the 64-bit range is refused with an error rather than stored. */
  function IncrBy(st: Store, delta: Int64): (r: Option<Store>)
    ensures r.None? <==> !InRange(Spend(st) + delta)
    ensures r.Some? ==> r.value == st.(totalSpend := Some(Spend(st) + delta))
  {
    var v := Spend(st) + delta;
    if InRange(v) then Some(st.(totalSpend := Some(v))) else None
  }

  /** The body of `processCashback` after the lock was taken, up to the
      deferred release. The budget check adds with Go's wrapping `int`. */
  function Locked(st: Store, amount: Int64, fault: Fault): (r: Step)
    ensures r.store.lockHeld == st.lockHeld
  {
    if fault == GetFault then Step(st, ReadError)
    else
      var total := Wrap(Spend(st) + amount);
      if total > CampaignBudgetLimit then Step(st, OverBudget)
      else if fault == IncrByFault then Step(st, IncrError)
      else match IncrBy(st, amount)
        case None => Step(st, IncrError)
        case Some(st1) =>
          Step(if total >= CampaignBudgetLimit then st1.(status := Finished) else st1, Applied)
  }

  /** One cashback request. */
  function ProcessCashback(st: Store, amount: Int64, fault: Fault): (r: Step)
    // a lock that cannot be taken leaves everything as it was
    ensures r.outcome in {LockError, LockBusy} ==> r.store == st
    ensures fault == SetNXFault ==> r == Step(st, LockError)
    ensures fault != SetNXFault && st.lockHeld ==> r.outcome == LockBusy
    // once taken, the lock is released on every path
    ensures r.outcome !in {LockError, LockBusy} ==> !r.store.lockHeld
    // only an applied cashback changes the spend or the status
    ensures r.outcome != Applied ==> r.store.totalSpend == st.totalSpend && r.store.status == st.status
    ensures r.outcome == Applied <==>
              && fault == NoFault && !st.lockHeld
              && InRange(Spend(st) + amount) && Spend(st) + amount <= CampaignBudgetLimit
    ensures r.outcome == Applied ==> r.store.totalSpend == Some(Spend(st) + amount)
    // the status moves only to "finished", and only when the limit is hit exactly
    ensures r.store.status != st.status ==>
              r.store.status == Finished && Spend(r.store) == CampaignBudgetLimit
    ensures st.status == Finished ==> r.store.status == Finished
    // reaching the limit closes the campaign
    ensures r.outcome == Applied && Spend(st) + amount == CampaignBudgetLimit ==> r.store.status == Finished
  {
    if fault == SetNXFault then Step(st, LockError)
    else
      var (ok, locked) := SetNX(st);
      if !ok then Step(st, LockBusy)
      else
        var r := Locked(locked, amount, fault);
        Step(r.store.(lockHeld := false), r.outcome)
  }

  /** The budget is never exceeded by a request. */
  lemma BudgetInvariant(st: Store, amount: Int64, fault: Fault)
    requires Spend(st) <= CampaignBudgetLimit
    ensures Spend(ProcessCashback(st, amount, fault).store) <= CampaignBudgetLimit
  {
  }

  /** A missing spend key behaves as a stored 0: the same outcome, status,
      lock and spend as read afterwards. */
  lemma MissingSpendReadsAsZero(st: Store, amount: Int64, fault: Fault)
    requires st.totalSpend.None?
    ensures var a := ProcessCashback(st, amount, fault);
            var b := ProcessCashback(st.(totalSpend := Some(0)), amount, fault);
            && a.outcome == b.outcome
            && a.store.status == b.store.status
            && a.store.lockHeld == b.store.lockHeld
            && Spend(a.store) == Spend(b.store)
  {
  }

  /** The Go sum in the budget check can wrap past `MaxInt` to a negative
      value and so pass the check; INCRBY then refuses the overflowing
      increment, and the spend stays as it was. */
  lemma WrappedSumStoppedByIncrBy()
    ensures var st := Store(Some(1), Active, false);
            var r := ProcessCashback(st, MaxInt, NoFault);
            && Wrap(Spend(st) + MaxInt) < 0
            && r.outcome == IncrError
            && r.store == st
  {
    assert Wrap(1 + MaxInt) == MinInt by {
      WrapUnique(1 + MaxInt, MinInt);
    }
  }

  datatype Request = Request(userID: string, cashbackAmount: Int64)

  /** The sum of the cashbacks whose request ended in `Applied`. */
  function AppliedTotal(requests: seq<Request>, outcomes: seq<Outcome>): int
    requires |outcomes| == |requests|
  {
    if |requests| == 0 then 0
    else
      (if outcomes[0] == Applied then requests[0].cashbackAmount else 0)
      + AppliedTotal(requests[1..], outcomes[1..])
  }

  datatype Run = Run(store: Store, outcomes: seq<Outcome>)

  /** Requests served one after another, each with its own fault: one outcome
      per request, and the spend grows by exactly the applied cashbacks. */
  function ProcessAll(st: Store, requests: seq<Request>, faults: seq<Fault>): (r: Run)
    requires |faults| == |requests|
    ensures |r.outcomes| == |requests|
    ensures Spend(r.store) == Spend(st) + AppliedTotal(requests, r.outcomes)
    decreases |requests|
  {
    if |requests| == 0 then Run(st, [])
    else
      var step := ProcessCashback(st, requests[0].cashbackAmount, faults[0]);
      var rest := ProcessAll(step.store, requests[1..], faults[1..]);
      Run(rest.store, [step.outcome] + rest.outcomes)
  }

  /** Any sequence of requests keeps the spend within the budget, never
      reopens a finished campaign, and leaves a free lock free. */
  lemma {:induction false} ProcessAllKeepsBudget(st: Store, requests: seq<Request>, faults: seq<Fault>)
    requires |faults| == |requests|
    requires Spend(st) <= CampaignBudgetLimit
    ensures Spend(ProcessAll(st, requests, faults).store) <= CampaignBudgetLimit
    ensures st.status == Finished ==> ProcessAll(st, requests, faults).store.status == Finished
    ensures !st.lockHeld ==> !ProcessAll(st, requests, faults).store.lockHeld
    decreases |requests|
  {
    if |requests| > 0 {
      var step := ProcessCashback(st, requests[0].cashbackAmount, faults[0]);
      BudgetInvariant(st, requests[0].cashbackAmount, faults[0]);
      ProcessAllKeepsBudget(step.store, requests[1..], faults[1..]);
    }
  }

  /** The state `ProcessWithRedis` sets up. */
  const InitialStore: Store := Store(Some(0), Active, false)

  const ScenarioRequests: seq<Request> := [
    Request("user1", 1000),
    Request("user2", 1500),
    Request("user3", 2000),
    Request("user4", 3000),
    Request("user5", 1500)
  ]

  /** The sum of all requested cashbacks. */
  function AmountSum(requests: seq<Request>): int {
    if |requests| == 0 then 0 else requests[0].cashbackAmount + AmountSum(requests[1..])
  }

  /** `n` outcomes, all `Applied`. */
  function AllApplied(n: nat): seq<Outcome> {
    if n == 0 then [] else [Applied] + AllApplied(n - 1)
  }

  /** Requests that meet no fault and no contention, with non-negative
      amounts that together fit the budget, are all applied: the spend grows
      by their sum, the lock ends free, and the status turns "finished"
      exactly when the sum reaches the limit. */
  lemma {:induction false} UncontendedRequestsApplied(st: Store, requests: seq<Request>, faults: seq<Fault>)
    requires |faults| == |requests|
    requires forall i :: 0 <= i < |faults| ==> faults[i] == NoFault
    requires forall i :: 0 <= i < |requests| ==> 0 <= requests[i].cashbackAmount
    requires !st.lockHeld
    requires Spend(st) + AmountSum(requests) <= CampaignBudgetLimit
    ensures ProcessAll(st, requests, faults).outcomes == AllApplied(|requests|)
    ensures Spend(ProcessAll(st, requests, faults).store) == Spend(st) + AmountSum(requests)
    ensures |requests| > 0 ==>
              var total := Spend(st) + AmountSum(requests);
              ProcessAll(st, requests, faults).store
                == Store(Some(total), if total == CampaignBudgetLimit then Finished else st.status, false)
    decreases |requests|
  {
    if |requests| > 0 {
      var step := ProcessCashback(st, requests[0].cashbackAmount, faults[0]);
      assert 0 <= AmountSum(requests[1..]) by {
        AmountSumNonNegative(requests[1..]);
      }
      assert step.outcome == Applied;
      var reached := Spend(st) + requests[0].cashbackAmount;
      assert step.store == Store(Some(reached), if reached == CampaignBudgetLimit then Finished else st.status, false);
      UncontendedRequestsApplied(step.store, requests[1..], faults[1..]);
    }
  }

  lemma {:induction false} AmountSumNonNegative(requests: seq<Request>)
    requires forall i :: 0 <= i < |requests| ==> 0 <= requests[i].cashbackAmount
    ensures 0 <= AmountSum(requests)
    decreases |requests|
  {
    if |requests| > 0 {
      AmountSumNonNegative(requests[1..]);
    }
  }

  /** The five requests of `ProcessWithRedis`, fault-free, are all applied. */
  lemma ScenarioApplied(requests: seq<Request>, faults: seq<Fault>)
    requires requests == ScenarioRequests && faults == [NoFault, NoFault, NoFault, NoFault, NoFault]
    ensures ProcessAll(InitialStore, requests, faults)
              == Run(Store(Some(9000), Active, false), [Applied, Applied, Applied, Applied, Applied])
  {
    assert AmountSum(requests) == 9000;
    assert |requests| == 5 && AllApplied(5) == [Applied, Applied, Applied, Applied, Applied];
    UncontendedRequestsApplied(InitialStore, requests, faults);
  }

  /** The five requests of `ProcessWithRedis`, served in order without faults. */
  function ProcessWithRedis(): (r: Run)
    ensures r.outcomes == [Applied, Applied, Applied, Applied, Applied]
    ensures r.store.totalSpend == Some(9000)
    ensures r.store.status == Active
    ensures !r.store.lockHeld
  {
    ScenarioApplied(ScenarioRequests, [NoFault, NoFault, NoFault, NoFault, NoFault]);
    ProcessAll(InitialStore, ScenarioRequests, [NoFault, NoFault, NoFault, NoFault, NoFault])
  }
}
