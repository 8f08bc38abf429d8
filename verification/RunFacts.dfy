/** What a run says of itself after any history: the facts last delivered, and what each delivery answered. */
module RunFacts {
  import opened Wrappers
  import opened Sums
  import opened CoreMoney
  import Ledger
  import opened CostEvents
  import opened ResearchGraph

  // ---------------------------------------------------------------------------
  // One delivery
  // ---------------------------------------------------------------------------

  /** Refused over its dates; or, of a run not yet known, over its id or its experiment. */
  lemma {:induction false} DeliveryIsRefusedIff(runs: Runs, experiments: set<ExperimentId>, run: Run)
    ensures UpsertResult(runs, experiments, run) == Failure(EndsBeforeStart(run.key))
            <==> run.facts.endedAt.Some? && run.facts.endedAt.value < run.facts.startedAt
    ensures UpsertResult(runs, experiments, run) == Failure(RunIdTaken(run.id))
            <==> && !(run.facts.endedAt.Some? && run.facts.endedAt.value < run.facts.startedAt)
                 && run.key !in runs && exists k :: k in runs && runs[k].id == run.id
    ensures UpsertResult(runs, experiments, run) == Failure(UnknownExperiment(run.experiment))
            <==> && !(run.facts.endedAt.Some? && run.facts.endedAt.value < run.facts.startedAt)
                 && run.key !in runs && (forall k :: k in runs ==> runs[k].id != run.id)
                 && run.experiment !in experiments
    ensures UpsertResult(runs, experiments, run).Failure? ==> UpsertRuns(runs, experiments, run) == runs
  {
  }

  /** A successful delivery leaves the run with the facts delivered, and every other run alone. */
  lemma {:induction false} DeliveryWritesItsFacts(runs: Runs, experiments: set<ExperimentId>, run: Run)
    requires UpsertResult(runs, experiments, run).Success?
    ensures var after := UpsertRuns(runs, experiments, run);
            && after.Keys == runs.Keys + {run.key}
            && after[run.key].facts == run.facts
            && (run.key !in runs ==> after[run.key] == run)
            && forall k :: k in runs && k != run.key ==> after[k] == runs[k]
  {
  }

  /** What it answers: the run is new, or its facts are what was delivered, or they are not. */
  lemma {:induction false} DeliveryAnswers(runs: Runs, experiments: set<ExperimentId>, run: Run)
    requires UpsertResult(runs, experiments, run).Success?
    ensures var answer := UpsertResult(runs, experiments, run).value;
            && (answer.Inserted? <==> run.key !in runs)
            && (answer.Unchanged? <==> run.key in runs && runs[run.key].facts == run.facts)
            && (answer.Updated? <==> run.key in runs && runs[run.key].facts != run.facts)
  {
  }

  /** Delivered again at once, a run is unchanged, and so are all the runs. */
  lemma {:induction false} RedeliveryIsUnchanged(runs: Runs, experiments: set<ExperimentId>, run: Run)
    requires UpsertResult(runs, experiments, run).Success?
    ensures var after := UpsertRuns(runs, experiments, run);
            && run.key in after
            && UpsertResult(after, experiments, run) == Success(Unchanged(after[run.key].id))
            && UpsertRuns(after, experiments, run) == after
  {
    var after := UpsertRuns(runs, experiments, run);
    assert after[run.key].(facts := run.facts) == after[run.key];
  }

  // ---------------------------------------------------------------------------
  // Over any history
  // ---------------------------------------------------------------------------

  /** Operation `i` delivered the run, and it was accepted. */
  ghost predicate DeliveredAt(ops: seq<GraphOp>, i: int, k: RunKey) {
    0 <= i < |ops| && ops[i].DeliverRun? && ops[i].run.key == k && RunOutcome(ops, i).Success?
  }

  /** And no later one was. */
  ghost predicate LastDeliveredAt(ops: seq<GraphOp>, i: int, k: RunKey) {
    DeliveredAt(ops, i, k) && forall j :: i < j ==> !DeliveredAt(ops, j, k)
  }

  lemma {:induction false} DeliveredOnFront(ops: seq<GraphOp>, i: int, k: RunKey)
    requires ops != [] && i < |ops| - 1
    ensures DeliveredAt(ops[..|ops| - 1], i, k) <==> DeliveredAt(ops, i, k)
  {
    if 0 <= i {
      assert ops[..|ops| - 1][..i] == ops[..i];
    }
  }

  /** One operation writes facts only by delivering the run; else those there stay. */
  lemma {:induction false} OneOpWritesFacts(ops: seq<GraphOp>, k: RunKey)
    requires ops != []
    ensures var n := |ops| - 1;
            var was, now := RunsAfter(ops[..n]), RunsAfter(ops);
            && (DeliveredAt(ops, n, k) ==> k in now && now[k].facts == ops[n].run.facts)
            && (!DeliveredAt(ops, n, k) ==> (k in now <==> k in was) && (k in now ==> now[k].facts == was[k].facts))
  {
    var n := |ops| - 1;
    var op := ops[n];
    if op.DeliverRun? && RunOutcome(ops, n).Success? {
      DeliveryWritesItsFacts(RunsAfter(ops[..n]), ExperimentsAfter(ops[..n]), op.run);
    }
  }

  /** The facts a run holds are those of its last accepted delivery. */
  lemma {:induction false} FactsAreTheLastDelivered(ops: seq<GraphOp>, i: nat, k: RunKey)
    requires LastDeliveredAt(ops, i, k)
    ensures k in RunsAfter(ops) && RunsAfter(ops)[k].facts == ops[i].run.facts
  {
    var n := |ops| - 1;
    OneOpWritesFacts(ops, k);
    if i < n {
      DeliveredOnFront(ops, i, k);
      forall j | i < j ensures !DeliveredAt(ops[..n], j, k) {
        if j < n {
          DeliveredOnFront(ops, j, k);
        }
      }
      FactsAreTheLastDelivered(ops[..n], i, k);
      assert !DeliveredAt(ops, n, k);
    }
  }

  /** A run that is there was delivered. */
  lemma {:induction false} LastDelivery(ops: seq<GraphOp>, k: RunKey) returns (i: nat)
    requires k in RunsAfter(ops)
    ensures LastDeliveredAt(ops, i, k)
  {
    var n := |ops| - 1;
    OneOpWritesFacts(ops, k);
    if DeliveredAt(ops, n, k) {
      i := n;
    } else {
      i := LastDelivery(ops[..n], k);
      DeliveredOnFront(ops, i, k);
      forall j | i < j ensures !DeliveredAt(ops, j, k) {
        if j < n {
          DeliveredOnFront(ops, j, k);
        }
      }
    }
  }

  /**
   An accepted delivery answers that the run is inserted when no accepted one came before; else that it
   is unchanged exactly when the facts are those of the last, and updated exactly when they are not.
   */
  lemma {:induction false} AnswersAreOfTheLast(ops: seq<GraphOp>, n: nat, k: RunKey)
    requires DeliveredAt(ops, n, k)
    ensures var answer := RunOutcome(ops, n).value;
            && (answer.Inserted? <==> forall i :: !DeliveredAt(ops[..n], i, k))
            && forall i :: LastDeliveredAt(ops[..n], i, k) ==>
                 && (answer.Unchanged? <==> ops[..n][i].run.facts == ops[n].run.facts)
                 && (answer.Updated? <==> ops[..n][i].run.facts != ops[n].run.facts)
  {
    var before := ops[..n];
    DeliveryAnswers(RunsAfter(before), ExperimentsAfter(before), ops[n].run);
    if k in RunsAfter(before) {
      var i := LastDelivery(before, k);
    }
    forall i | DeliveredAt(before, i, k) ensures k in RunsAfter(before) {
      RunIdIsStable(before, i);
    }
    forall i | LastDeliveredAt(before, i, k)
      ensures k in RunsAfter(before) && RunsAfter(before)[k].facts == before[i].run.facts
    {
      FactsAreTheLastDelivered(before, i, k);
    }
  }

  /** A run keeps the id and the experiment it was first delivered with, and its cost's currency. */
  lemma {:induction false} FirstDeliveryStays(ops: seq<GraphOp>, i: nat, k: RunKey)
    requires InsertedAt(ops, i, k)
    ensures k in RunsAfter(ops)
    ensures RunsAfter(ops)[k].id == ops[i].run.id && RunsAfter(ops)[k].experiment == ops[i].run.experiment
    ensures RunsAfter(ops)[k].attributedCost.currency == ops[i].run.attributedCost.currency
  {
    var before := ops[..i];
    assert ops[..i + 1][..i] == before;
    DeliveryAnswers(RunsAfter(before), ExperimentsAfter(before), ops[i].run);
    DeliveryWritesItsFacts(RunsAfter(before), ExperimentsAfter(before), ops[i].run);
    RunsAreForever(ops, i + 1, k);
  }

  /** An experiment is there exactly when it was delivered. */
  lemma {:induction false} ExperimentsAreTheDelivered(ops: seq<GraphOp>, experiment: ExperimentId)
    ensures experiment in ExperimentsAfter(ops)
            <==> exists i :: 0 <= i < |ops| && ops[i] == DeliverExperiment(experiment)
  {
    if ops != [] {
      var n := |ops| - 1;
      ExperimentsAreTheDelivered(ops[..n], experiment);
      assert forall i :: 0 <= i < n ==> ops[..n][i] == ops[i];
      assert ops == ops[..n] + [ops[n]];
    }
  }

  /** The cost batches of a history are those delivered, each in its place. */
  lemma {:induction false} BatchesAreTheDelivered(ops: seq<GraphOp>, n: nat)
    requires n < |ops| && ops[n].DeliverCosts?
    ensures |Batches(ops[..n])| < |Batches(ops)| && Batches(ops)[|Batches(ops[..n])|] == ops[n].batch
  {
    var m := |ops| - 1;
    if n < m {
      BatchesAreTheDelivered(ops[..m], n);
      assert ops[..m][..n] == ops[..n];
    }
  }

  lemma {:induction false} BatchesAreNoMore(ops: seq<GraphOp>)
    ensures |Batches(ops)| == |set i | 0 <= i < |ops| && ops[i].DeliverCosts?|
  {
    if ops != [] {
      var n := |ops| - 1;
      BatchesAreNoMore(ops[..n]);
      var front, all := set i | 0 <= i < n && ops[..n][i].DeliverCosts?, set i | 0 <= i < |ops| && ops[i].DeliverCosts?;
      assert all == front + if ops[n].DeliverCosts? then {n} else {};
    }
  }

  // ---------------------------------------------------------------------------
  // The rows a run's cost is summed from
  // ---------------------------------------------------------------------------

  /** The cost of a run in a currency is the sum over its tenant's rows that name it, in that currency. */
  lemma {:induction false} CostIsOfTheRowsNamingTheRun(
      rows: Table, tenant: TenantId, run: Ledger.RunId, currency: Currency)
    ensures RunCost(rows, tenant, run, currency)
            == MapSum(map k | k in rows && k.tenant == tenant && rows[k].content.run == Some(run)
                              && rows[k].content.currency == currency :: rows[k].content.effectiveCost)
  {
    assert Matching(rows, tenant, run, currency)
           == map k | k in rows && k.tenant == tenant && rows[k].content.run == Some(run)
                      && rows[k].content.currency == currency :: rows[k].content.effectiveCost;
  }
}
