/** Runs from experiment trackers, and the cost attributed to them from the cost table. */
module ResearchGraph {
  import opened Wrappers
  import opened Sums
  import opened Decimals
  import opened CoreMoney
  import Ledger
  import opened CostEvents

  datatype RunKey = RunKey(tenant: TenantId, source: string, externalId: string)

  type ExperimentId = nat

  datatype FunctionCode = Cogs | Rnd | Opex

  /** What a delivery may change on a run already known. */
  datatype Facts = Facts(
    status: string,
    startedAt: int,
    endedAt: Option<int>,
    functionCode: FunctionCode,
    capitalizationStatus: Ledger.CapitalizationStatus)
  {
    predicate EndsAfterStart() {
      endedAt.Some? ==> endedAt.value >= startedAt
    }
  }

  datatype Run = Run(id: Ledger.RunId, key: RunKey, experiment: ExperimentId, facts: Facts, attributedCost: Money)

  type Runs = map<RunKey, Run>

  datatype RunUpsert = Inserted(id: Ledger.RunId) | Updated(id: Ledger.RunId) | Unchanged(id: Ledger.RunId)

  datatype GraphError =
    | EndsBeforeStart(key: RunKey)
    | RunIdTaken(id: Ledger.RunId)
    | UnknownExperiment(experiment: ExperimentId)
    | RunNotFound(id: Ledger.RunId)

  // ---------------------------------------------------------------------------
  // Run upserts
  // ---------------------------------------------------------------------------

  predicate IdInUse(runs: Runs, id: Ledger.RunId) {
    exists k :: k in runs && runs[k].id == id
  }

  /**
   The dates are checked of what is proposed, even where the run is known; the id and the experiment
   only of a run that is inserted.
   */
  function UpsertResult(runs: Runs, experiments: set<ExperimentId>, run: Run): Result<RunUpsert, GraphError> {
    if !run.facts.EndsAfterStart() then Failure(EndsBeforeStart(run.key))
    else if run.key in runs then
      var known := runs[run.key];
      Success(if known.facts == run.facts then Unchanged(known.id) else Updated(known.id))
    else if IdInUse(runs, run.id) then Failure(RunIdTaken(run.id))
    else if run.experiment !in experiments then Failure(UnknownExperiment(run.experiment))
    else Success(RunUpsert.Inserted(run.id))
  }

  /** A known run keeps its id, its experiment and its attributed cost. */
  function UpsertRuns(runs: Runs, experiments: set<ExperimentId>, run: Run): Runs {
    if UpsertResult(runs, experiments, run).Failure? then runs
    else if run.key in runs then runs[run.key := runs[run.key].(facts := run.facts)]
    else runs[run.key := run]
  }

  predicate UniqueIds(runs: Runs) {
    && (forall k :: k in runs ==> runs[k].key == k)
    && (forall j, k :: j in runs && k in runs && runs[j].id == runs[k].id ==> j == k)
  }

  // ---------------------------------------------------------------------------
  // The cost of a run
  // ---------------------------------------------------------------------------

  predicate Counts(k: Key, c: Content, tenant: TenantId, run: Ledger.RunId, currency: Currency) {
    k.tenant == tenant && c.run == Some(run) && c.currency == currency
  }

  /** What the rows of one run in one currency cost. */
  function Matching(rows: Table, tenant: TenantId, run: Ledger.RunId, currency: Currency): map<Key, real> {
    map k | k in rows && Counts(k, rows[k].content, tenant, run, currency) :: rows[k].content.effectiveCost
  }

  ghost function RunCost(rows: Table, tenant: TenantId, run: Ledger.RunId, currency: Currency): real {
    MapSum(Matching(rows, tenant, run, currency))
  }

  /** The run with an id, as one tenant sees it. */
  ghost predicate IsRun(runs: Runs, tenant: TenantId, id: Ledger.RunId, k: RunKey) {
    k in runs && k.tenant == tenant && runs[k].id == id
  }

  class PgResearchGraphStore {
    const costs: PgCostEventStore
    var experiments: set<ExperimentId>
    var runs: Runs

    constructor (costs: PgCostEventStore)
      ensures this.costs == costs && experiments == {} && runs == map[]
    {
      this.costs := costs;
      experiments, runs := {}, map[];
    }

    /** An experiment, once there, stays; its name is not modelled. */
    method UpsertExperiment(experiment: ExperimentId)
      modifies this`experiments
      ensures experiments == old(experiments) + {experiment}
    {
      experiments := experiments + {experiment};
    }

    method UpsertRun(run: Run) returns (r: Result<RunUpsert, GraphError>)
      requires UniqueIds(runs)
      modifies this`runs
      ensures r == UpsertResult(old(runs), experiments, run)
      ensures runs == UpsertRuns(old(runs), experiments, run) && UniqueIds(runs)
    {
      if !run.facts.EndsAfterStart() {
        return Failure(EndsBeforeStart(run.key));
      }
      if run.key in runs {
        var known := runs[run.key];
        if known.facts == run.facts {
          assert known.(facts := run.facts) == known;
          return Success(Unchanged(known.id));
        }
        runs := runs[run.key := known.(facts := run.facts)];
        return Success(Updated(known.id));
      }
      if IdInUse(runs, run.id) {
        return Failure(RunIdTaken(run.id));
      }
      if run.experiment !in experiments {
        return Failure(UnknownExperiment(run.experiment));
      }
      runs := runs[run.key := run];
      r := Success(RunUpsert.Inserted(run.id));
    }

    /** `SELECT SUM(...)`, in whatever order the rows come. */
    method SumMatching(tenant: TenantId, run: Ledger.RunId, currency: Currency) returns (total: real)
      ensures total == RunCost(costs.rows, tenant, run, currency)
    {
      var matching := Matching(costs.rows, tenant, run, currency);
      var pending := matching;
      total := 0.0;
      while pending.Keys != {}
        invariant total + MapSum(pending) == MapSum(matching)
        decreases |pending|
      {
        var k :| k in pending.Keys;
        MapSumRemove(pending, k);
        total := total + pending[k];
        pending := pending - {k};
      }
      assert pending == map[];
    }

    /** The run's cost recomputed, in the currency it was first recorded in. */
    method RefreshAttributedCost(tenant: TenantId, run: Ledger.RunId) returns (r: Result<Money, GraphError>)
      requires UniqueIds(runs)
      modifies this`runs
      ensures runs == RefreshRuns(old(runs), costs.rows, tenant, run) && UniqueIds(runs)
      ensures r.Failure? ==> r.error == RunNotFound(run) && forall k :: !IsRun(old(runs), tenant, run, k)
      ensures r.Success? ==> exists k :: IsRun(old(runs), tenant, run, k)
      ensures forall k :: IsRun(old(runs), tenant, run, k) ==> r == Success(Refreshed(old(runs)[k], costs.rows))
    {
      if k :| k in runs && k.tenant == tenant && runs[k].id == run {
        assert IsRun(runs, tenant, run, k);
        RefreshIsOneUpdate(runs, costs.rows, tenant, run, k);
        var currency := runs[k].attributedCost.currency;
        var total := SumMatching(tenant, run, currency);
        runs := runs[k := runs[k].(attributedCost := Money(total, currency))];
        r := Success(Money(total, currency));
      } else {
        r := Failure(RunNotFound(run));
      }
    }
  }

  ghost function Refreshed(run: Run, rows: Table): Money {
    var currency := run.attributedCost.currency;
    Money(RunCost(rows, run.key.tenant, run.id, currency), currency)
  }

  /** Every run the tenant sees under the id has its cost recomputed; ids being unique, that is one. */
  ghost function RefreshRuns(runs: Runs, rows: Table, tenant: TenantId, id: Ledger.RunId): Runs {
    map k | k in runs ::
      if IsRun(runs, tenant, id, k) then runs[k].(attributedCost := Refreshed(runs[k], rows)) else runs[k]
  }

  lemma RefreshIsOneUpdate(runs: Runs, rows: Table, tenant: TenantId, id: Ledger.RunId, k: RunKey)
    requires UniqueIds(runs) && IsRun(runs, tenant, id, k)
    ensures RefreshRuns(runs, rows, tenant, id) == runs[k := runs[k].(attributedCost := Refreshed(runs[k], rows))]
  {
  }

  // ---------------------------------------------------------------------------
  // The simple sum: last delivery wins
  // ---------------------------------------------------------------------------

  /** What one delivery adds, if it is about this run in this currency. */
  function Contribution(e: CostEvent, tenant: TenantId, run: Ledger.RunId, currency: Currency): real {
    if Counts(e.key, e.content, tenant, run, currency) then e.content.effectiveCost else 0.0
  }

  /** Deliveries read backwards, each key counted once. */
  function SimpleSum(
      es: seq<CostEvent>, seen: set<Key>, tenant: TenantId, run: Ledger.RunId, currency: Currency): real
  {
    if es == [] then 0.0
    else
      var front, e := es[..|es| - 1], es[|es| - 1];
      if e.key in seen then SimpleSum(front, seen, tenant, run, currency)
      else SimpleSum(front, seen + {e.key}, tenant, run, currency) + Contribution(e, tenant, run, currency)
  }

  lemma FaithfulPrefix(es: seq<CostEvent>)
    requires es != [] && Faithful(es)
    ensures Faithful(es[..|es| - 1])
  {
    var n := |es| - 1;
    forall i, j | 0 <= i < n && 0 <= j < n && es[i].key == es[j].key && es[i].contentHash == es[j].contentHash
      ensures es[i].content == es[j].content
    {
    }
  }

  lemma {:induction false} OtherRowsStay(
      t: Table, e: CostEvent, tenant: TenantId, run: Ledger.RunId, currency: Currency)
    ensures Matching(Upserted(t, e), tenant, run, currency) - {e.key} == Matching(t, tenant, run, currency) - {e.key}
  {
    var before, after := Matching(t, tenant, run, currency), Matching(Upserted(t, e), tenant, run, currency);
    forall k | k != e.key ensures (k in after <==> k in before) && (k in after ==> after[k] == before[k]) {
      assert k in Upserted(t, e) <==> k in t;
    }
  }

  /** One delivery changes what matches at its own key only, where it now says what it said. */
  lemma {:induction false} MatchingStep(es: seq<CostEvent>, tenant: TenantId, run: Ledger.RunId, currency: Currency)
    requires es != [] && Faithful(es)
    ensures var n := |es| - 1;
            var e := es[n];
            var before := Matching(Stored(map[], es[..n]), tenant, run, currency);
            var after := Matching(Stored(map[], es), tenant, run, currency);
            && before - {e.key} == after - {e.key}
            && (if e.key in after then after[e.key] else 0.0) == Contribution(e, tenant, run, currency)
  {
    var n := |es| - 1;
    OtherRowsStay(Stored(map[], es[..n]), es[n], tenant, run, currency);
    LastDeliveryWins(es, n);
  }

  lemma {:induction false} MapSumWithout(m: map<Key, real>, k: Key)
    ensures MapSum(m) == MapSum(m - {k}) + (if k in m then m[k] else 0.0)
  {
    if k in m {
      MapSumRemove(m, k);
    } else {
      assert m - {k} == m;
    }
  }

  lemma AlikeWithout(before: map<Key, real>, after: map<Key, real>, k: Key, seen: set<Key>)
    requires before - {k} == after - {k}
    ensures k in seen ==> after - seen == before - seen
    ensures k !in seen ==> after - seen - {k} == before - (seen + {k})
  {
    assert after - {k} - seen == before - {k} - seen;
    assert k in seen ==> after - seen == after - {k} - seen && before - seen == before - {k} - seen;
    assert after - seen - {k} == after - {k} - seen && before - (seen + {k}) == before - {k} - seen;
  }

  lemma {:induction false} SimpleSumIs(
      es: seq<CostEvent>, seen: set<Key>, tenant: TenantId, run: Ledger.RunId, currency: Currency)
    requires Faithful(es)
    ensures SimpleSum(es, seen, tenant, run, currency)
            == MapSum(Matching(Stored(map[], es), tenant, run, currency) - seen)
  {
    if es != [] {
      var n := |es| - 1;
      var k := es[n].key;
      var before := Matching(Stored(map[], es[..n]), tenant, run, currency);
      var after := Matching(Stored(map[], es), tenant, run, currency);
      FaithfulPrefix(es);
      MatchingStep(es, tenant, run, currency);
      AlikeWithout(before, after, k, seen);
      if k in seen {
        SimpleSumIs(es[..n], seen, tenant, run, currency);
      } else {
        SimpleSumIs(es[..n], seen + {k}, tenant, run, currency);
        MapSumWithout(after - seen, k);
      }
    }
  }

  /** After any history of batches, the refreshed cost is the simple sum over what was committed. */
  lemma RunCostIsSimpleSum(batches: seq<seq<CostEvent>>, tenant: TenantId, run: Ledger.RunId, currency: Currency)
    requires Faithful(Committed(batches))
    ensures RunCost(After(batches), tenant, run, currency)
            == SimpleSum(Committed(batches), {}, tenant, run, currency)
  {
    AfterIsStored(batches);
    SimpleSumIs(Committed(batches), {}, tenant, run, currency);
    var m := Matching(After(batches), tenant, run, currency);
    assert m - {} == m;
  }

  // ---------------------------------------------------------------------------
  // What one delivery does to a run's cost
  // ---------------------------------------------------------------------------

  /** What a key's row adds to a run's cost. */
  function Standing(t: Table, k: Key, tenant: TenantId, run: Ledger.RunId, currency: Currency): real {
    if k in t && Counts(k, t[k].content, tenant, run, currency) then t[k].content.effectiveCost else 0.0
  }

  /** The cost moves by what the key's row now adds, less what it added before. */
  lemma {:induction false} CostMovesByTheRow(
      t: Table, e: CostEvent, tenant: TenantId, run: Ledger.RunId, currency: Currency)
    ensures RunCost(Upserted(t, e), tenant, run, currency)
            == RunCost(t, tenant, run, currency)
               - Standing(t, e.key, tenant, run, currency)
               + Standing(Upserted(t, e), e.key, tenant, run, currency)
  {
    MapSumWithout(Matching(t, tenant, run, currency), e.key);
    MapSumWithout(Matching(Upserted(t, e), tenant, run, currency), e.key);
    OtherRowsStay(t, e, tenant, run, currency);
  }

  /** A restatement that keeps the run and the currency moves the cost by exactly new minus old. */
  lemma {:induction false} RestatementMovesByTheDifference(
      t: Table, e: CostEvent, tenant: TenantId, run: Ledger.RunId, currency: Currency)
    requires EffectOf(t, e) == Restated
    requires Counts(e.key, t[e.key].content, tenant, run, currency) && Counts(e.key, e.content, tenant, run, currency)
    ensures RunCost(Upserted(t, e), tenant, run, currency)
            == RunCost(t, tenant, run, currency) + e.content.effectiveCost - t[e.key].content.effectiveCost
  {
    CostMovesByTheRow(t, e, tenant, run, currency);
  }

  // ---------------------------------------------------------------------------
  // What the cost column can hold
  // ---------------------------------------------------------------------------

  lemma {:induction false} WholeValuesSum(m: map<Key, real>, unit: real)
    requires unit > 0.0 && forall k :: k in m ==> Whole(m[k], unit)
    ensures Whole(MapSum(m), unit)
    decreases |m|
  {
    if k :| k in m {
      MapSumRemove(m, k);
      WholeValuesSum(m - {k}, unit);
      WholeAdd(m[k], MapSum(m - {k}), unit);
    } else {
      assert m == map[];
      DivideIs(0.0, unit, 0.0);
    }
  }

  /** Rows of so many places sum to as many: the run's column, as precise as theirs, rounds nothing off. */
  lemma {:induction false} RefreshNeedsNoRounding(
      t: Table, unit: real, tenant: TenantId, run: Ledger.RunId, currency: Currency)
    requires unit > 0.0 && forall k :: k in t ==> Whole(t[k].content.effectiveCost, unit)
    ensures Whole(RunCost(t, tenant, run, currency), unit)
  {
    WholeValuesSum(Matching(t, tenant, run, currency), unit);
  }

  // ---------------------------------------------------------------------------
  // Histories of the graph
  // ---------------------------------------------------------------------------

  datatype GraphOp =
    | DeliverCosts(batch: seq<CostEvent>)
    | DeliverExperiment(experiment: ExperimentId)
    | DeliverRun(run: Run)
    | Refresh(tenant: TenantId, id: Ledger.RunId)

  /** The cost batches among the operations, in order. */
  function Batches(ops: seq<GraphOp>): seq<seq<CostEvent>> {
    if ops == [] then []
    else Batches(ops[..|ops| - 1]) + if ops[|ops| - 1].DeliverCosts? then [ops[|ops| - 1].batch] else []
  }

  function ExperimentsAfter(ops: seq<GraphOp>): set<ExperimentId> {
    if ops == [] then {}
    else
      ExperimentsAfter(ops[..|ops| - 1])
      + if ops[|ops| - 1].DeliverExperiment? then {ops[|ops| - 1].experiment} else {}
  }

  /** The runs after a history; the cost table it read is the one after its batches. */
  ghost function RunsAfter(ops: seq<GraphOp>): Runs {
    if ops == [] then map[]
    else
      var front, op := ops[..|ops| - 1], ops[|ops| - 1];
      match op
      case DeliverCosts(_) => RunsAfter(front)
      case DeliverExperiment(_) => RunsAfter(front)
      case DeliverRun(run) => UpsertRuns(RunsAfter(front), ExperimentsAfter(front), run)
      case Refresh(tenant, id) => RefreshRuns(RunsAfter(front), After(Batches(front)), tenant, id)
  }

  lemma {:induction false} IdsStayUnique(ops: seq<GraphOp>)
    ensures UniqueIds(RunsAfter(ops))
  {
    if ops != [] {
      IdsStayUnique(ops[..|ops| - 1]);
    }
  }

  /** Over any history every run belongs to an experiment that is there, and none ends before it starts. */
  lemma {:induction false} RunsAreWellFormed(ops: seq<GraphOp>)
    ensures forall k :: k in RunsAfter(ops) ==>
              RunsAfter(ops)[k].experiment in ExperimentsAfter(ops) && RunsAfter(ops)[k].facts.EndsAfterStart()
  {
    if ops != [] {
      RunsAreWellFormed(ops[..|ops| - 1]);
    }
  }

  /** Once there, a run keeps its key, its id, its experiment and its currency. */
  lemma {:induction false} RunsAreForever(ops: seq<GraphOp>, n: nat, k: RunKey)
    requires n <= |ops| && k in RunsAfter(ops[..n])
    ensures k in RunsAfter(ops)
    ensures var was, now := RunsAfter(ops[..n])[k], RunsAfter(ops)[k];
            && now.id == was.id && now.key == was.key && now.experiment == was.experiment
            && now.attributedCost.currency == was.attributedCost.currency
  {
    if n < |ops| {
      assert ops[..|ops| - 1][..n] == ops[..n];
      RunsAreForever(ops[..|ops| - 1], n, k);
    } else {
      assert ops[..n] == ops;
    }
  }

  /** What the `i`-th operation, a run delivery, returned. */
  ghost function RunOutcome(ops: seq<GraphOp>, i: nat): Result<RunUpsert, GraphError>
    requires i < |ops| && ops[i].DeliverRun?
  {
    UpsertResult(RunsAfter(ops[..i]), ExperimentsAfter(ops[..i]), ops[i].run)
  }

  ghost predicate InsertedAt(ops: seq<GraphOp>, i: int, k: RunKey) {
    && 0 <= i < |ops| && ops[i].DeliverRun? && ops[i].run.key == k
    && RunOutcome(ops, i).Success? && RunOutcome(ops, i).value.Inserted?
  }

  /** After a delivery that succeeded, the run is there under the id it returned. */
  lemma DeliveredRunIsThere(ops: seq<GraphOp>, i: nat)
    requires i < |ops| && ops[i].DeliverRun? && RunOutcome(ops, i).Success?
    ensures ops[i].run.key in RunsAfter(ops[..i + 1])
    ensures RunsAfter(ops[..i + 1])[ops[i].run.key].id == RunOutcome(ops, i).value.id
  {
    assert ops[..i + 1][..i] == ops[..i];
  }

  /** Every successful delivery of a run returns the id the run has for good. */
  lemma RunIdIsStable(ops: seq<GraphOp>, i: nat)
    requires i < |ops| && ops[i].DeliverRun? && RunOutcome(ops, i).Success?
    ensures ops[i].run.key in RunsAfter(ops)
    ensures RunOutcome(ops, i).value.id == RunsAfter(ops)[ops[i].run.key].id
  {
    DeliveredRunIsThere(ops, i);
    RunsAreForever(ops, i + 1, ops[i].run.key);
  }

  lemma {:induction false} FirstInserted(ops: seq<GraphOp>, k: RunKey) returns (i: nat)
    requires k in RunsAfter(ops)
    ensures InsertedAt(ops, i, k)
  {
    var n := |ops| - 1;
    if k in RunsAfter(ops[..n]) {
      i := FirstInserted(ops[..n], k);
      assert ops[..n][..i] == ops[..i];
    } else {
      i := n;
    }
  }

  lemma {:induction false} NotInsertedAgain(ops: seq<GraphOp>, i: nat, j: nat, k: RunKey)
    requires i < j && InsertedAt(ops, i, k)
    ensures !InsertedAt(ops, j, k)
  {
    if j < |ops| {
      DeliveredRunIsThere(ops, i);
      assert ops[..j][..i + 1] == ops[..i + 1];
      RunsAreForever(ops[..j], i + 1, k);
    }
  }

  /** Each run there is was inserted exactly once. */
  lemma {:induction false} InsertedExactlyOnce(ops: seq<GraphOp>, k: RunKey)
    ensures k in RunsAfter(ops) <==> exists i :: InsertedAt(ops, i, k)
    ensures forall i, j :: InsertedAt(ops, i, k) && InsertedAt(ops, j, k) ==> i == j
  {
    if k in RunsAfter(ops) {
      var i := FirstInserted(ops, k);
    }
    forall i | InsertedAt(ops, i, k) ensures k in RunsAfter(ops) {
      RunIdIsStable(ops, i);
    }
    forall i, j | InsertedAt(ops, i, k) && InsertedAt(ops, j, k) ensures i == j {
      if i < j {
        NotInsertedAgain(ops, i, j, k);
      } else if j < i {
        NotInsertedAgain(ops, j, i, k);
      }
    }
  }

  /** Operations that leave a run's attributed cost alone: everything but refreshing it. */
  predicate Leaves(op: GraphOp, tenant: TenantId, id: Ledger.RunId) {
    op.Refresh? ==> op.tenant != tenant || op.id != id
  }

  lemma {:induction false} OneOpLeavesTheCost(ops: seq<GraphOp>, k: RunKey)
    requires ops != [] && k in RunsAfter(ops[..|ops| - 1])
    requires Leaves(ops[|ops| - 1], k.tenant, RunsAfter(ops[..|ops| - 1])[k].id)
    ensures k in RunsAfter(ops)
    ensures RunsAfter(ops)[k].attributedCost == RunsAfter(ops[..|ops| - 1])[k].attributedCost
  {
  }

  lemma {:induction false} CostIsLeft(ops: seq<GraphOp>, n: nat, k: RunKey)
    requires n <= |ops| && k in RunsAfter(ops[..n])
    requires forall i :: n <= i < |ops| ==> Leaves(ops[i], k.tenant, RunsAfter(ops[..n])[k].id)
    ensures k in RunsAfter(ops) && RunsAfter(ops)[k].attributedCost == RunsAfter(ops[..n])[k].attributedCost
  {
    if n < |ops| {
      var m := |ops| - 1;
      assert ops[..m][..n] == ops[..n];
      CostIsLeft(ops[..m], n, k);
      RunsAreForever(ops[..m], n, k);
      OneOpLeavesTheCost(ops, k);
    } else {
      assert ops[..n] == ops;
    }
  }

  /**
   A run's attributed cost is, at any time after it was last refreshed, the simple sum over the
   deliveries committed before that: no later delivery of a run disturbs it.
   */
  lemma {:induction false} AttributedCostIsTheSimpleSum(ops: seq<GraphOp>, n: nat, k: RunKey)
    requires n < |ops| && k in RunsAfter(ops[..n])
    requires ops[n] == Refresh(k.tenant, RunsAfter(ops[..n])[k].id)
    requires forall i :: n < i < |ops| ==> Leaves(ops[i], k.tenant, RunsAfter(ops[..n])[k].id)
    requires Faithful(Committed(Batches(ops[..n])))
    ensures k in RunsAfter(ops)
    ensures var run := RunsAfter(ops)[k];
            run.attributedCost.amount
            == SimpleSum(
                 Committed(Batches(ops[..n])), {}, k.tenant, run.id, run.attributedCost.currency)
  {
    var run := RunsAfter(ops[..n])[k];
    assert ops[..n + 1][..n] == ops[..n];
    IdsStayUnique(ops[..n]);
    assert IsRun(RunsAfter(ops[..n]), k.tenant, run.id, k);
    RunCostIsSimpleSum(Batches(ops[..n]), k.tenant, run.id, run.attributedCost.currency);
    RunsAreForever(ops, n, k);
    RunsAreForever(ops[..n + 1], n, k);
    CostIsLeft(ops, n + 1, k);
  }
}
