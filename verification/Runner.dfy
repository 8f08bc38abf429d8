/**
 The corpus runner: it drives the aggregate through a list of operations and keeps its own record
 of the entries, with its own statement of what a reversal is.
 */
module Runner {
  import opened Wrappers
  import opened Ledger
  import opened LedgerProjection
  import opened LedgerLaws
  import opened InForce

  /** An operation with its lines and parameters resolved, or the error that resolving them gave. */
  datatype OperationKind =
    | OpPost(lines: seq<JournalLine>)
    | OpReverse(reason: string)
    | OpCapitalize(run: RunId, to: CapitalizationStatus, policy: PolicyId)
    | OpUnresolved(fault: ParamError)

  /** For a posting, `ref` names the new entry; for a reversal, it names the entry to reverse. */
  datatype Operation = Operation(kind: OperationKind, ref: Option<string>, expectRejection: bool)

  datatype ParamError =
    | MissingParam(name: string)
    | UnknownAccount(reference: string)
    | UnknownCurrency(code: string)
    | NotADecimal(raw: string)
    | UnknownStatus(raw: string)
    | UnknownKind(kind: string)

  datatype EntryRecord = EntryRecord(posting: Posting, entryRef: Option<string>, journal: nat)

  datatype LedgerRun = LedgerRun(
    events: seq<LedgerEvent>,
    state: LedgerState,
    entries: seq<EntryRecord>,
    rejections: seq<LedgerError>)

  datatype RunError =
    | MissingRef
    | UnknownRef(target: string)
    | Unresolved(fault: ParamError)
    | Rejected(error: LedgerError)
    | ExpectedRejection(index: nat)

  const EMPTY_RUN := LedgerRun([], EMPTY_STATE, [], [])

  function PostingsOf(entries: seq<EntryRecord>): seq<Posting> {
    seq(|entries|, i requires 0 <= i < |entries| => entries[i].posting)
  }

  /** The first entry recorded under a scenario-local name. */
  function FindRef(entries: seq<EntryRecord>, target: string): (k: Option<nat>)
    ensures k.Some? ==> k.value < |entries| && entries[k.value].entryRef == Some(target)
    ensures k.Some? ==> forall i :: 0 <= i < k.value ==> entries[i].entryRef != Some(target)
    ensures k == None ==> forall i :: 0 <= i < |entries| ==> entries[i].entryRef != Some(target)
  {
    if entries == [] then None
    else
      var k := FindRef(entries[..|entries| - 1], target);
      if k.Some? then k
      else if entries[|entries| - 1].entryRef == Some(target) then Some(|entries| - 1)
      else None
  }

  function ToCommand(entries: seq<EntryRecord>, op: Operation): Result<LedgerCommand, RunError> {
    match op.kind
    case OpPost(lines) => Success(PostJournalEntry(lines))
    case OpReverse(reason) =>
      if op.ref == None then Failure(MissingRef)
      else
        var k := FindRef(entries, op.ref.value);
        if k == None then Failure(UnknownRef(op.ref.value))
        else Success(ReverseEntry(entries[k.value].posting.id, reason))
    case OpCapitalize(run, to, policy) => Success(ChangeCapitalizationStatus(run, to, policy))
    case OpUnresolved(fault) => Failure(Unresolved(fault))
  }

  /** What an event adds to the runner's own record. */
  function RecordEntry(entries: seq<EntryRecord>, e: LedgerEvent, op: Operation, index: nat): seq<EntryRecord> {
    if EntryIdOf(e).Some? then entries + [EntryRecord(NewPosting(PostingsOf(entries), e), op.ref, index)]
    else entries
  }

  function Accept(run: LedgerRun, produced: seq<LedgerEvent>, op: Operation, index: nat): LedgerRun {
    if produced == [] then run
    else
      var before := Accept(run, produced[..|produced| - 1], op, index);
      var e := produced[|produced| - 1];
      LedgerRun(
        before.events + [e], Apply(before.state, e), RecordEntry(before.entries, e, op, index),
        before.rejections)
  }

  function ExecuteOne(run: LedgerRun, op: Operation, id: EntryId, index: nat): Result<LedgerRun, RunError> {
    var command :- ToCommand(run.entries, op);
    match Handle(run.state, command, id)
    case Success(produced) =>
      if op.expectRejection then Failure(ExpectedRejection(index))
      else Success(Accept(run, produced, op, index))
    case Failure(error) =>
      if op.expectRejection then Success(run.(rejections := run.rejections + [error]))
      else Failure(Rejected(error))
  }

  /** `ids[i]` is the identifier operation `i` would mint. */
  function Executed(ops: seq<Operation>, ids: seq<EntryId>): Result<LedgerRun, RunError>
    requires |ids| == |ops|
  {
    if ops == [] then Success(EMPTY_RUN)
    else
      var n := |ops| - 1;
      var run :- Executed(ops[..n], ids[..n]);
      ExecuteOne(run, ops[n], ids[n], n)
  }

  lemma {:induction false} FirstErrorIsFinal(ops: seq<Operation>, ids: seq<EntryId>, k: nat)
    requires |ids| == |ops| && k <= |ops| && Executed(ops[..k], ids[..k]).Failure?
    ensures Executed(ops, ids) == Executed(ops[..k], ids[..k])
  {
    var n := |ops| - 1;
    if k < |ops| {
      assert ops[..n][..k] == ops[..k] && ids[..n][..k] == ids[..k];
      FirstErrorIsFinal(ops[..n], ids[..n], k);
    } else {
      assert ops[..k] == ops && ids[..k] == ids;
    }
  }

  /** The state is the replay of the events, and each of so many operations gave an event or a rejection. */
  ghost predicate Accounts(run: LedgerRun, operations: nat) {
    run.state == Replay(run.events) && |run.events| + |run.rejections| == operations
  }

  predicate AllResolved(ops: seq<Operation>) {
    forall i :: 0 <= i < |ops| ==> !ops[i].kind.OpUnresolved?
  }

  lemma OneIsAccountedFor(run: LedgerRun, op: Operation, id: EntryId, index: nat)
    requires Accounts(run, index) && ExecuteOne(run, op, id, index).Success?
    ensures Accounts(ExecuteOne(run, op, id, index).value, index + 1)
    ensures !op.kind.OpUnresolved?
  {
    var outcome := Handle(run.state, ToCommand(run.entries, op).value, id);
    if outcome.Success? {
      var e := outcome.value[0];
      assert outcome.value == [e];
      AcceptOne(run, e, op, index);
      assert (run.events + [e])[..|run.events|] == run.events;
    }
  }

  lemma ResolvedLast(ops: seq<Operation>)
    requires ops != [] && AllResolved(ops[..|ops| - 1]) && !ops[|ops| - 1].kind.OpUnresolved?
    ensures AllResolved(ops)
  {
    assert ops == ops[..|ops| - 1] + [ops[|ops| - 1]];
  }

  lemma {:induction false} EveryOperationIsAccountedFor(ops: seq<Operation>, ids: seq<EntryId>)
    requires |ids| == |ops| && Executed(ops, ids).Success?
    ensures Accounts(Executed(ops, ids).value, |ops|)
    ensures AllResolved(ops)
  {
    if ops != [] {
      var n := |ops| - 1;
      EveryOperationIsAccountedFor(ops[..n], ids[..n]);
      OneIsAccountedFor(Executed(ops[..n], ids[..n]).value, ops[n], ids[n], n);
      ResolvedLast(ops);
    }
  }

  /** The loop over operations, with the projection, the log and the records updated as it goes. */
  method Execute(ops: seq<Operation>, ids: seq<EntryId>) returns (r: Result<LedgerRun, RunError>)
    requires |ids| == |ops|
    ensures r == Executed(ops, ids)
    ensures r.Success? ==> Accounts(r.value, |ops|) && AllResolved(ops)
  {
    var state := new Projection();
    var events: seq<LedgerEvent> := [];
    var entries: seq<EntryRecord> := [];
    var rejections: seq<LedgerError> := [];
    for index := 0 to |ops|
      invariant fresh(state)
      invariant Executed(ops[..index], ids[..index]) == Success(LedgerRun(events, state.View(), entries, rejections))
    {
      var op := ops[index];
      ghost var before := LedgerRun(events, state.View(), entries, rejections);
      assert ops[..index + 1][..index] == ops[..index] && ids[..index + 1][..index] == ids[..index];
      assert Executed(ops[..index + 1], ids[..index + 1]) == ExecuteOne(before, op, ids[index], index);
      var command := ToCommand(entries, op);
      if command.Failure? {
        FirstErrorIsFinal(ops, ids, index + 1);
        return Failure(command.error);
      }
      var outcome := state.HandleCommand(command.value, ids[index]);
      if outcome.Success? {
        if op.expectRejection {
          FirstErrorIsFinal(ops, ids, index + 1);
          return Failure(ExpectedRejection(index));
        }
        for k := 0 to |outcome.value|
          invariant LedgerRun(events, state.View(), entries, rejections)
                    == Accept(before, outcome.value[..k], op, index)
        {
          var e := outcome.value[k];
          assert outcome.value[..k + 1][..k] == outcome.value[..k];
          entries := RecordEntry(entries, e, op, index);
          state.ApplyEvent(e);
          events := events + [e];
        }
        assert outcome.value[..|outcome.value|] == outcome.value;
      } else if op.expectRejection {
        rejections := rejections + [outcome.error];
      } else {
        FirstErrorIsFinal(ops, ids, index + 1);
        return Failure(Rejected(outcome.error));
      }
    }
    assert ops[..|ops|] == ops && ids[..|ids|] == ids;
    EveryOperationIsAccountedFor(ops, ids);
    r := Success(LedgerRun(events, state.View(), entries, rejections));
  }

  // ---------------------------------------------------------------------------
  // The runner simulates the aggregate
  // ---------------------------------------------------------------------------

  lemma AcceptOne(run: LedgerRun, e: LedgerEvent, op: Operation, index: nat)
    ensures Accept(run, [e], op, index)
            == LedgerRun(run.events + [e], Apply(run.state, e), RecordEntry(run.entries, e, op, index), run.rejections)
  {
    assert [e][..0] == [];
  }

  lemma PostingsOfAppend(entries: seq<EntryRecord>, r: EntryRecord)
    ensures PostingsOf(entries + [r]) == PostingsOf(entries) + [r.posting]
  {
  }

  ghost predicate MatchesEvents(run: LedgerRun) {
    && run.state == Replay(run.events)
    && Legal(run.events)
    && PostingsOf(run.entries) == Postings(run.events)
  }

  /** One accepted event keeps the record in step with the log. */
  lemma AcceptKeepsMatching(run: LedgerRun, e: LedgerEvent, op: Operation, index: nat)
    requires MatchesEvents(run) && Produced(run.state, e)
    ensures MatchesEvents(Accept(run, [e], op, index))
  {
    AcceptOne(run, e, op, index);
    LegalAppend(run.events, e);
    assert (run.events + [e])[..|run.events|] == run.events;
    if EntryIdOf(e).Some? {
      PostingsOfAppend(run.entries, EntryRecord(NewPosting(PostingsOf(run.entries), e), op.ref, index));
    }
  }

  lemma ExecuteOneKeepsMatching(run: LedgerRun, op: Operation, id: EntryId, index: nat)
    requires MatchesEvents(run) && id !in run.state.entries && ExecuteOne(run, op, id, index).Success?
    ensures var after := ExecuteOne(run, op, id, index).value;
            && MatchesEvents(after)
            && after.state.entries.Keys <= run.state.entries.Keys + {id}
            && |after.events| + |after.rejections| == |run.events| + |run.rejections| + 1
            && (op.expectRejection <==> |after.rejections| == |run.rejections| + 1)
  {
    var command := ToCommand(run.entries, op).value;
    var outcome := Handle(run.state, command, id);
    if outcome.Success? {
      var e := outcome.value[0];
      assert outcome.value == [e];
      assert Handle(run.state, command, id) == Success([e]);
      assert Produced(run.state, e);
      AcceptOne(run, e, op, index);
      AcceptKeepsMatching(run, e, op, index);
    }
  }

  lemma {:induction false} ExecutedMatchesEvents(ops: seq<Operation>, ids: seq<EntryId>)
    requires |ids| == |ops| && Distinct(ids) && Executed(ops, ids).Success?
    ensures var run := Executed(ops, ids).value;
            && MatchesEvents(run)
            && (forall id :: id in run.state.entries ==> id in ids)
            && |run.events| + |run.rejections| == |ops|
  {
    if ops != [] {
      var n := |ops| - 1;
      ExecutedMatchesEvents(ops[..n], ids[..n]);
      assert forall id :: id in ids[..n] ==> id != ids[n];
      assert forall id :: id in ids[..n] ==> id in ids;
      ExecuteOneKeepsMatching(Executed(ops[..n], ids[..n]).value, ops[n], ids[n], n);
    }
  }

  /**
   After every executed scenario: the state is the replay of the recorded events, the log is one
   the handler could have produced, the runner's records are the aggregate's stored entries id for
   id and line for line, and every operation is accounted for by one event or one rejection.
   */
  lemma {:induction false} RunnerSimulatesAggregate(ops: seq<Operation>, ids: seq<EntryId>)
    requires |ids| == |ops| && Distinct(ids) && Executed(ops, ids).Success?
    ensures var run := Executed(ops, ids).value;
            && run.state == Replay(run.events)
            && Legal(run.events)
            && PostingsOf(run.entries) == Postings(run.events)
            && (forall k :: 0 <= k < |run.entries| ==>
                  && run.entries[k].posting.id in run.state.entries
                  && run.state.entries[run.entries[k].posting.id] == run.entries[k].posting.lines)
            && |run.state.entries| == |run.entries|
            && |run.events| + |run.rejections| == |ops|
  {
    var run := Executed(ops, ids).value;
    ExecutedMatchesEvents(ops, ids);
    PostingsMatchState(run.events);
    AgreesMeans(PostingsOf(run.entries));
    assert forall k :: 0 <= k < |run.entries| ==> PostingsOf(run.entries)[k] == run.entries[k].posting;
  }

  // ---------------------------------------------------------------------------
  // Rejected commands contribute nothing
  // ---------------------------------------------------------------------------

  /** The operations that were expected to be accepted, with their identifiers. */
  function Kept(ops: seq<Operation>, ids: seq<EntryId>): (r: (seq<Operation>, seq<EntryId>))
    requires |ids| == |ops|
    ensures |r.0| == |r.1|
  {
    if ops == [] then ([], [])
    else
      var n := |ops| - 1;
      var (keptOps, keptIds) := Kept(ops[..n], ids[..n]);
      if ops[n].expectRejection then (keptOps, keptIds) else (keptOps + [ops[n]], keptIds + [ids[n]])
  }

  /** The two runs differ at most in what was rejected and in how the journals are numbered. */
  ghost predicate SameLedger(x: LedgerRun, y: LedgerRun) {
    && x.events == y.events && x.state == y.state
    && |x.entries| == |y.entries|
    && forall k :: 0 <= k < |x.entries| ==>
         x.entries[k].posting == y.entries[k].posting && x.entries[k].entryRef == y.entries[k].entryRef
  }

  lemma {:induction false} FindRefIgnoresJournals(x: seq<EntryRecord>, y: seq<EntryRecord>, target: string)
    requires |x| == |y|
    requires forall k :: 0 <= k < |x| ==> x[k].entryRef == y[k].entryRef
    ensures FindRef(x, target) == FindRef(y, target)
  {
    if x != [] {
      FindRefIgnoresJournals(x[..|x| - 1], y[..|y| - 1], target);
    }
  }

  lemma SameCommand(x: LedgerRun, y: LedgerRun, op: Operation)
    requires SameLedger(x, y)
    ensures ToCommand(x.entries, op) == ToCommand(y.entries, op)
  {
    if op.kind.OpReverse? && op.ref.Some? {
      FindRefIgnoresJournals(x.entries, y.entries, op.ref.value);
    }
  }

  lemma SameAfterAccept(x: LedgerRun, y: LedgerRun, e: LedgerEvent, op: Operation, i: nat, j: nat)
    requires SameLedger(x, y)
    ensures SameLedger(Accept(x, [e], op, i), Accept(y, [e], op, j))
  {
    AcceptOne(x, e, op, i);
    AcceptOne(y, e, op, j);
    assert PostingsOf(x.entries) == PostingsOf(y.entries);
  }

  /** Leaving the rejected operations out of the scenario leaves the same ledger behind. */
  lemma {:induction false} RejectionsContributeNothing(ops: seq<Operation>, ids: seq<EntryId>)
    requires |ids| == |ops| && Executed(ops, ids).Success?
    ensures var (keptOps, keptIds) := Kept(ops, ids);
            && Executed(keptOps, keptIds).Success?
            && Executed(keptOps, keptIds).value.rejections == []
            && SameLedger(Executed(ops, ids).value, Executed(keptOps, keptIds).value)
  {
    if ops != [] {
      var n := |ops| - 1;
      RejectionsContributeNothing(ops[..n], ids[..n]);
      var (keptOps, keptIds) := Kept(ops[..n], ids[..n]);
      var x, y := Executed(ops[..n], ids[..n]).value, Executed(keptOps, keptIds).value;
      if !ops[n].expectRejection {
        var m := |keptOps|;
        assert (keptOps + [ops[n]])[..m] == keptOps && (keptIds + [ids[n]])[..m] == keptIds;
        SameCommand(x, y, ops[n]);
        var outcome := Handle(x.state, ToCommand(x.entries, ops[n]).value, ids[n]);
        assert outcome.value == [outcome.value[0]];
        SameAfterAccept(x, y, outcome.value[0], ops[n], n, m);
        AcceptOne(y, outcome.value[0], ops[n], m);
      }
    }
  }

  // ---------------------------------------------------------------------------
  // What a scenario can reverse
  // ---------------------------------------------------------------------------

  /** A reversal carries the name of an entry recorded before it. */
  ghost predicate NamesAreOriginals(entries: seq<EntryRecord>) {
    forall k :: 0 <= k < |entries| && entries[k].posting.reversalOf.Some? ==> NamedBefore(entries, k)
  }

  ghost predicate NamedBefore(entries: seq<EntryRecord>, k: nat)
    requires k < |entries|
  {
    && entries[k].entryRef.Some?
    && exists i :: 0 <= i < k && entries[i].entryRef == entries[k].entryRef
                   && entries[i].posting.reversalOf == None
                   && Some(entries[i].posting.id) == entries[k].posting.reversalOf
  }

  lemma AppendNamed(entries: seq<EntryRecord>, r: EntryRecord)
    requires NamesAreOriginals(entries)
    requires r.posting.reversalOf.Some? ==>
               && r.entryRef.Some? && FindRef(entries, r.entryRef.value).Some?
               && r.posting.reversalOf == Some(entries[FindRef(entries, r.entryRef.value).value].posting.id)
    ensures NamesAreOriginals(entries + [r])
  {
    var more := entries + [r];
    forall k | 0 <= k < |more| && more[k].posting.reversalOf.Some? ensures NamedBefore(more, k) {
      if k < |entries| {
        assert NamedBefore(entries, k);
        var i :| 0 <= i < k && entries[i].entryRef == entries[k].entryRef
                 && entries[i].posting.reversalOf == None
                 && Some(entries[i].posting.id) == entries[k].posting.reversalOf;
        assert more[i] == entries[i] && more[k] == entries[k];
      } else {
        var i := FindRef(entries, r.entryRef.value).value;
        assert entries[i].posting.reversalOf.Some? ==> NamedBefore(entries, i);
        assert more[i] == entries[i] && more[k] == r;
      }
    }
  }

  /**
   Every reversal a scenario performs is of an original posting: a reversal is recorded under the
   name it was given, which its original already has, so no name ever leads to a reversal.
   */
  lemma {:induction false} ScenariosReverseOnlyOriginals(ops: seq<Operation>, ids: seq<EntryId>)
    requires |ids| == |ops| && Executed(ops, ids).Success?
    ensures NamesAreOriginals(Executed(ops, ids).value.entries)
  {
    if ops != [] {
      var n := |ops| - 1;
      ScenariosReverseOnlyOriginals(ops[..n], ids[..n]);
      var before := Executed(ops[..n], ids[..n]).value;
      var outcome := Handle(before.state, ToCommand(before.entries, ops[n]).value, ids[n]);
      if outcome.Success? {
        var e := outcome.value[0];
        assert outcome.value == [e];
        AcceptOne(before, e, ops[n], n);
        if EntryIdOf(e).Some? {
          AppendNamed(before.entries, EntryRecord(NewPosting(PostingsOf(before.entries), e), ops[n].ref, n));
        }
      }
    }
  }
}
