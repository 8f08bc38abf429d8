/** What an executed scenario did, said of its operations alone: which event each became, and which error ended it. */
module ScenarioLaws {
  import opened Wrappers
  import opened CoreMoney
  import opened Ledger
  import opened EntryLaws
  import opened LedgerLaws
  import opened InForce
  import opened Runner
  import opened CommandLaws

  /** The operations that were performed: those not expected to be rejected. */
  function Performed(ops: seq<Operation>): seq<nat> {
    if ops == [] then []
    else
      Performed(ops[..|ops| - 1]) + if ops[|ops| - 1].expectRejection then [] else [|ops| - 1]
  }

  /** And those that were expected to be rejected. */
  function Refused(ops: seq<Operation>): seq<nat> {
    if ops == [] then []
    else
      Refused(ops[..|ops| - 1]) + if ops[|ops| - 1].expectRejection then [|ops| - 1] else []
  }

  predicate Enters(op: Operation) {
    !op.expectRejection && (op.kind.OpPost? || op.kind.OpReverse?)
  }

  /** Those of them that recorded an entry. */
  function Entered(ops: seq<Operation>): seq<nat> {
    if ops == [] then []
    else
      Entered(ops[..|ops| - 1]) + if Enters(ops[|ops| - 1]) then [|ops| - 1] else []
  }

  /** Operation `t` is the first to record an entry under the name. */
  ghost predicate IsFirstNamed(ops: seq<Operation>, t: int, name: string) {
    && 0 <= t < |ops| && Enters(ops[t]) && ops[t].ref == Some(name)
    && forall u :: 0 <= u < t && Enters(ops[u]) ==> ops[u].ref != Some(name)
  }

  /** The event is what operation `i` says: its lines, its name's first entry, its run, target and policy. */
  ghost predicate SaidBy(ops: seq<Operation>, ids: seq<EntryId>, i: nat, e: LedgerEvent)
    requires i < |ops| == |ids|
  {
    match ops[i].kind
    case OpPost(lines) => e == JournalEntryPosted(ids[i], lines)
    case OpReverse(reason) =>
      && ops[i].ref.Some?
      && exists t {:trigger ids[t]} ::
           IsFirstNamed(ops[..i], t, ops[i].ref.value) && e == EntryReversed(ids[t], ids[i], reason)
    case OpCapitalize(run, to, policy) => exists from :: e == CapitalizationStatusChanged(run, from, to, policy)
    case OpUnresolved(_) => false
  }

  ghost predicate IsRecordOf(ops: seq<Operation>, ids: seq<EntryId>, i: nat, r: EntryRecord) {
    i < |ops| == |ids| && r.posting.id == ids[i] && r.entryRef == ops[i].ref && r.journal == i
  }

  /** Entry for entry, the runner's records are of the operations that entered one. */
  ghost predicate RecordsOf(ops: seq<Operation>, ids: seq<EntryId>, entries: seq<EntryRecord>)
    requires |ids| == |ops|
  {
    && |entries| == |Entered(ops)|
    && forall k :: 0 <= k < |entries| ==> IsRecordOf(ops, ids, Entered(ops)[k], entries[k])
  }

  lemma {:induction false} EnteredAre(ops: seq<Operation>)
    ensures forall k :: 0 <= k < |Entered(ops)| ==> Entered(ops)[k] < |ops| && Enters(ops[Entered(ops)[k]])
    ensures forall i :: 0 <= i < |ops| && Enters(ops[i]) ==> i in Entered(ops)
    ensures forall j, k :: 0 <= j < k < |Entered(ops)| ==> Entered(ops)[j] < Entered(ops)[k]
  {
    if ops != [] {
      var n: nat := |ops| - 1;
      var front := Entered(ops[..n]);
      EnteredAre(ops[..n]);
      forall i | 0 <= i < |ops| && Enters(ops[i]) ensures i in Entered(ops) {
        if i < n {
          assert ops[..n][i] == ops[i];
        } else {
          assert Entered(ops)[|front|] == n;
        }
      }
    }
  }

  lemma {:induction false} PerformedAre(ops: seq<Operation>)
    ensures forall k :: 0 <= k < |Performed(ops)| ==>
              Performed(ops)[k] < |ops| && !ops[Performed(ops)[k]].expectRejection
    ensures forall i :: 0 <= i < |ops| && !ops[i].expectRejection ==> i in Performed(ops)
    ensures forall j, k :: 0 <= j < k < |Performed(ops)| ==> Performed(ops)[j] < Performed(ops)[k]
  {
    if ops != [] {
      var n: nat := |ops| - 1;
      var front := Performed(ops[..n]);
      PerformedAre(ops[..n]);
      forall i | 0 <= i < |ops| && !ops[i].expectRejection ensures i in Performed(ops) {
        if i < n {
          assert ops[..n][i] == ops[i];
        } else {
          assert Performed(ops)[|front|] == n;
        }
      }
    }
  }

  /** Looking a name up among the records finds the first operation that entered under it. */
  lemma {:induction false} FoundIsFirstNamed(
      ops: seq<Operation>, ids: seq<EntryId>, entries: seq<EntryRecord>, name: string)
    requires |ids| == |ops| && RecordsOf(ops, ids, entries)
    ensures var k := FindRef(entries, name);
            && (k.Some? ==> IsFirstNamed(ops, Entered(ops)[k.value], name)
                            && entries[k.value].posting.id == ids[Entered(ops)[k.value]])
            && (k.None? ==> forall i :: 0 <= i < |ops| && Enters(ops[i]) ==> ops[i].ref != Some(name))
  {
    EnteredAre(ops);
    var found := FindRef(entries, name);
    forall i | 0 <= i < |ops| && Enters(ops[i]) && (found.Some? ==> i < Entered(ops)[found.value])
      ensures ops[i].ref != Some(name)
    {
      var m :| 0 <= m < |Entered(ops)| && Entered(ops)[m] == i;
      assert entries[m].entryRef == ops[i].ref;
    }
  }

  // ---------------------------------------------------------------------------
  // One operation
  // ---------------------------------------------------------------------------

  lemma {:induction false} CommandDecided(s: LedgerState, command: LedgerCommand, id: EntryId) returns (e: LedgerEvent)
    requires Handle(s, command, id).Success?
    ensures Handle(s, command, id) == Success([e])
    ensures match command
            case PostJournalEntry(lines) => e == JournalEntryPosted(id, lines)
            case ReverseEntry(originalId, reason) => e == EntryReversed(originalId, id, reason)
            case ChangeCapitalizationStatus(run, to, policy) =>
              e.CapitalizationStatusChanged? && e.runId == run && e.to == to && e.policyRef == policy
  {
    e := Handle(s, command, id).value[0];
    match command
    case PostJournalEntry(lines) => PostingIsRecordedAsGiven(s, lines, id);
    case ReverseEntry(originalId, reason) => ReversalIsRecordedAsGiven(s, originalId, reason, id);
    case ChangeCapitalizationStatus(run, to, policy) => StatusIsChangedAsGiven(s, run, to, policy, id);
  }

  /** The command operation `n` becomes, by what it says and the records so far. */
  ghost predicate CommandOf(ops: seq<Operation>, ids: seq<EntryId>, n: nat, command: LedgerCommand)
    requires n < |ops| == |ids|
  {
    match ops[n].kind
    case OpPost(lines) => command == PostJournalEntry(lines)
    case OpReverse(reason) =>
      && ops[n].ref.Some?
      && exists t {:trigger ids[t]} ::
           IsFirstNamed(ops[..n], t, ops[n].ref.value) && command == ReverseEntry(ids[t], reason)
    case OpCapitalize(run, to, policy) => command == ChangeCapitalizationStatus(run, to, policy)
    case OpUnresolved(_) => false
  }

  lemma {:induction false} ResolvedCommand(ops: seq<Operation>, ids: seq<EntryId>, n: nat, entries: seq<EntryRecord>)
    requires n < |ops| == |ids| && RecordsOf(ops[..n], ids[..n], entries)
    ensures ToCommand(entries, ops[n]).Success? ==> CommandOf(ops, ids, n, ToCommand(entries, ops[n]).value)
    ensures ToCommand(entries, ops[n]).Failure? ==>
              match ops[n].kind
              case OpUnresolved(fault) => ToCommand(entries, ops[n]).error == Unresolved(fault)
              case OpReverse(_) =>
                if ops[n].ref == None then ToCommand(entries, ops[n]).error == MissingRef
                else
                  && ToCommand(entries, ops[n]).error == UnknownRef(ops[n].ref.value)
                  && forall i :: 0 <= i < n && Enters(ops[i]) ==> ops[i].ref != ops[n].ref
              case _ => false
  {
    if ops[n].kind.OpReverse? && ops[n].ref.Some? {
      var name := ops[n].ref.value;
      FoundIsFirstNamed(ops[..n], ids[..n], entries, name);
      var k := FindRef(entries, name);
      if k.Some? {
        var t := Entered(ops[..n])[k.value];
        assert ids[..n][t] == ids[t];
      } else {
        forall i | 0 <= i < n && Enters(ops[i]) ensures ops[i].ref != ops[n].ref {
          assert ops[..n][i] == ops[i];
        }
      }
    }
  }

  lemma {:induction false} DecidedIsSaid(
      ops: seq<Operation>, ids: seq<EntryId>, n: nat, s: LedgerState, command: LedgerCommand)
    returns (e: LedgerEvent)
    requires n < |ops| == |ids| && CommandOf(ops, ids, n, command) && Handle(s, command, ids[n]).Success?
    ensures Handle(s, command, ids[n]) == Success([e]) && SaidBy(ops, ids, n, e)
    ensures EntryIdOf(e) == if ops[n].kind.OpPost? || ops[n].kind.OpReverse? then Some(ids[n]) else None
  {
    e := CommandDecided(s, command, ids[n]);
  }

  /** One operation performed adds the event it says, and a record if it enters one; rejected, an error. */
  lemma {:induction false} StepIsSaid(ops: seq<Operation>, ids: seq<EntryId>, n: nat, run: LedgerRun)
    returns (e: LedgerEvent)
    requires n < |ops| == |ids| && RecordsOf(ops[..n], ids[..n], run.entries)
    requires ExecuteOne(run, ops[n], ids[n], n).Success?
    ensures var after := ExecuteOne(run, ops[n], ids[n], n).value;
            if ops[n].expectRejection then after.events == run.events && after.entries == run.entries
            else
              && after.events == run.events + [e] && SaidBy(ops, ids, n, e)
              && |after.entries| == |run.entries| + (if Enters(ops[n]) then 1 else 0)
              && after.entries[..|run.entries|] == run.entries
              && (Enters(ops[n]) ==> IsRecordOf(ops, ids, n, after.entries[|run.entries|]))
  {
    ResolvedCommand(ops, ids, n, run.entries);
    var command := ToCommand(run.entries, ops[n]).value;
    if Handle(run.state, command, ids[n]).Success? {
      e := DecidedIsSaid(ops, ids, n, run.state, command);
      AcceptOne(run, e, ops[n], n);
    } else {
      e := CapitalizationStatusChanged(0, PendingReview, PendingReview, 0);
    }
  }

  lemma {:induction false} RecordsGrow(
      ops: seq<Operation>, ids: seq<EntryId>, was: seq<EntryRecord>, now: seq<EntryRecord>)
    requires ops != [] && |ids| == |ops|
    requires RecordsOf(ops[..|ops| - 1], ids[..|ops| - 1], was)
    requires |now| == |was| + (if Enters(ops[|ops| - 1]) then 1 else 0) && now[..|was|] == was
    requires Enters(ops[|ops| - 1]) ==> IsRecordOf(ops, ids, |ops| - 1, now[|was|])
    ensures RecordsOf(ops, ids, now)
  {
    var n := |ops| - 1;
    var front := Entered(ops[..n]);
    forall k | 0 <= k < |now| ensures IsRecordOf(ops, ids, Entered(ops)[k], now[k]) {
      if k < |was| {
        assert now[..|was|][k] == was[k] && Entered(ops)[k] == front[k];
        assert IsRecordOf(ops[..n], ids[..n], front[k], was[k]);
      }
    }
  }

  // ---------------------------------------------------------------------------
  // The whole scenario
  // ---------------------------------------------------------------------------

  lemma {:induction false} RecordsAreOfOperations(ops: seq<Operation>, ids: seq<EntryId>)
    requires |ids| == |ops| && Executed(ops, ids).Success?
    ensures RecordsOf(ops, ids, Executed(ops, ids).value.entries)
  {
    if ops != [] {
      var n := |ops| - 1;
      var run := Executed(ops[..n], ids[..n]).value;
      RecordsAreOfOperations(ops[..n], ids[..n]);
      var e := StepIsSaid(ops, ids, n, run);
      RecordsGrow(ops, ids, run.entries, Executed(ops, ids).value.entries);
    }
  }

  lemma SaidOnFront(ops: seq<Operation>, ids: seq<EntryId>, n: nat, i: nat, e: LedgerEvent)
    requires i < n <= |ops| == |ids| && SaidBy(ops[..n], ids[..n], i, e)
    ensures SaidBy(ops, ids, i, e)
  {
    assert ops[..n][..i] == ops[..i];
    if ops[i].kind.OpReverse? {
      var t :| IsFirstNamed(ops[..i], t, ops[i].ref.value)
               && e == EntryReversed(ids[..n][t], ids[i], ops[i].kind.reason);
      assert ids[t] == ids[..n][t];
    }
  }

  /** The events are what the performed operations say, one each, in their order. */
  lemma {:induction false} EventsAreSaid(ops: seq<Operation>, ids: seq<EntryId>)
    requires |ids| == |ops| && Executed(ops, ids).Success?
    ensures |Executed(ops, ids).value.events| == |Performed(ops)|
    ensures forall k :: 0 <= k < |Performed(ops)| ==>
              Performed(ops)[k] < |ops| && SaidBy(ops, ids, Performed(ops)[k], Executed(ops, ids).value.events[k])
  {
    if ops != [] {
      var n := |ops| - 1;
      var run := Executed(ops[..n], ids[..n]).value;
      EventsAreSaid(ops[..n], ids[..n]);
      RecordsAreOfOperations(ops[..n], ids[..n]);
      var e := StepIsSaid(ops, ids, n, run);
      forall k | 0 <= k < |run.events| ensures SaidBy(ops, ids, Performed(ops[..n])[k], run.events[k]) {
        SaidOnFront(ops, ids, n, Performed(ops[..n])[k], run.events[k]);
      }
    }
  }

  /** The handler refused the operation's command, in the state the ones before it left, with this error. */
  ghost predicate RefusedWith(ops: seq<Operation>, ids: seq<EntryId>, i: nat, error: LedgerError)
    requires i < |ops| == |ids|
  {
    && Executed(ops[..i], ids[..i]).Success?
    && exists command :: CommandOf(ops, ids, i, command)
                         && Handle(Executed(ops[..i], ids[..i]).value.state, command, ids[i]) == Failure(error)
  }

  lemma RefusedOnFront(ops: seq<Operation>, ids: seq<EntryId>, n: nat, i: nat, error: LedgerError)
    requires i < n <= |ops| == |ids| && RefusedWith(ops[..n], ids[..n], i, error)
    ensures RefusedWith(ops, ids, i, error)
  {
    assert ops[..n][..i] == ops[..i] && ids[..n][..i] == ids[..i];
    CommandOnFront(ops, ids, n, i);
  }

  /** The rejections are the handler's refusals of the others, in their order. */
  lemma {:induction false} RejectionsAreRefusals(ops: seq<Operation>, ids: seq<EntryId>)
    requires |ids| == |ops| && Executed(ops, ids).Success?
    ensures |Executed(ops, ids).value.rejections| == |Refused(ops)|
    ensures forall k :: 0 <= k < |Refused(ops)| ==>
              && Refused(ops)[k] < |ops|
              && RefusedWith(ops, ids, Refused(ops)[k], Executed(ops, ids).value.rejections[k])
  {
    if ops != [] {
      var n := |ops| - 1;
      var run := Executed(ops[..n], ids[..n]).value;
      RejectionsAreRefusals(ops[..n], ids[..n]);
      RecordsAreOfOperations(ops[..n], ids[..n]);
      ResolvedCommand(ops, ids, n, run.entries);
      forall k | 0 <= k < |run.rejections| ensures RefusedWith(ops, ids, Refused(ops[..n])[k], run.rejections[k]) {
        RefusedOnFront(ops, ids, n, Refused(ops[..n])[k], run.rejections[k]);
      }
      if !ops[n].expectRejection {
        var e := StepIsSaid(ops, ids, n, run);
        var command := ToCommand(run.entries, ops[n]).value;
        var decided := DecidedIsSaid(ops, ids, n, run.state, command);
        AcceptOne(run, decided, ops[n], n);
      }
    }
  }

  /**
   What a scenario leaves: its events are, in order, what the operations not expected to be rejected
   say, each entry recorded under its operation's id, name and number.
   */
  lemma {:induction false} ScenarioIsPerformed(ops: seq<Operation>, ids: seq<EntryId>)
    requires |ids| == |ops| && Executed(ops, ids).Success?
    ensures forall i: nat :: i in Performed(ops) <==> i < |ops| && !ops[i].expectRejection
    ensures forall j, k :: 0 <= j < k < |Performed(ops)| ==> Performed(ops)[j] < Performed(ops)[k]
    ensures var run := Executed(ops, ids).value;
            && RecordsOf(ops, ids, run.entries)
            && |run.events| == |Performed(ops)|
            && forall k :: 0 <= k < |Performed(ops)| ==>
                 Performed(ops)[k] < |ops| && SaidBy(ops, ids, Performed(ops)[k], run.events[k])
  {
    PerformedAre(ops);
    RecordsAreOfOperations(ops, ids);
    EventsAreSaid(ops, ids);
  }

  /**
   What ends a scenario: the first operation that is unresolved, or reverses no or an unknown name, or
   is rejected unexpectedly, or accepted where a rejection was expected.
   */
  lemma {:induction false} FirstErrorEndsIt(ops: seq<Operation>, ids: seq<EntryId>) returns (n: nat)
    requires |ids| == |ops| && Executed(ops, ids).Failure?
    ensures n < |ops| && Executed(ops[..n], ids[..n]).Success?
    ensures var error, s := Executed(ops, ids).error, Executed(ops[..n], ids[..n]).value.state;
            match error
            case Unresolved(fault) => ops[n].kind == OpUnresolved(fault)
            case MissingRef => ops[n].kind.OpReverse? && ops[n].ref == None
            case UnknownRef(name) =>
              && ops[n].kind.OpReverse? && ops[n].ref == Some(name)
              && forall i :: 0 <= i < n && Enters(ops[i]) ==> ops[i].ref != Some(name)
            case ExpectedRejection(index) =>
              && index == n && ops[n].expectRejection
              && exists command :: CommandOf(ops, ids, n, command) && Handle(s, command, ids[n]).Success?
            case Rejected(refusal) =>
              && !ops[n].expectRejection
              && exists command :: CommandOf(ops, ids, n, command) && Handle(s, command, ids[n]) == Failure(refusal)
  {
    n := |ops| - 1;
    if Executed(ops[..n], ids[..n]).Failure? {
      var m := FirstErrorEndsIt(ops[..n], ids[..n]);
      assert ops[..n][..m] == ops[..m] && ids[..n][..m] == ids[..m];
      CommandOnFront(ops, ids, n, m);
      assert forall i :: 0 <= i < m ==> ops[..n][i] == ops[i];
      n := m;
    } else {
      var run := Executed(ops[..n], ids[..n]).value;
      RecordsAreOfOperations(ops[..n], ids[..n]);
      ResolvedCommand(ops, ids, n, run.entries);
    }
  }

  lemma CommandOnFront(ops: seq<Operation>, ids: seq<EntryId>, n: nat, m: nat)
    requires m < n <= |ops| == |ids|
    ensures forall command :: CommandOf(ops[..n], ids[..n], m, command) ==> CommandOf(ops, ids, m, command)
  {
    forall command | CommandOf(ops[..n], ids[..n], m, command) ensures CommandOf(ops, ids, m, command) {
      assert ops[..n][..m] == ops[..m];
      if ops[m].kind.OpReverse? {
        var t :| IsFirstNamed(ops[..m], t, ops[m].ref.value)
                 && command == ReverseEntry(ids[..n][t], ops[m].kind.reason);
        assert ids[t] == ids[..n][t];
      }
    }
  }
}
