/**
 Decisions made on part of a log: what a command reads of the state, and exactly when deciding it
 before the rest of the log arrived makes no difference.
 */
module StaleDecisions {
  import opened Wrappers
  import opened Ledger
  import opened EntryLaws
  import opened LedgerLaws

  /**
   What was missed, from `seen` on, does not touch what the command reads: a posting reads nothing,
   a reversal whether its entry is reversed, a change of status the status it leaves.
   */
  ghost predicate Untouched(log: seq<LedgerEvent>, seen: nat, command: LedgerCommand)
    requires seen <= |log|
  {
    match command
    case PostJournalEntry(_) => true
    case ReverseEntry(originalId, _) => !Reverses(log[seen..], originalId)
    case ChangeCapitalizationStatus(runId, _, _) => Replay(log).StatusOf(runId) == Replay(log[..seen]).StatusOf(runId)
  }

  lemma {:induction false} EntriesStay(log: seq<LedgerEvent>, n: nat, id: EntryId)
    requires n <= |log| && id in Replay(log[..n]).entries
    ensures id in Replay(log).entries
  {
    if n < |log| {
      assert log[..|log| - 1][..n] == log[..n];
      EntriesStay(log[..|log| - 1], n, id);
    } else {
      assert log[..n] == log;
    }
  }

  /** An entry is reversed if it was, or if a later event reverses it: in any log, legal or not. */
  lemma {:induction false} ReversedSince(log: seq<LedgerEvent>, n: nat, id: EntryId)
    requires n <= |log|
    ensures id in Replay(log).reversed <==> id in Replay(log[..n]).reversed || Reverses(log[n..], id)
  {
    if n < |log| {
      var front, missed := log[..|log| - 1], log[n..];
      ReversedSince(front, n, id);
      RecordsPrefix(missed, id);
      assert front[..n] == log[..n] && front[n..] == missed[..|missed| - 1];
      assert missed[|missed| - 1] == log[|log| - 1];
    } else {
      assert log[..n] == log;
    }
  }

  /**
   A decision made on the first `seen` events is what the handler decides on the whole log exactly
   when the events it missed do not touch what its command reads.
   */
  lemma {:induction false} StaleDecisionHoldsIff(
      log: seq<LedgerEvent>, seen: nat, command: LedgerCommand, id: EntryId, batch: seq<LedgerEvent>)
    requires seen <= |log| && Handle(Replay(log[..seen]), command, id) == Success(batch)
    ensures Handle(Replay(log), command, id) == Success(batch) <==> Untouched(log, seen, command)
  {
    if command.ReverseEntry? {
      EntriesStay(log, seen, command.originalId);
      ReversedSince(log, seen, command.originalId);
    } else if command.ChangeCapitalizationStatus? {
      assert batch[0].from == Replay(log[..seen]).StatusOf(command.runId);
    }
  }

  /**
   Whatever a decision was made on, the event it gave is allowed now exactly when it is the decision
   now and what it records is new.
   */
  lemma {:induction false} AllowedIsDecided(
      was: LedgerState, now: LedgerState, command: LedgerCommand, id: EntryId, batch: seq<LedgerEvent>)
    requires Handle(was, command, id) == Success(batch)
    ensures Allowed(now, batch[0])
            <==> && Handle(now, command, id) == Success(batch)
                 && (command.ChangeCapitalizationStatus? || id !in now.entries)
  {
    assert batch == [batch[0]];
    if command.PostJournalEntry? {
      AcceptanceIsBalance(now, command.lines, id);
    }
  }

  lemma {:induction false} AtMostThe(ids: set<EntryId>) returns (top: EntryId)
    ensures forall id :: id in ids ==> id <= top
  {
    top := 0;
    if id :| id in ids {
      assert ids == (ids - {id}) + {id};
      var rest := AtMostThe(ids - {id});
      top := if rest < id then id else rest;
    }
  }

  /** There is always an id that no entry has. */
  lemma {:induction false} UnusedId(ids: set<EntryId>) returns (unused: EntryId)
    ensures unused !in ids
  {
    var top := AtMostThe(ids);
    unused := top + 1;
  }
}
