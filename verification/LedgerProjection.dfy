/**
 The projection updated in place, and the handler's accumulating loop. Every method is tied to the
 functions of Ledger: what is proved of those holds of these.
 */
module LedgerProjection {
  import opened Wrappers
  import opened CoreMoney
  import Sums
  import opened Ledger
  import BalanceLaws

  class Projection {
    var balances: Balances
    var entries: map<EntryId, seq<JournalLine>>
    var reversed: set<EntryId>
    var capitalization: map<RunId, CapitalizationStatus>

    function View(): LedgerState
      reads this
    {
      LedgerState(balances, entries, reversed, capitalization)
    }

    constructor ()
      ensures View() == EMPTY_STATE
    {
      balances, entries, reversed, capitalization := map[], map[], {}, map[];
    }

    method Post(id: EntryId, lines: seq<JournalLine>)
      modifies this
      ensures View() == Ledger.Post(old(View()), id, lines)
    {
      for i := 0 to |lines|
        invariant balances == PostLines(old(balances), lines[..i])
        invariant entries == old(entries) && reversed == old(reversed) && capitalization == old(capitalization)
      {
        var line := lines[i];
        assert lines[..i + 1][..i] == lines[..i];
        match line.SignedAmount()
        case None =>
        case Some(delta) =>
          if line.account !in balances {
            balances := balances[line.account := Zero(delta.currency)];
          }
          var updated := balances[line.account].CheckedAdd(delta);
          if updated.Success? {
            balances := balances[line.account := updated.value];
          }
      }
      assert lines[..|lines|] == lines;
      entries := entries[id := lines];
    }

    method ApplyEvent(e: LedgerEvent)
      modifies this
      ensures View() == Apply(old(View()), e)
    {
      match e
      case JournalEntryPosted(id, lines) =>
        Post(id, lines);
      case EntryReversed(originalId, reversalId, _) =>
        if originalId in entries {
          Post(reversalId, Mirror(entries[originalId]));
        }
        reversed := reversed + {originalId};
      case CapitalizationStatusChanged(runId, _, to, _) =>
        capitalization := capitalization[runId := to];
    }

    /** The sum of the balances held in one currency, in whatever order they are visited. */
    method TrialBalance(c: Currency) returns (total: Money)
      ensures total == Money(BalanceLaws.TrialBalance(balances, c), c)
    {
      total := Zero(c);
      var rest := BalanceLaws.HeldIn(balances, c);
      while rest != map[]
        invariant total.currency == c
        invariant total.amount + Sums.MapSum(rest) == BalanceLaws.TrialBalance(balances, c)
        decreases |rest|
      {
        var a :| a in rest;
        Sums.MapSumRemove(rest, a);
        total := Money(total.amount + rest[a], c);
        rest := rest - {a};
      }
    }

    /** The only place that decides; it changes nothing. */
    method HandleCommand(command: LedgerCommand, freshId: EntryId)
      returns (r: Result<seq<LedgerEvent>, LedgerError>)
      ensures r == Handle(View(), command, freshId)
    {
      match command
      case PostJournalEntry(lines) =>
        var checked := CheckLines(lines);
        r := if checked.Success? then Success([JournalEntryPosted(freshId, lines)]) else Failure(checked.error);
      case ReverseEntry(originalId, reason) =>
        if originalId !in entries {
          return Failure(UnknownEntry(originalId));
        }
        if originalId in reversed {
          return Failure(AlreadyReversed(originalId));
        }
        r := Success([EntryReversed(originalId, freshId, reason)]);
      case ChangeCapitalizationStatus(runId, to, policyRef) =>
        var from := if runId in capitalization then capitalization[runId] else PendingReview;
        if from == to {
          return Failure(CapitalizationUnchanged(runId, to));
        }
        r := Success([CapitalizationStatusChanged(runId, from, to, policyRef)]);
    }
  }

  lemma {:induction false} FailureIsFinal(lines: seq<JournalLine>, c: Currency, k: nat)
    requires k <= |lines| && SideTotals(lines[..k], c).Failure?
    ensures SideTotals(lines, c) == Failure(SideTotals(lines[..k], c).error)
  {
    if k < |lines| {
      assert lines[..|lines| - 1][..k] == lines[..k];
      FailureIsFinal(lines[..|lines| - 1], c, k);
    } else {
      assert lines[..k] == lines;
    }
  }

  /** Two running totals, one pass, stopping at the first error. */
  method CheckLines(lines: seq<JournalLine>) returns (r: Result<(), LedgerError>)
    ensures r == CheckEntry(lines)
  {
    if lines == [] {
      return Failure(EmptyEntry);
    }
    var first := lines[0].Validate();
    if first.Failure? {
      return Failure(first.error);
    }
    var c := first.value.currency;
    var debits, credits := Zero(c), Zero(c);
    for i := 0 to |lines|
      invariant SideTotals(lines[..i], c) == Success((debits, credits))
    {
      assert lines[..i + 1][..i] == lines[..i];
      var amount := lines[i].Validate();
      if amount.Failure? {
        FailureIsFinal(lines, c, i + 1);
        return Failure(amount.error);
      }
      var sum := (if lines[i].debit.Some? then debits else credits).CheckedAdd(amount.value);
      if sum.Failure? {
        FailureIsFinal(lines, c, i + 1);
        return Failure(CurrencyError(sum.error));
      }
      if lines[i].debit.Some? {
        debits := sum.value;
      } else {
        credits := sum.value;
      }
    }
    assert lines[..|lines|] == lines;
    r := if debits != credits then Failure(Unbalanced(debits.amount, credits.amount)) else Success(());
  }
}
