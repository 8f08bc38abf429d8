/**
 What a decision records of its command, and what applying it does to each account: said of the
 command's own lines, with debits and credits read off them.
 */
module CommandLaws {
  import opened Wrappers
  import opened CoreMoney
  import opened Ledger
  import opened EntryLaws
  import opened BalanceLaws
  import opened LedgerLaws

  // ---------------------------------------------------------------------------
  // What is recorded, or why nothing is
  // ---------------------------------------------------------------------------

  /** A posting is recorded as it was commanded, under the minted id, exactly when it balances. */
  lemma {:induction false} PostingIsRecordedAsGiven(s: LedgerState, lines: seq<JournalLine>, id: EntryId)
    ensures BalancedEntry(lines) ==>
              Handle(s, PostJournalEntry(lines), id) == Success([JournalEntryPosted(id, lines)])
    ensures !BalancedEntry(lines) ==>
              && Handle(s, PostJournalEntry(lines), id).Failure?
              && CheckEntry(lines) == Failure(Handle(s, PostJournalEntry(lines), id).error)
  {
    AcceptanceIsBalance(s, lines, id);
  }

  /** A reversal is of the commanded entry, for the commanded reason, if that is recorded and not reversed. */
  lemma {:induction false} ReversalIsRecordedAsGiven(s: LedgerState, originalId: EntryId, reason: string, id: EntryId)
    ensures Handle(s, ReverseEntry(originalId, reason), id)
            == if originalId !in s.entries then Failure(UnknownEntry(originalId))
               else if originalId in s.reversed then Failure(AlreadyReversed(originalId))
               else Success([EntryReversed(originalId, id, reason)])
  {
  }

  /** A change of status is the commanded one, from what the run has: pending review, if nothing was said. */
  lemma {:induction false} StatusIsChangedAsGiven(
      s: LedgerState, runId: RunId, to: CapitalizationStatus, policyRef: PolicyId, id: EntryId)
    ensures var from := if runId in s.capitalization then s.capitalization[runId] else PendingReview;
            Handle(s, ChangeCapitalizationStatus(runId, to, policyRef), id)
            == if from == to then Failure(CapitalizationUnchanged(runId, to))
               else Success([CapitalizationStatusChanged(runId, from, to, policyRef)])
  {
  }

  // ---------------------------------------------------------------------------
  // Debits and credits
  // ---------------------------------------------------------------------------

  predicate IsDebit(line: JournalLine, a: AccountId, c: Currency) {
    line.account == a && line.credit == None && line.debit.Some? && line.debit.value.currency == c
  }

  predicate IsCredit(line: JournalLine, a: AccountId, c: Currency) {
    line.account == a && line.debit == None && line.credit.Some? && line.credit.value.currency == c
  }

  function Debits(lines: seq<JournalLine>, a: AccountId, c: Currency): real {
    if lines == [] then 0.0
    else (if IsDebit(lines[0], a, c) then lines[0].debit.value.amount else 0.0) + Debits(lines[1..], a, c)
  }

  function Credits(lines: seq<JournalLine>, a: AccountId, c: Currency): real {
    if lines == [] then 0.0
    else (if IsCredit(lines[0], a, c) then lines[0].credit.value.amount else 0.0) + Credits(lines[1..], a, c)
  }

  lemma {:induction false} OneLineSum(line: JournalLine, a: AccountId, c: Currency)
    ensures AccountSum([line], a, c)
            == (if IsDebit(line, a, c) then line.debit.value.amount else 0.0)
               - (if IsCredit(line, a, c) then line.credit.value.amount else 0.0)
  {
    assert AccountSum([line][..0], a, c) == 0.0;
  }

  /** What an account's lines come to in a currency is its debits less its credits. */
  lemma {:induction false} SumIsDebitsLessCredits(lines: seq<JournalLine>, a: AccountId, c: Currency)
    ensures AccountSum(lines, a, c) == Debits(lines, a, c) - Credits(lines, a, c)
  {
    if lines != [] {
      SumIsDebitsLessCredits(lines[1..], a, c);
      OneLineSum(lines[0], a, c);
      AccountSumAppend([lines[0]], lines[1..], a, c);
      assert [lines[0]] + lines[1..] == lines;
    }
  }

  // ---------------------------------------------------------------------------
  // What a refusal names
  // ---------------------------------------------------------------------------

  /** A line with both sides, or neither, is refused as such, under its account. */
  lemma {:induction false} MalformedLineIsNamed(line: JournalLine)
    ensures line.debit.Some? && line.credit.Some? ==> line.Validate() == Failure(LineHasBothSides(line.account))
    ensures line.debit.None? && line.credit.None? ==> line.Validate() == Failure(LineHasNoAmount(line.account))
    ensures line.debit.Some? && line.credit.None? ==> line.Validate() == Success(line.debit.value)
    ensures line.debit.None? && line.credit.Some? ==> line.Validate() == Success(line.credit.value)
  {
  }

  function TotalDebits(lines: seq<JournalLine>): real {
    if lines == [] then 0.0
    else
      TotalDebits(lines[..|lines| - 1])
      + if lines[|lines| - 1].debit.Some? then lines[|lines| - 1].debit.value.amount else 0.0
  }

  function TotalCredits(lines: seq<JournalLine>): real {
    if lines == [] then 0.0
    else
      TotalCredits(lines[..|lines| - 1])
      + if lines[|lines| - 1].credit.Some? then lines[|lines| - 1].credit.value.amount else 0.0
  }

  lemma {:induction false} SideTotalsAre(lines: seq<JournalLine>, c: Currency)
    requires forall i :: 0 <= i < |lines| ==> LineIn(lines[i], c)
    ensures SideTotals(lines, c) == Success((Money(TotalDebits(lines), c), Money(TotalCredits(lines), c)))
  {
    if lines != [] {
      SideTotalsAre(lines[..|lines| - 1], c);
      assert LineIn(lines[|lines| - 1], c);
    }
  }

  /** Well-formed lines in one currency are accepted when the sides are equal, and else refused with both. */
  lemma {:induction false} ImbalanceIsNamed(lines: seq<JournalLine>, c: Currency)
    requires lines != [] && forall i :: 0 <= i < |lines| ==> LineIn(lines[i], c)
    ensures CheckEntry(lines)
            == if TotalDebits(lines) == TotalCredits(lines) then Success(())
               else Failure(Unbalanced(TotalDebits(lines), TotalCredits(lines)))
  {
    assert LineIn(lines[0], c);
    SideTotalsAre(lines, c);
  }

  // ---------------------------------------------------------------------------
  // What posting does to an account
  // ---------------------------------------------------------------------------

  ghost predicate Touched(lines: seq<JournalLine>, a: AccountId) {
    exists i :: 0 <= i < |lines| && lines[i].account == a
  }

  /** The account's balance after an entry in `c`: moved, opened, or, held in another currency, left. */
  ghost predicate MovedBy(
      before: Balances, after: Balances, a: AccountId, c: Currency, touched: bool, delta: real) {
    if a in before then
      && a in after
      && after[a] == (if before[a].currency == c then Money(before[a].amount + delta, c) else before[a])
    else
      && (a in after <==> touched)
      && (if touched then after[a] == Money(delta, c) else delta == 0.0)
  }

  ghost predicate Moved(before: Balances, after: Balances, lines: seq<JournalLine>, a: AccountId, c: Currency) {
    MovedBy(before, after, a, c, Touched(lines, a), Debits(lines, a, c) - Credits(lines, a, c))
  }

  lemma TouchedLast(lines: seq<JournalLine>, a: AccountId)
    requires lines != []
    ensures Touched(lines, a) <==> Touched(lines[..|lines| - 1], a) || lines[|lines| - 1].account == a
  {
    var n := |lines| - 1;
    assert forall i :: 0 <= i < n ==> lines[..n][i] == lines[i];
    assert Touched(lines, a) ==> Touched(lines[..n], a) || lines[n].account == a by {
      if i :| 0 <= i < |lines| && lines[i].account == a {
        assert i < n ==> lines[..n][i].account == a;
      }
    }
  }

  lemma {:induction false} MovedByOneMore(
      before: Balances, b: Balances, line: JournalLine, a: AccountId, c: Currency, touched: bool, delta: real)
    requires MovedBy(before, b, a, c, touched, delta) && LineIn(line, c)
    ensures MovedBy(before, PostLine(b, line), a, c, touched || line.account == a,
                    delta + if line.account == a then LineAmount(line, c) else 0.0)
  {
  }

  lemma {:induction false} PostedMoves(b: Balances, lines: seq<JournalLine>, a: AccountId, c: Currency)
    requires forall i :: 0 <= i < |lines| ==> LineIn(lines[i], c)
    ensures MovedBy(b, PostLines(b, lines), a, c, Touched(lines, a), AccountSum(lines, a, c))
  {
    if lines != [] {
      var front, last := lines[..|lines| - 1], lines[|lines| - 1];
      PostedMoves(b, front, a, c);
      TouchedLast(lines, a);
      MovedByOneMore(b, PostLines(b, front), last, a, c, Touched(front, a), AccountSum(front, a, c));
    }
  }

  /**
   Once a posting is decided and applied, every account has moved by the debits less the credits of the
   command's own lines on it, unless it is held in another currency; the entry is recorded as given.
   */
  lemma {:induction false} PostingMovesItsAccounts(
      s: LedgerState, lines: seq<JournalLine>, id: EntryId, c: Currency, a: AccountId)
    requires BalancedIn(lines, c)
    ensures Handle(s, PostJournalEntry(lines), id).Success?
    ensures var after := Apply(s, Handle(s, PostJournalEntry(lines), id).value[0]);
            && Moved(s.balances, after.balances, lines, a, c)
            && after == LedgerState(after.balances, s.entries[id := lines], s.reversed, s.capitalization)
  {
    PostingIsRecordedAsGiven(s, lines, id);
    PostedMoves(s.balances, lines, a, c);
    SumIsDebitsLessCredits(lines, a, c);
  }

  lemma {:induction false} MirrorMoves(b: Balances, lines: seq<JournalLine>, a: AccountId, c: Currency)
    requires forall i :: 0 <= i < |lines| ==> LineIn(lines[i], c)
    ensures MovedBy(b, PostLines(b, Mirror(lines)), a, c, Touched(lines, a), Credits(lines, a, c) - Debits(lines, a, c))
  {
    forall i | 0 <= i < |lines| ensures LineIn(Mirror(lines)[i], c) {
      assert LineIn(lines[i], c);
    }
    assert Touched(Mirror(lines), a) <==> Touched(lines, a) by {
      assert forall i :: 0 <= i < |lines| ==> Mirror(lines)[i].account == lines[i].account;
    }
    PostedMoves(b, Mirror(lines), a, c);
    SumIsDebitsLessCredits(lines, a, c);
    MirrorNegatesAccountSum(lines, a, c);
  }

  /** A reversal moves every account by the credits less the debits of the entry it reverses. */
  lemma {:induction false} ReversalMovesItsAccounts(
      s: LedgerState, originalId: EntryId, reason: string, id: EntryId, c: Currency, a: AccountId)
    requires originalId in s.entries && originalId !in s.reversed && BalancedIn(s.entries[originalId], c)
    ensures Handle(s, ReverseEntry(originalId, reason), id).Success?
    ensures var lines := s.entries[originalId];
            var after := Apply(s, Handle(s, ReverseEntry(originalId, reason), id).value[0]);
            && MovedBy(s.balances, after.balances, a, c, Touched(lines, a), Credits(lines, a, c) - Debits(lines, a, c))
            && after == LedgerState(
                 after.balances, s.entries[id := Mirror(lines)], s.reversed + {originalId}, s.capitalization)
  {
    MirrorMoves(s.balances, s.entries[originalId], a, c);
  }

  /** Line by line a mirror has the same account, the sides exchanged, and no back-references. */
  lemma {:induction false} MirrorExchangesSides(lines: seq<JournalLine>, i: nat)
    requires i < |lines|
    ensures |Mirror(lines)| == |lines|
    ensures Mirror(lines)[i] == JournalLine(lines[i].account, lines[i].credit, lines[i].debit, [])
  {
  }

  /** A change of status sets the run's status and nothing else. */
  lemma {:induction false} StatusChangeSetsTheStatus(s: LedgerState, e: LedgerEvent)
    requires e.CapitalizationStatusChanged?
    ensures Apply(s, e) == LedgerState(s.balances, s.entries, s.reversed, s.capitalization[e.runId := e.to])
  {
  }
}
