/**
 What acceptance of a posting means, said without accumulators: every line has exactly one side,
 all lines share a currency, and the signed amounts sum to zero.
 */
module EntryLaws {
  import opened Wrappers
  import opened CoreMoney
  import opened Ledger

  predicate OneSided(line: JournalLine) {
    line.debit.Some? != line.credit.Some?
  }

  /** The line is well formed and denominated in `c`. */
  predicate LineIn(line: JournalLine, c: Currency) {
    OneSided(line) && line.SignedAmount().value.currency == c
  }

  /** A line's signed amount if it is in `c`, else nothing. */
  function LineAmount(line: JournalLine, c: Currency): real {
    match line.SignedAmount()
    case None => 0.0
    case Some(m) => if m.currency == c then m.amount else 0.0
  }

  /** The sum of the signed amounts of the lines in `c`. */
  function CurrencySum(lines: seq<JournalLine>, c: Currency): real {
    if lines == [] then 0.0
    else CurrencySum(lines[..|lines| - 1], c) + LineAmount(lines[|lines| - 1], c)
  }

  predicate BalancedIn(lines: seq<JournalLine>, c: Currency) {
    && lines != []
    && (forall i :: 0 <= i < |lines| ==> LineIn(lines[i], c))
    && CurrencySum(lines, c) == 0.0
  }

  ghost predicate BalancedEntry(lines: seq<JournalLine>) {
    exists c :: BalancedIn(lines, c)
  }

  /** The position of the first line that is malformed or in another currency than `c`. */
  function FirstFault(lines: seq<JournalLine>, c: Currency): (k: nat)
    ensures k <= |lines|
    ensures forall i :: 0 <= i < k ==> LineIn(lines[i], c)
    ensures k < |lines| ==> !LineIn(lines[k], c)
  {
    if lines == [] then 0
    else
      var k := FirstFault(lines[..|lines| - 1], c);
      if k < |lines| - 1 || !LineIn(lines[|lines| - 1], c) then k else k + 1
  }

  /** What a single faulty line is refused with. */
  function FaultOf(line: JournalLine, c: Currency): LedgerError
    requires !LineIn(line, c)
  {
    match line.Validate()
    case Failure(e) => e
    case Success(m) => CurrencyError(CurrencyMismatch(c, m.currency))
  }

  /** A faulty line stops the loop with its own fault. */
  lemma {:induction false} SideTotalsFault(lines: seq<JournalLine>, c: Currency)
    requires FirstFault(lines, c) < |lines|
    ensures SideTotals(lines, c) == Failure(FaultOf(lines[FirstFault(lines, c)], c))
  {
    var n := |lines| - 1;
    if FirstFault(lines[..n], c) < n {
      SideTotalsFault(lines[..n], c);
    } else {
      SideTotalsSum(lines[..n], c);
    }
  }

  /** Without one, the totals differ by the sum of the signed amounts. */
  lemma {:induction false} SideTotalsSum(lines: seq<JournalLine>, c: Currency)
    requires FirstFault(lines, c) == |lines|
    ensures SideTotals(lines, c).Success?
    ensures var (debits, credits) := SideTotals(lines, c).value;
            debits.amount - credits.amount == CurrencySum(lines, c)
  {
    if lines != [] {
      SideTotalsSum(lines[..|lines| - 1], c);
      assert LineIn(lines[|lines| - 1], c);
    }
  }

  /** The accumulating loop fails exactly at the first faulty line, and with that line's error. */
  lemma {:induction false} SideTotalsMeaning(lines: seq<JournalLine>, c: Currency)
    ensures var k := FirstFault(lines, c);
            if k < |lines| then SideTotals(lines, c) == Failure(FaultOf(lines[k], c))
            else
              && SideTotals(lines, c).Success?
              && var (debits, credits) := SideTotals(lines, c).value;
                 debits.amount - credits.amount == CurrencySum(lines, c)
  {
    if FirstFault(lines, c) < |lines| {
      SideTotalsFault(lines, c);
    } else {
      SideTotalsSum(lines, c);
    }
  }

  /** A posting is accepted if and only if the entry is balanced in one currency. */
  lemma AcceptanceIsBalance(s: LedgerState, lines: seq<JournalLine>, id: EntryId)
    ensures Handle(s, PostJournalEntry(lines), id).Success? <==> BalancedEntry(lines)
    ensures CheckEntry(lines).Success? <==> BalancedEntry(lines)
  {
    if lines != [] && lines[0].Validate().Success? {
      var c := lines[0].Validate().value.currency;
      SideTotalsMeaning(lines, c);
      if BalancedEntry(lines) {
        var d :| BalancedIn(lines, d);
        assert LineIn(lines[0], d);
        assert BalancedIn(lines, c);
      }
      if CheckEntry(lines).Success? {
        assert BalancedIn(lines, c);
      }
    }
  }

  /** Which error refuses an unbalanced posting: the first fault, or the two unequal totals. */
  lemma RefusalNamesTheFirstFault(lines: seq<JournalLine>)
    requires !BalancedEntry(lines)
    ensures lines == [] ==> CheckEntry(lines) == Failure(EmptyEntry)
    ensures lines != [] && !OneSided(lines[0]) ==>
              CheckEntry(lines) == Failure(FaultOf(lines[0], Usd))
    ensures lines != [] && OneSided(lines[0]) ==>
              var c := lines[0].SignedAmount().value.currency;
              var k := FirstFault(lines, c);
              if k < |lines| then CheckEntry(lines) == Failure(FaultOf(lines[k], c))
              else
                && CheckEntry(lines).Failure?
                && CheckEntry(lines).error.Unbalanced?
                && CheckEntry(lines).error.debits - CheckEntry(lines).error.credits
                   == CurrencySum(lines, c) != 0.0
  {
    if lines != [] && OneSided(lines[0]) {
      var c := lines[0].SignedAmount().value.currency;
      SideTotalsMeaning(lines, c);
      if FirstFault(lines, c) == |lines| {
        assert !BalancedIn(lines, c);
      }
    }
  }

  lemma {:induction false} CurrencySumAppend(x: seq<JournalLine>, y: seq<JournalLine>, c: Currency)
    ensures CurrencySum(x + y, c) == CurrencySum(x, c) + CurrencySum(y, c)
  {
    if y == [] {
      assert x + y == x;
    } else {
      CurrencySumAppend(x, y[..|y| - 1], c);
      assert (x + y)[..|x + y| - 1] == x + y[..|y| - 1];
    }
  }

  /** An accepted entry sums to zero in every currency, its own and the ones it does not use. */
  lemma {:induction false} OtherCurrenciesAreEmpty(lines: seq<JournalLine>, c: Currency, d: Currency)
    requires c != d && forall i :: 0 <= i < |lines| ==> LineIn(lines[i], c)
    ensures CurrencySum(lines, d) == 0.0
  {
    if lines != [] {
      OtherCurrenciesAreEmpty(lines[..|lines| - 1], c, d);
    }
  }

  lemma BalancedInEveryCurrency(lines: seq<JournalLine>, d: Currency)
    requires BalancedEntry(lines)
    ensures CurrencySum(lines, d) == 0.0
  {
    var c :| BalancedIn(lines, c);
    if c != d {
      OtherCurrenciesAreEmpty(lines, c, d);
    }
  }

  lemma {:induction false} MirrorNegates(lines: seq<JournalLine>, c: Currency)
    ensures CurrencySum(Mirror(lines), c) == -CurrencySum(lines, c)
  {
    if lines != [] {
      MirrorNegates(lines[..|lines| - 1], c);
      assert Mirror(lines)[..|lines| - 1] == Mirror(lines[..|lines| - 1]);
    }
  }

  /** A reversal of an acceptable entry would itself have been accepted. */
  lemma MirrorOfBalancedIsBalanced(lines: seq<JournalLine>)
    requires BalancedEntry(lines)
    ensures BalancedEntry(Mirror(lines))
  {
    var c :| BalancedIn(lines, c);
    MirrorNegates(lines, c);
    forall i | 0 <= i < |lines| ensures LineIn(Mirror(lines)[i], c) {
      assert LineIn(lines[i], c);
    }
    assert BalancedIn(Mirror(lines), c);
  }
}
