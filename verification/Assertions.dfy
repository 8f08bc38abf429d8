/** The corpus's own checks on an entry and on a stream, and how they relate to the aggregate's. */
module Assertions {
  import opened Wrappers
  import opened Sums
  import opened CoreMoney
  import opened Ledger
  import opened EntryLaws

  datatype InvariantViolation =
    | NoLines
    | MalformedLine(account: AccountId)
    | SpansCurrencies(count: nat)
    | NonZeroSum(total: real)
    | NotIncreasing(previous: int, next: int)

  /** All signed amounts, or the first malformed line. */
  function SignedAmounts(lines: seq<JournalLine>): (r: Result<seq<Money>, InvariantViolation>)
    ensures r.Success? ==> |r.value| == |lines|
    ensures r.Failure? ==> r.error.MalformedLine?
  {
    if lines == [] then Success([])
    else
      var front :- SignedAmounts(lines[..|lines| - 1]);
      match lines[|lines| - 1].SignedAmount()
      case None => Failure(MalformedLine(lines[|lines| - 1].account))
      case Some(m) => Success(front + [m])
  }

  function CurrenciesOf(ms: seq<Money>): set<Currency> {
    set i | 0 <= i < |ms| :: ms[i].currency
  }

  function AmountSum(ms: seq<Money>): real {
    if ms == [] then 0.0 else AmountSum(ms[..|ms| - 1]) + ms[|ms| - 1].amount
  }

  function BalanceCheck(lines: seq<JournalLine>): Result<(), InvariantViolation> {
    if lines == [] then Failure(NoLines)
    else
      var ms :- SignedAmounts(lines);
      if |CurrenciesOf(ms)| > 1 then Failure(SpansCurrencies(|CurrenciesOf(ms)|))
      else if AmountSum(ms) != 0.0 then Failure(NonZeroSum(AmountSum(ms)))
      else Success(())
  }

  lemma {:induction false} MalformedIsFinal(lines: seq<JournalLine>, k: nat)
    requires k <= |lines| && SignedAmounts(lines[..k]).Failure?
    ensures SignedAmounts(lines) == SignedAmounts(lines[..k])
  {
    if k < |lines| {
      assert lines[..|lines| - 1][..k] == lines[..k];
      MalformedIsFinal(lines[..|lines| - 1], k);
    } else {
      assert lines[..k] == lines;
    }
  }

  /** First loop: every signed amount and every currency, or the first malformed line. */
  method CollectAmounts(lines: seq<JournalLine>)
    returns (r: Result<(seq<Money>, set<Currency>), InvariantViolation>)
    ensures r == match SignedAmounts(lines)
                 case Success(ms) => Success((ms, CurrenciesOf(ms)))
                 case Failure(error) => Failure(error)
  {
    var signed: seq<Money> := [];
    var currencies: set<Currency> := {};
    for i := 0 to |lines|
      invariant SignedAmounts(lines[..i]) == Success(signed)
      invariant currencies == CurrenciesOf(signed)
    {
      assert lines[..i + 1][..i] == lines[..i];
      var amount := lines[i].SignedAmount();
      if amount == None {
        MalformedIsFinal(lines, i + 1);
        return Failure(MalformedLine(lines[i].account));
      }
      currencies := currencies + {amount.value.currency};
      CurrenciesAppend(signed, amount.value);
      signed := signed + [amount.value];
    }
    assert lines[..|lines|] == lines;
    r := Success((signed, currencies));
  }

  method CheckedSum(ms: seq<Money>) returns (total: real)
    ensures total == AmountSum(ms)
  {
    total := 0.0;
    for i := 0 to |ms|
      invariant total == AmountSum(ms[..i])
    {
      assert ms[..i + 1][..i] == ms[..i];
      total := total + ms[i].amount;
    }
    assert ms[..|ms|] == ms;
  }

  /** Signed amounts and a set of currencies first, one signed total afterwards. */
  method AssertBalanced(lines: seq<JournalLine>) returns (r: Result<(), InvariantViolation>)
    ensures r == BalanceCheck(lines)
    ensures r.Success? <==> BalancedEntry(lines)
  {
    BalanceCheckMeaning(lines);
    if lines == [] {
      return Failure(NoLines);
    }
    var collected := CollectAmounts(lines);
    if collected.Failure? {
      return Failure(collected.error);
    }
    var (signed, currencies) := collected.value;
    if |currencies| > 1 {
      return Failure(SpansCurrencies(|currencies|));
    }
    var total := CheckedSum(signed);
    r := if total == 0.0 then Success(()) else Failure(NonZeroSum(total));
  }

  lemma CurrenciesAppend(ms: seq<Money>, m: Money)
    ensures CurrenciesOf(ms + [m]) == CurrenciesOf(ms) + {m.currency}
  {
    assert forall i :: 0 <= i < |ms| ==> (ms + [m])[i] == ms[i];
    assert (ms + [m])[|ms|] == m;
    assert forall i :: 0 <= i < |ms| ==> ms[i].currency in CurrenciesOf(ms + [m]) by {
      forall i | 0 <= i < |ms| ensures ms[i].currency in CurrenciesOf(ms + [m]) {
        assert (ms + [m])[i].currency in CurrenciesOf(ms + [m]);
      }
    }
    assert (ms + [m])[|ms|].currency in CurrenciesOf(ms + [m]);
  }

  lemma {:induction false} SignedAmountsAre(lines: seq<JournalLine>)
    ensures SignedAmounts(lines).Success? <==> forall i :: 0 <= i < |lines| ==> OneSided(lines[i])
    ensures SignedAmounts(lines).Success? ==>
              forall i :: 0 <= i < |lines| ==> lines[i].SignedAmount() == Some(SignedAmounts(lines).value[i])
  {
    if lines != [] {
      SignedAmountsAre(lines[..|lines| - 1]);
    }
  }

  lemma {:induction false} SignedAmountsSum(lines: seq<JournalLine>, c: Currency)
    requires forall i :: 0 <= i < |lines| ==> LineIn(lines[i], c)
    ensures SignedAmounts(lines).Success? && AmountSum(SignedAmounts(lines).value) == CurrencySum(lines, c)
  {
    if lines != [] {
      SignedAmountsSum(lines[..|lines| - 1], c);
      assert LineIn(lines[|lines| - 1], c);
    }
  }

  /** With every line one-sided, one currency and one total are what the aggregate asks for. */
  lemma {:induction false} SignedAmountsMeaning(lines: seq<JournalLine>, c: Currency)
    ensures SignedAmounts(lines).Success? <==> forall i :: 0 <= i < |lines| ==> OneSided(lines[i])
    ensures SignedAmounts(lines).Success? ==>
              forall i :: 0 <= i < |lines| ==> lines[i].SignedAmount() == Some(SignedAmounts(lines).value[i])
    ensures (forall i :: 0 <= i < |lines| ==> LineIn(lines[i], c)) ==>
              SignedAmounts(lines).Success? && AmountSum(SignedAmounts(lines).value) == CurrencySum(lines, c)
  {
    SignedAmountsAre(lines);
    if forall i :: 0 <= i < |lines| ==> LineIn(lines[i], c) {
      SignedAmountsSum(lines, c);
    }
  }

  lemma AtMostOneCurrency(ms: seq<Money>)
    requires ms != []
    ensures |CurrenciesOf(ms)| <= 1 <==> forall i :: 0 <= i < |ms| ==> ms[i].currency == ms[0].currency
  {
    var all, c := CurrenciesOf(ms), ms[0].currency;
    assert c in all;
    if forall i :: 0 <= i < |ms| ==> ms[i].currency == c {
      assert all == {c};
    } else {
      var i :| 0 <= i < |ms| && ms[i].currency != c;
      assert {c, ms[i].currency} <= all;
      SubsetSize({c, ms[i].currency}, all);
    }
  }

  lemma BalanceCheckMeaning(lines: seq<JournalLine>)
    ensures BalanceCheck(lines).Success? <==> BalancedEntry(lines)
  {
    if BalancedEntry(lines) {
      var d :| BalancedIn(lines, d);
      SignedAmountsMeaning(lines, d);
      assert forall i :: 0 <= i < |lines| ==> LineIn(lines[i], d);
    }
    if lines != [] && SignedAmounts(lines).Success? {
      var ms := SignedAmounts(lines).value;
      var c := ms[0].currency;
      SignedAmountsMeaning(lines, c);
      AtMostOneCurrency(ms);
      if |CurrenciesOf(ms)| <= 1 {
        assert forall i :: 0 <= i < |lines| ==> LineIn(lines[i], c);
        assert BalancedIn(lines, c) <==> AmountSum(ms) == 0.0;
      }
    }
  }

  function CurrenciesIn(lines: seq<JournalLine>): set<Currency> {
    set i | 0 <= i < |lines| && lines[i].SignedAmount().Some? :: lines[i].SignedAmount().value.currency
  }

  /** What the check reports first: no lines, or the account of the first line that is not one-sided. */
  lemma {:induction false} CheckNamesTheFault(lines: seq<JournalLine>)
    ensures lines == [] ==> BalanceCheck(lines) == Failure(NoLines)
    ensures forall i :: && 0 <= i < |lines| && !OneSided(lines[i])
                        && (forall j :: 0 <= j < i ==> OneSided(lines[j])) ==>
                          BalanceCheck(lines) == Failure(MalformedLine(lines[i].account))
  {
    forall i | && 0 <= i < |lines| && !OneSided(lines[i]) && forall j :: 0 <= j < i ==> OneSided(lines[j])
      ensures SignedAmounts(lines) == Failure(MalformedLine(lines[i].account))
    {
      FirstMalformed(lines, i);
    }
  }

  lemma {:induction false} FirstMalformed(lines: seq<JournalLine>, i: nat)
    requires i < |lines| && !OneSided(lines[i]) && forall j :: 0 <= j < i ==> OneSided(lines[j])
    ensures SignedAmounts(lines) == Failure(MalformedLine(lines[i].account))
  {
    SignedAmountsMeaning(lines[..i], Usd);
    assert lines[..i + 1][..i] == lines[..i];
    MalformedIsFinal(lines, i + 1);
  }

  /** Then how many currencies there are, if more than one; then what the signed amounts come to. */
  lemma {:induction false} WellFormedReport(lines: seq<JournalLine>)
    requires lines != [] && forall i :: 0 <= i < |lines| ==> OneSided(lines[i])
    ensures OneSided(lines[0])
    ensures var all := CurrenciesIn(lines);
            && (|all| > 1 ==> BalanceCheck(lines) == Failure(SpansCurrencies(|all|)))
            && (|all| == 1 && !BalancedEntry(lines) ==>
                  BalanceCheck(lines)
                  == Failure(NonZeroSum(CurrencySum(lines, lines[0].SignedAmount().value.currency))))
  {
    var all := CurrenciesIn(lines);
    var c := lines[0].SignedAmount().value.currency;
    SignedAmountsMeaning(lines, c);
    var ms := SignedAmounts(lines).value;
    assert CurrenciesOf(ms) == all by {
      assert forall i :: 0 <= i < |ms| ==> ms[i] == lines[i].SignedAmount().value;
    }
    if |all| == 1 {
      AtMostOneCurrency(ms);
      assert forall i :: 0 <= i < |lines| ==> LineIn(lines[i], c);
      BalanceCheckMeaning(lines);
    }
  }

  /**
   Two loops with different accumulators agree: the aggregate accepts a posting if and only if the
   corpus check passes, and they refuse an imbalance by the same amount.
   */
  lemma AcceptanceAgreesWithAssertBalanced(s: LedgerState, lines: seq<JournalLine>, id: EntryId)
    ensures Handle(s, PostJournalEntry(lines), id).Success? <==> BalanceCheck(lines).Success?
    ensures BalanceCheck(lines).Failure? && BalanceCheck(lines).error.NonZeroSum? ==>
              && CheckEntry(lines).Failure? && CheckEntry(lines).error.Unbalanced?
              && CheckEntry(lines).error.debits - CheckEntry(lines).error.credits == BalanceCheck(lines).error.total
  {
    AcceptanceIsBalance(s, lines, id);
    BalanceCheckMeaning(lines);
    var r := BalanceCheck(lines);
    if r.Failure? && r.error.NonZeroSum? {
      var ms := SignedAmounts(lines).value;
      var c := ms[0].currency;
      SignedAmountsMeaning(lines, c);
      AtMostOneCurrency(ms);
      assert forall i :: 0 <= i < |lines| ==> LineIn(lines[i], c);
      SideTotalsMeaning(lines, c);
    }
  }

  // ---------------------------------------------------------------------------
  // Sequence numbers
  // ---------------------------------------------------------------------------

  predicate Increasing(sequences: seq<int>) {
    forall i, j :: 0 <= i < j < |sequences| ==> sequences[i] < sequences[j]
  }

  /** Only neighbours are compared, but what is established is the order of every pair. */
  method AssertMonotonicSequence(sequences: seq<int>) returns (r: Result<(), InvariantViolation>)
    ensures r.Success? <==> Increasing(sequences)
    ensures r.Failure? ==>
              exists k :: && 0 < k < |sequences| && sequences[k] <= sequences[k - 1]
                          && Increasing(sequences[..k]) && r.error == NotIncreasing(sequences[k - 1], sequences[k])
  {
    var k := 1;
    while k < |sequences|
      invariant 1 <= k && (k <= |sequences| || sequences == [])
      invariant k <= |sequences| ==> Increasing(sequences[..k])
    {
      if sequences[k] <= sequences[k - 1] {
        var previous := k - 1;
        assert !(sequences[previous] < sequences[k]);
        return Failure(NotIncreasing(sequences[k - 1], sequences[k]));
      }
      assert forall i :: 0 <= i < k ==> sequences[..k + 1][i] == sequences[..k][i];
      k := k + 1;
    }
    assert k == |sequences| ==> sequences[..k] == sequences;
    r := Success(());
  }
}
