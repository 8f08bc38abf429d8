/**
 What the balance projection holds, for any list of lines whatever: per account and per currency,
 in exact terms, including the lines that posting drops because the account was first seen in
 another currency.
 */
module BalanceLaws {
  import opened Wrappers
  import opened CoreMoney
  import opened Sums
  import opened Ledger
  import opened EntryLaws

  /** The balances after posting these lines, in order, to an empty ledger. */
  function BalancesOf(lines: seq<JournalLine>): Balances {
    PostLines(map[], lines)
  }

  lemma {:induction false} PostLinesAppend(b: Balances, x: seq<JournalLine>, y: seq<JournalLine>)
    ensures PostLines(b, x + y) == PostLines(PostLines(b, x), y)
  {
    if y == [] {
      assert x + y == x;
    } else {
      PostLinesAppend(b, x, y[..|y| - 1]);
      assert (x + y)[..|x + y| - 1] == x + y[..|y| - 1];
    }
  }

  /** An account, once seen, stays, and stays in the currency it was first seen in. */
  lemma {:induction false} AccountsAreForever(b: Balances, lines: seq<JournalLine>, a: AccountId)
    requires a in b
    ensures a in PostLines(b, lines) && PostLines(b, lines)[a].currency == b[a].currency
  {
    if lines != [] {
      AccountsAreForever(b, lines[..|lines| - 1], a);
    }
  }

  // ---------------------------------------------------------------------------
  // Account by account
  // ---------------------------------------------------------------------------

  predicate Touches(line: JournalLine, a: AccountId) {
    line.account == a && line.SignedAmount().Some?
  }

  ghost predicate Mentions(lines: seq<JournalLine>, a: AccountId) {
    exists i :: 0 <= i < |lines| && Touches(lines[i], a)
  }

  /** The signed amounts of the lines on `a` that are in `c`, summed. */
  function AccountSum(lines: seq<JournalLine>, a: AccountId, c: Currency): real {
    if lines == [] then 0.0
    else
      var line := lines[|lines| - 1];
      AccountSum(lines[..|lines| - 1], a, c) + (if line.account == a then LineAmount(line, c) else 0.0)
  }

  /** What a line writes on `a`. */
  function LineTotal(line: JournalLine, a: AccountId): real {
    if Touches(line, a) then line.SignedAmount().value.amount else 0.0
  }

  /** The signed amounts of all lines on `a`, whatever their currency. */
  function AccountTotal(lines: seq<JournalLine>, a: AccountId): real {
    if lines == [] then 0.0
    else
      AccountTotal(lines[..|lines| - 1], a) + LineTotal(lines[|lines| - 1], a)
  }

  /** Absent reads as zero. */
  function AmountOr0(b: Balances, a: AccountId): real {
    if a in b then b[a].amount else 0.0
  }

  /**
   The projection in one sentence, for every list of lines: an account is present exactly when
   some line touches it, and holds the sum of the lines in its own currency.
   */
  lemma {:induction false} BalanceIsAccountSum(lines: seq<JournalLine>, a: AccountId)
    ensures a in BalancesOf(lines) <==> Mentions(lines, a)
    ensures a in BalancesOf(lines) ==>
              BalancesOf(lines)[a].amount == AccountSum(lines, a, BalancesOf(lines)[a].currency)
  {
    if lines != [] {
      var front, line := lines[..|lines| - 1], lines[|lines| - 1];
      BalanceIsAccountSum(front, a);
      assert Mentions(lines, a) <==> Mentions(front, a) || Touches(line, a) by {
        assert lines[|lines| - 1] == line;
        if Mentions(front, a) {
          var i :| 0 <= i < |front| && Touches(front[i], a);
          assert Touches(lines[i], a);
        }
      }
      if a !in BalancesOf(front) && Touches(line, a) {
        UntouchedSumsToZero(front, a, line.SignedAmount().value.currency);
      }
    }
  }

  lemma {:induction false} UntouchedSumsToZero(lines: seq<JournalLine>, a: AccountId, c: Currency)
    requires !Mentions(lines, a)
    ensures AccountSum(lines, a, c) == 0.0
  {
    if lines != [] {
      var front := lines[..|lines| - 1];
      forall i | 0 <= i < |front| ensures !Touches(front[i], a) {
        assert front[i] == lines[i];
      }
      assert !Touches(lines[|lines| - 1], a);
      UntouchedSumsToZero(front, a, c);
    }
  }

  // ---------------------------------------------------------------------------
  // The lines that are dropped
  // ---------------------------------------------------------------------------

  /** Posting the line to `b` changes nothing: its account is held in another currency. */
  predicate Dropped(b: Balances, line: JournalLine) {
    && line.SignedAmount().Some?
    && line.account in b
    && b[line.account].currency != line.SignedAmount().value.currency
  }

  /** The lines that posting silently dropped, in order. */
  function DroppedLines(b: Balances, lines: seq<JournalLine>): seq<JournalLine> {
    if lines == [] then []
    else
      var front, line := lines[..|lines| - 1], lines[|lines| - 1];
      if Dropped(PostLines(b, front), line) then DroppedLines(b, front) + [line]
      else DroppedLines(b, front)
  }

  /** No account is ever written in two currencies. */
  ghost predicate OneCurrencyPerAccount(lines: seq<JournalLine>) {
    forall i, j ::
      0 <= i < |lines| && 0 <= j < |lines| && lines[i].account == lines[j].account
      && lines[i].SignedAmount().Some? && lines[j].SignedAmount().Some?
      ==> lines[i].SignedAmount().value.currency == lines[j].SignedAmount().value.currency
  }

  /** An account's currency is that of some line that touched it. */
  lemma {:induction false} CurrencyComesFromALine(lines: seq<JournalLine>, a: AccountId)
    requires a in BalancesOf(lines)
    ensures exists i :: 0 <= i < |lines| && Touches(lines[i], a)
                        && lines[i].SignedAmount().value.currency == BalancesOf(lines)[a].currency
  {
    var front, line := lines[..|lines| - 1], lines[|lines| - 1];
    if a in BalancesOf(front) {
      CurrencyComesFromALine(front, a);
      var i :| 0 <= i < |front| && Touches(front[i], a)
               && front[i].SignedAmount().value.currency == BalancesOf(front)[a].currency;
      assert lines[i] == front[i];
    } else {
      assert Touches(lines[|lines| - 1], a);
    }
  }

  /** With one currency per account, that currency is the one of every line on the account. */
  lemma CurrencyIsThatOfEveryLine(lines: seq<JournalLine>, k: nat)
    requires OneCurrencyPerAccount(lines)
    requires k < |lines| && lines[k].SignedAmount().Some?
    ensures lines[k].account in BalancesOf(lines)
    ensures BalancesOf(lines)[lines[k].account].currency == lines[k].SignedAmount().value.currency
  {
    var a := lines[k].account;
    assert Touches(lines[k], a);
    BalanceIsAccountSum(lines, a);
    CurrencyComesFromALine(lines, a);
  }

  /** With one currency per account, the next line is not dropped. */
  lemma {:induction false} OneCurrencyKeepsTheLine(lines: seq<JournalLine>)
    requires lines != [] && OneCurrencyPerAccount(lines)
    ensures OneCurrencyPerAccount(lines[..|lines| - 1])
    ensures !Dropped(BalancesOf(lines[..|lines| - 1]), lines[|lines| - 1])
  {
    var n := |lines| - 1;
    var front, line := lines[..n], lines[n];
    assert forall i :: 0 <= i < n ==> front[i] == lines[i];
    if line.SignedAmount().Some? && line.account in BalancesOf(front) {
      CurrencyComesFromALine(front, line.account);
      var i :| 0 <= i < |front| && Touches(front[i], line.account)
               && front[i].SignedAmount().value.currency == BalancesOf(front)[line.account].currency;
      assert lines[i] == front[i];
    }
  }

  /** If nothing was dropped before it, nor the line itself, it is in its account's one currency. */
  lemma {:induction false} KeptLineIsInOneCurrency(lines: seq<JournalLine>)
    requires lines != [] && OneCurrencyPerAccount(lines[..|lines| - 1])
    requires DroppedLines(map[], lines[..|lines| - 1]) == []
    requires !Dropped(BalancesOf(lines[..|lines| - 1]), lines[|lines| - 1])
    ensures OneCurrencyPerAccount(lines)
  {
    var n := |lines| - 1;
    var front, line := lines[..n], lines[n];
    forall k | 0 <= k < n && lines[k].account == line.account
               && lines[k].SignedAmount().Some? && line.SignedAmount().Some?
      ensures lines[k].SignedAmount().value.currency == line.SignedAmount().value.currency
    {
      assert front[k] == lines[k];
      CurrencyIsThatOfEveryLine(front, k);
    }
    assert forall i :: 0 <= i < n ==> front[i] == lines[i];
  }

  /** Nothing is dropped exactly when each account is written in one currency only. */
  lemma {:induction false} NothingDroppedIffOneCurrency(lines: seq<JournalLine>)
    ensures DroppedLines(map[], lines) == [] <==> OneCurrencyPerAccount(lines)
  {
    if lines != [] {
      NothingDroppedIffOneCurrency(lines[..|lines| - 1]);
      if OneCurrencyPerAccount(lines) {
        OneCurrencyKeepsTheLine(lines);
      } else if DroppedLines(map[], lines) == [] {
        KeptLineIsInOneCurrency(lines);
      }
    }
  }

  lemma {:induction false} AccountTotalOne(lines: seq<JournalLine>, line: JournalLine, a: AccountId)
    ensures AccountTotal(lines + [line], a) == AccountTotal(lines, a) + LineTotal(line, a)
  {
    assert (lines + [line])[..|lines|] == lines;
  }

  /** A line moves its account by what it writes, unless it is dropped. */
  lemma {:induction false} PostLineMovesAccount(b: Balances, line: JournalLine, a: AccountId)
    ensures AmountOr0(PostLine(b, line), a)
            == AmountOr0(b, a) + (if Dropped(b, line) then 0.0 else LineTotal(line, a))
  {
  }

  /** Account by account, the balance and what was dropped add up to what was written. */
  lemma {:induction false} BalancePlusDropped(lines: seq<JournalLine>, a: AccountId)
    ensures AmountOr0(BalancesOf(lines), a) + AccountTotal(DroppedLines(map[], lines), a)
            == AccountTotal(lines, a)
  {
    if lines != [] {
      var front, line := lines[..|lines| - 1], lines[|lines| - 1];
      BalancePlusDropped(front, a);
      PostLineMovesAccount(BalancesOf(front), line, a);
      AccountTotalOne(DroppedLines(map[], front), line, a);
    }
  }

  // ---------------------------------------------------------------------------
  // Currency by currency: the trial balance
  // ---------------------------------------------------------------------------

  /** The amounts held in `c`, by account. */
  function HeldIn(b: Balances, c: Currency): map<AccountId, real> {
    map a | a in b && b[a].currency == c :: b[a].amount
  }

  ghost function TrialBalance(b: Balances, c: Currency): real {
    MapSum(HeldIn(b, c))
  }

  lemma HeldInAfter(b: Balances, a: AccountId, m: Money, c: Currency)
    requires a in b ==> b[a].currency == m.currency
    ensures HeldIn(b[a := m], c) == if m.currency == c then HeldIn(b, c)[a := m.amount] else HeldIn(b, c)
  {
  }

  /** One line moves its own currency's trial balance by its amount, unless it is dropped. */
  lemma PostLineMovesTrialBalance(b: Balances, line: JournalLine, c: Currency)
    ensures TrialBalance(PostLine(b, line), c)
            == TrialBalance(b, c) + (if Dropped(b, line) then 0.0 else LineAmount(line, c))
  {
    if line.SignedAmount().Some? && !Dropped(b, line) {
      var a := line.account;
      var m := PostLine(b, line)[a];
      HeldInAfter(b, a, m, c);
      if m.currency == c {
        MapSumUpdate(HeldIn(b, c), a, m.amount);
      }
    } else {
      assert PostLine(b, line) == b;
    }
  }

  /**
   Exact conservation, for any starting balances and any lines: what the lines sum to is what the
   trial balance moves by, plus what was dropped.
   */
  lemma {:induction false} Conservation(b: Balances, lines: seq<JournalLine>, c: Currency)
    ensures TrialBalance(PostLines(b, lines), c) + CurrencySum(DroppedLines(b, lines), c)
            == TrialBalance(b, c) + CurrencySum(lines, c)
  {
    if lines != [] {
      var front, line := lines[..|lines| - 1], lines[|lines| - 1];
      Conservation(b, front, c);
      PostLineMovesTrialBalance(PostLines(b, front), line, c);
      var dropped := DroppedLines(b, front) + [line];
      assert dropped[..|dropped| - 1] == DroppedLines(b, front);
    }
  }

  // ---------------------------------------------------------------------------
  // Sums under concatenation and mirroring
  // ---------------------------------------------------------------------------

  lemma {:induction false} AccountSumAppend(x: seq<JournalLine>, y: seq<JournalLine>, a: AccountId, c: Currency)
    ensures AccountSum(x + y, a, c) == AccountSum(x, a, c) + AccountSum(y, a, c)
  {
    if y == [] {
      assert x + y == x;
    } else {
      AccountSumAppend(x, y[..|y| - 1], a, c);
      assert (x + y)[..|x + y| - 1] == x + y[..|y| - 1];
    }
  }

  lemma {:induction false} MirrorNegatesAccountSum(lines: seq<JournalLine>, a: AccountId, c: Currency)
    ensures AccountSum(Mirror(lines), a, c) == -AccountSum(lines, a, c)
  {
    if lines != [] {
      MirrorNegatesAccountSum(lines[..|lines| - 1], a, c);
      assert Mirror(lines)[..|lines| - 1] == Mirror(lines[..|lines| - 1]);
    }
  }

  lemma {:induction false} AccountTotalAppend(x: seq<JournalLine>, y: seq<JournalLine>, a: AccountId)
    ensures AccountTotal(x + y, a) == AccountTotal(x, a) + AccountTotal(y, a)
  {
    if y == [] {
      assert x + y == x;
    } else {
      AccountTotalAppend(x, y[..|y| - 1], a);
      assert (x + y)[..|x + y| - 1] == x + y[..|y| - 1];
    }
  }
}
