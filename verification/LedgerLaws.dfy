/**
 What holds of every log the command handler can produce: conservation with the exact amount
 that posting drops, and the business rules that replay relies on.
 */
module LedgerLaws {
  import opened Wrappers
  import opened CoreMoney
  import opened Ledger
  import opened EntryLaws
  import opened BalanceLaws
  import Sums

  // ---------------------------------------------------------------------------
  // What an event is allowed to be
  // ---------------------------------------------------------------------------

  /** The event's own preconditions, read off the state before it. */
  ghost predicate Allowed(s: LedgerState, e: LedgerEvent) {
    match e
    case JournalEntryPosted(id, lines) => id !in s.entries && BalancedEntry(lines)
    case EntryReversed(originalId, reversalId, _) =>
      originalId in s.entries && originalId !in s.reversed && reversalId !in s.entries
    case CapitalizationStatusChanged(runId, from, to, _) => from == s.StatusOf(runId) && from != to
  }

  /** An event came out of some accepted command exactly when it is allowed. */
  lemma ProducedIsAllowed(s: LedgerState, e: LedgerEvent, unused: EntryId)
    requires unused !in s.entries
    ensures Produced(s, e) <==> Allowed(s, e)
  {
    match e
    case JournalEntryPosted(id, lines) =>
      AcceptanceIsBalance(s, lines, id);
      if Allowed(s, e) {
        assert Handle(s, PostJournalEntry(lines), id) == Success([e]);
      }
    case EntryReversed(originalId, reversalId, reason) =>
      if Allowed(s, e) {
        assert Handle(s, ReverseEntry(originalId, reason), reversalId) == Success([e]);
      }
    case CapitalizationStatusChanged(runId, from, to, policyRef) =>
      if Allowed(s, e) {
        assert Handle(s, ChangeCapitalizationStatus(runId, to, policyRef), unused) == Success([e]);
      }
  }

  lemma ProducedIsAllowedOneWay(s: LedgerState, e: LedgerEvent)
    requires Produced(s, e)
    ensures Allowed(s, e)
  {
    var command, id :| id !in s.entries && Handle(s, command, id) == Success([e]);
    if e.JournalEntryPosted? {
      AcceptanceIsBalance(s, e.lines, e.id);
    }
    assert [e][0] == e;
  }

  /** Every prefix of a legal log is legal. */
  lemma {:induction false} LegalPrefix(log: seq<LedgerEvent>, n: nat)
    requires Legal(log) && n <= |log|
    ensures Legal(log[..n])
  {
    if n < |log| {
      LegalPrefix(log[..|log| - 1], n);
      assert log[..|log| - 1][..n] == log[..n];
    } else {
      assert log[..n] == log;
    }
  }

  lemma {:induction false} LegalAt(log: seq<LedgerEvent>, k: nat)
    requires Legal(log) && k < |log|
    ensures Legal(log[..k]) && Allowed(Replay(log[..k]), log[k])
    ensures Replay(log[..k + 1]) == Apply(Replay(log[..k]), log[k])
  {
    var front := log[..k + 1];
    LegalPrefix(log, k + 1);
    assert front[..k] == log[..k] && front[k] == log[k];
    ProducedIsAllowedOneWay(Replay(front[..k]), front[k]);
  }

  // ---------------------------------------------------------------------------
  // Balances are a function of the posted lines
  // ---------------------------------------------------------------------------

  /** The lines an event posts. */
  function EventLines(s: LedgerState, e: LedgerEvent): seq<JournalLine> {
    match e
    case JournalEntryPosted(_, lines) => lines
    case EntryReversed(originalId, _, _) =>
      if originalId in s.entries then Mirror(s.entries[originalId]) else []
    case CapitalizationStatusChanged(_, _, _, _) => []
  }

  /** Every line a log posts, in order. */
  function AllLines(log: seq<LedgerEvent>): seq<JournalLine> {
    if log == [] then []
    else AllLines(log[..|log| - 1]) + EventLines(Replay(log[..|log| - 1]), log[|log| - 1])
  }

  /** One more event. */
  lemma LegalAppend(log: seq<LedgerEvent>, e: LedgerEvent)
    ensures Legal(log + [e]) <==> Legal(log) && Produced(Replay(log), e)
    ensures Replay(log + [e]) == Apply(Replay(log), e)
    ensures AllLines(log + [e]) == AllLines(log) + EventLines(Replay(log), e)
  {
    assert (log + [e])[..|log|] == log;
  }

  /** Events are the only way a balance changes: for any log, legal or not. */
  lemma {:induction false} ReplayBalances(log: seq<LedgerEvent>)
    ensures Replay(log).balances == BalancesOf(AllLines(log))
  {
    if log != [] {
      var front, e := log[..|log| - 1], log[|log| - 1];
      ReplayBalances(front);
      PostLinesAppend(map[], AllLines(front), EventLines(Replay(front), e));
    }
  }

  /** In a legal log every recorded entry balances, and only recorded entries are reversed. */
  lemma {:induction false} RecordedEntriesBalance(log: seq<LedgerEvent>)
    requires Legal(log)
    ensures forall id :: id in Replay(log).entries ==> BalancedEntry(Replay(log).entries[id])
    ensures Replay(log).reversed <= Replay(log).entries.Keys
  {
    if log != [] {
      var front, e := log[..|log| - 1], log[|log| - 1];
      RecordedEntriesBalance(front);
      ProducedIsAllowedOneWay(Replay(front), e);
      if e.EntryReversed? {
        MirrorOfBalancedIsBalanced(Replay(front).entries[e.originalId]);
      }
    }
  }

  lemma {:induction false} AllLinesSumToZero(log: seq<LedgerEvent>, c: Currency)
    requires Legal(log)
    ensures CurrencySum(AllLines(log), c) == 0.0
  {
    if log != [] {
      var front, e := log[..|log| - 1], log[|log| - 1];
      AllLinesSumToZero(front, c);
      LegalAt(log, |log| - 1);
      RecordedEntriesBalance(log);
      var lines := EventLines(Replay(front), e);
      CurrencySumAppend(AllLines(front), lines, c);
      match e {
        case JournalEntryPosted(id, _) => BalancedInEveryCurrency(lines, c);
        case EntryReversed(_, id, _) =>
          assert Replay(log).entries[id] == lines;
          BalancedInEveryCurrency(lines, c);
        case CapitalizationStatusChanged(_, _, _, _) =>
      }
    }
  }

  // ---------------------------------------------------------------------------
  // The trial balance
  // ---------------------------------------------------------------------------

  /** For every run and currency: the trial balance plus what was dropped is exactly zero. */
  lemma {:induction false} ExactConservation(log: seq<LedgerEvent>, c: Currency)
    requires Legal(log)
    ensures TrialBalance(Replay(log).balances, c)
            + CurrencySum(DroppedLines(map[], AllLines(log)), c) == 0.0
  {
    ReplayBalances(log);
    AllLinesSumToZero(log, c);
    Conservation(map[], AllLines(log), c);
    assert HeldIn(map[], c) == map[];
  }

  /** The documented law, where it holds: one currency per account makes every trial balance zero. */
  lemma {:induction false} TrialBalanceIsZero(log: seq<LedgerEvent>, c: Currency)
    requires Legal(log) && OneCurrencyPerAccount(AllLines(log))
    ensures TrialBalance(Replay(log).balances, c) == 0.0
  {
    ExactConservation(log, c);
    NothingDroppedIffOneCurrency(AllLines(log));
  }

  /** The lines of an entry that the ledger, as it stands, holds in another currency. */
  function Mismatched(b: Balances, lines: seq<JournalLine>): seq<JournalLine> {
    if lines == [] then []
    else
      var rest := Mismatched(b, lines[..|lines| - 1]);
      if Dropped(b, lines[|lines| - 1]) then rest + [lines[|lines| - 1]] else rest
  }

  lemma {:induction false} NewAccountsTakeTheEntryCurrency(
      b: Balances, lines: seq<JournalLine>, c: Currency, a: AccountId)
    requires forall i :: 0 <= i < |lines| ==> LineIn(lines[i], c)
    requires a !in b && a in PostLines(b, lines)
    ensures PostLines(b, lines)[a].currency == c
  {
    if a in PostLines(b, lines[..|lines| - 1]) {
      NewAccountsTakeTheEntryCurrency(b, lines[..|lines| - 1], c, a);
    }
  }

  /** What an entry will lose can be read off the ledger before it is posted. */
  lemma {:induction false} DroppedIsForeseeable(b: Balances, lines: seq<JournalLine>, c: Currency)
    requires forall i :: 0 <= i < |lines| ==> LineIn(lines[i], c)
    ensures DroppedLines(b, lines) == Mismatched(b, lines)
  {
    if lines != [] {
      var front, a := lines[..|lines| - 1], lines[|lines| - 1].account;
      DroppedIsForeseeable(b, front, c);
      if a in b {
        AccountsAreForever(b, front, a);
      } else if a in PostLines(b, front) {
        NewAccountsTakeTheEntryCurrency(b, front, c, a);
      }
      assert LineIn(lines[|lines| - 1], c);
    }
  }

  /**
   Exactly when a posting or a reversal keeps the trial balance: if and only if the lines whose
   account is already held in another currency cancel out. A caller can check this beforehand.
   */
  lemma TrialBalanceKeptIff(log: seq<LedgerEvent>, e: LedgerEvent, c: Currency)
    requires Legal(log) && Allowed(Replay(log), e)
    ensures var s := Replay(log);
            TrialBalance(Apply(s, e).balances, c) == TrialBalance(s.balances, c)
            <==> CurrencySum(Mismatched(s.balances, EventLines(s, e)), c) == 0.0
  {
    var s := Replay(log);
    var lines := EventLines(s, e);
    RecordedEntriesBalance(log);
    if e.EntryReversed? {
      MirrorOfBalancedIsBalanced(s.entries[e.originalId]);
    }
    if lines != [] {
      var d :| BalancedIn(lines, d);
      DroppedIsForeseeable(s.balances, lines, d);
      BalancedInEveryCurrency(lines, c);
      Conservation(s.balances, lines, c);
    }
  }

  function Line5(account: AccountId, isDebit: bool, c: Currency): JournalLine {
    if isDebit then JournalLine(account, Some(Money(5.0, c)), None, [])
    else JournalLine(account, None, Some(Money(5.0, c)), [])
  }

  /** Moves five units of `c` from one account to another. */
  function Transfer5(id: EntryId, to: AccountId, from: AccountId, c: Currency): LedgerEvent {
    JournalEntryPosted(id, [Line5(to, true, c), Line5(from, false, c)])
  }

  /** A transfer in dollars, then one in euros touching the first transfer's account. */
  function MixedLog(): seq<LedgerEvent> {
    [Transfer5(0, 1, 2, Usd), Transfer5(1, 1, 3, Eur)]
  }

  lemma MixedLogIsLegal()
    ensures Legal(MixedLog())
    ensures Replay(MixedLog()) == Apply(Apply(EMPTY_STATE, MixedLog()[0]), MixedLog()[1])
  {
    var log := MixedLog();
    TwoLinesBalance(1, 2, Usd);
    TwoLinesBalance(1, 3, Eur);
    assert log[..1] == [log[0]] && log[..1][..0] == [];
    assert Replay([log[0]]) == Apply(EMPTY_STATE, log[0]);
    ProducedIsAllowed(EMPTY_STATE, log[0], 0);
    ProducedIsAllowed(Replay([log[0]]), log[1], 1);
    assert Legal([log[0]]);
  }

  /** What the two transfers leave: the euro line on the dollar account is gone. */
  lemma {:induction false} MixedBalances()
    ensures PostLines(PostLines(map[], MixedLog()[0].lines), MixedLog()[1].lines)
            == map[1 := Money(5.0, Usd), 2 := Money(-5.0, Usd), 3 := Money(-5.0, Eur)]
  {
    var first, second := MixedLog()[0].lines, MixedLog()[1].lines;
    PostTwo(map[], first);
    var b := PostLines(map[], first);
    assert b == map[1 := Money(5.0, Usd), 2 := Money(-5.0, Usd)];
    PostTwo(b, second);
    assert PostLine(b, second[0]) == b;
  }

  /**
   The documented law is not unconditional: two accepted entries, the second touching in euros an
   account first seen in dollars, leave the euro trial balance at -5.
   */
  lemma {:induction false} TrialBalanceCanBeNonZero()
    ensures exists log :: Legal(log) && TrialBalance(Replay(log).balances, Eur) == -5.0
  {
    MixedLogIsLegal();
    MixedBalances();
    MixedTrialBalance();
  }

  lemma {:induction false} MixedTrialBalance()
    ensures TrialBalance(map[1 := Money(5.0, Usd), 2 := Money(-5.0, Usd), 3 := Money(-5.0, Eur)], Eur) == -5.0
  {
    var b := map[1 := Money(5.0, Usd), 2 := Money(-5.0, Usd), 3 := Money(-5.0, Eur)];
    assert HeldIn(b, Eur) == map[3 := -5.0];
    Sums.MapSumUpdate<AccountId>(map[], 3, -5.0);
  }

  lemma PostTwo(b: Balances, lines: seq<JournalLine>)
    requires |lines| == 2
    ensures PostLines(b, lines) == PostLine(PostLine(b, lines[0]), lines[1])
  {
    assert lines[..1] == [lines[0]] && lines[..1][..0] == [];
    assert PostLines(b, [lines[0]]) == PostLine(b, lines[0]);
  }

  lemma TwoLinesBalance(a: AccountId, b: AccountId, c: Currency)
    ensures BalancedEntry([Line5(a, true, c), Line5(b, false, c)])
  {
    var lines := [Line5(a, true, c), Line5(b, false, c)];
    assert lines[..1] == [Line5(a, true, c)] && lines[..1][..0] == [];
    assert CurrencySum([Line5(a, true, c)], c) == 5.0;
    assert BalancedIn(lines, c);
  }

  // ---------------------------------------------------------------------------
  // Business rules over a whole log
  // ---------------------------------------------------------------------------

  /** The identifier an event records an entry under, if it records one. */
  function EntryIdOf(e: LedgerEvent): Option<EntryId> {
    match e
    case JournalEntryPosted(id, _) => Some(id)
    case EntryReversed(_, reversalId, _) => Some(reversalId)
    case CapitalizationStatusChanged(_, _, _, _) => None
  }

  ghost predicate Records(log: seq<LedgerEvent>, id: EntryId) {
    exists i :: 0 <= i < |log| && EntryIdOf(log[i]) == Some(id)
  }

  ghost predicate Reverses(log: seq<LedgerEvent>, id: EntryId) {
    exists i :: 0 <= i < |log| && log[i].EntryReversed? && log[i].originalId == id
  }

  lemma RecordsPrefix(log: seq<LedgerEvent>, id: EntryId)
    requires log != []
    ensures Records(log, id) <==> Records(log[..|log| - 1], id) || EntryIdOf(log[|log| - 1]) == Some(id)
    ensures Reverses(log, id) <==>
              || Reverses(log[..|log| - 1], id)
              || (log[|log| - 1].EntryReversed? && log[|log| - 1].originalId == id)
  {
    assert forall i :: 0 <= i < |log| - 1 ==> log[..|log| - 1][i] == log[i];
    assert forall i :: 0 <= i < |log| ==> i == |log| - 1 || log[i] == log[..|log| - 1][i];
  }

  /** The state remembers exactly the entries the log records and the reversals it holds. */
  lemma {:induction false} StateRemembersLog(log: seq<LedgerEvent>, id: EntryId)
    requires Legal(log)
    ensures id in Replay(log).entries <==> Records(log, id)
    ensures id in Replay(log).reversed <==> Reverses(log, id)
  {
    if log != [] {
      StateRemembersLog(log[..|log| - 1], id);
      ProducedIsAllowedOneWay(Replay(log[..|log| - 1]), log[|log| - 1]);
      RecordsPrefix(log, id);
    }
  }

  /** No entry is reversed twice. */
  lemma NoEntryIsReversedTwice(log: seq<LedgerEvent>, i: nat, j: nat)
    requires Legal(log) && i < j < |log|
    requires log[i].EntryReversed? && log[j].EntryReversed?
    ensures log[i].originalId != log[j].originalId
  {
    LegalAt(log, j);
    StateRemembersLog(log[..j], log[j].originalId);
    assert log[..j][i] == log[i];
  }

  /** Every reversal names an entry recorded earlier in the log. */
  lemma EveryReversalNamesAnEarlierEntry(log: seq<LedgerEvent>, j: nat)
    requires Legal(log) && j < |log| && log[j].EntryReversed?
    ensures exists i :: 0 <= i < j && EntryIdOf(log[i]) == Some(log[j].originalId)
  {
    LegalAt(log, j);
    StateRemembersLog(log[..j], log[j].originalId);
    var i :| 0 <= i < j && EntryIdOf(log[..j][i]) == Some(log[j].originalId);
    assert log[..j][i] == log[i];
  }

  /** No identifier records two entries. */
  lemma EntryIdsAreUnique(log: seq<LedgerEvent>, i: nat, j: nat)
    requires Legal(log) && i < j < |log| && EntryIdOf(log[i]).Some?
    ensures EntryIdOf(log[i]) != EntryIdOf(log[j])
  {
    LegalAt(log, j);
    if EntryIdOf(log[j]).Some? {
      StateRemembersLog(log[..j], EntryIdOf(log[j]).value);
      assert log[..j][i] == log[i];
    }
  }

  datatype StatusChange = StatusChange(from: CapitalizationStatus, to: CapitalizationStatus)

  /** The capitalization events of one run, in log order. */
  function CapitalizationHistory(log: seq<LedgerEvent>, run: RunId): seq<StatusChange> {
    if log == [] then []
    else
      var rest, e := CapitalizationHistory(log[..|log| - 1], run), log[|log| - 1];
      if e.CapitalizationStatusChanged? && e.runId == run then rest + [StatusChange(e.from, e.to)] else rest
  }

  /** A run's changes of status chain from pending review, each one a real change. */
  ghost predicate Chained(h: seq<StatusChange>) {
    && (h != [] ==> h[0].from == PendingReview)
    && (forall i :: 0 <= i < |h| ==> h[i].from != h[i].to)
    && (forall i :: 0 < i < |h| ==> h[i - 1].to == h[i].from)
  }

  /** In every legal log each run's capitalization events chain, up to the status in the state. */
  lemma {:induction false} CapitalizationChains(log: seq<LedgerEvent>, run: RunId)
    requires Legal(log)
    ensures var h := CapitalizationHistory(log, run);
            && Chained(h)
            && Replay(log).StatusOf(run) == if h == [] then PendingReview else h[|h| - 1].to
  {
    if log != [] {
      var front, e := log[..|log| - 1], log[|log| - 1];
      var rest := CapitalizationHistory(front, run);
      CapitalizationChains(front, run);
      ProducedIsAllowedOneWay(Replay(front), e);
      if e.CapitalizationStatusChanged? && e.runId == run {
        ChainedAppend(rest, StatusChange(e.from, e.to));
      }
    }
  }

  lemma ChainedAppend(h: seq<StatusChange>, step: StatusChange)
    requires Chained(h) && step.from != step.to
    requires step.from == if h == [] then PendingReview else h[|h| - 1].to
    ensures Chained(h + [step])
  {
    var g := h + [step];
    assert forall i :: 0 <= i < |h| ==> g[i] == h[i];
  }
}
