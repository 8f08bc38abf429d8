/**
 The ledger aggregate as mathematics: commands, events, the projected state, and the two
 functions `Handle` (which may reject) and `Apply` (which may not). The class that updates the
 projection in place, and the loops, are in LedgerProjection; what holds of every log is in
 LedgerLaws.
 */
module Ledger {
  import opened Wrappers
  import opened CoreMoney

  type AccountId = nat
  type EntryId = nat
  type RunId = nat
  type PolicyId = nat
  type UsageEventId = nat

  datatype CapitalizationStatus = Expensed | Capitalized | PendingReview

  /** A journal line as written: either side may be present, absent, or (wrongly) both. */
  datatype JournalLine = JournalLine(
    account: AccountId,
    debit: Option<Money>,
    credit: Option<Money>,
    sources: seq<UsageEventId>)
  {
    /** Debit-positive contribution, or nothing for a malformed line. */
    function SignedAmount(): Option<Money> {
      match (debit, credit)
      case (Some(d), None) => Some(d)
      case (None, Some(c)) => Some(c.Negate())
      case _ => None
    }

    function Validate(): Result<Money, LedgerError> {
      match (debit, credit)
      case (Some(d), None) => Success(d)
      case (None, Some(c)) => Success(c)
      case (Some(_), Some(_)) => Failure(LineHasBothSides(account))
      case (None, None) => Failure(LineHasNoAmount(account))
    }
  }

  datatype LedgerEvent =
    | JournalEntryPosted(id: EntryId, lines: seq<JournalLine>)
    | EntryReversed(originalId: EntryId, reversalId: EntryId, reason: string)
    | CapitalizationStatusChanged(
        runId: RunId, from: CapitalizationStatus, to: CapitalizationStatus, policyRef: PolicyId)

  datatype LedgerCommand =
    | PostJournalEntry(lines: seq<JournalLine>)
    | ReverseEntry(originalId: EntryId, reason: string)
    | ChangeCapitalizationStatus(runId: RunId, to: CapitalizationStatus, policyRef: PolicyId)

  datatype LedgerError =
    | Unbalanced(debits: real, credits: real)
    | EmptyEntry
    | LineHasBothSides(account: AccountId)
    | LineHasNoAmount(account: AccountId)
    | AlreadyReversed(entry: EntryId)
    | UnknownEntry(entry: EntryId)
    | CapitalizationUnchanged(runId: RunId, status: CapitalizationStatus)
    | CurrencyError(mismatch: CurrencyMismatch)

  type Balances = map<AccountId, Money>

  datatype LedgerState = LedgerState(
    balances: Balances,
    entries: map<EntryId, seq<JournalLine>>,
    reversed: set<EntryId>,
    capitalization: map<RunId, CapitalizationStatus>)
  {
    function StatusOf(run: RunId): CapitalizationStatus {
      if run in capitalization then capitalization[run] else PendingReview
    }
  }

  const EMPTY_STATE := LedgerState(map[], map[], {}, map[])

  // ---------------------------------------------------------------------------
  // Applying events
  // ---------------------------------------------------------------------------

  /**
   One line's effect on the balance map. The account is created, in the line's currency, if it
   was never seen; a line in another currency than the account's is dropped without a trace.
   */
  function PostLine(b: Balances, line: JournalLine): Balances {
    match line.SignedAmount()
    case None => b
    case Some(delta) =>
      var current := if line.account in b then b[line.account] else Zero(delta.currency);
      match current.CheckedAdd(delta)
      case Success(updated) => b[line.account := updated]
      case Failure(_) => b[line.account := current]
  }

  function PostLines(b: Balances, lines: seq<JournalLine>): Balances {
    if lines == [] then b
    else PostLine(PostLines(b, lines[..|lines| - 1]), lines[|lines| - 1])
  }

  function MirrorLine(line: JournalLine): JournalLine {
    JournalLine(line.account, line.credit, line.debit, [])
  }

  /** A reversal's lines: sides swapped, back-references deliberately dropped. */
  function Mirror(lines: seq<JournalLine>): seq<JournalLine> {
    seq(|lines|, i requires 0 <= i < |lines| => MirrorLine(lines[i]))
  }

  function Post(s: LedgerState, id: EntryId, lines: seq<JournalLine>): LedgerState {
    s.(balances := PostLines(s.balances, lines), entries := s.entries[id := lines])
  }

  /** Total: history is replayed, never refused. */
  function Apply(s: LedgerState, e: LedgerEvent): LedgerState {
    match e
    case JournalEntryPosted(id, lines) => Post(s, id, lines)
    case EntryReversed(originalId, reversalId, _) =>
      var posted :=
        if originalId in s.entries then Post(s, reversalId, Mirror(s.entries[originalId])) else s;
      posted.(reversed := posted.reversed + {originalId})
    case CapitalizationStatusChanged(runId, _, to, _) =>
      s.(capitalization := s.capitalization[runId := to])
  }

  /** The state a log describes. */
  function Replay(log: seq<LedgerEvent>): LedgerState {
    if log == [] then EMPTY_STATE else Apply(Replay(log[..|log| - 1]), log[|log| - 1])
  }

  // ---------------------------------------------------------------------------
  // Deciding commands
  // ---------------------------------------------------------------------------

  /** The two accumulators after the first lines of an entry, or the first error met. */
  function SideTotals(lines: seq<JournalLine>, currency: Currency): (r: Result<(Money, Money), LedgerError>)
    ensures r.Success? ==> r.value.0.currency == r.value.1.currency == currency
  {
    if lines == [] then Success((Zero(currency), Zero(currency)))
    else
      var (debits, credits) :- SideTotals(lines[..|lines| - 1], currency);
      var line := lines[|lines| - 1];
      var amount :- line.Validate();
      if line.debit.Some? then
        match debits.CheckedAdd(amount)
        case Success(d) => Success((d, credits))
        case Failure(m) => Failure(CurrencyError(m))
      else
        match credits.CheckedAdd(amount)
        case Success(c) => Success((debits, c))
        case Failure(m) => Failure(CurrencyError(m))
  }

  function CheckEntry(lines: seq<JournalLine>): Result<(), LedgerError> {
    if lines == [] then Failure(EmptyEntry)
    else
      var first :- lines[0].Validate();
      var (debits, credits) :- SideTotals(lines, first.currency);
      if debits != credits then Failure(Unbalanced(debits.amount, credits.amount))
      else Success(())
  }

  /** `freshId` is the identifier the handler would mint for a posting or a reversal. */
  function Handle(s: LedgerState, command: LedgerCommand, freshId: EntryId): (r: Result<seq<LedgerEvent>, LedgerError>)
    ensures r.Success? ==> |r.value| == 1
  {
    match command
    case PostJournalEntry(lines) =>
      var _ :- CheckEntry(lines);
      Success([JournalEntryPosted(freshId, lines)])
    case ReverseEntry(originalId, reason) =>
      if originalId !in s.entries then Failure(UnknownEntry(originalId))
      else if originalId in s.reversed then Failure(AlreadyReversed(originalId))
      else Success([EntryReversed(originalId, freshId, reason)])
    case ChangeCapitalizationStatus(runId, to, policyRef) =>
      var from := s.StatusOf(runId);
      if from == to then Failure(CapitalizationUnchanged(runId, to))
      else Success([CapitalizationStatusChanged(runId, from, to, policyRef)])
  }

  // ---------------------------------------------------------------------------
  // Logs the handler can produce
  // ---------------------------------------------------------------------------

  /** `e` is what some accepted command produced in state `s`, its identifier drawn fresh. */
  ghost predicate Produced(s: LedgerState, e: LedgerEvent) {
    exists command, id :: id !in s.entries && Handle(s, command, id) == Success([e])
  }

  /** Every event was produced by an accepted command on the replay of exactly what precedes it. */
  ghost predicate Legal(log: seq<LedgerEvent>) {
    log == [] || (Legal(log[..|log| - 1]) && Produced(Replay(log[..|log| - 1]), log[|log| - 1]))
  }

  /** Ids drawn fresh for a run: no two alike. */
  predicate Distinct(ids: seq<EntryId>) {
    forall i, j :: 0 <= i < j < |ids| ==> ids[i] != ids[j]
  }
}
