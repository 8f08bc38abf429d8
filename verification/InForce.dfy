/**
 Entries as a flat list, the way a reader of the trail sees them, and which of them are in force.
 Reversals may themselves be reversed, to any depth.
 */
module InForce {
  import opened Wrappers
  import opened CoreMoney
  import opened Ledger
  import opened EntryLaws
  import opened BalanceLaws
  import opened LedgerLaws

  /** One recorded entry; a reversal names the entry it reverses. */
  datatype Posting = Posting(id: EntryId, lines: seq<JournalLine>, reversalOf: Option<EntryId>)

  /** The first entry recorded under an identifier. */
  function Find(ps: seq<Posting>, id: EntryId): (p: Option<Posting>)
    ensures p.Some? ==> p.value.id == id && p.value in ps
    ensures p == None ==> forall q :: q in ps ==> q.id != id
  {
    if ps == [] then None
    else
      var front := Find(ps[..|ps| - 1], id);
      if front.Some? then front
      else if ps[|ps| - 1].id == id then Some(ps[|ps| - 1])
      else None
  }

  /** The list-keeper's own statement of a reversal's lines, separate from the aggregate's. */
  function SwapSides(lines: seq<JournalLine>): seq<JournalLine> {
    if lines == [] then []
    else
      var line := lines[|lines| - 1];
      SwapSides(lines[..|lines| - 1])
      + [line.(debit := line.credit, credit := line.debit, sources := [])]
  }

  /** The entry an event records, looked up among the entries recorded before it. */
  function NewPosting(ps: seq<Posting>, e: LedgerEvent): Posting
    requires EntryIdOf(e).Some?
  {
    match e
    case JournalEntryPosted(id, lines) => Posting(id, lines, None)
    case EntryReversed(originalId, reversalId, _) =>
      var original := Find(ps, originalId);
      var lines := if original.Some? then SwapSides(original.value.lines) else [];
      Posting(reversalId, lines, Some(originalId))
  }

  /** What one event adds to the list. */
  function Recorded(ps: seq<Posting>, e: LedgerEvent): seq<Posting> {
    if EntryIdOf(e).Some? then ps + [NewPosting(ps, e)] else ps
  }

  /** The entries a log records, built without the aggregate's state. */
  function Postings(log: seq<LedgerEvent>): seq<Posting> {
    if log == [] then [] else Recorded(Postings(log[..|log| - 1]), log[|log| - 1])
  }

  // ---------------------------------------------------------------------------
  // The list agrees with the aggregate
  // ---------------------------------------------------------------------------

  lemma {:induction false} SwapSidesIsMirror(lines: seq<JournalLine>)
    ensures SwapSides(lines) == Mirror(lines)
  {
    if lines != [] {
      SwapSidesIsMirror(lines[..|lines| - 1]);
    }
  }

  function EntriesOf(ps: seq<Posting>): map<EntryId, seq<JournalLine>> {
    if ps == [] then map[]
    else EntriesOf(ps[..|ps| - 1])[ps[|ps| - 1].id := ps[|ps| - 1].lines]
  }

  function ReversedBy(ps: seq<Posting>): set<EntryId> {
    if ps == [] then {}
    else
      var target := ps[|ps| - 1].reversalOf;
      ReversedBy(ps[..|ps| - 1]) + (if target.Some? then {target.value} else {})
  }

  /** The list holds what the aggregate stores: the same entries, the same ones reversed. */
  ghost predicate Agrees(ps: seq<Posting>, s: LedgerState) {
    s.entries == EntriesOf(ps) && s.reversed == ReversedBy(ps)
  }

  /** Entry `j` reverses entry `k`. */
  predicate ReversalAt(ps: seq<Posting>, j: nat, k: nat)
    requires j < |ps| && k < |ps|
  {
    ps[j].reversalOf == Some(ps[k].id)
  }

  /** Entry `j` is a reversal of some entry before position `m`. */
  ghost predicate ReversesBefore(ps: seq<Posting>, j: nat, m: nat)
    requires m <= j < |ps|
  {
    exists k :: 0 <= k < m && ReversalAt(ps, j, k)
  }

  predicate DistinctIds(ps: seq<Posting>) {
    forall j, k :: 0 <= j < k < |ps| ==> ps[j].id != ps[k].id
  }

  /** Each reversal mirrors an earlier entry, and no entry has two reversals. */
  ghost predicate WellChained(ps: seq<Posting>) {
    && DistinctIds(ps)
    && (forall j {:trigger ReversesBefore(ps, j, j)} ::
          0 <= j < |ps| && ps[j].reversalOf.Some? ==> ReversesBefore(ps, j, j))
    && (forall j, k :: 0 <= j < |ps| && 0 <= k < |ps| && ReversalAt(ps, j, k) ==>
          k < j && ps[j].lines == Mirror(ps[k].lines))
    && (forall i, j, k {:trigger ReversalAt(ps, i, k), ReversalAt(ps, j, k)} ::
          0 <= i < |ps| && 0 <= j < |ps| && 0 <= k < |ps| && ReversalAt(ps, i, k) && ReversalAt(ps, j, k) ==> i == j)
  }

  /** Looking an entry up in the list and in the aggregate come to the same. */
  lemma {:induction false} FindIsLookup(ps: seq<Posting>, id: EntryId)
    requires DistinctIds(ps)
    ensures id in EntriesOf(ps) <==> Find(ps, id).Some?
    ensures id in EntriesOf(ps) ==> Find(ps, id).value.lines == EntriesOf(ps)[id]
  {
    if ps != [] {
      var front, last := ps[..|ps| - 1], ps[|ps| - 1];
      FindIsLookup(front, id);
      if Find(front, id).Some? {
        var k :| 0 <= k < |front| && front[k] == Find(front, id).value;
        assert ps[k].id != last.id;
      }
    }
  }

  lemma {:induction false} ReversedByIsTarget(ps: seq<Posting>, k: nat)
    requires k < |ps| && ps[k].reversalOf.Some?
    ensures ps[k].reversalOf.value in ReversedBy(ps)
  {
    if k < |ps| - 1 {
      ReversedByIsTarget(ps[..|ps| - 1], k);
    }
  }

  /** Id for id and line for line, and nothing else. */
  lemma {:induction false} AgreesMeans(ps: seq<Posting>)
    requires DistinctIds(ps)
    ensures |EntriesOf(ps)| == |ps|
    ensures forall k :: 0 <= k < |ps| ==> ps[k].id in EntriesOf(ps) && EntriesOf(ps)[ps[k].id] == ps[k].lines
  {
    if ps != [] {
      var n := |ps| - 1;
      AgreesMeans(ps[..n]);
      assert forall k :: 0 <= k < n ==> ps[..n][k] == ps[k] && ps[k].id != ps[n].id;
      FindIsLookup(ps[..n], ps[n].id);
    }
  }

  /** The new entry is an original posting, or mirrors an entry that nothing reverses yet. */
  ghost predicate MayFollow(ps: seq<Posting>, p: Posting) {
    && (forall k :: 0 <= k < |ps| ==> ps[k].id != p.id)
    && (p.reversalOf.Some? ==>
          && (forall k :: 0 <= k < |ps| ==> ps[k].reversalOf != p.reversalOf)
          && (exists k :: 0 <= k < |ps| && Some(ps[k].id) == p.reversalOf && p.lines == Mirror(ps[k].lines)))
  }

  lemma ChainStep(ps: seq<Posting>, p: Posting)
    requires WellChained(ps) && MayFollow(ps, p)
    ensures WellChained(ps + [p])
  {
    var qs, n := ps + [p], |ps|;
    assert qs[n] == p && forall k :: 0 <= k < n ==> qs[k] == ps[k];
    forall j, k | 0 <= j < |qs| && 0 <= k < |qs| && ReversalAt(qs, j, k)
      ensures k < j && qs[j].lines == Mirror(qs[k].lines)
    {
      if j < n {
        assert ReversesBefore(ps, j, j);
        var i :| 0 <= i < j && ReversalAt(ps, j, i);
        assert qs[i].id == qs[k].id;
        assert ReversalAt(ps, j, k);
      }
    }
    forall j | 0 <= j < |qs| && qs[j].reversalOf.Some? ensures ReversesBefore(qs, j, j) {
      if j < n {
        assert ReversesBefore(ps, j, j);
        var k :| 0 <= k < j && ReversalAt(ps, j, k);
        assert ReversalAt(qs, j, k);
      } else {
        var k :| 0 <= k < n && Some(ps[k].id) == p.reversalOf;
        assert ReversalAt(qs, j, k);
      }
    }
    forall i, j, k | 0 <= i < |qs| && 0 <= j < |qs| && 0 <= k < |qs| && ReversalAt(qs, i, k) && ReversalAt(qs, j, k)
      ensures i == j
    {
      if i < n && j < n {
        assert ReversalAt(ps, i, k) && ReversalAt(ps, j, k);
      }
    }
  }

  lemma NewReversalMirrors(ps: seq<Posting>, s: LedgerState, e: LedgerEvent)
    requires Agrees(ps, s) && WellChained(ps) && Allowed(s, e) && e.EntryReversed?
    ensures NewPosting(ps, e).lines == EventLines(s, e)
    ensures forall k :: 0 <= k < |ps| ==> ps[k].reversalOf != Some(e.originalId)
    ensures exists k :: 0 <= k < |ps| && ps[k].id == e.originalId
                        && NewPosting(ps, e).lines == Mirror(ps[k].lines)
  {
    FindIsLookup(ps, e.originalId);
    SwapSidesIsMirror(s.entries[e.originalId]);
    var k :| 0 <= k < |ps| && ps[k] == Find(ps, e.originalId).value;
    assert NewPosting(ps, e).lines == Mirror(ps[k].lines);
    forall k | 0 <= k < |ps| ensures ps[k].reversalOf != Some(e.originalId) {
      if ps[k].reversalOf.Some? {
        ReversedByIsTarget(ps, k);
      }
    }
  }

  lemma RecordedUnfolds(ps: seq<Posting>, p: Posting)
    ensures EntriesOf(ps + [p]) == EntriesOf(ps)[p.id := p.lines]
    ensures ReversedBy(ps + [p]) == ReversedBy(ps) + (if p.reversalOf.Some? then {p.reversalOf.value} else {})
  {
    assert (ps + [p])[..|ps|] == ps;
  }

  lemma AddPosting(ps: seq<Posting>, s: LedgerState, e: LedgerEvent)
    requires Agrees(ps, s) && WellChained(ps) && Allowed(s, e) && EntryIdOf(e).Some?
    ensures Agrees(Recorded(ps, e), Apply(s, e)) && WellChained(Recorded(ps, e))
    ensures NewPosting(ps, e).lines == EventLines(s, e)
  {
    var p := NewPosting(ps, e);
    assert MayFollow(ps, p) by {
      AgreesMeans(ps);
      if e.EntryReversed? {
        NewReversalMirrors(ps, s, e);
      }
    }
    assert p.lines == EventLines(s, e) by {
      if e.EntryReversed? {
        NewReversalMirrors(ps, s, e);
      }
    }
    ChainStep(ps, p);
    RecordedUnfolds(ps, p);
  }

  /** The entry list of a legal log is well chained and is exactly what the aggregate stores. */
  lemma {:induction false} PostingsMatchState(log: seq<LedgerEvent>)
    requires Legal(log)
    ensures Agrees(Postings(log), Replay(log)) && WellChained(Postings(log))
  {
    if log != [] {
      PostingsMatchState(log[..|log| - 1]);
      LegalAt(log, |log| - 1);
      if EntryIdOf(log[|log| - 1]).Some? {
        AddPosting(Postings(log[..|log| - 1]), Replay(log[..|log| - 1]), log[|log| - 1]);
      }
    }
  }

  // ---------------------------------------------------------------------------
  // In force
  // ---------------------------------------------------------------------------

  /** The position of the entry that reverses entry `k`, searching from `from`. */
  function ReversalFrom(ps: seq<Posting>, k: nat, from: nat): (j: Option<nat>)
    requires k < |ps| && from <= |ps|
    ensures j.Some? ==> from <= j.value < |ps| && ReversalAt(ps, j.value, k)
    ensures j == None ==> forall i :: from <= i < |ps| ==> !ReversalAt(ps, i, k)
    decreases |ps| - from
  {
    if from == |ps| then None
    else if ReversalAt(ps, from, k) then Some(from)
    else ReversalFrom(ps, k, from + 1)
  }

  /** In force: never reversed, or its reversal is itself not in force. */
  predicate IsInForce(ps: seq<Posting>, k: nat)
    requires k < |ps|
    decreases |ps| - k
  {
    match ReversalFrom(ps, k, k + 1)
    case None => true
    case Some(j) => !IsInForce(ps, j)
  }

  function Value(p: Posting, a: AccountId, c: Currency): real {
    AccountSum(p.lines, a, c)
  }

  /** Everything recorded from position `m` on, reversals included. */
  function RecordedSum(ps: seq<Posting>, a: AccountId, c: Currency, m: nat): real
    requires m <= |ps|
    decreases |ps| - m
  {
    if m == |ps| then 0.0 else Value(ps[m], a, c) + RecordedSum(ps, a, c, m + 1)
  }

  /** The original postings from position `m` on that are still in force. */
  function InForceSum(ps: seq<Posting>, a: AccountId, c: Currency, m: nat): real
    requires m <= |ps|
    decreases |ps| - m
  {
    if m == |ps| then 0.0
    else
      (if ps[m].reversalOf == None && IsInForce(ps, m) then Value(ps[m], a, c) else 0.0)
      + InForceSum(ps, a, c, m + 1)
  }

  /** Reversals from `from` on, in force, of entries before `m`. */
  ghost function PendingSum(ps: seq<Posting>, a: AccountId, c: Currency, m: nat, from: nat): real
    requires m <= from <= |ps|
    decreases |ps| - from
  {
    if from == |ps| then 0.0
    else
      (if ReversesBefore(ps, from, m) && IsInForce(ps, from) then Value(ps[from], a, c) else 0.0)
      + PendingSum(ps, a, c, m, from + 1)
  }

  /** What the reversal of entry `m`, found from `from` on, contributes in force. */
  function Undone(ps: seq<Posting>, a: AccountId, c: Currency, m: nat, from: nat): real
    requires m < from <= |ps|
  {
    match ReversalFrom(ps, m, from)
    case None => 0.0
    case Some(j) => if IsInForce(ps, j) then Value(ps[j], a, c) else 0.0
  }

  lemma ReversesBeforeNext(ps: seq<Posting>, j: nat, m: nat)
    requires WellChained(ps) && m < j < |ps|
    ensures ReversesBefore(ps, j, m + 1) <==> ReversesBefore(ps, j, m) || ReversalAt(ps, j, m)
    ensures ReversalAt(ps, j, m) ==> !ReversesBefore(ps, j, m)
    ensures ReversalAt(ps, j, m) ==> ReversalFrom(ps, m, j + 1) == None
  {
    if ReversalAt(ps, j, m) {
      assert forall k :: 0 <= k < m ==> ps[k].id != ps[m].id;
      assert forall i :: j < i < |ps| ==> !ReversalAt(ps, i, m);
    }
  }

  lemma {:induction false} PendingStep(ps: seq<Posting>, a: AccountId, c: Currency, m: nat, from: nat)
    requires WellChained(ps) && m < from <= |ps|
    ensures PendingSum(ps, a, c, m + 1, from) == PendingSum(ps, a, c, m, from) + Undone(ps, a, c, m, from)
    decreases |ps| - from
  {
    if from < |ps| {
      PendingStep(ps, a, c, m, from + 1);
      ReversesBeforeNext(ps, from, m);
    }
  }

  /** An entry contributes its value in force, less what its reversal contributes in force. */
  lemma ValueIsInForceLessUndone(ps: seq<Posting>, a: AccountId, c: Currency, m: nat)
    requires WellChained(ps) && m < |ps|
    ensures Value(ps[m], a, c)
            == (if IsInForce(ps, m) then Value(ps[m], a, c) else 0.0) - Undone(ps, a, c, m, m + 1)
  {
    var j := ReversalFrom(ps, m, m + 1);
    if j.Some? {
      assert ReversalAt(ps, j.value, m);
      MirrorNegatesAccountSum(ps[m].lines, a, c);
    }
  }

  lemma {:induction false} InForceAccounts(ps: seq<Posting>, a: AccountId, c: Currency, m: nat)
    requires WellChained(ps) && m <= |ps|
    ensures RecordedSum(ps, a, c, m) == InForceSum(ps, a, c, m) + PendingSum(ps, a, c, m, m)
    decreases |ps| - m
  {
    if m < |ps| {
      InForceAccounts(ps, a, c, m + 1);
      PendingStep(ps, a, c, m, m + 1);
      ValueIsInForceLessUndone(ps, a, c, m);
      assert ps[m].reversalOf.Some? <==> ReversesBefore(ps, m, m);
    }
  }

  lemma NothingPendingAtTheStart(ps: seq<Posting>, a: AccountId, c: Currency, from: nat)
    requires from <= |ps|
    ensures PendingSum(ps, a, c, 0, from) == 0.0
    decreases |ps| - from
  {
  }

  /** For well-chained entries, everything recorded nets to the original postings in force. */
  lemma RecordedIsInForce(ps: seq<Posting>, a: AccountId, c: Currency)
    requires WellChained(ps)
    ensures RecordedSum(ps, a, c, 0) == InForceSum(ps, a, c, 0)
  {
    InForceAccounts(ps, a, c, 0);
    NothingPendingAtTheStart(ps, a, c, 0);
  }

  lemma {:induction false} RecordedSumAppend(ps: seq<Posting>, p: Posting, a: AccountId, c: Currency, m: nat)
    requires m <= |ps|
    ensures RecordedSum(ps + [p], a, c, m) == RecordedSum(ps, a, c, m) + Value(p, a, c)
    decreases |ps| - m
  {
    if m < |ps| {
      RecordedSumAppend(ps, p, a, c, m + 1);
    }
  }

  lemma {:induction false} RecordedSumIsAccountSum(log: seq<LedgerEvent>, a: AccountId, c: Currency)
    requires Legal(log)
    ensures RecordedSum(Postings(log), a, c, 0) == AccountSum(AllLines(log), a, c)
  {
    if log != [] {
      var front, e := log[..|log| - 1], log[|log| - 1];
      RecordedSumIsAccountSum(front, a, c);
      LegalAt(log, |log| - 1);
      PostingsMatchState(front);
      AccountSumAppend(AllLines(front), EventLines(Replay(front), e), a, c);
      if EntryIdOf(e).Some? {
        var ps := Postings(front);
        AddPosting(ps, Replay(front), e);
        RecordedSumAppend(ps, NewPosting(ps, e), a, c, 0);
      }
    }
  }

  /**
   The balance of every account after every run: the sum, in the account's currency, of the
   original postings still in force. No assumption on how accounts and currencies mix.
   */
  lemma BalanceIsInForceSum(log: seq<LedgerEvent>, a: AccountId)
    requires Legal(log) && a in Replay(log).balances
    ensures Replay(log).balances[a].amount
            == InForceSum(Postings(log), a, Replay(log).balances[a].currency, 0)
  {
    var c := Replay(log).balances[a].currency;
    ReplayBalances(log);
    BalanceIsAccountSum(AllLines(log), a);
    RecordedSumIsAccountSum(log, a, c);
    PostingsMatchState(log);
    RecordedIsInForce(Postings(log), a, c);
  }

  // ---------------------------------------------------------------------------
  // Reversal cancels at a distance
  // ---------------------------------------------------------------------------

  /** The two states differ by one entry: same everything else, balances aside. */
  ghost predicate DiffersByEntry(s: LedgerState, without: LedgerState, id: EntryId, lines: seq<JournalLine>) {
    && id !in without.entries
    && s.entries == without.entries[id := lines]
    && s.reversed == without.reversed
    && s.capitalization == without.capitalization
  }

  /** A reversal of another entry acts the same with the entry and without it. */
  lemma {:induction false} ReversalIgnoresTheEntry(
      s: LedgerState, without: LedgerState, e: LedgerEvent, id: EntryId, lines: seq<JournalLine>)
    requires DiffersByEntry(s, without, id, lines) && Allowed(s, e)
    requires e.EntryReversed? && e.originalId != id
    ensures Allowed(without, e) && EventLines(s, e) == EventLines(without, e)
    ensures DiffersByEntry(Apply(s, e), Apply(without, e), id, lines)
  {
    assert s.entries[e.originalId] == without.entries[e.originalId];
    assert Apply(s, e).entries == Apply(without, e).entries[id := lines];
  }

  /** One event that does not name the entry acts the same with it and without it. */
  lemma {:induction false} StepIgnoresTheEntry(
      s: LedgerState, without: LedgerState, e: LedgerEvent, id: EntryId, lines: seq<JournalLine>)
    requires DiffersByEntry(s, without, id, lines) && Allowed(s, e)
    requires e.EntryReversed? ==> e.originalId != id
    ensures Produced(without, e)
    ensures EventLines(s, e) == EventLines(without, e)
    ensures DiffersByEntry(Apply(s, e), Apply(without, e), id, lines)
  {
    ProducedIsAllowed(without, e, id);
    if e.EntryReversed? {
      ReversalIgnoresTheEntry(s, without, e, id, lines);
    } else if e.JournalEntryPosted? {
      assert s.entries[e.id := e.lines] == without.entries[e.id := e.lines][id := lines];
    }
  }

  /** Both logs post the same lines but for one entry's. */
  ghost predicate SameLinesBut(
      w: seq<JournalLine>, lines: seq<JournalLine>, full: seq<JournalLine>, less: seq<JournalLine>) {
    exists x :: full == w + lines + x && less == w + x
  }

  lemma SameLinesButAppend(
      w: seq<JournalLine>, lines: seq<JournalLine>, full: seq<JournalLine>, less: seq<JournalLine>,
      y: seq<JournalLine>)
    requires SameLinesBut(w, lines, full, less)
    ensures SameLinesBut(w, lines, full + y, less + y)
  {
    var x :| full == w + lines + x && less == w + x;
    assert full + y == w + lines + (x + y);
    assert less + y == w + (x + y);
  }

  lemma {:induction false} ExtendBoth(
      long: seq<LedgerEvent>, short: seq<LedgerEvent>, e: LedgerEvent,
      w: seq<JournalLine>, id: EntryId, lines: seq<JournalLine>)
    requires Legal(long + [e]) && Legal(short)
    requires DiffersByEntry(Replay(long), Replay(short), id, lines)
    requires SameLinesBut(w, lines, AllLines(long), AllLines(short))
    requires e.EntryReversed? ==> e.originalId != id
    ensures Legal(short + [e])
    ensures DiffersByEntry(Replay(long + [e]), Replay(short + [e]), id, lines)
    ensures SameLinesBut(w, lines, AllLines(long + [e]), AllLines(short + [e]))
  {
    LegalAppend(long, e);
    LegalAppend(short, e);
    ProducedIsAllowedOneWay(Replay(long), e);
    StepIgnoresTheEntry(Replay(long), Replay(short), e, id, lines);
    SameLinesButAppend(w, lines, AllLines(long), AllLines(short), EventLines(Replay(long), e));
  }

  lemma LastApart(x: seq<LedgerEvent>, y: seq<LedgerEvent>)
    requires y != []
    ensures x + y == x + y[..|y| - 1] + [y[|y| - 1]]
  {
  }

  lemma {:induction false} PostedAlone(before: seq<LedgerEvent>, posted: LedgerEvent)
    requires posted.JournalEntryPosted? && Legal(before + [posted])
    ensures Legal(before)
    ensures DiffersByEntry(Replay(before + [posted]), Replay(before), posted.id, posted.lines)
    ensures SameLinesBut(AllLines(before), posted.lines, AllLines(before + [posted]), AllLines(before))
  {
    LegalAppend(before, posted);
    ProducedIsAllowedOneWay(Replay(before), posted);
    assert AllLines(before + [posted]) == AllLines(before) + posted.lines + [];
    assert AllLines(before) == AllLines(before) + [];
  }

  /** Later events that do not name the entry are legal without it and post the same lines. */
  lemma {:induction false} LaterEventsIgnoreTheEntry(
      before: seq<LedgerEvent>, posted: LedgerEvent, later: seq<LedgerEvent>)
    requires posted.JournalEntryPosted? && Legal(before + [posted] + later)
    requires forall i :: 0 <= i < |later| && later[i].EntryReversed? ==> later[i].originalId != posted.id
    ensures Legal(before + later)
    ensures DiffersByEntry(Replay(before + [posted] + later), Replay(before + later), posted.id, posted.lines)
    ensures SameLinesBut(
              AllLines(before), posted.lines, AllLines(before + [posted] + later), AllLines(before + later))
  {
    if later == [] {
      assert before + [posted] + later == before + [posted] && before + later == before;
      PostedAlone(before, posted);
    } else {
      var n := |later| - 1;
      var long, short := before + [posted] + later[..n], before + later[..n];
      LastApart(before + [posted], later);
      LastApart(before, later);
      LegalAppend(long, later[n]);
      LaterEventsIgnoreTheEntry(before, posted, later[..n]);
      ExtendBoth(long, short, later[n], AllLines(before), posted.id, posted.lines);
    }
  }

  /** An entry reversed at the end of a legal run was reversed nowhere before. */
  lemma {:induction false} ReversedOnlyAtTheEnd(
      before: seq<LedgerEvent>, posted: LedgerEvent, later: seq<LedgerEvent>, reversal: LedgerEvent)
    requires reversal.EntryReversed? && Legal(before + [posted] + later + [reversal])
    ensures forall i :: 0 <= i < |later| && later[i].EntryReversed? ==> later[i].originalId != reversal.originalId
  {
    var run := before + [posted] + later;
    var log := run + [reversal];
    forall i | 0 <= i < |later| && later[i].EntryReversed? ensures later[i].originalId != reversal.originalId {
      assert log[|before| + 1 + i] == later[i] && log[|run|] == reversal;
      NoEntryIsReversedTwice(log, |before| + 1 + i, |run|);
    }
  }

  /** The run without the entry is legal; the run with it has the entry's lines, and their mirror, more. */
  lemma {:induction false} ReversedRun(
      before: seq<LedgerEvent>, posted: LedgerEvent, later: seq<LedgerEvent>, reversal: LedgerEvent)
    requires posted.JournalEntryPosted? && reversal.EntryReversed? && reversal.originalId == posted.id
    requires Legal(before + [posted] + later + [reversal])
    ensures Legal(before + later)
    ensures var run, s := before + [posted] + later, Replay(before + [posted] + later + [reversal]);
            && posted.id in s.entries && s.entries[posted.id] == posted.lines
            && reversal.reversalId in s.entries && s.entries[reversal.reversalId] == Mirror(posted.lines)
            && AllLines(run + [reversal]) == AllLines(run) + Mirror(posted.lines)
            && SameLinesBut(AllLines(before), posted.lines, AllLines(run), AllLines(before + later))
  {
    var run := before + [posted] + later;
    LegalAppend(run, reversal);
    ReversedOnlyAtTheEnd(before, posted, later, reversal);
    LaterEventsIgnoreTheEntry(before, posted, later);
    ProducedIsAllowedOneWay(Replay(run), reversal);
  }

  /** An entry and its mirror write nothing on an account, in any currency, wherever they stand. */
  lemma {:induction false} MirrorCancelsSum(
      w: seq<JournalLine>, lines: seq<JournalLine>, run: seq<JournalLine>, less: seq<JournalLine>,
      a: AccountId, c: Currency)
    requires SameLinesBut(w, lines, run, less)
    ensures AccountSum(run + Mirror(lines), a, c) == AccountSum(less, a, c)
  {
    var x :| run == w + lines + x && less == w + x;
    AccountSumAppend(run, Mirror(lines), a, c);
    AccountSumAppend(w + lines, x, a, c);
    AccountSumAppend(w, lines, a, c);
    AccountSumAppend(w, x, a, c);
    MirrorNegatesAccountSum(lines, a, c);
  }

  lemma MentionsAppend(x: seq<JournalLine>, y: seq<JournalLine>, a: AccountId)
    ensures Mentions(x + y, a) <==> Mentions(x, a) || Mentions(y, a)
  {
    if Mentions(x, a) {
      var i :| 0 <= i < |x| && Touches(x[i], a);
      assert Touches((x + y)[i], a);
    }
    if Mentions(y, a) {
      var i :| 0 <= i < |y| && Touches(y[i], a);
      assert Touches((x + y)[|x| + i], a);
    }
  }

  /** Lines taken out leave the others' accounts. */
  lemma {:induction false} LessMentionsNoMore(
      w: seq<JournalLine>, lines: seq<JournalLine>, run: seq<JournalLine>, less: seq<JournalLine>, a: AccountId)
    requires SameLinesBut(w, lines, run, less)
    ensures Mentions(run, a) <==> Mentions(less, a) || Mentions(lines, a)
  {
    var x :| run == w + lines + x && less == w + x;
    MentionsAppend(w + lines, x, a);
    MentionsAppend(w, lines, a);
    MentionsAppend(w, x, a);
  }

  /** The balance of an account, as its lines have it. */
  lemma {:induction false} BalanceFromLines(log: seq<LedgerEvent>, a: AccountId)
    ensures a in Replay(log).balances <==> Mentions(AllLines(log), a)
    ensures a in Replay(log).balances ==>
              Replay(log).balances[a].amount == AccountSum(AllLines(log), a, Replay(log).balances[a].currency)
  {
    ReplayBalances(log);
    BalanceIsAccountSum(AllLines(log), a);
  }

  /**
   In any mix of currencies: reversing an entry after any later events, every account of the run
   without it is there; an account only the entry brought in holds nothing; and any other has what it
   has in that run, exactly when it has it in the same currency.
   */
  lemma {:induction false} ReversalCancelsIff(
      before: seq<LedgerEvent>, posted: LedgerEvent, later: seq<LedgerEvent>, reversal: LedgerEvent, a: AccountId)
    requires posted.JournalEntryPosted? && reversal.EntryReversed? && reversal.originalId == posted.id
    requires Legal(before + [posted] + later + [reversal])
    ensures var s, u := Replay(before + [posted] + later + [reversal]).balances, Replay(before + later).balances;
            && (a in u ==> a in s)
            && (a in s && a !in u ==> s[a].amount == 0.0)
            && (a in u ==> (s[a] == u[a] <==> s[a].currency == u[a].currency))
  {
    var run := before + [posted] + later;
    var w, less := AllLines(before), AllLines(before + later);
    ReversedRun(before, posted, later, reversal);
    BalanceFromLines(run + [reversal], a);
    BalanceFromLines(before + later, a);
    LessMentionsNoMore(w, posted.lines, AllLines(run), less, a);
    MentionsAppend(AllLines(run), Mirror(posted.lines), a);
    var s := Replay(run + [reversal]).balances;
    if a in s {
      MirrorCancelsSum(w, posted.lines, AllLines(run), less, a, s[a].currency);
      if !Mentions(less, a) {
        UntouchedSumsToZero(less, a, s[a].currency);
      }
    }
  }

  // ---------------------------------------------------------------------------
  // In which currency
  // ---------------------------------------------------------------------------

  /** An account new to two ledgers takes its currency from the same line of both. */
  lemma {:induction false} NewInBoth(b: Balances, d: Balances, lines: seq<JournalLine>, a: AccountId)
    requires a !in b && a !in d
    ensures a in PostLines(b, lines) <==> a in PostLines(d, lines)
    ensures a in PostLines(b, lines) ==> PostLines(b, lines)[a].currency == PostLines(d, lines)[a].currency
  {
    if lines != [] {
      NewInBoth(b, d, lines[..|lines| - 1], a);
    }
  }

  /** Taking an entry out leaves an account its currency unless the account was new and the entry touched it. */
  lemma {:induction false} CurrencyWithoutIff(
      w: seq<JournalLine>, lines: seq<JournalLine>, x: seq<JournalLine>, a: AccountId, c: Currency)
    requires forall i :: 0 <= i < |lines| ==> LineIn(lines[i], c)
    requires a in BalancesOf(w + x)
    ensures a in BalancesOf(w + lines + x)
    ensures BalancesOf(w + lines + x)[a].currency == BalancesOf(w + x)[a].currency
            <==> a in BalancesOf(w) || !Mentions(lines, a) || BalancesOf(w + x)[a].currency == c
  {
    var b := BalancesOf(w);
    PostLinesAppend(map[], w, x);
    PostLinesAppend(map[], w, lines);
    PostLinesAppend(map[], w + lines, x);
    var d := PostLines(b, lines);
    BalanceIsAccountSum(w, a);
    BalanceIsAccountSum(w + lines, a);
    MentionsAppend(w, lines, a);
    if a in b {
      AccountsAreForever(b, x, a);
      AccountsAreForever(b, lines, a);
      AccountsAreForever(d, x, a);
    } else if Mentions(lines, a) {
      NewAccountsTakeTheEntryCurrency(b, lines, c, a);
      AccountsAreForever(d, x, a);
    } else {
      NewInBoth(b, d, x, a);
    }
  }

  /**
   An account of the run without the entry is restored, amount and currency, exactly when it was held
   before the entry, or the entry does not touch it, or its first line after is in the entry's currency.
   */
  lemma {:induction false} RestoredIff(
      before: seq<LedgerEvent>, posted: LedgerEvent, later: seq<LedgerEvent>, reversal: LedgerEvent,
      a: AccountId, c: Currency)
    requires posted.JournalEntryPosted? && reversal.EntryReversed? && reversal.originalId == posted.id
    requires Legal(before + [posted] + later + [reversal])
    requires BalancedIn(posted.lines, c) && a in Replay(before + later).balances
    ensures var s, u := Replay(before + [posted] + later + [reversal]).balances, Replay(before + later).balances;
            && a in s
            && (s[a] == u[a]
                <==> a in Replay(before).balances || !Mentions(posted.lines, a) || u[a].currency == c)
  {
    var run := before + [posted] + later;
    var w := AllLines(before);
    ReversedRun(before, posted, later, reversal);
    ReversalCancelsIff(before, posted, later, reversal, a);
    ReplayBalances(before);
    ReplayBalances(before + later);
    ReplayBalances(run);
    ReplayBalances(run + [reversal]);
    var x :| AllLines(run) == w + posted.lines + x && AllLines(before + later) == w + x;
    CurrencyWithoutIff(w, posted.lines, x, a, c);
    PostLinesAppend(map[], AllLines(run), Mirror(posted.lines));
    AccountsAreForever(BalancesOf(AllLines(run)), Mirror(posted.lines), a);
  }

  /**
   It can fail: dollars posted to a new account, then euros, then the dollars reversed leave it at no
   dollars, and the run without the dollars at five euros.
   */
  lemma {:induction false} ReversalCanLeaveAnotherCurrency()
    ensures var posted, later, reversal := MixedLog()[0], MixedLog()[1], EntryReversed(0, 2, "");
            && Legal([] + [posted] + [later] + [reversal])
            && 1 in Replay([] + [later]).balances && 1 in Replay([] + [posted] + [later] + [reversal]).balances
            && Replay([] + [posted] + [later] + [reversal]).balances[1] != Replay([] + [later]).balances[1]
  {
    var posted, later, reversal := MixedLog()[0], MixedLog()[1], EntryReversed(0, 2, "");
    assert [] + [posted] + [later] == MixedLog();
    MixedLogIsLegal();
    LegalAppend(MixedLog(), reversal);
    ProducedIsAllowed(Replay(MixedLog()), reversal, 2);
    AfterEurosAlone();
    assert [] + [later] == [later];
    assert posted.lines[0] == Line5(1, true, Usd) && Touches(posted.lines[0], 1);
    var c := CurrencyOfPosted([], posted, [later], reversal);
    assert LineIn(posted.lines[0], c);
    RestoredIff([], posted, [later], reversal, 1, c);
  }

  lemma {:induction false} AfterEurosAlone()
    ensures var b := Replay([MixedLog()[1]]).balances; 1 in b && b[1].currency == Eur
  {
    var later := MixedLog()[1];
    assert [later][..0] == [];
    assert Replay([later]) == Apply(EMPTY_STATE, later);
    PostTwo(map[], later.lines);
  }

  /** In any mix of currencies, an account held before the entry is restored. */
  lemma {:induction false} HeldBeforeIsRestored(
      before: seq<LedgerEvent>, posted: LedgerEvent, later: seq<LedgerEvent>, reversal: LedgerEvent, a: AccountId)
    requires posted.JournalEntryPosted? && reversal.EntryReversed? && reversal.originalId == posted.id
    requires Legal(before + [posted] + later + [reversal]) && a in Replay(before).balances
    ensures a in Replay(before + later).balances && a in Replay(before + [posted] + later + [reversal]).balances
    ensures Replay(before + [posted] + later + [reversal]).balances[a] == Replay(before + later).balances[a]
  {
    var run := before + [posted] + later;
    var w := AllLines(before);
    ReversedRun(before, posted, later, reversal);
    ReplayBalances(before);
    ReplayBalances(before + later);
    var x :| AllLines(run) == w + posted.lines + x && AllLines(before + later) == w + x;
    PostLinesAppend(map[], w, x);
    AccountsAreForever(BalancesOf(w), x, a);
    var c := CurrencyOfPosted(before, posted, later, reversal);
    RestoredIff(before, posted, later, reversal, a, c);
  }

  lemma {:induction false} CurrencyOfPosted(
      before: seq<LedgerEvent>, posted: LedgerEvent, later: seq<LedgerEvent>, reversal: LedgerEvent)
    returns (c: Currency)
    requires posted.JournalEntryPosted? && Legal(before + [posted] + later + [reversal])
    ensures BalancedIn(posted.lines, c)
  {
    var log := before + [posted] + later + [reversal];
    assert log[..|before|] == before && log[|before|] == posted;
    LegalAt(log, |before|);
    c :| BalancedIn(posted.lines, c);
  }

  /** The same account in both runs, in the same currency, or nothing in the one and no account in the other. */
  ghost predicate SameBalance(s: Balances, u: Balances, a: AccountId) {
    && (a in u ==> a in s && s[a] == u[a])
    && (a in s && a !in u ==> s[a].amount == 0.0)
  }

  /**
   Post an entry, let anything else happen, reverse it: the run without the entry is itself legal,
   every account has that run's balance if each is written in one currency, and the entry and its
   reversal both stay recorded.
   */
  lemma {:induction false} ReversalCancelsAtADistance(
      before: seq<LedgerEvent>, posted: LedgerEvent, later: seq<LedgerEvent>, reversal: LedgerEvent)
    requires posted.JournalEntryPosted? && reversal.EntryReversed? && reversal.originalId == posted.id
    requires Legal(before + [posted] + later + [reversal])
    ensures Legal(before + later)
    ensures var s := Replay(before + [posted] + later + [reversal]);
            && posted.id in s.entries && s.entries[posted.id] == posted.lines
            && reversal.reversalId in s.entries && s.entries[reversal.reversalId] == Mirror(posted.lines)
    ensures OneCurrencyPerAccount(AllLines(before + [posted] + later + [reversal])) ==>
              forall a :: SameBalance(Replay(before + [posted] + later + [reversal]).balances,
                                      Replay(before + later).balances, a)
  {
    ReversedRun(before, posted, later, reversal);
    if OneCurrencyPerAccount(AllLines(before + [posted] + later + [reversal])) {
      forall a ensures SameBalance(Replay(before + [posted] + later + [reversal]).balances,
                                   Replay(before + later).balances, a) {
        CancelsInOneCurrency(before, posted, later, reversal, a);
      }
    }
  }

  lemma {:induction false} SameCurrencyOfLess(
      w: seq<JournalLine>, lines: seq<JournalLine>, run: seq<JournalLine>, less: seq<JournalLine>, a: AccountId)
    requires SameLinesBut(w, lines, run, less) && OneCurrencyPerAccount(run + Mirror(lines))
    requires a in BalancesOf(less)
    ensures a in BalancesOf(run + Mirror(lines))
    ensures BalancesOf(run + Mirror(lines))[a].currency == BalancesOf(less)[a].currency
  {
    var x :| run == w + lines + x && less == w + x;
    var full := run + Mirror(lines);
    CurrencyComesFromALine(less, a);
    var i :| 0 <= i < |less| && Touches(less[i], a)
             && less[i].SignedAmount().value.currency == BalancesOf(less)[a].currency;
    var k := if i < |w| then i else i + |lines|;
    assert full[k] == less[i];
    CurrencyIsThatOfEveryLine(full, k);
  }

  lemma {:induction false} CancelsInOneCurrency(
      before: seq<LedgerEvent>, posted: LedgerEvent, later: seq<LedgerEvent>, reversal: LedgerEvent, a: AccountId)
    requires posted.JournalEntryPosted? && reversal.EntryReversed? && reversal.originalId == posted.id
    requires Legal(before + [posted] + later + [reversal])
    requires OneCurrencyPerAccount(AllLines(before + [posted] + later + [reversal]))
    ensures SameBalance(Replay(before + [posted] + later + [reversal]).balances, Replay(before + later).balances, a)
  {
    var run := before + [posted] + later;
    ReversedRun(before, posted, later, reversal);
    ReversalCancelsIff(before, posted, later, reversal, a);
    ReplayBalances(run + [reversal]);
    ReplayBalances(before + later);
    if a in BalancesOf(AllLines(before + later)) {
      SameCurrencyOfLess(AllLines(before), posted.lines, AllLines(run), AllLines(before + later), a);
    }
  }
}
