/** What the store allows a writer that does not reload: an exact count of refusals, and three bad runs. */
module StaleRetry {
  import opened Wrappers
  import opened CoreMoney
  import opened Ledger
  import opened EntryLaws
  import opened LedgerLaws
  import opened EventStore
  import opened CommitHistory
  import opened Protocol

  /**
   Retrying on the state one has. Each refusal moves the sequence number on by one, so a writer that
   loaded `sequence` events of a longer stream is refused exactly once for each event it missed, and
   then commits, still decided on the stale state.
   */
  lemma {:induction false} RefusedThenStaleCommits(
      t: Table, aggregate: AggregateId, log: seq<LedgerEvent>, sequence: nat, refusals: nat, batch: seq<LedgerEvent>)
    requires Holds(t, aggregate, log) && sequence + refusals <= |log| && batch != []
    ensures FreeSlots(t, aggregate, sequence + refusals, |batch|)
            == if refusals == |log| - sequence then |batch| else 0
  {
    CommitsIffCurrent(t, aggregate, log, sequence + refusals, batch);
  }

  const CAPITALIZE := ChangeCapitalizationStatus(7, Capitalized, 0)
  const CAPITALIZING := CapitalizationStatusChanged(7, PendingReview, Capitalized, 0)

  function Deciding(sequence: int, freshId: EntryId): Writer {
    Decided(0, sequence, 0, EMPTY_STATE, CAPITALIZE, freshId, [CAPITALIZING])
  }

  function CommitAt(base: int, freshId: EntryId): Commit {
    Commit(0, base, 0, CAPITALIZE, freshId, [CAPITALIZING])
  }

  /** Two writers capitalize the same run; the loser persists again without reloading. */
  function BadSteps(): seq<Step> {
    [Load(0, 0, []), Load(1, 0, []), Decide(0, CAPITALIZE, 0), Decide(1, CAPITALIZE, 1),
     Persist(0, None, true), Persist(1, None, false), Persist(1, None, false)]
  }

  function BadTrace(): seq<System> {
    var loaded := Loaded(0, 0, 0, EMPTY_STATE);
    var one := map[Key(0, 1) := CAPITALIZING];
    [START,
     System(map[], map[0 := loaded], {}, []),
     System(map[], map[0 := loaded, 1 := loaded], {}, []),
     System(map[], map[0 := Deciding(0, 0), 1 := loaded], {0}, []),
     System(map[], map[0 := Deciding(0, 0), 1 := Deciding(0, 1)], {0, 1}, []),
     System(one, map[0 := Idle, 1 := Deciding(0, 1)], {0, 1}, [CommitAt(0, 0)]),
     System(one, map[0 := Idle, 1 := Deciding(1, 1)], {0, 1}, [CommitAt(0, 0)]),
     System(one[Key(0, 2) := CAPITALIZING], map[0 := Idle, 1 := Deciding(2, 1)], {0, 1},
            [CommitAt(0, 0), CommitAt(1, 1)])]
  }

  /**
   Without the reload the rules do not survive: in that run two events take the same run out of
   pending review. The second writer was told of the conflict, and committed all the same.
   */
  lemma {:induction false} RetryWithoutReloadBreaksTheRules()
    ensures Run(BadTrace(), BadSteps())
    ensures var s := BadTrace()[7];
            var log := SerialLog(s.history, 0);
            && Holds(s.table, 0, log)
            && !Chained(CapitalizationHistory(log, 7))
            && !Legal(log)
  {
    BadRunIsARun();
    BadLog();
    OneRow(map[], 0, CAPITALIZING);
    OneRow(map[Key(0, 1) := CAPITALIZING], 1, CAPITALIZING);
  }

  lemma {:induction false} BrokenChain()
    ensures !Chained([StatusChange(PendingReview, Capitalized), StatusChange(PendingReview, Capitalized)])
  {
    var h := [StatusChange(PendingReview, Capitalized), StatusChange(PendingReview, Capitalized)];
    assert h[1 - 1].to == Capitalized && h[1].from == PendingReview;
  }

  lemma {:induction false} BadLog()
    ensures var log := [CAPITALIZING, CAPITALIZING];
            && SerialLog([CommitAt(0, 0), CommitAt(1, 1)], 0) == log
            && !Chained(CapitalizationHistory(log, 7))
            && !Legal(log)
  {
    var history, log := [CommitAt(0, 0), CommitAt(1, 1)], [CAPITALIZING, CAPITALIZING];
    assert history[..1] == [CommitAt(0, 0)] && history[..1][..0] == [];
    assert SerialLog(history[..1], 0) == [CAPITALIZING];
    assert log[..1] == [CAPITALIZING] && log[..1][..0] == [];
    assert CapitalizationHistory([CAPITALIZING], 7) == [StatusChange(PendingReview, Capitalized)];
    assert CapitalizationHistory(log, 7)
           == [StatusChange(PendingReview, Capitalized), StatusChange(PendingReview, Capitalized)];
    BrokenChain();
    if Legal(log) {
      CapitalizationChains(log, 7);
    }
  }

  lemma {:induction false} BadRunIsARun()
    ensures Run(BadTrace(), BadSteps())
  {
    var trace, steps := BadTrace(), BadSteps();
    FirstCommits();
    SecondIsRefused();
    SecondCommitsAllTheSame();
    forall i | 0 <= i < |steps| ensures Next(trace[i], trace[i + 1], steps[i]) {
      if i < 4 {
        BadRunReads(i);
      }
    }
  }

  lemma {:induction false} BadRunReads(i: nat)
    requires i < 4
    ensures Next(BadTrace()[i], BadTrace()[i + 1], BadSteps()[i])
  {
    assert Payloads([]) == [];
    assert IsStream([], map[], 0);
    assert Handle(EMPTY_STATE, CAPITALIZE, 0) == Handle(EMPTY_STATE, CAPITALIZE, 1) == Success([CAPITALIZING]);
  }

  lemma {:induction false} FirstCommits()
    ensures Next(BadTrace()[4], BadTrace()[5], BadSteps()[4])
  {
    OneRow(map[], 0, CAPITALIZING);
    assert BadTrace()[4].writers[0 := Idle] == BadTrace()[5].writers;
  }

  lemma {:induction false} SecondIsRefused()
    ensures Next(BadTrace()[5], BadTrace()[6], BadSteps()[5])
  {
    OneRow(map[Key(0, 1) := CAPITALIZING], 0, CAPITALIZING);
    assert BadTrace()[5].writers[1 := Deciding(1, 1)] == BadTrace()[6].writers;
  }

  lemma {:induction false} SecondCommitsAllTheSame()
    ensures Next(BadTrace()[6], BadTrace()[7], BadSteps()[6])
  {
    OneRow(map[Key(0, 1) := CAPITALIZING], 1, CAPITALIZING);
    assert BadTrace()[6].writers[1 := Deciding(2, 1)] == BadTrace()[7].writers;
  }

  lemma OneRow(t: Table, last: int, e: LedgerEvent)
    ensures FreeSlots(t, 0, last, 1) == if Key(0, last + 1) in t then 0 else 1
    ensures Appended(t, 0, last, [e]) == t[Key(0, last + 1) := e]
  {
    assert FreeSlots(t, 0, last, 0) == 0;
    assert [e][..0] == [];
  }

  // ---------------------------------------------------------------------------
  // The same events again after they landed
  // ---------------------------------------------------------------------------

  const POSTED := Transfer5(0, 1, 2, Usd)
  const POST := PostJournalEntry(POSTED.lines)

  function Posting(sequence: int): Writer {
    Decided(0, sequence, 0, EMPTY_STATE, POST, 0, [POSTED])
  }

  function PostingAt(base: int): Commit {
    Commit(0, base, 0, POST, 0, [POSTED])
  }

  /** One writer, alone: it persists what landed once more, as after an answer that was lost. */
  function TwiceSteps(): seq<Step> {
    [Load(0, 0, []), Decide(0, POST, 0), Persist(0, None, false), Persist(0, None, false)]
  }

  function TwiceTrace(): seq<System> {
    var one := map[Key(0, 1) := POSTED];
    [START,
     System(map[], map[0 := Loaded(0, 0, 0, EMPTY_STATE)], {}, []),
     System(map[], map[0 := Posting(0)], {0}, []),
     System(one, map[0 := Posting(1)], {0}, [PostingAt(0)]),
     System(one[Key(0, 2) := POSTED], map[0 := Posting(2)], {0}, [PostingAt(0), PostingAt(1)])]
  }

  lemma {:induction false} PostIsAccepted()
    ensures Handle(EMPTY_STATE, POST, 0) == Success([POSTED])
  {
    TwoLinesBalance(1, 2, Usd);
    AcceptanceIsBalance(EMPTY_STATE, POSTED.lines, 0);
  }

  lemma {:induction false} TwiceDecides(i: nat)
    requires i < 2
    ensures Next(TwiceTrace()[i], TwiceTrace()[i + 1], TwiceSteps()[i])
  {
    PostIsAccepted();
    assert Payloads([]) == [] && IsStream([], map[], 0);
  }

  lemma {:induction false} TwiceLands(i: nat)
    requires i == 2 || i == 3
    ensures Next(TwiceTrace()[i], TwiceTrace()[i + 1], TwiceSteps()[i])
  {
    OneRow(TwiceTrace()[i].table, i - 2, POSTED);
    assert TwiceTrace()[i].writers[0 := Posting(i - 1)] == TwiceTrace()[i + 1].writers;
  }

  lemma {:induction false} TwiceIsARun()
    ensures Run(TwiceTrace(), TwiceSteps())
  {
    TwiceDecides(0);
    TwiceDecides(1);
    TwiceLands(2);
    TwiceLands(3);
  }

  lemma {:induction false} TwiceLog()
    ensures SerialLog([PostingAt(0)], 0) == [POSTED]
    ensures 0 in Replay([POSTED]).entries && !Legal([POSTED, POSTED])
  {
    assert [PostingAt(0)][..0] == [] && [POSTED][..0] == [];
    var log := [POSTED, POSTED];
    assert log[..1] == [POSTED];
    if Legal(log) {
      LegalAt(log, 1);
    }
  }

  /**
   Neither commit missed anything, and both were in line, yet the entry is recorded twice under one
   id: the id is the condition that fails.
   */
  lemma {:induction false} PersistingTwicePostsTwice()
    ensures Run(TwiceTrace(), TwiceSteps())
    ensures var s := TwiceTrace()[4];
            && Holds(s.table, 0, [POSTED, POSTED]) && !Legal([POSTED, POSTED])
            && |s.history| == 2
            && (forall i :: 0 <= i < 2 ==> InLine(s.history, i) && MissedNothing(s.history, i))
            && !NewId(s.history, 1)
  {
    var history := [PostingAt(0), PostingAt(1)];
    TwiceIsARun();
    TwiceLog();
    assert history[..1] == [PostingAt(0)] && history[..0] == [];
    assert StreamBefore(history, 0) == [] && StreamBefore(history, 1) == [POSTED];
  }

  // ---------------------------------------------------------------------------
  // Again after the backend failed
  // ---------------------------------------------------------------------------

  function GapSteps(): seq<Step> {
    [Load(0, 0, []), Decide(0, CAPITALIZE, 0), Persist(0, Some(1), false), Persist(0, None, false)]
  }

  function GapTrace(): seq<System> {
    [START,
     System(map[], map[0 := Loaded(0, 0, 0, EMPTY_STATE)], {}, []),
     System(map[], map[0 := Deciding(0, 0)], {0}, []),
     System(map[], map[0 := Deciding(1, 0)], {0}, []),
     System(map[Key(0, 2) := CAPITALIZING], map[0 := Deciding(2, 0)], {0}, [CommitAt(1, 0)])]
  }

  lemma {:induction false} GapDecides(i: nat)
    requires i < 2
    ensures Next(GapTrace()[i], GapTrace()[i + 1], GapSteps()[i])
  {
    assert Payloads([]) == [] && IsStream([], map[], 0);
  }

  lemma {:induction false} GapPersists(i: nat)
    requires i == 2 || i == 3
    ensures Next(GapTrace()[i], GapTrace()[i + 1], GapSteps()[i])
  {
    OneRow(map[], i - 2, CAPITALIZING);
    assert GapTrace()[i].writers[0 := Deciding(i - 1, 0)] == GapTrace()[i + 1].writers;
  }

  lemma {:induction false} GapIsARun()
    ensures Run(GapTrace(), GapSteps())
  {
    GapDecides(0);
    GapDecides(1);
    GapPersists(2);
    GapPersists(3);
  }

  /** The number a failed transaction took is not given back: trying again leaves the stream without a first row. */
  lemma {:induction false} FailureLeavesAGap()
    ensures Run(GapTrace(), GapSteps())
    ensures !IsNumbered(GapTrace()[4].table, 0)
  {
    GapIsARun();
    OneRow(map[], 1, CAPITALIZING);
    GapShows(map[], 0, [], 1, [CAPITALIZING]);
  }
}
