/**
 Histories of commits to a table of streams: what each was decided on, what it was put after, and
 when the streams they make are logs the handler could have produced.
 */
module CommitHistory {
  import opened Wrappers
  import opened Ledger
  import opened LedgerLaws
  import opened EventStore
  import opened StaleDecisions

  /** One committed batch: what was decided, on how many events, and where it was put. */
  datatype Commit = Commit(
    aggregate: AggregateId, base: int, seen: int,
    command: LedgerCommand, freshId: EntryId, batch: seq<LedgerEvent>)

  /** The events committed for one aggregate, in commit order. */
  function SerialLog(history: seq<Commit>, aggregate: AggregateId): seq<LedgerEvent> {
    if history == [] then []
    else
      var last := history[|history| - 1];
      SerialLog(history[..|history| - 1], aggregate) + (if last.aggregate == aggregate then last.batch else [])
  }

  /** What the commit's aggregate held just before it. */
  function StreamBefore(history: seq<Commit>, i: nat): seq<LedgerEvent>
    requires i < |history|
  {
    SerialLog(history[..i], history[i].aggregate)
  }

  /**
   The commit was decided by the handler on the replay of exactly what its aggregate held just
   before, and was numbered from there.
   */
  ghost predicate DecidedOnPrefix(history: seq<Commit>, i: nat)
    requires i < |history|
  {
    var c, before := history[i], StreamBefore(history, i);
    c.base == |before| && Handle(Replay(before), c.command, c.freshId) == Success(c.batch)
  }

  /** The batch was put right after what its stream held. */
  ghost predicate InLine(history: seq<Commit>, i: nat)
    requires i < |history|
  {
    history[i].base == |StreamBefore(history, i)|
  }

  ghost predicate AllInLine(history: seq<Commit>) {
    forall i :: 0 <= i < |history| ==> InLine(history, i)
  }

  /** In line, and decided by the handler on some prefix of the stream it was put after. */
  ghost predicate CommitOk(history: seq<Commit>, i: nat)
    requires i < |history|
  {
    var c, before := history[i], StreamBefore(history, i);
    && InLine(history, i)
    && 0 <= c.seen <= |before|
    && Handle(Replay(before[..c.seen]), c.command, c.freshId) == Success(c.batch)
  }

  /** The events between what the writer had seen and its commit do not touch what its command reads. */
  ghost predicate MissedNothing(history: seq<Commit>, i: nat)
    requires i < |history|
  {
    var c, before := history[i], StreamBefore(history, i);
    0 <= c.seen <= |before| && Untouched(before, c.seen, c.command)
  }

  /** What the commit records, if anything, is not recorded already. */
  ghost predicate NewId(history: seq<Commit>, i: nat)
    requires i < |history|
  {
    var c := history[i];
    c.command.ChangeCapitalizationStatus? || c.freshId !in Replay(StreamBefore(history, i)).entries
  }

  ghost predicate AllNew(history: seq<Commit>) {
    forall i :: 0 <= i < |history| ==> NewId(history, i)
  }

  /** Right after the stream, nothing missed that is read, nothing recorded twice. */
  ghost predicate KeepsTheRules(history: seq<Commit>, i: nat)
    requires i < |history|
  {
    InLine(history, i) && MissedNothing(history, i) && NewId(history, i)
  }

  ghost predicate AllKeepTheRules(history: seq<Commit>) {
    forall i :: 0 <= i < |history| ==> KeepsTheRules(history, i)
  }

  function CommitIds(history: seq<Commit>): set<EntryId> {
    set i | 0 <= i < |history| :: history[i].freshId
  }

  ghost predicate HistoryOk(history: seq<Commit>) {
    forall i :: 0 <= i < |history| ==> CommitOk(history, i)
  }

  ghost predicate Serial(history: seq<Commit>) {
    forall i :: 0 <= i < |history| ==> DecidedOnPrefix(history, i)
  }

  ghost predicate LogsAreLegal(history: seq<Commit>) {
    forall aggregate :: Legal(SerialLog(history, aggregate))
  }

  lemma SerialLogAppend(history: seq<Commit>, c: Commit, aggregate: AggregateId)
    ensures SerialLog(history + [c], aggregate)
            == SerialLog(history, aggregate) + (if c.aggregate == aggregate then c.batch else [])
  {
    assert (history + [c])[..|history|] == history;
  }

  lemma CommitIdsAppend(history: seq<Commit>, c: Commit)
    ensures CommitIds(history + [c]) == CommitIds(history) + {c.freshId}
  {
    var more := history + [c];
    assert more[|history|] == c;
    assert forall i :: 0 <= i < |history| ==> more[i] == history[i];
    forall i | 0 <= i < |history| ensures history[i].freshId in CommitIds(more) {
      assert more[i].freshId in CommitIds(more);
    }
    assert more[|history|].freshId in CommitIds(more);
  }

  /** A stream only grows. */
  lemma {:induction false} SerialLogGrows(history: seq<Commit>, n: nat, aggregate: AggregateId)
    requires n <= |history|
    ensures SerialLog(history[..n], aggregate) <= SerialLog(history, aggregate)
  {
    if n < |history| {
      assert history[..|history| - 1][..n] == history[..n];
      SerialLogGrows(history[..|history| - 1], n, aggregate);
    } else {
      assert history[..n] == history;
    }
  }

  lemma OkIsInLine(history: seq<Commit>)
    requires HistoryOk(history)
    ensures AllInLine(history)
  {
    forall i | 0 <= i < |history| ensures InLine(history, i) {
      assert CommitOk(history, i);
    }
  }

  lemma KeptIsInLine(history: seq<Commit>)
    requires AllKeepTheRules(history)
    ensures AllInLine(history)
  {
    forall i | 0 <= i < |history| ensures InLine(history, i) {
      assert KeepsTheRules(history, i);
    }
  }

  lemma {:induction false} HistoryOkPrefix(history: seq<Commit>, n: nat)
    requires HistoryOk(history) && n <= |history|
    ensures HistoryOk(history[..n])
  {
    forall i | 0 <= i < n ensures CommitOk(history[..n], i) {
      assert CommitOk(history, i) && history[..n][..i] == history[..i];
    }
  }

  /** A commit is serial exactly when it missed nothing that its command reads. */
  lemma {:induction false} CommitIsSerialIff(history: seq<Commit>, i: nat)
    requires i < |history| && CommitOk(history, i)
    ensures DecidedOnPrefix(history, i) <==> MissedNothing(history, i)
  {
    var c := history[i];
    StaleDecisionHoldsIff(StreamBefore(history, i), c.seen, c.command, c.freshId, c.batch);
  }

  lemma EntriesAfter(s: LedgerState, e: LedgerEvent)
    ensures Apply(s, e).entries.Keys <= s.entries.Keys + (if EntryIdOf(e).Some? then {EntryIdOf(e).value} else {})
  {
  }

  /** Every entry in a stream was minted by one of the commits. */
  lemma {:induction false} EntriesWereCommitted(history: seq<Commit>, aggregate: AggregateId, id: EntryId)
    requires HistoryOk(history) && id in Replay(SerialLog(history, aggregate)).entries
    ensures id in CommitIds(history)
  {
    var n := |history| - 1;
    if history != [] {
      var c, front := history[n], history[..n];
      HistoryOkPrefix(history, n);
      CommitIdsAppend(front, c);
      assert front + [c] == history && CommitOk(history, n);
      if c.aggregate == aggregate {
        EventIsTheDecided(Replay(StreamBefore(history, n)[..c.seen]), c);
        EntriesAfter(Replay(SerialLog(front, aggregate)), c.batch[0]);
        LegalAppend(SerialLog(front, aggregate), c.batch[0]);
      } else {
        assert SerialLog(history, aggregate) == SerialLog(front, aggregate);
      }
      if id in Replay(SerialLog(front, aggregate)).entries {
        EntriesWereCommitted(front, aggregate, id);
      }
    }
  }

  lemma EventIsTheDecided(s: LedgerState, c: Commit)
    requires Handle(s, c.command, c.freshId) == Success(c.batch)
    ensures c.batch == [c.batch[0]]
    ensures EntryIdOf(c.batch[0]).Some? ==> EntryIdOf(c.batch[0]).value == c.freshId
  {
  }

  /** The first commits, as a history of their own. */
  lemma OnFront(history: seq<Commit>, n: nat, i: nat)
    requires i < n <= |history|
    ensures history[..n][i] == history[i] && history[..n][..i] == history[..i]
    ensures InLine(history[..n], i) == InLine(history, i)
    ensures KeepsTheRules(history[..n], i) == KeepsTheRules(history, i)
    ensures DecidedOnPrefix(history[..n], i) == DecidedOnPrefix(history, i)
    ensures NewId(history[..n], i) == NewId(history, i)
  {
    assert history[..n][..i] == history[..i];
  }

  /** A legal stream stays legal with a commit exactly when that was serial and recorded a new id. */
  lemma {:induction false} LegalWithCommitIff(before: seq<LedgerEvent>, was: LedgerState, c: Commit)
    requires Legal(before) && Handle(was, c.command, c.freshId) == Success(c.batch)
    ensures Legal(before + c.batch) <==>
              && Handle(Replay(before), c.command, c.freshId) == Success(c.batch)
              && (c.command.ChangeCapitalizationStatus? || c.freshId !in Replay(before).entries)
  {
    var unused := UnusedId(Replay(before).entries.Keys);
    EventIsTheDecided(was, c);
    LegalAppend(before, c.batch[0]);
    ProducedIsAllowed(Replay(before), c.batch[0], unused);
    AllowedIsDecided(was, Replay(before), c.command, c.freshId, c.batch);
  }

  /** The stream a commit went to is legal exactly when it was before and the commit keeps the rules. */
  lemma {:induction false} LastStreamIsLegalIff(history: seq<Commit>)
    requires history != [] && CommitOk(history, |history| - 1)
    ensures var n := |history| - 1;
            var aggregate := history[n].aggregate;
            Legal(SerialLog(history, aggregate))
            <==> Legal(SerialLog(history[..n], aggregate)) && KeepsTheRules(history, n)
  {
    var n := |history| - 1;
    var c, before := history[n], StreamBefore(history, n);
    var was := Replay(before[..c.seen]);
    CommitIsSerialIff(history, n);
    EventIsTheDecided(was, c);
    LegalAppend(before, c.batch[0]);
    if Legal(before) {
      LegalWithCommitIff(before, was, c);
    }
  }

  /** Of a history's streams only that of its last commit differs from what it was before. */
  lemma {:induction false} LogsAreLegalOfFront(history: seq<Commit>)
    requires history != [] && HistoryOk(history)
    ensures var n := |history| - 1;
            LogsAreLegal(history) <==> LogsAreLegal(history[..n]) && KeepsTheRules(history, n)
  {
    var n := |history| - 1;
    var aggregate, front := history[n].aggregate, history[..n];
    assert CommitOk(history, n);
    LastStreamIsLegalIff(history);
    forall other | other != aggregate ensures SerialLog(history, other) == SerialLog(front, other) {
      assert SerialLog(front, other) + [] == SerialLog(front, other);
    }
    if LogsAreLegal(history) {
      assert Legal(SerialLog(history, aggregate));
      forall other ensures Legal(SerialLog(front, other)) {
        assert Legal(SerialLog(history, other));
      }
    }
    if LogsAreLegal(front) && KeepsTheRules(history, n) {
      forall other ensures Legal(SerialLog(history, other)) {
        assert Legal(SerialLog(front, other));
      }
    }
  }

  /**
   All the streams are logs the handler could have produced exactly when no commit missed what its
   command reads, or recorded an entry under an id its stream already had.
   */
  lemma {:induction false} LegalIffRulesAreKept(history: seq<Commit>)
    requires HistoryOk(history)
    ensures LogsAreLegal(history)
            <==> forall i :: 0 <= i < |history| ==> MissedNothing(history, i) && NewId(history, i)
    ensures LogsAreLegal(history) <==> AllKeepTheRules(history)
    ensures LogsAreLegal(history) <==> Serial(history) && AllNew(history)
  {
    forall i | 0 <= i < |history|
      ensures KeepsTheRules(history, i) <==> MissedNothing(history, i) && NewId(history, i)
      ensures KeepsTheRules(history, i) <==> DecidedOnPrefix(history, i) && NewId(history, i)
    {
      assert CommitOk(history, i);
      CommitIsSerialIff(history, i);
    }
    LegalIffAllKeep(history);
  }

  lemma {:induction false} LegalIffAllKeep(history: seq<Commit>)
    requires HistoryOk(history)
    ensures LogsAreLegal(history) <==> AllKeepTheRules(history)
  {
    if history != [] {
      var n := |history| - 1;
      HistoryOkPrefix(history, n);
      LegalIffAllKeep(history[..n]);
      LogsAreLegalOfFront(history);
      forall i | 0 <= i < n ensures KeepsTheRules(history[..n], i) == KeepsTheRules(history, i) {
        OnFront(history, n, i);
      }
    }
  }
}
