/**
 Any number of writers over one event table, interleaved step by step: load a stream, decide a
 command on it, try to persist. After each attempt a writer either lets go of its state, to load
 again, or keeps it as the store leaves it; which of the two is its own choice, every time.
 */
module Protocol {
  import opened Wrappers
  import opened Ledger
  import opened LedgerLaws
  import opened EventStore
  import opened CommitHistory

  type WriterId = nat

  /**
   `sequence` is the number the store advances, `seen` how many events `inner` is the replay of.
   The two part when a writer persists, or fails to, and carries on.
   */
  datatype Writer =
    | Idle
    | Loaded(aggregate: AggregateId, sequence: int, seen: int, inner: LedgerState)
    | Decided(
        aggregate: AggregateId, sequence: int, seen: int, inner: LedgerState,
        command: LedgerCommand, freshId: EntryId, batch: seq<LedgerEvent>)

  /** `history` and `minted` record what happened; no step reads them except to mint afresh. */
  datatype System = System(
    table: Table, writers: map<WriterId, Writer>, minted: set<EntryId>, history: seq<Commit>)
  {
    function At(w: WriterId): Writer {
      if w in writers then writers[w] else Idle
    }
  }

  const START := System(map[], map[], {}, [])

  datatype Step =
    | Load(w: WriterId, aggregate: AggregateId, rows: seq<StoreEvent>)
    | Decide(w: WriterId, command: LedgerCommand, freshId: EntryId)
    | Persist(w: WriterId, fault: Option<nat>, letGo: bool)
    | Abandon(w: WriterId)

  /**
   Commit, conflict, or a backend that fails, in one step. A writer that keeps its state may persist
   the same events again, whether they landed or not, or decide something else on what it has.
   */
  function PersistStep(s: System, w: WriterId, fault: Option<nat>, letGo: bool): System
    requires s.At(w).Decided?
  {
    var d := s.At(w);
    var free := FreeSlots(s.table, d.aggregate, d.sequence, |d.batch|);
    var writers :=
      s.writers[w := if letGo then Idle else d.(sequence := d.sequence + Advance(free, |d.batch|, fault))];
    if Lands(free, |d.batch|, fault) then
      System(
        Appended(s.table, d.aggregate, d.sequence, d.batch), writers, s.minted,
        s.history + [Commit(d.aggregate, d.sequence, d.seen, d.command, d.freshId, d.batch)])
    else
      s.(writers := writers)
  }

  ghost predicate Next(s: System, t: System, step: Step) {
    match step
    case Load(w, aggregate, rows) =>
      && IsStream(rows, s.table, aggregate)
      && t == s.(writers :=
           s.writers[w := Loaded(aggregate, LastSequence(rows), |rows|, Replay(Payloads(rows)))])
    case Decide(w, command, freshId) =>
      && !s.At(w).Idle?
      && freshId !in s.minted
      && var l := s.At(w);
         var r := Handle(l.inner, command, freshId);
         t == s.(minted := s.minted + {freshId},
                 writers := s.writers[w :=
                   if r.Success? then Decided(l.aggregate, l.sequence, l.seen, l.inner, command, freshId, r.value)
                   else Loaded(l.aggregate, l.sequence, l.seen, l.inner)])
    case Persist(w, fault, letGo) =>
      s.At(w).Decided? && t == PersistStep(s, w, fault, letGo)
    case Abandon(w) =>
      t == s.(writers := s.writers[w := Idle])
  }

  /** A finite run from the empty table. */
  ghost predicate Run(trace: seq<System>, steps: seq<Step>) {
    && |trace| == |steps| + 1
    && trace[0] == START
    && forall i :: 0 <= i < |steps| ==> Next(trace[i], trace[i + 1], steps[i])
  }

  predicate LoadsBetween(steps: seq<Step>, j: int, i: int, w: WriterId) {
    exists l :: 0 <= j < l < i <= |steps| && steps[l].Load? && steps[l].w == w
  }

  predicate KeepsState(step: Step, w: WriterId) {
    step.Persist? && step.w == w && !step.letGo
  }

  /** After each persist that kept its state, the writer has loaded again before step `i`. */
  predicate Reloads(steps: seq<Step>, i: nat, w: WriterId)
    requires i <= |steps|
  {
    forall j :: 0 <= j < i && KeepsState(steps[j], w) ==> LoadsBetween(steps, j, i, w)
  }

  /** Every writer reloads before every persist. */
  predicate Disciplined(steps: seq<Step>) {
    forall i :: 0 <= i < |steps| && steps[i].Persist? ==> Reloads(steps, i, steps[i].w)
  }

  // ---------------------------------------------------------------------------
  // The invariant
  // ---------------------------------------------------------------------------

  /** The table is the serial history, stream by stream, each numbered from 1 without a gap. */
  ghost predicate TableIsHistory(s: System) {
    forall aggregate :: Holds(s.table, aggregate, SerialLog(s.history, aggregate))
  }

  /** What a writer holds is the replay of a prefix of the stream. */
  ghost predicate HoldsPrefix(history: seq<Commit>, w: Writer)
    requires !w.Idle?
  {
    var log := SerialLog(history, w.aggregate);
    0 <= w.seen <= w.sequence && w.seen <= |log| && w.inner == Replay(log[..w.seen])
  }

  ghost predicate WriterOk(s: System, w: Writer) {
    && (!w.Idle? ==> HoldsPrefix(s.history, w))
    && (w.Decided? ==> Handle(w.inner, w.command, w.freshId) == Success(w.batch) && w.freshId in s.minted)
  }

  ghost predicate Inv(s: System) {
    && TableIsHistory(s)
    && HistoryOk(s.history)
    && CommitIds(s.history) <= s.minted
    && (forall w :: WriterOk(s, s.At(w)))
    && (forall v, w :: v != w && s.At(v).Decided? && s.At(w).Decided? ==> s.At(v).freshId != s.At(w).freshId)
  }

  /** A writer's batch fits if and only if its number has reached the end of the stream. */
  lemma CommitsIffCurrent(
      t: Table, aggregate: AggregateId, log: seq<LedgerEvent>, sequence: int, batch: seq<LedgerEvent>)
    requires Holds(t, aggregate, log) && 0 <= sequence && batch != []
    ensures FreeSlots(t, aggregate, sequence, |batch|) == |batch| <==> sequence >= |log|
    ensures sequence < |log| ==> FreeSlots(t, aggregate, sequence, |batch|) == 0
  {
    var free := FreeSlots(t, aggregate, sequence, |batch|);
    if sequence < |log| {
      assert Key(aggregate, sequence + 1) in t;
    }
  }

  lemma TableAfterCommit(s: System, t: Table, c: Commit)
    requires TableIsHistory(s) && c.base == |SerialLog(s.history, c.aggregate)|
    requires t == Appended(s.table, c.aggregate, c.base, c.batch)
    ensures forall aggregate :: Holds(t, aggregate, SerialLog(s.history + [c], aggregate))
  {
    AppendExtends(s.table, c.aggregate, SerialLog(s.history, c.aggregate), c.batch);
    forall aggregate ensures Holds(t, aggregate, SerialLog(s.history + [c], aggregate)) {
      SerialLogAppend(s.history, c, aggregate);
      if aggregate != c.aggregate {
        assert SerialLog(s.history + [c], aggregate) == SerialLog(s.history, aggregate);
      }
    }
  }

  lemma HistoryOkAppend(history: seq<Commit>, c: Commit)
    requires HistoryOk(history)
    requires CommitOk(history + [c], |history|)
    ensures HistoryOk(history + [c])
  {
    var more := history + [c];
    forall i | 0 <= i < |more| ensures CommitOk(more, i) {
      if i < |history| {
        assert CommitOk(history, i) && more[..i] == history[..i] && more[i] == history[i];
      }
    }
  }

  /** A prefix stays a prefix when the history grows. */
  lemma HoldsPrefixAfterCommit(history: seq<Commit>, c: Commit, w: Writer)
    requires !w.Idle? && HoldsPrefix(history, w)
    ensures HoldsPrefix(history + [c], w)
  {
    SerialLogAppend(history, c, w.aggregate);
    var log := SerialLog(history, w.aggregate);
    assert SerialLog(history + [c], w.aggregate)[..w.seen] == log[..w.seen];
  }

  lemma {:induction false} WritersAfterCommit(s: System, w: WriterId, c: Commit, letGo: bool)
    requires Inv(s) && s.At(w).Decided?
    requires PersistStep(s, w, None, letGo).history == s.history + [c]
    ensures forall v :: WriterOk(PersistStep(s, w, None, letGo), PersistStep(s, w, None, letGo).At(v))
  {
    var t := PersistStep(s, w, None, letGo);
    forall v ensures WriterOk(t, t.At(v)) {
      assert WriterOk(s, s.At(v)) && (v != w ==> t.At(v) == s.At(v));
      if !s.At(v).Idle? {
        HoldsPrefixAfterCommit(s.history, c, s.At(v));
      }
    }
  }

  lemma {:induction false} CommitKeepsInv(s: System, w: WriterId, letGo: bool)
    requires Inv(s) && s.At(w).Decided?
    requires s.At(w).sequence == |SerialLog(s.history, s.At(w).aggregate)|
    ensures Inv(PersistStep(s, w, None, letGo))
  {
    var d, t := s.At(w), PersistStep(s, w, None, letGo);
    var c := Commit(d.aggregate, d.sequence, d.seen, d.command, d.freshId, d.batch);
    assert WriterOk(s, d);
    CommitsIffCurrent(s.table, d.aggregate, SerialLog(s.history, d.aggregate), d.sequence, d.batch);
    assert t.history == s.history + [c] && t.history[..|s.history|] == s.history;
    TableAfterCommit(s, t.table, c);
    HistoryOkAppend(s.history, c);
    CommitIdsAppend(s.history, c);
    WritersAfterCommit(s, w, c, letGo);
    assert forall v :: v != w ==> t.At(v) == s.At(v);
  }

  /** Changing one writer to something admissible keeps everything else. */
  lemma {:induction false} WriterChangeKeepsInv(s: System, t: System, w: WriterId)
    requires Inv(s)
    requires t.table == s.table && t.history == s.history && s.minted <= t.minted
    requires t.writers == s.writers[w := t.At(w)]
    requires WriterOk(t, t.At(w))
    requires t.At(w).Decided? ==>
               t.At(w).freshId !in s.minted || (s.At(w).Decided? && s.At(w).freshId == t.At(w).freshId)
    ensures Inv(t)
  {
    forall v ensures WriterOk(t, t.At(v)) {
      if v != w {
        assert WriterOk(s, s.At(v)) && t.At(v) == s.At(v);
      }
    }
    forall u, v | u != v && t.At(u).Decided? && t.At(v).Decided? ensures t.At(u).freshId != t.At(v).freshId {
      assert u != w ==> t.At(u) == s.At(u) && WriterOk(s, s.At(u));
      assert v != w ==> t.At(v) == s.At(v) && WriterOk(s, s.At(v));
    }
  }

  lemma {:induction false} LoadKeepsInv(
      s: System, t: System, w: WriterId, aggregate: AggregateId, rows: seq<StoreEvent>)
    requires Inv(s) && Next(s, t, Load(w, aggregate, rows))
    ensures Inv(t)
    ensures t.At(w).Loaded? && t.At(w).sequence == t.At(w).seen
  {
    var log := SerialLog(s.history, aggregate);
    assert Holds(s.table, aggregate, log);
    StreamIsLog(rows, s.table, aggregate, log);
    assert |Payloads(rows)| == |rows|;
    assert log[..|log|] == log;
    WriterChangeKeepsInv(s, t, w);
  }

  /** What a step commits, if anything, comes last. */
  lemma HistoryGrows(s: System, t: System, step: Step)
    requires Next(s, t, step)
    ensures s.history <= t.history && |t.history| <= |s.history| + 1
    ensures t.history == s.history ==> t.table == s.table
  {
  }

  lemma {:induction false} InLineBefore(s: System, t: System, step: Step)
    requires Next(s, t, step) && AllInLine(t.history)
    ensures AllInLine(s.history)
  {
    HistoryGrows(s, t, step);
    var n := |s.history|;
    assert t.history[..n] == s.history;
    forall i | 0 <= i < n ensures InLine(s.history, i) {
      OnFront(t.history, n, i);
    }
  }

  lemma {:induction false} PersistKeepsInv(s: System, w: WriterId, fault: Option<nat>, letGo: bool)
    requires Inv(s) && s.At(w).Decided? && AllInLine(PersistStep(s, w, fault, letGo).history)
    ensures Inv(PersistStep(s, w, fault, letGo))
  {
    var d, t := s.At(w), PersistStep(s, w, fault, letGo);
    assert WriterOk(s, d);
    if t.history == s.history {
      WriterChangeKeepsInv(s, t, w);
    } else {
      var n := |s.history|;
      assert InLine(t.history, n) && t.history[..n] == s.history;
      assert t == PersistStep(s, w, None, letGo);
      CommitKeepsInv(s, w, letGo);
    }
  }

  lemma {:induction false} NextKeepsInv(s: System, t: System, step: Step)
    requires Inv(s) && Next(s, t, step) && AllInLine(t.history)
    ensures Inv(t)
  {
    match step
    case Load(w, aggregate, rows) =>
      LoadKeepsInv(s, t, w, aggregate, rows);
    case Decide(w, command, freshId) =>
      assert WriterOk(s, s.At(w));
      WriterChangeKeepsInv(s, t, w);
    case Persist(w, fault, letGo) =>
      PersistKeepsInv(s, w, fault, letGo);
    case Abandon(w) =>
      WriterChangeKeepsInv(s, t, w);
  }

  lemma StartIsInv()
    ensures Inv(START)
  {
  }

  // ---------------------------------------------------------------------------
  // Every run
  // ---------------------------------------------------------------------------

  /**
   Disciplined or not, as long as no commit left a gap: the table is the commits in order, each
   decided on some prefix of its stream.
   */
  lemma {:induction false} EveryRunKeepsInv(trace: seq<System>, steps: seq<Step>, i: nat)
    requires Run(trace, steps) && i < |trace| && AllInLine(trace[i].history)
    ensures Inv(trace[i])
  {
    if i == 0 {
      StartIsInv();
    } else {
      assert Next(trace[i - 1], trace[i - 1 + 1], steps[i - 1]);
      InLineBefore(trace[i - 1], trace[i], steps[i - 1]);
      EveryRunKeepsInv(trace, steps, i - 1);
      NextKeepsInv(trace[i - 1], trace[i], steps[i - 1]);
    }
  }

  // ---------------------------------------------------------------------------
  // Exactly when the rules survive
  // ---------------------------------------------------------------------------

  /** The stream is numbered 1..n without a gap. */
  ghost predicate IsNumbered(t: Table, aggregate: AggregateId) {
    exists log :: Holds(t, aggregate, log)
  }

  /** And it is a log the handler could have produced. */
  ghost predicate IsLegal(t: Table, aggregate: AggregateId) {
    exists log :: Holds(t, aggregate, log) && Legal(log)
  }

  ghost predicate AllNumbered(t: Table) {
    forall aggregate :: IsNumbered(t, aggregate)
  }

  ghost predicate AllLegal(t: Table) {
    forall aggregate :: IsLegal(t, aggregate)
  }

  lemma HoldsOneLog(t: Table, aggregate: AggregateId, x: seq<LedgerEvent>, y: seq<LedgerEvent>)
    requires Holds(t, aggregate, x) && Holds(t, aggregate, y)
    ensures x == y
  {
    assert Key(aggregate, |x|) in t <==> 1 <= |x| <= |y|;
    assert Key(aggregate, |y|) in t <==> 1 <= |y| <= |x|;
    forall k | 0 <= k < |x| ensures x[k] == y[k] {
      assert t[Key(aggregate, k + 1)] == x[k + 1 - 1];
    }
  }

  lemma {:induction false} TableIsLegalIff(s: System)
    requires TableIsHistory(s)
    ensures AllNumbered(s.table)
    ensures AllLegal(s.table) <==> LogsAreLegal(s.history)
  {
    forall aggregate ensures IsNumbered(s.table, aggregate) {
      assert Holds(s.table, aggregate, SerialLog(s.history, aggregate));
    }
    forall aggregate ensures IsLegal(s.table, aggregate) <==> Legal(SerialLog(s.history, aggregate)) {
      var log := SerialLog(s.history, aggregate);
      assert Holds(s.table, aggregate, log);
      if IsLegal(s.table, aggregate) {
        var other :| Holds(s.table, aggregate, other) && Legal(other);
        HoldsOneLog(s.table, aggregate, log, other);
      }
    }
  }

  /** A batch put past the end of a stream leaves a gap. */
  lemma {:induction false} GapShows(
      t: Table, aggregate: AggregateId, log: seq<LedgerEvent>, last: int, batch: seq<LedgerEvent>)
    requires Holds(t, aggregate, log) && last > |log| && batch != []
    ensures !IsNumbered(Appended(t, aggregate, last, batch), aggregate)
  {
    var u := Appended(t, aggregate, last, batch);
    AppendedAt(t, aggregate, last, batch, Key(aggregate, |log| + 1));
    AppendedAt(t, aggregate, last, batch, Key(aggregate, last + 1));
    assert Key(aggregate, |log| + 1) !in t;
    if other :| Holds(u, aggregate, other) {
      assert Key(aggregate, last + 1) in u && Key(aggregate, |log| + 1) !in u;
    }
  }

  /** A commit that is not in line was put past the end. */
  lemma {:induction false} CommitPastTheEnd(s: System, t: System, step: Step)
    requires Inv(s) && Next(s, t, step) && !AllInLine(t.history)
    ensures !AllNumbered(t.table)
  {
    OkIsInLine(s.history);
    var d, n := s.At(step.w), |s.history|;
    var log := SerialLog(s.history, d.aggregate);
    assert t.history[..n] == s.history;
    if t.history != s.history {
      forall i | 0 <= i < n ensures InLine(t.history, i) {
        OnFront(t.history, n, i);
      }
      assert WriterOk(s, d) && Holds(s.table, d.aggregate, log);
      CommitsIffCurrent(s.table, d.aggregate, log, d.sequence, d.batch);
      assert d.sequence != |log| by {
        assert !InLine(t.history, n);
      }
      GapShows(s.table, d.aggregate, log, d.sequence, d.batch);
      assert !IsNumbered(t.table, d.aggregate);
    }
  }

  /** What a step commits is in line, or leaves a gap that shows. */
  lemma {:induction false} StepIsInLineIff(s: System, t: System, step: Step)
    requires Inv(s) && Next(s, t, step)
    ensures AllInLine(t.history) <==> AllNumbered(t.table)
    ensures AllInLine(t.history) ==> Inv(t)
  {
    if AllInLine(t.history) {
      NextKeepsInv(s, t, step);
      TableIsLegalIff(t);
    } else {
      CommitPastTheEnd(s, t, step);
    }
  }

  /** The streams are numbered without a gap, at every point so far, exactly when every commit was in line. */
  lemma {:induction false} NumberedIffInLine(trace: seq<System>, steps: seq<Step>, i: nat)
    requires Run(trace, steps) && i < |trace|
    ensures (forall j :: 0 <= j <= i ==> AllNumbered(trace[j].table)) <==> AllInLine(trace[i].history)
  {
    if i == 0 {
      StartIsInv();
      TableIsLegalIff(START);
    } else {
      var s, t := trace[i - 1], trace[i - 1 + 1];
      assert Next(s, t, steps[i - 1]);
      NumberedIffInLine(trace, steps, i - 1);
      if AllInLine(s.history) {
        EveryRunKeepsInv(trace, steps, i - 1);
        StepIsInLineIff(s, t, steps[i - 1]);
      } else if AllInLine(t.history) {
        InLineBefore(s, t, steps[i - 1]);
      }
    }
  }

  lemma {:induction false} RulesKeptBefore(s: System, t: System, step: Step)
    requires Next(s, t, step) && AllKeepTheRules(t.history)
    ensures AllKeepTheRules(s.history)
  {
    HistoryGrows(s, t, step);
    var n := |s.history|;
    assert t.history[..n] == s.history;
    forall i | 0 <= i < n ensures KeepsTheRules(s.history, i) {
      OnFront(t.history, n, i);
    }
  }

  lemma {:induction false} LegalIffKept(s: System)
    requires Inv(s)
    ensures AllLegal(s.table) <==> AllKeepTheRules(s.history)
  {
    TableIsLegalIff(s);
    LegalIffAllKeep(s.history);
  }

  lemma {:induction false} StepIsLegalIff(s: System, t: System, step: Step)
    requires Inv(s) && Next(s, t, step)
    ensures AllLegal(t.table) <==> AllKeepTheRules(t.history)
  {
    StepIsInLineIff(s, t, step);
    if AllInLine(t.history) {
      LegalIffKept(t);
    } else if AllLegal(t.table) {
      forall aggregate ensures IsNumbered(t.table, aggregate) {
        assert IsLegal(t.table, aggregate);
      }
    } else if AllKeepTheRules(t.history) {
      KeptIsInLine(t.history);
    }
  }

  /**
   However the writers of any run behave and whatever fails: at every point so far each stream was
   numbered 1..n and a log the handler could have produced exactly when every commit was put right
   after its stream, missed nothing its command reads, and recorded nothing under an id already there.
   */
  lemma {:induction false} RulesSurviveIff(trace: seq<System>, steps: seq<Step>, i: nat)
    requires Run(trace, steps) && i < |trace|
    ensures (forall j :: 0 <= j <= i ==> AllLegal(trace[j].table)) <==> AllKeepTheRules(trace[i].history)
  {
    if i == 0 {
      StartIsInv();
      LegalIffKept(START);
    } else {
      var s, t := trace[i - 1], trace[i - 1 + 1];
      assert Next(s, t, steps[i - 1]);
      RulesSurviveIff(trace, steps, i - 1);
      if AllKeepTheRules(s.history) {
        KeptIsInLine(s.history);
        EveryRunKeepsInv(trace, steps, i - 1);
        StepIsLegalIff(s, t, steps[i - 1]);
      } else if AllKeepTheRules(t.history) {
        RulesKeptBefore(s, t, steps[i - 1]);
      }
    }
  }

  // ---------------------------------------------------------------------------
  // Writers that reload
  // ---------------------------------------------------------------------------

  /** Its number counts what it has seen, and what it decided was never committed. */
  ghost predicate InStep(s: System, w: Writer) {
    && (!w.Idle? ==> w.sequence == w.seen)
    && (w.Decided? ==> w.freshId !in CommitIds(s.history))
  }

  lemma {:induction false} OthersLeaveItInStep(s: System, t: System, step: Step, w: WriterId)
    requires Inv(s) && Next(s, t, step) && step.w != w && InStep(s, s.At(w))
    ensures InStep(t, t.At(w))
  {
    assert t.At(w) == s.At(w);
    if t.history != s.history {
      CommitIdsAppend(s.history, t.history[|s.history|]);
      assert t.history == s.history + [t.history[|s.history|]];
    }
  }

  lemma {:induction false} ItStaysInStep(s: System, t: System, step: Step, w: WriterId)
    requires Inv(s) && Next(s, t, step) && step.w == w && !step.Load? && !KeepsState(step, w)
    requires InStep(s, s.At(w))
    ensures InStep(t, t.At(w))
  {
  }

  /** A writer that reloads holds the replay of as many events as its number says. */
  lemma {:induction false} ReloadingWriterIsInStep(trace: seq<System>, steps: seq<Step>, i: nat, w: WriterId)
    requires Run(trace, steps) && i < |trace| && AllInLine(trace[i].history) && Reloads(steps, i, w)
    ensures InStep(trace[i], trace[i].At(w))
  {
    if i > 0 {
      var s, t, step := trace[i - 1], trace[i - 1 + 1], steps[i - 1];
      assert Next(s, t, step);
      InLineBefore(s, t, step);
      EveryRunKeepsInv(trace, steps, i - 1);
      if step.Load? && step.w == w {
        LoadKeepsInv(s, t, w, step.aggregate, step.rows);
      } else {
        ReloadsBefore(steps, i, w);
        ReloadingWriterIsInStep(trace, steps, i - 1, w);
        if step.w == w {
          ItStaysInStep(s, t, step, w);
        } else {
          OthersLeaveItInStep(s, t, step, w);
        }
      }
    }
  }

  lemma ReloadsBefore(steps: seq<Step>, i: nat, w: WriterId)
    requires 0 < i <= |steps| && Reloads(steps, i, w)
    requires !(steps[i - 1].Load? && steps[i - 1].w == w)
    ensures Reloads(steps, i - 1, w) && !KeepsState(steps[i - 1], w)
  {
    forall j | 0 <= j < i && KeepsState(steps[j], w) ensures j < i - 1 && LoadsBetween(steps, j, i - 1, w) {
      assert LoadsBetween(steps, j, i, w);
      var l :| 0 <= j < l < i <= |steps| && steps[l].Load? && steps[l].w == w;
      assert l < i - 1;
    }
  }

  /**
   A writer that loaded since its last persist commits only what the handler returns on exactly the
   stream before it, and nothing twice, whatever the other writers do short of leaving a gap.
   */
  lemma {:induction false} ReloadingWriterCommitsSerially(trace: seq<System>, steps: seq<Step>, i: nat)
    requires Run(trace, steps) && i < |steps| && AllInLine(trace[i].history)
    requires steps[i].Persist? && Reloads(steps, i, steps[i].w)
    ensures var was, now := trace[i].history, trace[i + 1].history;
            || now == was
            || (|now| == |was| + 1 && now[..|was|] == was && DecidedOnPrefix(now, |was|) && NewId(now, |was|))
  {
    var s, t, w := trace[i], trace[i + 1], steps[i].w;
    assert Next(s, t, steps[i]);
    EveryRunKeepsInv(trace, steps, i);
    ReloadingWriterIsInStep(trace, steps, i, w);
    if t.history != s.history {
      CommitInStepIsSerial(s, t, steps[i]);
    }
  }

  lemma {:induction false} CommitInStepIsSerial(s: System, t: System, step: Step)
    requires Inv(s) && Next(s, t, step) && step.Persist? && InStep(s, s.At(step.w)) && t.history != s.history
    ensures var n := |s.history|;
            |t.history| == n + 1 && t.history[..n] == s.history && DecidedOnPrefix(t.history, n) && NewId(t.history, n)
  {
    var d, n := s.At(step.w), |s.history|;
    var log := SerialLog(s.history, d.aggregate);
    assert t.history[..n] == s.history;
    assert WriterOk(s, d) && Holds(s.table, d.aggregate, log);
    CommitsIffCurrent(s.table, d.aggregate, log, d.sequence, d.batch);
    assert log[..|log|] == log;
    if d.freshId in Replay(log).entries {
      EntriesWereCommitted(s.history, d.aggregate, d.freshId);
    }
  }

  lemma {:induction false} DisciplinedIsSerial(trace: seq<System>, steps: seq<Step>, i: nat)
    requires Run(trace, steps) && Disciplined(steps) && i < |trace|
    ensures Serial(trace[i].history) && AllNew(trace[i].history) && AllInLine(trace[i].history)
  {
    if i > 0 {
      var was, now := trace[i - 1].history, trace[i].history;
      assert Next(trace[i - 1], trace[i - 1 + 1], steps[i - 1]);
      DisciplinedIsSerial(trace, steps, i - 1);
      if now != was {
        ReloadingWriterCommitsSerially(trace, steps, i - 1);
        forall k | 0 <= k < |now| ensures DecidedOnPrefix(now, k) && NewId(now, k) && InLine(now, k) {
          if k < |was| {
            assert DecidedOnPrefix(was, k) && NewId(was, k);
            OnFront(now, |was|, k);
          }
        }
      }
    }
  }

  /**
   Serializability. However writers interleave and whatever fails, as long as each reloads before it
   persists: every stream is numbered 1..n without a gap, it is the committed batches in commit order,
   and each batch is what the handler returned on the replay of precisely the stream before it.
   */
  lemma {:induction false} Serializable(trace: seq<System>, steps: seq<Step>, i: nat, aggregate: AggregateId)
    requires Run(trace, steps) && Disciplined(steps) && i < |trace|
    ensures Holds(trace[i].table, aggregate, SerialLog(trace[i].history, aggregate))
    ensures forall k :: 0 <= k < |trace[i].history| ==> DecidedOnPrefix(trace[i].history, k)
    ensures Legal(SerialLog(trace[i].history, aggregate))
  {
    DisciplinedIsSerial(trace, steps, i);
    EveryRunKeepsInv(trace, steps, i);
    LegalIffRulesAreKept(trace[i].history);
  }

  /**
   Whatever a reader loads at any point of a run obeys the business rules, if the writers reload, or
   if every commit was in line, missed nothing its command reads, and recorded a new id.
   */
  lemma {:induction false} BusinessRulesSurviveConcurrency(
      trace: seq<System>, steps: seq<Step>, i: nat, aggregate: AggregateId, rows: seq<StoreEvent>, run: RunId)
    requires Run(trace, steps) && i < |trace| && IsStream(rows, trace[i].table, aggregate)
    requires Disciplined(steps) || AllKeepTheRules(trace[i].history)
    ensures var log := Payloads(rows);
            && Legal(log)
            && (forall j, k :: 0 <= j < k < |log| && log[j].EntryReversed? && log[k].EntryReversed?
                  ==> log[j].originalId != log[k].originalId)
            && (forall k :: 0 <= k < |log| && log[k].EntryReversed? ==> Records(log[..k], log[k].originalId))
            && Chained(CapitalizationHistory(log, run))
  {
    var log := SerialLog(trace[i].history, aggregate);
    if Disciplined(steps) {
      Serializable(trace, steps, i, aggregate);
    } else {
      KeptIsInLine(trace[i].history);
      EveryRunKeepsInv(trace, steps, i);
      LegalIffAllKeep(trace[i].history);
    }
    StreamIsLog(rows, trace[i].table, aggregate, log);
    LegalLogObeysTheRules(log, run);
  }

  lemma LegalLogObeysTheRules(log: seq<LedgerEvent>, run: RunId)
    requires Legal(log)
    ensures forall j, k :: 0 <= j < k < |log| && log[j].EntryReversed? && log[k].EntryReversed?
              ==> log[j].originalId != log[k].originalId
    ensures forall k :: 0 <= k < |log| && log[k].EntryReversed? ==> Records(log[..k], log[k].originalId)
    ensures Chained(CapitalizationHistory(log, run))
  {
    forall j, k | 0 <= j < k < |log| && log[j].EntryReversed? && log[k].EntryReversed?
      ensures log[j].originalId != log[k].originalId
    {
      NoEntryIsReversedTwice(log, j, k);
    }
    forall k | 0 <= k < |log| && log[k].EntryReversed? ensures Records(log[..k], log[k].originalId) {
      LegalAt(log, k);
      StateRemembersLog(log[..k], log[k].originalId);
    }
    CapitalizationChains(log, run);
  }

  /**
   As long as no commit left a gap, a writer behind the end of its stream is told of a conflict and
   changes neither the table nor the history; one at the end appends; one past it, after a backend
   that failed, leaves the first gap.
   */
  lemma {:induction false} StaleWritersWriteNothing(
      trace: seq<System>, steps: seq<Step>, i: nat, w: WriterId, letGo: bool)
    requires Run(trace, steps) && i < |trace| && AllInLine(trace[i].history) && trace[i].At(w).Decided?
    ensures var s, d, t := trace[i], trace[i].At(w), PersistStep(trace[i], w, None, letGo);
            var length := |SerialLog(s.history, d.aggregate)|;
            && (d.sequence < length <==> t.history == s.history)
            && (d.sequence < length <==> t.table == s.table)
            && (d.sequence >= length ==> t.table == Appended(s.table, d.aggregate, d.sequence, d.batch))
            && (d.sequence <= length <==> AllNumbered(t.table))
  {
    EveryRunKeepsInv(trace, steps, i);
    var s, d, t := trace[i], trace[i].At(w), PersistStep(trace[i], w, None, letGo);
    var log := SerialLog(s.history, d.aggregate);
    assert WriterOk(s, d) && Holds(s.table, d.aggregate, log);
    CommitsIffCurrent(s.table, d.aggregate, log, d.sequence, d.batch);
    if d.sequence > |log| {
      AppendedAt(s.table, d.aggregate, d.sequence, d.batch, Key(d.aggregate, d.sequence + 1));
      assert |t.history| == |s.history| + 1;
      GapShows(s.table, d.aggregate, log, d.sequence, d.batch);
    } else {
      if d.sequence == |log| {
        AppendedAt(s.table, d.aggregate, d.sequence, d.batch, Key(d.aggregate, d.sequence + 1));
        assert |t.history| == |s.history| + 1;
        CommitKeepsInv(s, w, letGo);
      } else {
        WriterChangeKeepsInv(s, t, w);
      }
      TableIsLegalIff(t);
    }
  }

  /** No step, disciplined or not, changes or removes a stored row. */
  lemma TheTableIsAppendOnly(s: System, t: System, step: Step, key: Key)
    requires Next(s, t, step) && key in s.table
    ensures key in t.table && t.table[key] == s.table[key]
  {
    if step.Persist? {
      var d := s.At(step.w);
      AppendedAt(s.table, d.aggregate, d.sequence, d.batch, key);
    }
  }

  /** One writer's disciplined attempt: load, handle, persist, with no one in between. */
  method PostCommand(
      store: PgLedgerEventStore, aggregate: AggregateId, command: LedgerCommand, freshId: EntryId)
    returns (r: Result<seq<LedgerEvent>, LedgerError>)
    requires IsNumbered(store.table, aggregate)
    modifies store
    ensures forall log :: Holds(old(store.table), aggregate, log) ==>
              && r == Handle(Replay(log), command, freshId)
              && Holds(store.table, aggregate, log + (if r.Success? then r.value else []))
    ensures forall other, theirs :: other != aggregate && Holds(old(store.table), other, theirs) ==>
              Holds(store.table, other, theirs)
  {
    ghost var log :| Holds(store.table, aggregate, log);
    forall same | Holds(store.table, aggregate, same) ensures same == log {
      HoldsOneLog(store.table, aggregate, log, same);
    }
    var state, rows := store.Load(aggregate);
    StreamIsLog(rows, store.table, aggregate, log);
    r := Handle(state.inner, command, freshId);
    if r.Success? {
      CommitsIffCurrent(store.table, aggregate, log, |log|, r.value);
      AppendExtends(store.table, aggregate, log, r.value);
      var stored := store.Persist(state, r.value, None);
    } else {
      assert log + [] == log;
    }
  }
}
