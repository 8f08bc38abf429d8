/**
 The append-only event table with its unique key, and the store that reads and appends to it. A
 transaction is modelled by its effect: all the rows land, or none.
 */
module EventStore {
  import opened Wrappers
  import Sums
  import opened Ledger

  type AggregateId = nat

  /** The unique index on (aggregate_id, sequence_number) is what makes this a map. */
  datatype Key = Key(aggregate: AggregateId, sequence: int)
  type Table = map<Key, LedgerEvent>

  datatype StoreEvent = StoreEvent(aggregate: AggregateId, sequence: int, payload: LedgerEvent)

  datatype StoreError =
    | ConcurrencyConflict(aggregate: AggregateId, sequence: int)
    | Backend

  // ---------------------------------------------------------------------------
  // Reading a stream
  // ---------------------------------------------------------------------------

  /** All rows of one aggregate, in strictly increasing sequence order. */
  ghost predicate IsStream(rows: seq<StoreEvent>, t: Table, aggregate: AggregateId) {
    && (forall i :: 0 <= i < |rows| ==>
          && rows[i].aggregate == aggregate
          && Key(aggregate, rows[i].sequence) in t
          && t[Key(aggregate, rows[i].sequence)] == rows[i].payload)
    && (forall i, j :: 0 <= i < j < |rows| ==> rows[i].sequence < rows[j].sequence)
    && (forall q :: Key(aggregate, q) in t ==> Numbered(rows, q))
  }

  ghost predicate Numbered(rows: seq<StoreEvent>, q: int) {
    exists i :: 0 <= i < |rows| && rows[i].sequence == q
  }

  function Sequences(t: Table, aggregate: AggregateId): (s: set<int>)
    ensures forall q :: q in s <==> Key(aggregate, q) in t
  {
    var s := set key | key in t && key.aggregate == aggregate :: key.sequence;
    assert forall q :: Key(aggregate, q) in t ==> Key(aggregate, q).sequence in s;
    s
  }

  /** The rows read so far are those not `pending`, in order, and all come before the pending ones. */
  ghost predicate ReadSoFar(rows: seq<StoreEvent>, t: Table, aggregate: AggregateId, pending: set<int>) {
    && (forall i :: 0 <= i < |rows| ==>
          && rows[i].aggregate == aggregate
          && Key(aggregate, rows[i].sequence) in t
          && t[Key(aggregate, rows[i].sequence)] == rows[i].payload)
    && (forall i, j :: 0 <= i < j < |rows| ==> rows[i].sequence < rows[j].sequence)
    && (forall q :: q in Sequences(t, aggregate) ==> q in pending || Numbered(rows, q))
    && (forall i, q :: 0 <= i < |rows| && q in pending ==> rows[i].sequence < q)
    && pending <= Sequences(t, aggregate)
  }

  lemma {:induction false} ReadOne(rows: seq<StoreEvent>, t: Table, aggregate: AggregateId, pending: set<int>, q: int)
    requires ReadSoFar(rows, t, aggregate, pending)
    requires q in pending && forall p :: p in pending ==> q <= p
    ensures Key(aggregate, q) in t
    ensures ReadSoFar(rows + [StoreEvent(aggregate, q, t[Key(aggregate, q)])], t, aggregate, pending - {q})
  {
    var more := rows + [StoreEvent(aggregate, q, t[Key(aggregate, q)])];
    assert more[|rows|].sequence == q;
    assert forall i :: 0 <= i < |rows| ==> more[i] == rows[i];
    forall p | p in Sequences(t, aggregate) && p !in pending - {q} ensures Numbered(more, p) {
      if p != q {
        assert Numbered(rows, p);
        var i :| 0 <= i < |rows| && rows[i].sequence == p;
        assert more[i].sequence == p;
      }
    }
  }

  function Payloads(rows: seq<StoreEvent>): seq<LedgerEvent> {
    seq(|rows|, i requires 0 <= i < |rows| => rows[i].payload)
  }

  function LastSequence(rows: seq<StoreEvent>): int {
    if rows == [] then 0 else rows[|rows| - 1].sequence
  }

  /** With gaps or without, what is loaded carries the greatest number its stream has, or zero. */
  lemma {:induction false} SequenceIsTheGreatest(rows: seq<StoreEvent>, t: Table, aggregate: AggregateId)
    requires IsStream(rows, t, aggregate)
    ensures forall q :: Key(aggregate, q) in t ==> q <= LastSequence(rows)
    ensures if rows == [] then LastSequence(rows) == 0 else Key(aggregate, LastSequence(rows)) in t
  {
    forall q | Key(aggregate, q) in t ensures rows != [] && q <= rows[|rows| - 1].sequence {
      assert Numbered(rows, q);
    }
  }

  /** The table holds exactly `log` for this aggregate, numbered from 1 without a gap. */
  ghost predicate Holds(t: Table, aggregate: AggregateId, log: seq<LedgerEvent>) {
    && (forall q :: Key(aggregate, q) in t <==> 1 <= q <= |log|)
    && (forall q :: 1 <= q <= |log| ==> t[Key(aggregate, q)] == log[q - 1])
  }

  lemma {:induction false} GapFree(
      rows: seq<StoreEvent>, t: Table, aggregate: AggregateId, log: seq<LedgerEvent>, n: nat)
    requires IsStream(rows, t, aggregate) && Holds(t, aggregate, log) && n <= |rows|
    ensures forall i :: 0 <= i < n ==> rows[i].sequence == i + 1
  {
    if n > 0 {
      GapFree(rows, t, aggregate, log, n - 1);
      assert Key(aggregate, rows[n - 1].sequence) in t;
      assert n >= 2 ==> rows[n - 2].sequence < rows[n - 1].sequence;
      assert Key(aggregate, n) in t;
      assert Numbered(rows, n);
      var i :| 0 <= i < |rows| && rows[i].sequence == n;
      assert i >= n - 1;
      assert rows[n - 1].sequence <= rows[i].sequence;
    }
  }

  lemma StreamLength(rows: seq<StoreEvent>, t: Table, aggregate: AggregateId, log: seq<LedgerEvent>)
    requires IsStream(rows, t, aggregate) && Holds(t, aggregate, log)
    ensures |rows| == |log|
  {
    GapFree(rows, t, aggregate, log, |rows|);
    if |log| > 0 {
      assert Key(aggregate, |log|) in t;
      assert Numbered(rows, |log|);
    }
    if |rows| > 0 {
      assert Key(aggregate, rows[|rows| - 1].sequence) in t;
    }
  }

  /** Reading a gap-free stream gives back the log and its length as the sequence number. */
  lemma StreamIsLog(rows: seq<StoreEvent>, t: Table, aggregate: AggregateId, log: seq<LedgerEvent>)
    requires IsStream(rows, t, aggregate) && Holds(t, aggregate, log)
    ensures Payloads(rows) == log && LastSequence(rows) == |log|
  {
    GapFree(rows, t, aggregate, log, |rows|);
    StreamLength(rows, t, aggregate, log);
    forall i | 0 <= i < |log| ensures rows[i].payload == log[i] {
      var q := i + 1;
      assert rows[i].sequence == q && t[Key(aggregate, q)] == log[q - 1];
    }
  }

  // ---------------------------------------------------------------------------
  // Appending
  // ---------------------------------------------------------------------------

  /** How many of the next `count` slots after `last` are free before the first taken one. */
  function FreeSlots(t: Table, aggregate: AggregateId, last: int, count: nat): (k: nat)
    ensures k <= count
    ensures forall q :: last < q <= last + k ==> Key(aggregate, q) !in t
    ensures k < count ==> Key(aggregate, last + k + 1) in t
  {
    if count == 0 then 0
    else
      var k := FreeSlots(t, aggregate, last, count - 1);
      if k < count - 1 || Key(aggregate, last + count) in t then k else count
  }

  /**
   The backend fails after so many numbers were taken: none when the transaction does not begin, one
   for each row up to the one that breaks, all when it does not commit. A conflict met first ends it.
   */
  predicate Breaks(free: nat, count: nat, fault: Option<nat>) {
    fault.Some? && fault.value <= count && fault.value <= free + 1
  }

  predicate Lands(free: nat, count: nat, fault: Option<nat>) {
    !Breaks(free, count, fault) && free == count
  }

  /** A fault is met exactly when every slot before the one it strikes is free. */
  lemma {:induction false} FaultIsMetIff(t: Table, aggregate: AggregateId, last: int, count: nat, k: nat)
    ensures Breaks(FreeSlots(t, aggregate, last, count), count, Some(k))
            <==> k <= count && forall q :: last < q < last + k ==> Key(aggregate, q) !in t
  {
    var free := FreeSlots(t, aggregate, last, count);
    if k <= count && free + 1 < k {
      assert Key(aggregate, last + free + 1) in t;
    }
  }

  /** How far the caller's sequence number moves. */
  function Advance(free: nat, count: nat, fault: Option<nat>): nat
    requires free <= count
  {
    if Breaks(free, count, fault) then fault.value else if free == count then count else free + 1
  }

  function Appended(t: Table, aggregate: AggregateId, last: int, events: seq<LedgerEvent>): Table {
    if events == [] then t
    else
      Appended(t, aggregate, last, events[..|events| - 1])
      [Key(aggregate, last + |events|) := events[|events| - 1]]
  }

  lemma {:induction false} AppendedAt(t: Table, aggregate: AggregateId, last: int, events: seq<LedgerEvent>, key: Key)
    ensures key in Appended(t, aggregate, last, events) <==>
              key in t || (key.aggregate == aggregate && last < key.sequence <= last + |events|)
    ensures key.aggregate == aggregate && last < key.sequence <= last + |events| ==>
              Appended(t, aggregate, last, events)[key] == events[key.sequence - last - 1]
    ensures key in t && !(key.aggregate == aggregate && last < key.sequence <= last + |events|) ==>
              Appended(t, aggregate, last, events)[key] == t[key]
  {
    if events != [] {
      AppendedAt(t, aggregate, last, events[..|events| - 1], key);
    }
  }

  /** Appending at the end of a gap-free stream extends it, and touches no other stream. */
  lemma AppendExtends(t: Table, aggregate: AggregateId, log: seq<LedgerEvent>, events: seq<LedgerEvent>)
    requires Holds(t, aggregate, log)
    ensures Holds(Appended(t, aggregate, |log|, events), aggregate, log + events)
    ensures forall other, theirs :: other != aggregate && Holds(t, other, theirs) ==>
              Holds(Appended(t, aggregate, |log|, events), other, theirs)
  {
    var u := Appended(t, aggregate, |log|, events);
    forall q ensures Key(aggregate, q) in u <==> 1 <= q <= |log + events| {
      AppendedAt(t, aggregate, |log|, events, Key(aggregate, q));
    }
    forall q | 1 <= q <= |log + events| ensures u[Key(aggregate, q)] == (log + events)[q - 1] {
      AppendedAt(t, aggregate, |log|, events, Key(aggregate, q));
    }
    forall other, theirs | other != aggregate && Holds(t, other, theirs)
      ensures Holds(u, other, theirs)
    {
      forall q ensures Key(other, q) in u <==> Key(other, q) in t {
        AppendedAt(t, aggregate, |log|, events, Key(other, q));
      }
      forall q | 1 <= q <= |theirs| ensures u[Key(other, q)] == theirs[q - 1] {
        AppendedAt(t, aggregate, |log|, events, Key(other, q));
      }
    }
  }

  function StoredEvents(aggregate: AggregateId, last: int, events: seq<LedgerEvent>): seq<StoreEvent> {
    seq(|events|, i requires 0 <= i < |events| => StoreEvent(aggregate, last + i + 1, events[i]))
  }

  lemma {:induction false} AppendOneMore(t: Table, aggregate: AggregateId, last: int, events: seq<LedgerEvent>, i: nat)
    requires i < |events|
    ensures Appended(t, aggregate, last, events[..i + 1])
            == Appended(t, aggregate, last, events[..i])[Key(aggregate, last + i + 1) := events[i]]
    ensures StoredEvents(aggregate, last, events[..i + 1])
            == StoredEvents(aggregate, last, events[..i]) + [StoreEvent(aggregate, last + i + 1, events[i])]
  {
    assert events[..i + 1][..i] == events[..i];
  }

  lemma {:induction false} NumberedRowsAreTheStream(
      rows: seq<StoreEvent>, t: Table, aggregate: AggregateId, log: seq<LedgerEvent>)
    requires Holds(t, aggregate, log) && |rows| == |log|
    requires forall i :: 0 <= i < |rows| ==> rows[i] == StoreEvent(aggregate, i + 1, log[i])
    ensures IsStream(rows, t, aggregate)
  {
    forall q | Key(aggregate, q) in t ensures Numbered(rows, q) {
      assert rows[q - 1].sequence == q;
    }
    forall i | 0 <= i < |rows|
      ensures Key(aggregate, rows[i].sequence) in t && t[Key(aggregate, rows[i].sequence)] == rows[i].payload
    {
      var q := i + 1;
      assert t[Key(aggregate, q)] == log[q - 1];
    }
  }

  lemma {:induction false} StreamRowsAre(
      rows: seq<StoreEvent>, t: Table, aggregate: AggregateId, log: seq<LedgerEvent>)
    requires IsStream(rows, t, aggregate) && Holds(t, aggregate, log)
    ensures |rows| == |log| && forall i :: 0 <= i < |rows| ==> rows[i] == StoreEvent(aggregate, i + 1, log[i])
  {
    GapFree(rows, t, aggregate, log, |rows|);
    StreamLength(rows, t, aggregate, log);
    forall i | 0 <= i < |rows| ensures rows[i] == StoreEvent(aggregate, i + 1, log[i]) {
      RowIsAt(rows, t, aggregate, log, i);
    }
  }

  lemma {:induction false} RowIsAt(
      rows: seq<StoreEvent>, t: Table, aggregate: AggregateId, log: seq<LedgerEvent>, i: nat)
    requires IsStream(rows, t, aggregate) && Holds(t, aggregate, log) && i < |rows| == |log|
    requires rows[i].sequence == i + 1
    ensures rows[i] == StoreEvent(aggregate, i + 1, log[i])
  {
    var q := i + 1;
    assert t[Key(aggregate, q)] == log[q - 1];
  }

  /** What a persist returns is what reading the stream then gives after what it gave before. */
  lemma {:induction false} StoredIsReadBack(
      rows: seq<StoreEvent>, t: Table, aggregate: AggregateId, log: seq<LedgerEvent>, events: seq<LedgerEvent>)
    requires IsStream(rows, t, aggregate) && Holds(t, aggregate, log)
    ensures IsStream(rows + StoredEvents(aggregate, |log|, events), Appended(t, aggregate, |log|, events), aggregate)
  {
    StreamRowsAre(rows, t, aggregate, log);
    AppendExtends(t, aggregate, log, events);
    NumberedRowsAreTheStream(
      rows + StoredEvents(aggregate, |log|, events), Appended(t, aggregate, |log|, events), aggregate, log + events);
  }

  // ---------------------------------------------------------------------------
  // The store
  // ---------------------------------------------------------------------------

  /** What a caller holds between loading and persisting. */
  class AggregateState {
    const id: AggregateId
    var sequence: int
    var inner: LedgerState

    constructor (id: AggregateId)
      ensures this.id == id && sequence == 0 && inner == EMPTY_STATE
    {
      this.id, sequence, inner := id, 0, EMPTY_STATE;
    }

    method NextSequenceNumber() returns (n: int)
      modifies this`sequence
      ensures n == sequence == old(sequence) + 1
    {
      sequence := sequence + 1;
      n := sequence;
    }
  }

  class PgLedgerEventStore {
    var table: Table

    constructor ()
      ensures table == map[]
    {
      table := map[];
    }

    /** `ORDER BY sequence_number ASC`, over one aggregate's rows. */
    method ByAggregateId(aggregate: AggregateId) returns (rows: seq<StoreEvent>)
      ensures IsStream(rows, table, aggregate)
    {
      rows := [];
      var pending := Sequences(table, aggregate);
      while pending != {}
        invariant ReadSoFar(rows, table, aggregate, pending)
        decreases |pending|
      {
        Sums.LeastExists(pending);
        var q :| q in pending && forall p :: p in pending ==> q <= p;
        ReadOne(rows, table, aggregate, pending, q);
        rows := rows + [StoreEvent(aggregate, q, table[Key(aggregate, q)])];
        pending := pending - {q};
      }
    }

    /** The whole stream, folded from the empty ledger. */
    method Load(aggregate: AggregateId) returns (state: AggregateState, ghost rows: seq<StoreEvent>)
      ensures fresh(state) && state.id == aggregate
      ensures IsStream(rows, table, aggregate)
      ensures state.inner == Replay(Payloads(rows)) && state.sequence == LastSequence(rows)
    {
      var events := ByAggregateId(aggregate);
      rows := events;
      state := new AggregateState(aggregate);
      for i := 0 to |events|
        invariant fresh(state) && state.id == aggregate
        invariant state.inner == Replay(Payloads(events[..i]))
        invariant state.sequence == LastSequence(events[..i])
      {
        state.inner := Apply(state.inner, events[i].payload);
        state.sequence := events[i].sequence;
        assert Payloads(events[..i + 1])[..i] == Payloads(events[..i]);
      }
      assert events[..|events|] == events;
    }

    /**
     All the rows land or none do. The caller's sequence number advances in any case, up to and
     including the slot that was taken or the row that broke; the state it was loaded with is never
     brought up to date.
     */
    method Persist(state: AggregateState, events: seq<LedgerEvent>, fault: Option<nat>)
      returns (r: Result<seq<StoreEvent>, StoreError>)
      modifies this`table, state`sequence
      ensures var last, count := old(state.sequence), |events|;
              var free := FreeSlots(old(table), state.id, last, count);
              && state.sequence == last + Advance(free, count, fault)
              && table == (if Lands(free, count, fault) then Appended(old(table), state.id, last, events)
                           else old(table))
              && r == (if Breaks(free, count, fault) then Failure(Backend)
                       else if free < count then Failure(ConcurrencyConflict(state.id, last + free + 1))
                       else Success(StoredEvents(state.id, last, events)))
    {
      ghost var last, free := state.sequence, FreeSlots(table, state.id, state.sequence, |events|);
      var tx := table;
      var stored: seq<StoreEvent> := [];
      if fault == Some(0) {
        return Failure(Backend);
      }
      for i := 0 to |events|
        invariant state.sequence == last + i && table == old(table) && i <= free
        invariant fault.Some? ==> fault.value > i
        invariant tx == Appended(table, state.id, last, events[..i])
        invariant stored == StoredEvents(state.id, last, events[..i])
      {
        var n := state.NextSequenceNumber();
        if fault == Some(i + 1) {
          return Failure(Backend);
        }
        AppendedAt(table, state.id, last, events[..i], Key(state.id, n));
        if Key(state.id, n) in tx {
          return Failure(ConcurrencyConflict(state.id, n));
        }
        AppendOneMore(table, state.id, last, events, i);
        tx := tx[Key(state.id, n) := events[i]];
        stored := stored + [StoreEvent(state.id, n, events[i])];
      }
      assert events[..|events|] == events;
      table := tx;
      r := Success(stored);
    }
  }
}
