/**
 Idempotent ingestion of cost events: a table with one row per source identity, upserted in batches
 that commit whole or not at all.
 */
module CostEvents {
  import opened Wrappers
  import opened CoreMoney
  import Ledger

  type TenantId = nat

  /** What a row is unique by. */
  datatype Key = Key(tenant: TenantId, provider: string, externalId: string)

  /** What a delivery says; `detail` stands for the columns nothing here reads. */
  datatype Content = Content(
    run: Option<Ledger.RunId>,
    currency: Currency,
    effectiveCost: real,
    periodStart: int,
    periodEnd: int,
    detail: string)

  datatype CostEvent = CostEvent(
    id: nat,
    key: Key,
    content: Content,
    contentHash: string,
    provenance: string)

  datatype Row = Row(id: nat, content: Content, contentHash: string, provenance: string)

  type Table = map<Key, Row>

  datatype StoreError = MixedTenants | IdTaken(id: nat) | PeriodNotPositive(key: Key)

  datatype Outcome = Outcome(inserted: nat, restated: nat, duplicate: nat)

  // ---------------------------------------------------------------------------
  // One event
  // ---------------------------------------------------------------------------

  datatype Effect = Inserted | Restated | Duplicate

  function EffectOf(t: Table, e: CostEvent): Effect {
    if e.key !in t then Inserted
    else if t[e.key].contentHash != e.contentHash then Restated
    else Duplicate
  }

  /** The table after one event: the key's first id is kept, the rest is replaced or left. */
  function Upserted(t: Table, e: CostEvent): Table {
    match EffectOf(t, e)
    case Inserted => t[e.key := Row(e.id, e.content, e.contentHash, e.provenance)]
    case Restated => t[e.key := Row(t[e.key].id, e.content, e.contentHash, e.provenance)]
    case Duplicate => t
  }

  predicate PositivePeriod(e: CostEvent) {
    e.content.periodEnd > e.content.periodStart
  }

  /**
   What the table's constraints say to an event. The period is checked of what is proposed, even where
   the key is known; the id is the primary key, and a new row may not reuse another's.
   */
  function Refusal(t: Table, e: CostEvent): Option<StoreError> {
    if !PositivePeriod(e) then Some(PeriodNotPositive(e.key))
    else if e.key !in t && exists k :: k in t && t[k].id == e.id then Some(IdTaken(e.id))
    else None
  }

  function Counting(o: Outcome, effect: Effect): Outcome {
    match effect
    case Inserted => o.(inserted := o.inserted + 1)
    case Restated => o.(restated := o.restated + 1)
    case Duplicate => o.(duplicate := o.duplicate + 1)
  }

  // ---------------------------------------------------------------------------
  // A batch
  // ---------------------------------------------------------------------------

  /** The table after all of the events. */
  function Stored(t: Table, es: seq<CostEvent>): Table {
    if es == [] then t else Upserted(Stored(t, es[..|es| - 1]), es[|es| - 1])
  }

  function Counted(t: Table, es: seq<CostEvent>): Outcome {
    if es == [] then Outcome(0, 0, 0)
    else Counting(Counted(t, es[..|es| - 1]), EffectOf(Stored(t, es[..|es| - 1]), es[|es| - 1]))
  }

  /** The first refusal, each event taken in its turn. */
  function FirstRefused(t: Table, es: seq<CostEvent>): Option<StoreError> {
    if es == [] then None
    else
      var front := FirstRefused(t, es[..|es| - 1]);
      if front.Some? then front
      else Refusal(Stored(t, es[..|es| - 1]), es[|es| - 1])
  }

  predicate OneTenant(es: seq<CostEvent>) {
    forall i :: 0 <= i < |es| ==> es[i].key.tenant == es[0].key.tenant
  }

  function BatchResult(t: Table, es: seq<CostEvent>): Result<Outcome, StoreError> {
    if !OneTenant(es) then Failure(MixedTenants)
    else if FirstRefused(t, es).Some? then Failure(FirstRefused(t, es).value)
    else Success(Counted(t, es))
  }

  function BatchTable(t: Table, es: seq<CostEvent>): Table {
    if BatchResult(t, es).Success? then Stored(t, es) else t
  }

  lemma {:induction false} PrefixRefused(t: Table, es: seq<CostEvent>, i: nat)
    requires i <= |es| && FirstRefused(t, es[..i]).Some?
    ensures FirstRefused(t, es) == FirstRefused(t, es[..i])
  {
    if i < |es| {
      assert es[..|es| - 1][..i] == es[..i];
      PrefixRefused(t, es[..|es| - 1], i);
    } else {
      assert es[..i] == es;
    }
  }

  class PgCostEventStore {
    var rows: Table

    constructor ()
      ensures rows == map[]
    {
      rows := map[];
    }

    /** One statement of the transaction: insert, update, or leave. */
    static method UpsertOne(tx: Table, e: CostEvent) returns (r: Result<(Table, Effect), StoreError>)
      ensures r == if Refusal(tx, e).Some? then Failure(Refusal(tx, e).value)
                   else Success((Upserted(tx, e), EffectOf(tx, e)))
    {
      if e.content.periodEnd <= e.content.periodStart {
        return Failure(PeriodNotPositive(e.key));
      }
      if e.key in tx {
        var row := tx[e.key];
        if row.contentHash == e.contentHash {
          return Success((tx, Duplicate));
        }
        return Success((tx[e.key := Row(row.id, e.content, e.contentHash, e.provenance)], Restated));
      }
      if exists k :: k in tx && tx[k].id == e.id {
        return Failure(IdTaken(e.id));
      }
      r := Success((tx[e.key := Row(e.id, e.content, e.contentHash, e.provenance)], Inserted));
    }

    /** A batch, in one transaction: all of it, or nothing. */
    method Upsert(events: seq<CostEvent>) returns (r: Result<Outcome, StoreError>)
      modifies this
      ensures r == BatchResult(old(rows), events)
      ensures rows == BatchTable(old(rows), events)
    {
      if events == [] {
        return Success(Outcome(0, 0, 0));
      }
      var tenant := events[0].key.tenant;
      if exists i :: 0 <= i < |events| && events[i].key.tenant != tenant {
        return Failure(MixedTenants);
      }
      var tx := rows;
      var outcome := Outcome(0, 0, 0);
      for i := 0 to |events|
        invariant rows == old(rows) && FirstRefused(rows, events[..i]) == None
        invariant tx == Stored(rows, events[..i]) && outcome == Counted(rows, events[..i])
      {
        assert events[..i + 1][..i] == events[..i];
        var one := UpsertOne(tx, events[i]);
        if one.Failure? {
          PrefixRefused(rows, events, i + 1);
          return Failure(one.error);
        }
        tx := one.value.0;
        outcome := Counting(outcome, one.value.1);
      }
      assert events[..|events|] == events;
      rows := tx;
      r := Success(outcome);
    }
  }

  // ---------------------------------------------------------------------------
  // What the table says about what was delivered
  // ---------------------------------------------------------------------------

  predicate HasKey(es: seq<CostEvent>, i: int, k: Key) {
    0 <= i < |es| && es[i].key == k
  }

  /** No later event has its key. */
  predicate IsLast(es: seq<CostEvent>, i: int) {
    0 <= i < |es| && forall j :: i < j < |es| ==> es[j].key != es[i].key
  }

  predicate IsFirst(es: seq<CostEvent>, i: int) {
    0 <= i < |es| && forall j :: 0 <= j < i ==> es[j].key != es[i].key
  }

  /** For one key, an equal content hash means equal content. */
  predicate Faithful(es: seq<CostEvent>) {
    forall i, j :: 0 <= i < |es| && 0 <= j < |es| && es[i].key == es[j].key && es[i].contentHash == es[j].contentHash
      ==> es[i].content == es[j].content
  }

  lemma {:induction false} StoredConcat(t: Table, a: seq<CostEvent>, b: seq<CostEvent>)
    ensures Stored(t, a + b) == Stored(Stored(t, a), b)
    ensures Counted(t, a + b).inserted == Counted(t, a).inserted + Counted(Stored(t, a), b).inserted
  {
    if b == [] {
      assert a + b == a;
    } else {
      assert (a + b)[..|a + b| - 1] == a + b[..|b| - 1];
      StoredConcat(t, a, b[..|b| - 1]);
    }
  }

  /** There is a row for each distinct key, and no other. */
  lemma {:induction false} RowPerKey(es: seq<CostEvent>, k: Key)
    ensures k in Stored(map[], es) <==> exists i :: HasKey(es, i, k)
  {
    if es != [] {
      var n := |es| - 1;
      RowPerKey(es[..n], k);
      if i :| HasKey(es[..n], i, k) {
        assert HasKey(es, i, k);
      }
      if i :| HasKey(es, i, k) {
        assert i == n || HasKey(es[..n], i, k);
      }
      assert HasKey(es, n, es[n].key);
    }
  }

  /** Every row says what some delivery of its key said. */
  lemma {:induction false} RowFromDelivery(es: seq<CostEvent>, k: Key) returns (i: nat)
    requires k in Stored(map[], es)
    ensures i < |es| && es[i].key == k
    ensures Stored(map[], es)[k].content == es[i].content && Stored(map[], es)[k].contentHash == es[i].contentHash
  {
    var n := |es| - 1;
    if es[n].key == k && EffectOf(Stored(map[], es[..n]), es[n]) != Duplicate {
      i := n;
    } else {
      i := RowFromDelivery(es[..n], k);
    }
  }

  /** Whatever was there before, a row has the content hash that was delivered last. */
  lemma {:induction false} LastHashWins(t: Table, es: seq<CostEvent>, i: nat)
    requires IsLast(es, i)
    ensures es[i].key in Stored(t, es) && Stored(t, es)[es[i].key].contentHash == es[i].contentHash
  {
    var n := |es| - 1;
    if i < n {
      assert IsLast(es[..n], i);
      LastHashWins(t, es[..n], i);
    }
  }

  /** The last delivery of a key wins. */
  lemma {:induction false} LastDeliveryWins(es: seq<CostEvent>, i: nat)
    requires Faithful(es) && IsLast(es, i)
    ensures es[i].key in Stored(map[], es) && Stored(map[], es)[es[i].key].content == es[i].content
  {
    LastHashWins(map[], es, i);
    var j := RowFromDelivery(es, es[i].key);
    assert es[j].contentHash == es[i].contentHash;
  }

  /** The surrogate id is the first delivery's, for good. */
  lemma {:induction false} FirstIdStays(es: seq<CostEvent>, i: nat)
    requires IsFirst(es, i)
    ensures es[i].key in Stored(map[], es) && Stored(map[], es)[es[i].key].id == es[i].id
  {
    var n := |es| - 1;
    if i < n {
      assert IsFirst(es[..n], i);
      FirstIdStays(es[..n], i);
    } else {
      RowPerKey(es[..n], es[n].key);
    }
  }

  /** One insertion for each row there is. */
  lemma {:induction false} InsertedIsRowCount(t: Table, es: seq<CostEvent>)
    ensures |Stored(t, es)| == |t| + Counted(t, es).inserted
  {
    if es != [] {
      InsertedIsRowCount(t, es[..|es| - 1]);
    }
  }

  /** Every event is counted once. */
  lemma {:induction false} CountsSum(t: Table, es: seq<CostEvent>)
    ensures var o := Counted(t, es); o.inserted + o.restated + o.duplicate == |es|
  {
    if es != [] {
      CountsSum(t, es[..|es| - 1]);
    }
  }

  // ---------------------------------------------------------------------------
  // Histories of batches
  // ---------------------------------------------------------------------------

  /** The table after a history of batches, some of which may have failed. */
  function After(batches: seq<seq<CostEvent>>): Table {
    if batches == [] then map[] else BatchTable(After(batches[..|batches| - 1]), batches[|batches| - 1])
  }

  /** The events of the batches that committed, in order. */
  function Committed(batches: seq<seq<CostEvent>>): seq<CostEvent> {
    if batches == [] then []
    else
      var front, batch := batches[..|batches| - 1], batches[|batches| - 1];
      Committed(front) + if BatchResult(After(front), batch).Success? then batch else []
  }

  /** How many insertions were reported in all. */
  function InsertedInAll(batches: seq<seq<CostEvent>>): nat {
    if batches == [] then 0
    else
      var front, batch := batches[..|batches| - 1], batches[|batches| - 1];
      var r := BatchResult(After(front), batch);
      InsertedInAll(front) + if r.Success? then r.value.inserted else 0
  }

  lemma {:induction false} AfterIsStored(batches: seq<seq<CostEvent>>)
    ensures After(batches) == Stored(map[], Committed(batches))
    ensures InsertedInAll(batches) == Counted(map[], Committed(batches)).inserted
  {
    if batches != [] {
      var front, batch := batches[..|batches| - 1], batches[|batches| - 1];
      AfterIsStored(front);
      StoredConcat(map[], Committed(front), batch);
      assert Committed(front) + [] == Committed(front);
    }
  }

  ghost predicate RowPerDistinctKey(t: Table, es: seq<CostEvent>) {
    && (forall i :: 0 <= i < |es| ==> es[i].key in t)
    && (forall k :: k in t ==> exists i :: HasKey(es, i, k))
  }

  ghost predicate FirstIds(t: Table, es: seq<CostEvent>) {
    forall i :: IsFirst(es, i) ==> es[i].key in t && t[es[i].key].id == es[i].id
  }

  ghost predicate LastContents(t: Table, es: seq<CostEvent>) {
    forall i :: IsLast(es, i) ==> es[i].key in t && t[es[i].key].content == es[i].content
  }

  lemma {:induction false} RowsAreTheKeys(es: seq<CostEvent>)
    ensures RowPerDistinctKey(Stored(map[], es), es)
  {
    forall i | 0 <= i < |es| ensures es[i].key in Stored(map[], es) {
      assert HasKey(es, i, es[i].key);
      RowPerKey(es, es[i].key);
    }
    forall k | k in Stored(map[], es) ensures exists i :: HasKey(es, i, k) {
      RowPerKey(es, k);
    }
  }

  /**
   Over any history of batches: a row for each distinct key that was committed, holding the content
   last delivered and the id first delivered, and as many insertions reported as there are rows.
   */
  lemma {:induction false} HistoryOfTheTable(batches: seq<seq<CostEvent>>)
    ensures InsertedInAll(batches) == |After(batches)|
    ensures RowPerDistinctKey(After(batches), Committed(batches))
    ensures FirstIds(After(batches), Committed(batches))
    ensures Faithful(Committed(batches)) ==> LastContents(After(batches), Committed(batches))
  {
    var es := Committed(batches);
    AfterIsStored(batches);
    InsertedIsRowCount(map[], es);
    RowsAreTheKeys(es);
    forall i | IsFirst(es, i) ensures es[i].key in Stored(map[], es) && Stored(map[], es)[es[i].key].id == es[i].id {
      FirstIdStays(es, i);
    }
    if Faithful(es) {
      forall i | IsLast(es, i)
        ensures es[i].key in Stored(map[], es) && Stored(map[], es)[es[i].key].content == es[i].content
      {
        LastDeliveryWins(es, i);
      }
    }
  }

  // ---------------------------------------------------------------------------
  // Redelivery
  // ---------------------------------------------------------------------------

  predicate AlreadyThere(t: Table, es: seq<CostEvent>) {
    forall i :: 0 <= i < |es| ==> es[i].key in t && t[es[i].key].contentHash == es[i].contentHash
  }

  predicate AllPositive(es: seq<CostEvent>) {
    forall i :: 0 <= i < |es| ==> PositivePeriod(es[i])
  }

  lemma AllPositiveLast(es: seq<CostEvent>)
    requires es != []
    ensures AllPositive(es) <==> AllPositive(es[..|es| - 1]) && PositivePeriod(es[|es| - 1])
  {
    assert es == es[..|es| - 1] + [es[|es| - 1]];
  }

  /** A batch that commits has positive periods. */
  lemma {:induction false} CommittedIsPositive(t: Table, es: seq<CostEvent>)
    requires FirstRefused(t, es) == None
    ensures AllPositive(es)
  {
    if es != [] {
      CommittedIsPositive(t, es[..|es| - 1]);
      AllPositiveLast(es);
    }
  }

  /**
   All duplicates exactly when every event is what its row already says; then nothing changes, and
   nothing is refused unless a period is not positive.
   */
  lemma {:induction false} AllDuplicatesIff(t: Table, es: seq<CostEvent>)
    ensures Counted(t, es).duplicate == |es| <==> AlreadyThere(t, es)
    ensures AlreadyThere(t, es) ==> Stored(t, es) == t && (FirstRefused(t, es) == None <==> AllPositive(es))
    ensures Counted(t, es).duplicate <= |es|
  {
    if es != [] {
      var n := |es| - 1;
      AllDuplicatesIff(t, es[..n]);
      AllPositiveLast(es);
      assert AlreadyThere(t, es) ==> AlreadyThere(t, es[..n]);
      forall i | 0 <= i < |es|
        ensures AlreadyThere(t, es[..n]) && EffectOf(t, es[n]) == Duplicate
                ==> es[i].key in t && t[es[i].key].contentHash == es[i].contentHash
      {
        assert i < n ==> es[..n][i] == es[i];
      }
    }
  }

  /** Events with the same key say the same. */
  predicate OneHashPerKey(es: seq<CostEvent>) {
    forall i, j :: 0 <= i < |es| && 0 <= j < |es| && es[i].key == es[j].key
      ==> es[i].contentHash == es[j].contentHash
  }

  lemma {:induction false} LastWithKey(es: seq<CostEvent>, i: nat) returns (j: nat)
    requires i < |es|
    ensures IsLast(es, j) && es[j].key == es[i].key
  {
    var n := |es| - 1;
    if es[n].key == es[i].key {
      j := n;
    } else {
      j := LastWithKey(es[..n], i);
      assert es[..n][j] == es[j];
    }
  }

  /** What has just been stored is already there, exactly when it says one thing per key. */
  lemma {:induction false} StoredIsThereIff(t: Table, es: seq<CostEvent>)
    ensures AlreadyThere(Stored(t, es), es) <==> OneHashPerKey(es)
  {
    var after := Stored(t, es);
    if OneHashPerKey(es) {
      forall i: nat | i < |es| ensures es[i].key in after && after[es[i].key].contentHash == es[i].contentHash {
        var j := LastWithKey(es, i);
        LastHashWins(t, es, j);
        assert es[j].contentHash == es[i].contentHash;
      }
    }
  }

  /** A batch just committed is all duplicates when delivered again, exactly when it does not restate itself. */
  lemma {:induction false} RedeliveryIsDuplicatesIff(t: Table, es: seq<CostEvent>)
    requires BatchResult(t, es).Success?
    ensures var after := BatchTable(t, es);
            (BatchResult(after, es) == Success(Outcome(0, 0, |es|)) && BatchTable(after, es) == after)
            <==> OneHashPerKey(es)
  {
    CommittedIsPositive(t, es);
    StoredIsThereIff(t, es);
    AllDuplicatesIff(Stored(t, es), es);
    CountsSum(Stored(t, es), es);
  }

  // ---------------------------------------------------------------------------
  // Redelivery keeps the table, whatever the batch says
  // ---------------------------------------------------------------------------

  predicate OneHash(es: seq<CostEvent>, k: Key) {
    forall i, j :: 0 <= i < |es| && 0 <= j < |es| && es[i].key == k && es[j].key == k
      ==> es[i].contentHash == es[j].contentHash
  }

  predicate SameButId(x: Row, y: Row) {
    x.content == y.content && x.contentHash == y.contentHash && x.provenance == y.provenance
  }

  lemma {:induction false} KeysStay(t: Table, es: seq<CostEvent>, k: Key)
    ensures k in t ==> k in Stored(t, es) && Stored(t, es)[k].id == t[k].id
    ensures k in Stored(t, es) ==> k in t || exists i :: HasKey(es, i, k)
    ensures (forall i :: !HasKey(es, i, k)) ==>
              (k in t <==> k in Stored(t, es)) && (k in t ==> Stored(t, es)[k] == t[k])
  {
    if es != [] {
      var n := |es| - 1;
      KeysStay(t, es[..n], k);
      forall i | HasKey(es[..n], i, k) ensures HasKey(es, i, k) {
      }
      assert es[n].key == k ==> HasKey(es, n, k);
    }
  }

  lemma {:induction false} DeliveredHash(t: Table, es: seq<CostEvent>, k: Key, i: nat)
    requires HasKey(es, i, k) && OneHash(es, k)
    ensures k in Stored(t, es) && Stored(t, es)[k].contentHash == es[i].contentHash
  {
    var j := LastWithKey(es, i);
    LastHashWins(t, es, j);
  }

  /** Rows that say the same still do after one more event. */
  lemma {:induction false} SameAfterOneMore(t: Table, u: Table, e: CostEvent, k: Key)
    requires k in t && k in u && SameButId(t[k], u[k])
    ensures k in Upserted(t, e) && k in Upserted(u, e) && SameButId(Upserted(t, e)[k], Upserted(u, e)[k])
  {
  }

  /** An event that both rows disagree with makes them say what it says. */
  lemma {:induction false} SameAfterRestating(t: Table, u: Table, e: CostEvent)
    requires e.key in t && t[e.key].contentHash != e.contentHash
    requires e.key in u && u[e.key].contentHash != e.contentHash
    ensures e.key in Upserted(t, e) && e.key in Upserted(u, e)
    ensures SameButId(Upserted(t, e)[e.key], Upserted(u, e)[e.key])
  {
  }

  /** If only the last event changes its mind about a key, an earlier one said something else of it. */
  lemma {:induction false} LastDisagrees(es: seq<CostEvent>, k: Key) returns (i: nat)
    requires es != [] && !OneHash(es, k) && OneHash(es[..|es| - 1], k)
    ensures es[|es| - 1].key == k && HasKey(es[..|es| - 1], i, k)
    ensures es[..|es| - 1][i].contentHash != es[|es| - 1].contentHash
  {
    var n := |es| - 1;
    var front := es[..n];
    var a, b :| 0 <= a < |es| && 0 <= b < |es| && es[a].key == k && es[b].key == k
                && es[a].contentHash != es[b].contentHash;
    assert a < n ==> front[a] == es[a];
    assert b < n ==> front[b] == es[b];
    i := if a == n then b else a;
  }

  /** Once a batch has changed its mind about a key, what the row was before no longer shows. */
  lemma {:induction false} RestatedForgetsTheStart(t: Table, u: Table, es: seq<CostEvent>, k: Key)
    requires !OneHash(es, k)
    ensures k in Stored(t, es) && k in Stored(u, es) && SameButId(Stored(t, es)[k], Stored(u, es)[k])
  {
    var n := |es| - 1;
    var front := es[..n];
    if !OneHash(front, k) {
      RestatedForgetsTheStart(t, u, front, k);
      SameAfterOneMore(Stored(t, front), Stored(u, front), es[n], k);
    } else {
      var i := LastDisagrees(es, k);
      DeliveredHash(t, front, k, i);
      DeliveredHash(u, front, k, i);
      SameAfterRestating(Stored(t, front), Stored(u, front), es[n]);
    }
  }

  lemma {:induction false} AlreadySaid(t: Table, es: seq<CostEvent>, k: Key)
    requires k in t && forall i :: HasKey(es, i, k) ==> es[i].contentHash == t[k].contentHash
    ensures k in Stored(t, es) && Stored(t, es)[k] == t[k]
  {
    if es != [] {
      var n := |es| - 1;
      forall i | HasKey(es[..n], i, k) ensures es[..n][i].contentHash == t[k].contentHash {
        assert HasKey(es, i, k);
      }
      AlreadySaid(t, es[..n], k);
      assert es[n].key == k ==> HasKey(es, n, k);
    }
  }

  lemma {:induction false} RowSurvivesRedelivery(t: Table, es: seq<CostEvent>, k: Key)
    requires k in Stored(t, es)
    ensures k in Stored(Stored(t, es), es) && Stored(Stored(t, es), es)[k] == Stored(t, es)[k]
  {
    var after := Stored(t, es);
    KeysStay(after, es, k);
    if OneHash(es, k) {
      forall i | HasKey(es, i, k) ensures es[i].contentHash == after[k].contentHash {
        DeliveredHash(t, es, k, i);
      }
      AlreadySaid(after, es, k);
    } else {
      RestatedForgetsTheStart(t, after, es, k);
    }
  }

  /** Delivering a committed batch again commits, inserts nothing, and leaves every row as it was. */
  lemma {:induction false} RedeliveryKeepsTheTable(t: Table, es: seq<CostEvent>)
    requires BatchResult(t, es).Success?
    ensures var after := BatchTable(t, es);
            && BatchTable(after, es) == after
            && BatchResult(after, es).Success?
            && BatchResult(after, es).value.inserted == 0
  {
    var after := Stored(t, es);
    forall i: nat | i < |es| ensures es[i].key in after {
      var j := LastWithKey(es, i);
      LastHashWins(t, es, j);
    }
    CommittedIsPositive(t, es);
    NothingNew(after, es);
    forall k ensures k in Stored(after, es) <==> k in after {
      KeysStay(after, es, k);
      if i :| HasKey(es, i, k) {
        assert es[i].key in after;
      }
    }
    forall k | k in after ensures Stored(after, es)[k] == after[k] {
      RowSurvivesRedelivery(t, es, k);
    }
  }

  lemma {:induction false} NothingNew(t: Table, es: seq<CostEvent>)
    requires AllPositive(es) && forall i :: 0 <= i < |es| ==> es[i].key in t
    ensures FirstRefused(t, es) == None && Counted(t, es).inserted == 0
  {
    if es != [] {
      AllPositiveLast(es);
      NothingNew(t, es[..|es| - 1]);
      KeysStay(t, es[..|es| - 1], es[|es| - 1].key);
    }
  }

  /** So a batch with distinct keys can be delivered again at will. */
  lemma DistinctKeysRedeliver(t: Table, es: seq<CostEvent>)
    requires BatchResult(t, es).Success? && forall i, j :: 0 <= i < j < |es| ==> es[i].key != es[j].key
    ensures BatchResult(BatchTable(t, es), es) == Success(Outcome(0, 0, |es|))
    ensures BatchTable(BatchTable(t, es), es) == BatchTable(t, es)
  {
    assert OneHashPerKey(es);
    RedeliveryIsDuplicatesIff(t, es);
  }

  /** A batch that says two things about one key restates it again on every delivery. */
  lemma SelfRestatingBatch()
    ensures var k := Key(1, "aws", "line-1");
            var es := [
              CostEvent(1, k, Content(None, Usd, 1.0, 0, 1, ""), "a", "x"),
              CostEvent(2, k, Content(None, Usd, 2.0, 0, 1, ""), "b", "x")];
            && BatchResult(map[], es).Success?
            && BatchResult(BatchTable(map[], es), es) == Success(Outcome(0, 2, 0))
  {
    var k := Key(1, "aws", "line-1");
    var a := CostEvent(1, k, Content(None, Usd, 1.0, 0, 1, ""), "a", "x");
    var b := CostEvent(2, k, Content(None, Usd, 2.0, 0, 1, ""), "b", "x");
    var es := [a, b];
    assert es[..1] == [a] && es[..1][..0] == [];
    var after := Stored(map[], es);
    assert Stored(map[], es[..1]) == Upserted(map[], a);
    assert after == Upserted(Upserted(map[], a), b);
    assert Stored(after, es[..1]) == Upserted(after, a);
    assert Counted(after, es[..1]) == Outcome(0, 1, 0);
    AllPositiveLast(es);
    NothingNew(after, es);
    assert FirstRefused(map[], es[..1][..0]) == None && Refusal(map[], a) == None;
    assert FirstRefused(map[], es[..1]) == None;
    assert Refusal(Upserted(map[], a), b) == None;
  }
}
