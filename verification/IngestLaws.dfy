/** When a batch is refused, which rows hold which ids, and which delivery each row is. */
module IngestLaws {
  import opened Wrappers
  import opened CoreMoney
  import opened CostEvents

  // ---------------------------------------------------------------------------
  // Ids
  // ---------------------------------------------------------------------------

  /** The event opens a row: its key is not in the table, and no earlier event of the batch has it. */
  ghost predicate Opens(t: Table, es: seq<CostEvent>, i: int) {
    IsFirst(es, i) && es[i].key !in t
  }

  ghost predicate HeldIn(t: Table, id: nat) {
    exists k :: k in t && t[k].id == id
  }

  ghost predicate OpenedUnder(t: Table, es: seq<CostEvent>, id: nat) {
    exists i :: Opens(t, es, i) && es[i].id == id
  }

  lemma {:induction false} OpensOnFront(t: Table, es: seq<CostEvent>, n: nat, i: int)
    requires i < n <= |es|
    ensures Opens(t, es[..n], i) <==> Opens(t, es, i)
  {
  }

  lemma {:induction false} RowIsThereIff(t: Table, es: seq<CostEvent>, k: Key)
    ensures k in Stored(t, es) <==> k in t || exists i :: HasKey(es, i, k)
  {
    KeysStay(t, es, k);
    if i :| HasKey(es, i, k) {
      var j := LastWithKey(es, i);
      LastHashWins(t, es, j);
    }
  }

  /** The ids held after a batch are those held before and those of the events that opened a row. */
  lemma {:induction false} IdsHeldAfter(t: Table, es: seq<CostEvent>, id: nat)
    ensures HeldIn(Stored(t, es), id) <==> HeldIn(t, id) || OpenedUnder(t, es, id)
  {
    if es != [] {
      var n := |es| - 1;
      var before, e := Stored(t, es[..n]), es[n];
      IdsHeldAfter(t, es[..n], id);
      RowIsThereIff(t, es[..n], e.key);
      assert Opens(t, es, n) <==> e.key !in before by {
        assert (exists i :: HasKey(es[..n], i, e.key)) <==> exists i :: 0 <= i < n && es[i].key == e.key by {
          assert forall i :: HasKey(es[..n], i, e.key) <==> 0 <= i < n && es[i].key == e.key;
        }
      }
      OpenedLast(t, es, id);
      HeldAfterOne(before, e, id);
    }
  }

  lemma {:induction false} OpenedLast(t: Table, es: seq<CostEvent>, id: nat)
    requires es != []
    ensures OpenedUnder(t, es, id)
            <==> OpenedUnder(t, es[..|es| - 1], id) || (Opens(t, es, |es| - 1) && es[|es| - 1].id == id)
  {
    var n := |es| - 1;
    if i :| Opens(t, es, i) && es[i].id == id {
      if i < n {
        OpensOnFront(t, es, n, i);
        assert es[..n][i].id == id;
      }
    }
    if i :| Opens(t, es[..n], i) && es[..n][i].id == id {
      OpensOnFront(t, es, n, i);
    }
  }

  lemma {:induction false} HeldAfterOne(t: Table, e: CostEvent, id: nat)
    ensures HeldIn(Upserted(t, e), id) <==> HeldIn(t, id) || (e.key !in t && e.id == id)
  {
    var after := Upserted(t, e);
    if k :| k in t && t[k].id == id {
      assert k in after && after[k].id == id;
    }
    if e.key !in t {
      assert after[e.key].id == e.id;
    }
  }

  // ---------------------------------------------------------------------------
  // Refusal
  // ---------------------------------------------------------------------------

  /** The event would open a row under an id that a row, or an earlier opening, already has. */
  ghost predicate TakesAnId(t: Table, es: seq<CostEvent>, i: int) {
    Opens(t, es, i) && (HeldIn(t, es[i].id) || exists j :: 0 <= j < i && Opens(t, es, j) && es[j].id == es[i].id)
  }

  ghost predicate IsFaulty(t: Table, es: seq<CostEvent>, i: int) {
    0 <= i < |es| && (es[i].content.periodEnd <= es[i].content.periodStart || TakesAnId(t, es, i))
  }

  lemma {:induction false} FaultyOnFront(t: Table, es: seq<CostEvent>, i: int)
    requires es != [] && i < |es| - 1
    ensures IsFaulty(t, es[..|es| - 1], i) <==> IsFaulty(t, es, i)
  {
    var n := |es| - 1;
    OpensOnFront(t, es, n, i);
    forall j | j < i ensures Opens(t, es[..n], j) <==> Opens(t, es, j) {
      OpensOnFront(t, es, n, j);
    }
  }

  /** The last event is refused in its turn exactly when it is faulty. */
  lemma {:induction false} LastIsRefusedIff(t: Table, es: seq<CostEvent>)
    requires es != []
    ensures var n := |es| - 1; Refusal(Stored(t, es[..n]), es[n]).Some? <==> IsFaulty(t, es, n)
  {
    var n := |es| - 1;
    var before, e := Stored(t, es[..n]), es[n];
    IdsHeldAfter(t, es[..n], e.id);
    RowIsThereIff(t, es[..n], e.key);
    assert Opens(t, es, n) <==> e.key !in before by {
      assert forall i :: HasKey(es[..n], i, e.key) <==> 0 <= i < n && es[i].key == e.key;
    }
    assert OpenedUnder(t, es[..n], e.id) <==> exists j :: 0 <= j < n && Opens(t, es, j) && es[j].id == e.id by {
      forall j | 0 <= j < n ensures Opens(t, es[..n], j) <==> Opens(t, es, j) {
        OpensOnFront(t, es, n, j);
      }
    }
    assert HeldIn(before, e.id) <==> exists k :: k in before && before[k].id == e.id;
  }

  lemma {:induction false} SomeIsRefusedIff(t: Table, es: seq<CostEvent>)
    ensures FirstRefused(t, es).Some? <==> exists i :: IsFaulty(t, es, i)
  {
    if es != [] {
      var n := |es| - 1;
      SomeIsRefusedIff(t, es[..n]);
      LastIsRefusedIff(t, es);
      if i :| IsFaulty(t, es, i) {
        if i < n {
          FaultyOnFront(t, es, i);
        }
      }
      if i :| IsFaulty(t, es[..n], i) {
        FaultyOnFront(t, es, i);
      }
    }
  }

  /**
   A batch is refused, and changes nothing, exactly when it spans tenants, or an event of it has no
   positive period, or would open a row under an id that is taken.
   */
  lemma {:induction false} BatchIsRefusedIff(t: Table, es: seq<CostEvent>)
    ensures BatchResult(t, es) == Failure(MixedTenants)
            <==> exists i :: 0 <= i < |es| && es[i].key.tenant != es[0].key.tenant
    ensures BatchResult(t, es).Failure?
            <==> || (exists i :: 0 <= i < |es| && es[i].key.tenant != es[0].key.tenant)
                 || (exists i :: IsFaulty(t, es, i))
    ensures BatchResult(t, es).Failure? ==> BatchTable(t, es) == t
  {
    SomeIsRefusedIff(t, es);
    RefusalIsNotOverTenants(t, es);
  }

  lemma {:induction false} RefusalIsNotOverTenants(t: Table, es: seq<CostEvent>)
    ensures FirstRefused(t, es) != Some(MixedTenants)
  {
    if es != [] {
      RefusalIsNotOverTenants(t, es[..|es| - 1]);
    }
  }

  /** The first faulty event names the refusal: over its period before its id. */
  lemma {:induction false} RefusalNamesTheFirstFault(t: Table, es: seq<CostEvent>, i: nat)
    requires IsFaulty(t, es, i) && forall j :: 0 <= j < i ==> !IsFaulty(t, es, j)
    ensures FirstRefused(t, es)
            == Some(if es[i].content.periodEnd <= es[i].content.periodStart then PeriodNotPositive(es[i].key)
                    else IdTaken(es[i].id))
  {
    var n := |es| - 1;
    if i < n {
      forall j | 0 <= j <= i ensures IsFaulty(t, es[..n], j) <==> IsFaulty(t, es, j) {
        FaultyOnFront(t, es, j);
      }
      RefusalNamesTheFirstFault(t, es[..n], i);
    } else {
      if j :| IsFaulty(t, es[..n], j) {
        FaultyOnFront(t, es, j);
      }
      SomeIsRefusedIff(t, es[..n]);
      LastIsRefusedIff(t, es);
    }
  }

  /** Over any history no two rows share an id. */
  lemma {:induction false} RowIdsAreUnique(batches: seq<seq<CostEvent>>)
    ensures UniqueIds(After(batches))
  {
    if batches != [] {
      var front, batch := batches[..|batches| - 1], batches[|batches| - 1];
      RowIdsAreUnique(front);
      if BatchResult(After(front), batch).Success? {
        UniqueAfter(After(front), batch);
      }
    }
  }

  ghost predicate UniqueIds(t: Table) {
    forall j, k :: j in t && k in t && t[j].id == t[k].id ==> j == k
  }

  lemma {:induction false} UniqueAfter(t: Table, es: seq<CostEvent>)
    requires UniqueIds(t) && FirstRefused(t, es) == None
    ensures UniqueIds(Stored(t, es))
  {
    if es != [] {
      UniqueAfter(t, es[..|es| - 1]);
    }
  }

  // ---------------------------------------------------------------------------
  // Which delivery a row is
  // ---------------------------------------------------------------------------

  /** The latest earlier delivery of the key. */
  ghost predicate IsPrevious(es: seq<CostEvent>, p: int, i: int, k: Key) {
    p < i <= |es| && HasKey(es, p, k) && forall q :: p < q < i ==> !HasKey(es, q, k)
  }

  /** Delivery `i` said something new of its key, and no later one did. */
  ghost predicate IsLastChange(es: seq<CostEvent>, i: int, k: Key) {
    && HasKey(es, i, k)
    && (forall p :: IsPrevious(es, p, i, k) ==> es[p].contentHash != es[i].contentHash)
    && (forall j :: i < j && HasKey(es, j, k) ==> es[j].contentHash == es[i].contentHash)
  }

  lemma {:induction false} PreviousOnFront(es: seq<CostEvent>, p: int, i: int, k: Key)
    requires es != [] && i <= |es| - 1
    ensures IsPrevious(es[..|es| - 1], p, i, k) <==> IsPrevious(es, p, i, k)
  {
    var n := |es| - 1;
    assert forall q :: q < n ==> (HasKey(es[..n], q, k) <==> HasKey(es, q, k));
  }

  lemma {:induction false} RestatedIsAChange(es: seq<CostEvent>, k: Key)
    requires es != [] && es[|es| - 1].key == k
    requires k in Stored(map[], es[..|es| - 1]) ==>
               Stored(map[], es[..|es| - 1])[k].contentHash != es[|es| - 1].contentHash
    ensures IsLastChange(es, |es| - 1, k)
  {
    var n := |es| - 1;
    forall p | IsPrevious(es, p, n, k) ensures es[p].contentHash != es[n].contentHash {
      forall q | p < q < n ensures es[..n][q].key != k {
        assert !HasKey(es, q, k);
      }
      assert IsLast(es[..n], p);
      LastHashWins(map[], es[..n], p);
    }
  }

  lemma {:induction false} ChangeStays(es: seq<CostEvent>, i: nat, k: Key)
    requires es != [] && IsLastChange(es[..|es| - 1], i, k)
    requires es[|es| - 1].key == k ==> es[|es| - 1].contentHash == es[i].contentHash
    ensures IsLastChange(es, i, k)
  {
    var n := |es| - 1;
    forall p | IsPrevious(es, p, i, k) ensures es[p].contentHash != es[i].contentHash {
      PreviousOnFront(es, p, i, k);
    }
    assert forall j :: i < j < n && HasKey(es, j, k) ==> HasKey(es[..n], j, k);
  }

  /** A row is, in everything but its id, the last delivery that said something new of its key. */
  lemma {:induction false} RowIsTheLastChange(es: seq<CostEvent>, k: Key) returns (i: nat)
    requires k in Stored(map[], es)
    ensures IsLastChange(es, i, k)
    ensures var row := Stored(map[], es)[k];
            row == Row(row.id, es[i].content, es[i].contentHash, es[i].provenance)
  {
    var n := |es| - 1;
    var before := Stored(map[], es[..n]);
    if es[n].key == k && (k !in before || before[k].contentHash != es[n].contentHash) {
      i := n;
      RestatedIsAChange(es, k);
    } else {
      i := RowIsTheLastChange(es[..n], k);
      ChangeStays(es, i, k);
    }
  }
}
