/**
 The general-ledger extract: unsigned amounts with a debit/credit flag, one row per journal line,
 and the audit that rebuilds the balances from them.
 */
module AdsExport {
  import opened Wrappers
  import opened CoreMoney
  import opened Decimals
  import opened Ledger
  import opened EntryLaws
  import opened BalanceLaws
  import opened LedgerLaws
  import opened InForce
  import opened Runner

  datatype Side = D | C

  datatype GlDetailRow = GlDetailRow(
    journal: nat,
    lineNumber: nat,
    account: string,
    amount: real,
    indicator: Side,
    currency: Currency,
    reversalOf: Option<EntryId>,
    sources: seq<UsageEventId>)

  datatype ControlTotal = ControlTotal(debits: real, credits: real, lineCount: nat, entryCount: nat)

  datatype ReconcileError =
    | DoesNotFoot(debits: real, credits: real)
    | Differs(against: string, account: string, left: real, right: real)

  /** The account number in a "1000-Cash" label: what precedes the first dash, or all of it. */
  function CodeOfLabel(text: string): (code: string)
    ensures code <= text && '-' !in code
    ensures code == text || (|code| < |text| && text[|code|] == '-')
  {
    if text == [] || text[0] == '-' then []
    else [text[0]] + CodeOfLabel(text[1..])
  }

  // ---------------------------------------------------------------------------
  // Building the detail file
  // ---------------------------------------------------------------------------

  /**
   The side is read off the sign of the amount, not off the field it was written in: a debit of a
   negative amount is a credit of its magnitude.
   */
  function RowOf(
      entry: EntryRecord, index: nat, line: JournalLine, signed: Money, labels: AccountId -> string): GlDetailRow {
    GlDetailRow(
      entry.journal, index + 1, CodeOfLabel(labels(line.account)),
      Abs(signed.amount), if signed.amount < 0.0 then C else D, signed.currency,
      entry.posting.reversalOf, line.sources)
  }

  function EntryRows(entry: EntryRecord, lines: seq<JournalLine>, labels: AccountId -> string): seq<GlDetailRow> {
    if lines == [] then []
    else
      var n := |lines| - 1;
      var front := EntryRows(entry, lines[..n], labels);
      match lines[n].SignedAmount()
      case None => front
      case Some(signed) => front + [RowOf(entry, n, lines[n], signed, labels)]
  }

  function Detail(entries: seq<EntryRecord>, labels: AccountId -> string): seq<GlDetailRow> {
    if entries == [] then []
    else
      var entry := entries[|entries| - 1];
      Detail(entries[..|entries| - 1], labels) + EntryRows(entry, entry.posting.lines, labels)
  }

  /** One entry's rows: the inner loop. */
  lemma {:induction false} OneLineMore(entry: EntryRecord, lines: seq<JournalLine>, i: nat, labels: AccountId -> string)
    requires i < |lines|
    ensures EntryRows(entry, lines[..i + 1], labels)
            == EntryRows(entry, lines[..i], labels)
               + match lines[i].SignedAmount()
                 case None => []
                 case Some(signed) => [RowOf(entry, i, lines[i], signed, labels)]
  {
    assert lines[..i + 1][..i] == lines[..i];
  }

  method RowsOfEntry(entry: EntryRecord, labels: AccountId -> string) returns (rows: seq<GlDetailRow>)
    ensures rows == EntryRows(entry, entry.posting.lines, labels)
  {
    var lines := entry.posting.lines;
    rows := [];
    for i := 0 to |lines|
      invariant rows == EntryRows(entry, lines[..i], labels)
    {
      OneLineMore(entry, lines, i, labels);
      var signed := lines[i].SignedAmount();
      if signed.Some? {
        rows := rows + [RowOf(entry, i, lines[i], signed.value, labels)];
      }
    }
    assert lines[..|lines|] == lines;
  }

  method FromRun(entries: seq<EntryRecord>, labels: AccountId -> string) returns (rows: seq<GlDetailRow>)
    ensures rows == Detail(entries, labels)
  {
    rows := [];
    for k := 0 to |entries|
      invariant rows == Detail(entries[..k], labels)
    {
      assert entries[..k + 1][..k] == entries[..k];
      var more := RowsOfEntry(entries[k], labels);
      rows := rows + more;
    }
    assert entries[..|entries|] == entries;
  }

  // ---------------------------------------------------------------------------
  // Footing and re-deriving
  // ---------------------------------------------------------------------------

  function SideTotal(rows: seq<GlDetailRow>, side: Side): real {
    if rows == [] then 0.0
    else
      var row := rows[|rows| - 1];
      SideTotal(rows[..|rows| - 1], side) + (if row.indicator == side then row.amount else 0.0)
  }

  function JournalsOf(rows: seq<GlDetailRow>): set<nat> {
    if rows == [] then {} else JournalsOf(rows[..|rows| - 1]) + {rows[|rows| - 1].journal}
  }

  method Foot(rows: seq<GlDetailRow>) returns (t: ControlTotal)
    ensures t == ControlTotal(SideTotal(rows, D), SideTotal(rows, C), |rows|, |JournalsOf(rows)|)
  {
    var debits, credits := 0.0, 0.0;
    var journals: set<nat> := {};
    for i := 0 to |rows|
      invariant debits == SideTotal(rows[..i], D) && credits == SideTotal(rows[..i], C)
      invariant journals == JournalsOf(rows[..i])
    {
      assert rows[..i + 1][..i] == rows[..i];
      if rows[i].indicator == D {
        debits := debits + rows[i].amount;
      } else {
        credits := credits + rows[i].amount;
      }
      journals := journals + {rows[i].journal};
    }
    assert rows[..|rows|] == rows;
    t := ControlTotal(debits, credits, |rows|, |journals|);
  }

  function RowSigned(row: GlDetailRow): real {
    if row.indicator == D then row.amount else -row.amount
  }

  /** What the detail file says an account holds. */
  function AccountDerived(rows: seq<GlDetailRow>, account: string): real {
    if rows == [] then 0.0
    else
      var row := rows[|rows| - 1];
      AccountDerived(rows[..|rows| - 1], account) + (if row.account == account then RowSigned(row) else 0.0)
  }

  function GetOr0(m: map<string, real>, k: string): real {
    if k in m then m[k] else 0.0
  }

  method Derive(rows: seq<GlDetailRow>) returns (derived: map<string, real>)
    ensures forall k :: GetOr0(derived, k) == AccountDerived(rows, k)
  {
    derived := map[];
    for i := 0 to |rows|
      invariant forall k :: GetOr0(derived, k) == AccountDerived(rows[..i], k)
    {
      assert rows[..i + 1][..i] == rows[..i];
      var row := rows[i];
      ghost var before := derived;
      derived := derived[row.account := GetOr0(derived, row.account) + RowSigned(row)];
      assert forall k :: GetOr0(derived, k) ==
                           GetOr0(before, k) + (if row.account == k then RowSigned(row) else 0.0);
    }
    assert rows[..|rows|] == rows;
  }

  /** Every account of either side, absent read as zero; the first difference met is reported. */
  method Compare(what: string, left: map<string, real>, right: map<string, real>)
    returns (r: Result<(), ReconcileError>)
    ensures r.Success? <==> forall k :: GetOr0(left, k) == GetOr0(right, k)
    ensures r.Failure? ==>
              && r.error.Differs? && r.error.against == what
              && r.error.left == GetOr0(left, r.error.account) && r.error.right == GetOr0(right, r.error.account)
              && r.error.left != r.error.right
  {
    var accounts := left.Keys + right.Keys;
    while accounts != {}
      invariant accounts <= left.Keys + right.Keys
      invariant forall k :: k !in accounts ==> GetOr0(left, k) == GetOr0(right, k)
      decreases |accounts|
    {
      var k :| k in accounts;
      if GetOr0(left, k) != GetOr0(right, k) {
        return Failure(Differs(what, k, GetOr0(left, k), GetOr0(right, k)));
      }
      accounts := accounts - {k};
    }
    r := Success(());
  }

  // ---------------------------------------------------------------------------
  // Keying by account number
  // ---------------------------------------------------------------------------

  /** The order of text, character by character. */
  predicate TextBefore(x: string, y: string) {
    y != [] && (x == [] || x[0] < y[0] || (x[0] == y[0] && TextBefore(x[1..], y[1..])))
  }

  /** A strict order of all keys. */
  ghost predicate Orders<K(!new)>(before: (K, K) -> bool) {
    && (forall x :: !before(x, x))
    && (forall x, y :: x == y || before(x, y) || before(y, x))
    && (forall x, y, z :: before(x, y) && before(y, z) ==> before(x, z))
  }

  lemma {:induction false} TextIsTotal(x: string, y: string)
    ensures !TextBefore(x, x)
    ensures x == y || TextBefore(x, y) || TextBefore(y, x)
  {
    if x != [] {
      TextIsTotal(x[1..], if y == [] then [] else y[1..]);
      assert x == [x[0]] + x[1..];
      assert y != [] ==> y == [y[0]] + y[1..];
    }
  }

  lemma {:induction false} TextIsTransitive(x: string, y: string, z: string)
    requires TextBefore(x, y) && TextBefore(y, z)
    ensures TextBefore(x, z)
  {
    if x != [] && x[0] == y[0] == z[0] {
      TextIsTransitive(x[1..], y[1..], z[1..]);
    }
  }

  lemma {:induction false} TextIsOrdered()
    ensures Orders(TextBefore)
  {
    forall x: string, y: string ensures !TextBefore(x, x) && (x == y || TextBefore(x, y) || TextBefore(y, x)) {
      TextIsTotal(x, y);
    }
    forall x: string, y: string, z: string | TextBefore(x, y) && TextBefore(y, z) ensures TextBefore(x, z) {
      TextIsTransitive(x, y, z);
    }
  }

  predicate IsLeast<K(==,!new)>(keys: set<K>, before: (K, K) -> bool, a: K) {
    a in keys && forall b :: b in keys && b != a ==> before(a, b)
  }

  lemma {:induction false} LeastOfMore<K(!new)>(rest: set<K>, before: (K, K) -> bool, k: K, a: K)
    requires Orders(before) && IsLeast(rest, before, a) && k !in rest
    ensures IsLeast(rest + {k}, before, if before(k, a) then k else a)
  {
  }

  lemma {:induction false} LeastOf<K(!new)>(keys: set<K>, before: (K, K) -> bool) returns (a: K)
    requires Orders(before) && keys != {}
    ensures IsLeast(keys, before, a)
  {
    var k :| k in keys;
    var rest := keys - {k};
    assert keys == rest + {k};
    if rest == {} {
      a := k;
    } else {
      var other := LeastOf(rest, before);
      LeastOfMore(rest, before, k, other);
      a := if before(k, other) then k else other;
    }
  }

  /** Among the keys of its code, the last. */
  ghost predicate IsLastOfCode<K(!new)>(keys: set<K>, code: K -> string, before: (K, K) -> bool, a: K) {
    a in keys && forall b :: b in keys && code(b) == code(a) && b != a ==> before(b, a)
  }

  /** Keyed by a code of the keys; where several share a code, the last of them is kept. */
  ghost predicate IsKeyed<K(!new)>(
      file: map<string, real>, m: map<K, real>, code: K -> string, before: (K, K) -> bool) {
    && (forall a :: a in m ==> code(a) in file)
    && (forall k :: k in file ==>
          exists a :: IsLastOfCode(m.Keys, code, before, a) && code(a) == k && file[k] == m[a])
  }

  /** What is written so far: the keys of `done`, all before the others. */
  ghost predicate KeyedSoFar<K(!new)>(
      file: map<string, real>, m: map<K, real>, code: K -> string, before: (K, K) -> bool, done: set<K>) {
    && done <= m.Keys
    && (forall a :: a in done ==> code(a) in file)
    && (forall k :: k in file ==>
          exists a :: IsLastOfCode(done, code, before, a) && code(a) == k && a in m && file[k] == m[a])
  }

  lemma {:induction false} KeyedOneMore<K(!new)>(
      file: map<string, real>, m: map<K, real>, code: K -> string, before: (K, K) -> bool, done: set<K>, a: K)
    requires KeyedSoFar(file, m, code, before, done) && a in m
    requires forall b :: b in done ==> before(b, a)
    ensures KeyedSoFar(file[code(a) := m[a]], m, code, before, done + {a})
  {
    var more := file[code(a) := m[a]];
    forall k | k in more
      ensures exists b :: IsLastOfCode(done + {a}, code, before, b) && code(b) == k && b in m && more[k] == m[b]
    {
      if k == code(a) {
        assert IsLastOfCode(done + {a}, code, before, a);
      } else {
        var b :| IsLastOfCode(done, code, before, b) && code(b) == k && b in m && file[k] == m[b];
        assert IsLastOfCode(done + {a}, code, before, b);
      }
    }
  }

  ghost predicate AllBefore<K(!new)>(done: set<K>, rest: set<K>, before: (K, K) -> bool) {
    forall a, b :: a in done && b in rest ==> before(a, b)
  }

  /** The least of what is left comes after all that is done. */
  lemma {:induction false} LeastIsNext<K(!new)>(
      file: map<string, real>, m: map<K, real>, code: K -> string, before: (K, K) -> bool, rest: set<K>, a: K)
    requires rest <= m.Keys && IsLeast(rest, before, a)
    requires KeyedSoFar(file, m, code, before, m.Keys - rest) && AllBefore(m.Keys - rest, rest, before)
    ensures KeyedSoFar(file[code(a) := m[a]], m, code, before, m.Keys - (rest - {a}))
    ensures AllBefore(m.Keys - (rest - {a}), rest - {a}, before)
  {
    KeyedOneMore(file, m, code, before, m.Keys - rest, a);
    assert m.Keys - rest + {a} == m.Keys - (rest - {a});
  }

  /** Inserting in order overwrites all but the last of a code. */
  method KeyBy<K(==,!new)>(m: map<K, real>, code: K -> string, before: (K, K) -> bool) returns (file: map<string, real>)
    requires Orders(before)
    ensures IsKeyed(file, m, code, before)
  {
    file := map[];
    var rest := m.Keys;
    while rest != {}
      invariant rest <= m.Keys && AllBefore(m.Keys - rest, rest, before)
      invariant KeyedSoFar(file, m, code, before, m.Keys - rest)
      decreases |rest|
    {
      ghost var least := LeastOf(rest, before);
      var a :| a in rest && IsLeast(rest, before, a);
      LeastIsNext(file, m, code, before, rest, a);
      file := file[code(a) := m[a]];
      rest := rest - {a};
    }
    assert m.Keys - rest == m.Keys;
  }

  /** Both sides hold the same, absent read as zero. */
  ghost predicate SameBalances(rows: seq<GlDetailRow>, file: map<string, real>) {
    forall k :: AccountDerived(rows, k) == GetOr0(file, k)
  }

  /** Three separate checks, each failing for its own reason; the expected answer is keyed by label. */
  method Reconcile(rows: seq<GlDetailRow>, trialBalance: map<string, real>, expected: map<string, real>)
    returns (r: Result<(), ReconcileError>, ghost byNumber: map<string, real>)
    ensures IsKeyed(byNumber, expected, CodeOfLabel, TextBefore)
    ensures r.Success? <==>
              && SideTotal(rows, D) == SideTotal(rows, C)
              && SameBalances(rows, trialBalance)
              && SameBalances(rows, byNumber)
    ensures SideTotal(rows, D) != SideTotal(rows, C) <==>
              r == Failure(DoesNotFoot(SideTotal(rows, D), SideTotal(rows, C)))
    ensures r.Failure? && r.error.Differs? ==>
              && r.error.left == AccountDerived(rows, r.error.account) != r.error.right
              && (if SameBalances(rows, trialBalance) then
                    r.error.against == "expected" && r.error.right == GetOr0(byNumber, r.error.account)
                  else
                    r.error.against == "trial balance file" && r.error.right == GetOr0(trialBalance, r.error.account))
  {
    TextIsOrdered();
    var expectedByNumber := KeyBy(expected, CodeOfLabel, TextBefore);
    byNumber := expectedByNumber;
    var totals := Foot(rows);
    if totals.debits != totals.credits {
      r := Failure(DoesNotFoot(totals.debits, totals.credits));
      return;
    }
    var derived := Derive(rows);
    r := Compare("trial balance file", derived, trialBalance);
    if r.Success? {
      r := Compare("expected", derived, expectedByNumber);
    }
  }

  // ---------------------------------------------------------------------------
  // The round trip
  // ---------------------------------------------------------------------------

  /** Magnitude and flag together are the signed amount, negative debits included. */
  lemma RowSignedIsSignedAmount(
      entry: EntryRecord, index: nat, line: JournalLine, signed: Money, labels: AccountId -> string)
    ensures RowSigned(RowOf(entry, index, line, signed, labels)) == signed.amount
    ensures RowOf(entry, index, line, signed, labels).amount >= 0.0
  {
  }

  lemma {:induction false} SideTotalAppend(x: seq<GlDetailRow>, y: seq<GlDetailRow>, side: Side)
    ensures SideTotal(x + y, side) == SideTotal(x, side) + SideTotal(y, side)
  {
    if y == [] {
      assert x + y == x;
    } else {
      SideTotalAppend(x, y[..|y| - 1], side);
      assert (x + y)[..|x + y| - 1] == x + y[..|y| - 1];
    }
  }

  lemma {:induction false} AccountDerivedAppend(x: seq<GlDetailRow>, y: seq<GlDetailRow>, k: string)
    ensures AccountDerived(x + y, k) == AccountDerived(x, k) + AccountDerived(y, k)
  {
    if y == [] {
      assert x + y == x;
    } else {
      AccountDerivedAppend(x, y[..|y| - 1], k);
      assert (x + y)[..|x + y| - 1] == x + y[..|y| - 1];
    }
  }

  lemma {:induction false} AccountDerivedOne(rows: seq<GlDetailRow>, row: GlDetailRow, k: string)
    ensures AccountDerived(rows + [row], k)
            == AccountDerived(rows, k) + (if row.account == k then RowSigned(row) else 0.0)
  {
    assert (rows + [row])[..|rows|] == rows;
  }

  /** The rows of a balanced entry foot, whatever signs its lines were written with. */
  lemma {:induction false} EntryFoots(
      entry: EntryRecord, lines: seq<JournalLine>, labels: AccountId -> string, c: Currency)
    requires forall i :: 0 <= i < |lines| ==> LineIn(lines[i], c)
    ensures SideTotal(EntryRows(entry, lines, labels), D) - SideTotal(EntryRows(entry, lines, labels), C)
            == CurrencySum(lines, c)
    ensures |EntryRows(entry, lines, labels)| == |lines|
  {
    if lines != [] {
      var n := |lines| - 1;
      EntryFoots(entry, lines[..n], labels, c);
      var front := EntryRows(entry, lines[..n], labels);
      assert LineIn(lines[n], c);
      var row := RowOf(entry, n, lines[n], lines[n].SignedAmount().value, labels);
      assert (front + [row])[..|front|] == front;
      assert EntryRows(entry, lines, labels) == front + [row];
    }
  }

  /** No two accounts that the lines touch share an account number. */
  ghost predicate DistinctCodes(lines: seq<JournalLine>, labels: AccountId -> string) {
    forall i, j :: 0 <= i < |lines| && 0 <= j < |lines|
      && CodeOfLabel(labels(lines[i].account)) == CodeOfLabel(labels(lines[j].account))
      ==> lines[i].account == lines[j].account
  }

  /** The account's number is not that of another account on these lines. */
  ghost predicate OwnCode(lines: seq<JournalLine>, labels: AccountId -> string, a: AccountId) {
    forall i :: 0 <= i < |lines| && CodeOfLabel(labels(lines[i].account)) == CodeOfLabel(labels(a))
      ==> lines[i].account == a
  }

  lemma {:induction false} EntryRowsDeriveAccount(
      entry: EntryRecord, lines: seq<JournalLine>, labels: AccountId -> string, a: AccountId)
    requires OwnCode(lines, labels, a)
    ensures AccountDerived(EntryRows(entry, lines, labels), CodeOfLabel(labels(a))) == AccountTotal(lines, a)
  {
    if lines != [] {
      var n := |lines| - 1;
      assert OwnCode(lines[..n], labels, a) by {
        assert forall i :: 0 <= i < n ==> lines[..n][i] == lines[i];
      }
      EntryRowsDeriveAccount(entry, lines[..n], labels, a);
      if lines[n].SignedAmount().Some? {
        var front := EntryRows(entry, lines[..n], labels);
        var row := RowOf(entry, n, lines[n], lines[n].SignedAmount().value, labels);
        assert EntryRows(entry, lines, labels) == front + [row];
        AccountDerivedOne(front, row, CodeOfLabel(labels(a)));
        RowSignedIsSignedAmount(entry, n, lines[n], lines[n].SignedAmount().value, labels);
        assert row.account == CodeOfLabel(labels(lines[n].account));
      }
    }
  }

  /** Every line of every entry, in order. */
  function LinesOf(entries: seq<EntryRecord>): seq<JournalLine> {
    if entries == [] then []
    else LinesOf(entries[..|entries| - 1]) + entries[|entries| - 1].posting.lines
  }

  lemma {:induction false} DetailDerivesAccount(entries: seq<EntryRecord>, labels: AccountId -> string, a: AccountId)
    requires OwnCode(LinesOf(entries), labels, a)
    ensures AccountDerived(Detail(entries, labels), CodeOfLabel(labels(a))) == AccountTotal(LinesOf(entries), a)
  {
    if entries != [] {
      var front, last := entries[..|entries| - 1], entries[|entries| - 1];
      var x, y := LinesOf(front), last.posting.lines;
      assert OwnCode(x, labels, a) by {
        assert forall i :: 0 <= i < |x| ==> (x + y)[i] == x[i];
      }
      assert OwnCode(y, labels, a) by {
        assert forall i :: 0 <= i < |y| ==> (x + y)[|x| + i] == y[i];
      }
      DetailDerivesAccount(front, labels, a);
      EntryRowsDeriveAccount(last, y, labels, a);
      AccountDerivedAppend(Detail(front, labels), EntryRows(last, y, labels), CodeOfLabel(labels(a)));
      AccountTotalAppend(x, y, a);
    }
  }

  /** No line is on an account numbered `k`. */
  predicate Strange(lines: seq<JournalLine>, labels: AccountId -> string, k: string) {
    forall i :: 0 <= i < |lines| ==> CodeOfLabel(labels(lines[i].account)) != k
  }

  lemma StrangeToBoth(x: seq<JournalLine>, y: seq<JournalLine>, labels: AccountId -> string, k: string)
    requires Strange(x + y, labels, k)
    ensures Strange(x, labels, k) && Strange(y, labels, k)
  {
    assert forall i :: 0 <= i < |x| ==> x[i] == (x + y)[i];
    assert forall i :: 0 <= i < |y| ==> y[i] == (x + y)[|x| + i];
  }

  /** An account number that no line has is not in the detail file. */
  lemma {:induction false} StrangersHoldNothing(entries: seq<EntryRecord>, labels: AccountId -> string, k: string)
    requires Strange(LinesOf(entries), labels, k)
    ensures AccountDerived(Detail(entries, labels), k) == 0.0
  {
    if entries != [] {
      var front, last := entries[..|entries| - 1], entries[|entries| - 1];
      StrangeToBoth(LinesOf(front), last.posting.lines, labels, k);
      StrangersHoldNothing(front, labels, k);
      StrangerRows(last, last.posting.lines, labels, k);
      AccountDerivedAppend(Detail(front, labels), EntryRows(last, last.posting.lines, labels), k);
    }
  }

  lemma {:induction false} StrangerRows(
      entry: EntryRecord, lines: seq<JournalLine>, labels: AccountId -> string, k: string)
    requires Strange(lines, labels, k)
    ensures AccountDerived(EntryRows(entry, lines, labels), k) == 0.0
  {
    if lines != [] {
      var n := |lines| - 1;
      StrangeToBoth(lines[..n], [lines[n]], labels, k) by {
        assert lines[..n] + [lines[n]] == lines;
      }
      StrangerRows(entry, lines[..n], labels, k);
      if lines[n].SignedAmount().Some? {
        var front := EntryRows(entry, lines[..n], labels);
        assert EntryRows(entry, lines, labels)[..|front|] == front;
        assert CodeOfLabel(labels(lines[n].account)) != k;
      }
    }
  }

  /** Balanced entries foot, and leave one row per line. */
  lemma {:induction false} DetailFoots(entries: seq<EntryRecord>, labels: AccountId -> string)
    requires forall k :: 0 <= k < |entries| ==> BalancedEntry(entries[k].posting.lines)
    ensures SideTotal(Detail(entries, labels), D) == SideTotal(Detail(entries, labels), C)
    ensures |Detail(entries, labels)| == |LinesOf(entries)|
  {
    if entries != [] {
      var front, last := entries[..|entries| - 1], entries[|entries| - 1];
      DetailFoots(front, labels);
      var c :| BalancedIn(last.posting.lines, c);
      EntryFoots(last, last.posting.lines, labels, c);
      SideTotalAppend(Detail(front, labels), EntryRows(last, last.posting.lines, labels), D);
      SideTotalAppend(Detail(front, labels), EntryRows(last, last.posting.lines, labels), C);
    }
  }

  // ---------------------------------------------------------------------------
  // Every run
  // ---------------------------------------------------------------------------

  function LinesOfPostings(ps: seq<Posting>): seq<JournalLine> {
    if ps == [] then [] else LinesOfPostings(ps[..|ps| - 1]) + ps[|ps| - 1].lines
  }

  lemma {:induction false} LinesOfRecords(entries: seq<EntryRecord>)
    ensures LinesOf(entries) == LinesOfPostings(PostingsOf(entries))
  {
    if entries != [] {
      LinesOfRecords(entries[..|entries| - 1]);
      assert PostingsOf(entries)[..|entries| - 1] == PostingsOf(entries[..|entries| - 1]);
    }
  }

  lemma {:induction false} PostedLinesAreAllLines(log: seq<LedgerEvent>)
    requires Legal(log)
    ensures LinesOfPostings(Postings(log)) == AllLines(log)
  {
    if log != [] {
      var front, e := log[..|log| - 1], log[|log| - 1];
      PostedLinesAreAllLines(front);
      PostingsMatchState(front);
      LegalAt(log, |log| - 1);
      if EntryIdOf(e).Some? {
        AddPosting(Postings(front), Replay(front), e);
        var ps := Postings(front) + [NewPosting(Postings(front), e)];
        assert ps[..|ps| - 1] == Postings(front);
      }
    }
  }

  /** The file of closing balances, keyed by account number. */
  ghost predicate IsTrialBalanceFile(file: map<string, real>, b: Balances, labels: AccountId -> string) {
    && (forall a :: a in b ==> CodeOfLabel(labels(a)) in file && file[CodeOfLabel(labels(a))] == b[a].amount)
    && (forall k :: k in file ==> exists a :: a in b && CodeOfLabel(labels(a)) == k)
  }

  /** Distinct accounts of the projection have distinct account numbers. */
  ghost predicate DistinctNumbers(b: Balances, labels: AccountId -> string) {
    forall a, o :: a in b && o in b && CodeOfLabel(labels(a)) == CodeOfLabel(labels(o)) ==> a == o
  }

  /** One row for each account number; with distinct numbers, one for each account. */
  method TrialBalanceFile(b: Balances, labels: AccountId -> string) returns (file: map<string, real>)
    ensures IsKeyed<AccountId>(file, Amounts(b), NumberOf(labels), ByLabel(labels))
    ensures DistinctNumbers(b, labels) ==> IsTrialBalanceFile(file, b, labels)
  {
    LabelsAreOrdered(labels);
    file := KeyBy<AccountId>(Amounts(b), NumberOf(labels), ByLabel(labels));
    if DistinctNumbers(b, labels) {
      KeyedIsFile(file, b, labels);
    }
  }

  function Amounts(b: Balances): map<AccountId, real> {
    map a: AccountId | a in b :: b[a].amount
  }

  function NumberOf(labels: AccountId -> string): AccountId -> string {
    (a: AccountId) => CodeOfLabel(labels(a))
  }

  /** By label; accounts with one label, by id. */
  predicate LabelBefore(labels: AccountId -> string, a: AccountId, b: AccountId) {
    TextBefore(labels(a), labels(b)) || (labels(a) == labels(b) && a < b)
  }

  function ByLabel(labels: AccountId -> string): (AccountId, AccountId) -> bool {
    (a: AccountId, b: AccountId) => LabelBefore(labels, a, b)
  }

  lemma {:induction false} LabelsAreOrdered(labels: AccountId -> string)
    ensures Orders<AccountId>(ByLabel(labels))
  {
    var before := ByLabel(labels);
    forall a: AccountId, b: AccountId ensures !before(a, a) && (a == b || before(a, b) || before(b, a)) {
      TextIsTotal(labels(a), labels(b));
    }
    forall a: AccountId, b: AccountId, c: AccountId | before(a, b) && before(b, c) ensures before(a, c) {
      if TextBefore(labels(a), labels(b)) && TextBefore(labels(b), labels(c)) {
        TextIsTransitive(labels(a), labels(b), labels(c));
      }
    }
  }

  lemma {:induction false} KeyedUnder(file: map<string, real>, b: Balances, labels: AccountId -> string, k: string)
    returns (a: AccountId)
    requires IsKeyed<AccountId>(file, Amounts(b), NumberOf(labels), ByLabel(labels)) && k in file
    ensures a in b && CodeOfLabel(labels(a)) == k && file[k] == b[a].amount
  {
    var m, code, before := Amounts(b), NumberOf(labels), ByLabel(labels);
    a :| IsLastOfCode(m.Keys, code, before, a) && code(a) == k && file[k] == m[a];
  }

  lemma {:induction false} KeyedIsFile(file: map<string, real>, b: Balances, labels: AccountId -> string)
    requires DistinctNumbers(b, labels)
    requires IsKeyed<AccountId>(file, Amounts(b), NumberOf(labels), ByLabel(labels))
    ensures IsTrialBalanceFile(file, b, labels)
  {
    forall a | a in b ensures CodeOfLabel(labels(a)) in file && file[CodeOfLabel(labels(a))] == b[a].amount {
      assert a in Amounts(b) && NumberOf(labels)(a) in file;
      var o := KeyedUnder(file, b, labels, CodeOfLabel(labels(a)));
    }
    forall k | k in file ensures exists a :: a in b && CodeOfLabel(labels(a)) == k {
      var a := KeyedUnder(file, b, labels, k);
    }
  }

  /**
   For every run with distinct account numbers: the detail file foots and has one row per posted
   line, and re-deriving an account from it gives the aggregate's balance plus exactly what
   posting dropped on that account.
   */
  lemma {:induction false} ExtractRederivesBalances(ops: seq<Operation>, ids: seq<EntryId>, labels: AccountId -> string)
    requires |ids| == |ops| && Distinct(ids) && Executed(ops, ids).Success?
    requires DistinctCodes(AllLines(Executed(ops, ids).value.events), labels)
    ensures var run := Executed(ops, ids).value;
            var rows, lines := Detail(run.entries, labels), AllLines(run.events);
            && SideTotal(rows, D) == SideTotal(rows, C)
            && |rows| == |lines|
            && forall a :: Mentions(lines, a) ==>
                 AccountDerived(rows, CodeOfLabel(labels(a)))
                 == AmountOr0(run.state.balances, a) + AccountTotal(DroppedLines(map[], lines), a)
  {
    var run := Executed(ops, ids).value;
    var lines := AllLines(run.events);
    RunnerSimulatesAggregate(ops, ids);
    RecordedEntriesBalance(run.events);
    LinesOfRecords(run.entries);
    PostedLinesAreAllLines(run.events);
    DetailFoots(run.entries, labels);
    ReplayBalances(run.events);
    forall a | Mentions(lines, a)
      ensures AccountDerived(Detail(run.entries, labels), CodeOfLabel(labels(a)))
              == AmountOr0(run.state.balances, a) + AccountTotal(DroppedLines(map[], lines), a)
    {
      var i :| 0 <= i < |lines| && Touches(lines[i], a);
      assert OwnCode(lines, labels, a);
      DetailDerivesAccount(run.entries, labels, a);
      BalancePlusDropped(lines, a);
    }
  }

  /** What the run's lines re-derive to, account by account: the balance, and what posting dropped. */
  ghost predicate Rederives(
      entries: seq<EntryRecord>, labels: AccountId -> string, b: Balances, dropped: seq<JournalLine>) {
    && (forall a :: a in b <==> Mentions(LinesOf(entries), a))
    && (forall i :: 0 <= i < |LinesOf(entries)| ==> OneSided(LinesOf(entries)[i]))
    && (forall a :: Mentions(LinesOf(entries), a) ==>
          AccountDerived(Detail(entries, labels), CodeOfLabel(labels(a)))
          == AmountOr0(b, a) + AccountTotal(dropped, a))
  }

  ghost predicate NothingLost(lines: seq<JournalLine>, dropped: seq<JournalLine>) {
    forall a :: Mentions(lines, a) ==> AccountTotal(dropped, a) == 0.0
  }

  lemma {:induction false} FileHolds(file: map<string, real>, b: Balances, labels: AccountId -> string, a: AccountId)
    requires IsTrialBalanceFile(file, b, labels) && a in b
    ensures GetOr0(file, CodeOfLabel(labels(a))) == AmountOr0(b, a)
  {
  }

  /** A number no line carries is in neither. */
  lemma {:induction false} StrangersAgree(
      entries: seq<EntryRecord>, labels: AccountId -> string, b: Balances, file: map<string, real>, k: string)
    requires IsTrialBalanceFile(file, b, labels) && Strange(LinesOf(entries), labels, k)
    requires forall a :: a in b ==> Mentions(LinesOf(entries), a)
    ensures AccountDerived(Detail(entries, labels), k) == GetOr0(file, k)
  {
    var lines := LinesOf(entries);
    StrangersHoldNothing(entries, labels, k);
    forall a | a in b ensures CodeOfLabel(labels(a)) != k {
      var i :| 0 <= i < |lines| && Touches(lines[i], a);
    }
  }

  lemma {:induction false} PostedAgrees(
      entries: seq<EntryRecord>, labels: AccountId -> string, b: Balances, file: map<string, real>,
      dropped: seq<JournalLine>, a: AccountId)
    requires IsTrialBalanceFile(file, b, labels) && Rederives(entries, labels, b, dropped)
    requires Mentions(LinesOf(entries), a) && AccountTotal(dropped, a) == 0.0
    ensures AccountDerived(Detail(entries, labels), CodeOfLabel(labels(a))) == GetOr0(file, CodeOfLabel(labels(a)))
  {
    FileHolds(file, b, labels, a);
  }

  /** Both files have the same accounts, so they agree everywhere if they agree on the posted ones. */
  lemma {:induction false} AgreeOnPostedAccounts(
      entries: seq<EntryRecord>, labels: AccountId -> string, b: Balances, file: map<string, real>,
      dropped: seq<JournalLine>, k: string)
    requires IsTrialBalanceFile(file, b, labels) && Rederives(entries, labels, b, dropped)
    requires NothingLost(LinesOf(entries), dropped)
    ensures AccountDerived(Detail(entries, labels), k) == GetOr0(file, k)
  {
    var lines := LinesOf(entries);
    if Strange(lines, labels, k) {
      StrangersAgree(entries, labels, b, file, k);
    } else {
      var i :| 0 <= i < |lines| && CodeOfLabel(labels(lines[i].account)) == k;
      assert Touches(lines[i], lines[i].account);
      PostedAgrees(entries, labels, b, file, dropped, lines[i].account);
    }
  }

  /** What is lost on an account shows at its number. */
  lemma {:induction false} LossShows(
      entries: seq<EntryRecord>, labels: AccountId -> string, b: Balances, file: map<string, real>,
      dropped: seq<JournalLine>, a: AccountId)
    requires IsTrialBalanceFile(file, b, labels) && Rederives(entries, labels, b, dropped)
    requires Mentions(LinesOf(entries), a) && AccountTotal(dropped, a) != 0.0
    ensures !SameBalances(Detail(entries, labels), file)
  {
    FileHolds(file, b, labels, a);
    var k := CodeOfLabel(labels(a));
    assert AccountDerived(Detail(entries, labels), k) != GetOr0(file, k);
  }

  lemma {:induction false} AgreeIffNothingLost(
      entries: seq<EntryRecord>, labels: AccountId -> string, b: Balances, file: map<string, real>,
      dropped: seq<JournalLine>)
    requires IsTrialBalanceFile(file, b, labels) && Rederives(entries, labels, b, dropped)
    ensures SameBalances(Detail(entries, labels), file) <==> NothingLost(LinesOf(entries), dropped)
  {
    if NothingLost(LinesOf(entries), dropped) {
      forall k ensures AccountDerived(Detail(entries, labels), k) == GetOr0(file, k) {
        AgreeOnPostedAccounts(entries, labels, b, file, dropped, k);
      }
    } else {
      var a :| Mentions(LinesOf(entries), a) && AccountTotal(dropped, a) != 0.0;
      LossShows(entries, labels, b, file, dropped, a);
    }
  }

  /**
   The extract reconciles with the trial balance file, account for account, if and only if what
   posting dropped cancels on every account.
   */
  lemma {:induction false} ExtractReconcilesIff(
      ops: seq<Operation>, ids: seq<EntryId>, labels: AccountId -> string, file: map<string, real>)
    requires |ids| == |ops| && Distinct(ids) && Executed(ops, ids).Success?
    requires DistinctCodes(AllLines(Executed(ops, ids).value.events), labels)
    requires IsTrialBalanceFile(file, Executed(ops, ids).value.state.balances, labels)
    ensures var run := Executed(ops, ids).value;
            var lines := AllLines(run.events);
            SameBalances(Detail(run.entries, labels), file) <==> NothingLost(lines, DroppedLines(map[], lines))
  {
    var run := Executed(ops, ids).value;
    ExtractRederivesBalances(ops, ids, labels);
    RunPostsItsEntries(ops, ids);
    AgreeIffNothingLost(
      run.entries, labels, run.state.balances, file, DroppedLines(map[], AllLines(run.events)));
  }

  /** With one currency per account the extract always reconciles. */
  lemma {:induction false} ExtractReconciles(
      ops: seq<Operation>, ids: seq<EntryId>, labels: AccountId -> string, file: map<string, real>)
    requires |ids| == |ops| && Distinct(ids) && Executed(ops, ids).Success?
    requires DistinctCodes(AllLines(Executed(ops, ids).value.events), labels)
    requires OneCurrencyPerAccount(AllLines(Executed(ops, ids).value.events))
    requires IsTrialBalanceFile(file, Executed(ops, ids).value.state.balances, labels)
    ensures var rows := Detail(Executed(ops, ids).value.entries, labels);
            && SideTotal(rows, D) == SideTotal(rows, C)
            && SameBalances(rows, file)
  {
    ExtractRederivesBalances(ops, ids, labels);
    ExtractReconcilesIff(ops, ids, labels, file);
    NothingDroppedIffOneCurrency(AllLines(Executed(ops, ids).value.events));
  }

  lemma RunPostsItsEntries(ops: seq<Operation>, ids: seq<EntryId>)
    requires |ids| == |ops| && Distinct(ids) && Executed(ops, ids).Success?
    ensures var run := Executed(ops, ids).value;
            && LinesOf(run.entries) == AllLines(run.events)
            && (forall a :: a in run.state.balances <==> Mentions(AllLines(run.events), a))
            && (forall i :: 0 <= i < |AllLines(run.events)| ==> OneSided(AllLines(run.events)[i]))
  {
    var run := Executed(ops, ids).value;
    RunnerSimulatesAggregate(ops, ids);
    LinesOfRecords(run.entries);
    PostedLinesAreAllLines(run.events);
    ReplayBalances(run.events);
    forall a ensures a in run.state.balances <==> Mentions(AllLines(run.events), a) {
      BalanceIsAccountSum(AllLines(run.events), a);
    }
    PostedLinesAreWellFormed(run.events);
  }

  lemma {:induction false} PostedLinesAreWellFormed(log: seq<LedgerEvent>)
    requires Legal(log)
    ensures forall i :: 0 <= i < |AllLines(log)| ==> OneSided(AllLines(log)[i])
  {
    if log != [] {
      var n := |log| - 1;
      PostedLinesAreWellFormed(log[..n]);
      LegalAt(log, n);
      RecordedEntriesBalance(log[..n]);
      var lines := EventLines(Replay(log[..n]), log[n]);
      if lines != [] {
        if log[n].EntryReversed? {
          MirrorOfBalancedIsBalanced(Replay(log[..n]).entries[log[n].originalId]);
        }
        var c :| BalancedIn(lines, c);
        assert forall i :: 0 <= i < |lines| ==> LineIn(lines[i], c);
      }
    }
  }

  /** One journal per entry: the extract neither loses an entry nor invents one. */
  lemma {:induction false} OneJournalPerEntry(ops: seq<Operation>, ids: seq<EntryId>, labels: AccountId -> string)
    requires |ids| == |ops| && Distinct(ids) && Executed(ops, ids).Success?
    ensures var run := Executed(ops, ids).value;
            |JournalsOf(Detail(run.entries, labels))| == |run.entries|
  {
    var run := Executed(ops, ids).value;
    RunnerSimulatesAggregate(ops, ids);
    RecordedEntriesBalance(run.events);
    JournalsIncrease(ops, ids);
    CountJournals(run.entries, labels);
  }

  predicate JournalsAscend(entries: seq<EntryRecord>) {
    forall i, j :: 0 <= i < j < |entries| ==> entries[i].journal < entries[j].journal
  }

  lemma {:induction false} JournalsIncrease(ops: seq<Operation>, ids: seq<EntryId>)
    requires |ids| == |ops| && Executed(ops, ids).Success?
    ensures var entries := Executed(ops, ids).value.entries;
            JournalsAscend(entries) && forall i :: 0 <= i < |entries| ==> entries[i].journal < |ops|
  {
    if ops != [] {
      var n := |ops| - 1;
      JournalsIncrease(ops[..n], ids[..n]);
      var before := Executed(ops[..n], ids[..n]).value;
      var outcome := Handle(before.state, ToCommand(before.entries, ops[n]).value, ids[n]);
      if outcome.Success? {
        assert outcome.value == [outcome.value[0]];
        AcceptOne(before, outcome.value[0], ops[n], n);
      }
    }
  }

  lemma {:induction false} JournalsOfAppend(x: seq<GlDetailRow>, y: seq<GlDetailRow>)
    ensures JournalsOf(x + y) == JournalsOf(x) + JournalsOf(y)
  {
    if y == [] {
      assert x + y == x;
    } else {
      JournalsOfAppend(x, y[..|y| - 1]);
      assert (x + y)[..|x + y| - 1] == x + y[..|y| - 1];
    }
  }

  lemma {:induction false} JournalsOne(rows: seq<GlDetailRow>, row: GlDetailRow)
    ensures JournalsOf(rows + [row]) == JournalsOf(rows) + {row.journal}
  {
    assert (rows + [row])[..|rows|] == rows;
  }

  lemma {:induction false} JournalOfEntry(entry: EntryRecord, lines: seq<JournalLine>, labels: AccountId -> string)
    requires lines != [] && forall i :: 0 <= i < |lines| ==> OneSided(lines[i])
    ensures JournalsOf(EntryRows(entry, lines, labels)) == {entry.journal}
  {
    var n := |lines| - 1;
    assert OneSided(lines[n]);
    JournalsOne(
      EntryRows(entry, lines[..n], labels), RowOf(entry, n, lines[n], lines[n].SignedAmount().value, labels));
    if n > 0 {
      JournalOfEntry(entry, lines[..n], labels);
    }
  }

  /** A balanced entry's rows all carry its journal, and there is at least one. */
  lemma {:induction false} JournalOfBalanced(entry: EntryRecord, labels: AccountId -> string)
    requires BalancedEntry(entry.posting.lines)
    ensures JournalsOf(EntryRows(entry, entry.posting.lines, labels)) == {entry.journal}
  {
    var c :| BalancedIn(entry.posting.lines, c);
    assert forall i :: 0 <= i < |entry.posting.lines| ==> LineIn(entry.posting.lines[i], c);
    JournalOfEntry(entry, entry.posting.lines, labels);
  }

  lemma {:induction false} CountJournals(entries: seq<EntryRecord>, labels: AccountId -> string)
    requires JournalsAscend(entries)
    requires forall k :: 0 <= k < |entries| ==> BalancedEntry(entries[k].posting.lines)
    ensures |JournalsOf(Detail(entries, labels))| == |entries|
    ensures forall j :: j in JournalsOf(Detail(entries, labels)) ==>
              entries != [] && j <= entries[|entries| - 1].journal
  {
    if entries != [] {
      var n := |entries| - 1;
      CountJournals(entries[..n], labels);
      JournalOfBalanced(entries[n], labels);
      JournalsOfAppend(Detail(entries[..n], labels), EntryRows(entries[n], entries[n].posting.lines, labels));
      assert entries[n].journal !in JournalsOf(Detail(entries[..n], labels));
    }
  }
}
