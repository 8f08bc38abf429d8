/** The rows of the extract one by one, and its totals as plain sums over them. */
module ExtractLaws {
  import opened Wrappers
  import opened Sums
  import opened CoreMoney
  import opened Ledger
  import opened EntryLaws
  import opened InForce
  import opened Runner
  import opened AdsExport

  /** A line's amount, debit-positive. */
  function Signed(line: JournalLine): Money
    requires OneSided(line)
  {
    if line.debit.Some? then line.debit.value else Money(-line.credit.value.amount, line.credit.value.currency)
  }

  /**
   The row of the line at position `i`: numbered from one, under the account's number, its magnitude
   and a flag for its sign, in its currency, with what the entry reverses and the line's sources.
   */
  predicate IsRowOf(row: GlDetailRow, entry: EntryRecord, i: nat, line: JournalLine, labels: AccountId -> string)
    requires OneSided(line)
  {
    var m := Signed(line);
    row == GlDetailRow(
      entry.journal, i + 1, CodeOfLabel(labels(line.account)),
      if m.amount < 0.0 then -m.amount else m.amount, if m.amount < 0.0 then C else D, m.currency,
      entry.posting.reversalOf, line.sources)
  }

  lemma {:induction false} RowOfIs(entry: EntryRecord, i: nat, line: JournalLine, labels: AccountId -> string)
    requires OneSided(line)
    ensures line.SignedAmount().Some?
    ensures IsRowOf(RowOf(entry, i, line, line.SignedAmount().value, labels), entry, i, line, labels)
  {
  }

  /** Row for line, in order. */
  lemma {:induction false} RowsAreTheLines(entry: EntryRecord, lines: seq<JournalLine>, labels: AccountId -> string)
    requires forall k :: 0 <= k < |lines| ==> OneSided(lines[k])
    ensures |EntryRows(entry, lines, labels)| == |lines|
    ensures forall i :: 0 <= i < |lines| ==> IsRowOf(EntryRows(entry, lines, labels)[i], entry, i, lines[i], labels)
  {
    if lines != [] {
      var n := |lines| - 1;
      RowsAreTheLines(entry, lines[..n], labels);
      RowOfIs(entry, n, lines[n], labels);
      forall i | 0 <= i < n ensures IsRowOf(EntryRows(entry, lines, labels)[i], entry, i, lines[i], labels) {
        assert IsRowOf(EntryRows(entry, lines[..n], labels)[i], entry, i, lines[..n][i], labels);
      }
    }
  }

  /** Entry after entry, in the order they were recorded. */
  lemma {:induction false} DetailIsEntryByEntry(entries: seq<EntryRecord>, labels: AccountId -> string)
    ensures Detail([], labels) == []
    ensures entries != [] ==>
              var n := |entries| - 1;
              Detail(entries, labels)
              == Detail(entries[..n], labels) + EntryRows(entries[n], entries[n].posting.lines, labels)
  {
  }

  lemma {:induction false} TotalsArePlainSums(rows: seq<GlDetailRow>, side: Side)
    ensures SideTotal(rows, side)
            == Sum(seq(|rows|, i requires 0 <= i < |rows| => if rows[i].indicator == side then rows[i].amount else 0.0))
  {
    var parts :=
      seq(|rows|, i requires 0 <= i < |rows| => if rows[i].indicator == side then rows[i].amount else 0.0);
    if rows != [] {
      var n := |rows| - 1;
      TotalsArePlainSums(rows[..n], side);
      assert parts[..n] == seq(|rows[..n]|, i requires 0 <= i < |rows[..n]| =>
          if rows[..n][i].indicator == side then rows[..n][i].amount else 0.0);
    }
  }

  /** What an account re-derives to: the debits of its rows less the credits. */
  lemma {:induction false} DerivedIsDebitsLessCredits(rows: seq<GlDetailRow>, account: string)
    ensures AccountDerived(rows, account)
            == Sum(seq(|rows|, i requires 0 <= i < |rows| =>
                 if rows[i].account != account then 0.0
                 else if rows[i].indicator == D then rows[i].amount else -rows[i].amount))
  {
    var parts := seq(|rows|, i requires 0 <= i < |rows| =>
        if rows[i].account != account then 0.0
        else if rows[i].indicator == D then rows[i].amount else -rows[i].amount);
    if rows != [] {
      var n := |rows| - 1;
      DerivedIsDebitsLessCredits(rows[..n], account);
      assert parts[..n] == seq(|rows[..n]|, i requires 0 <= i < |rows[..n]| =>
          if rows[..n][i].account != account then 0.0
          else if rows[..n][i].indicator == D then rows[..n][i].amount else -rows[..n][i].amount);
    }
  }

  lemma {:induction false} JournalsAreTheRows(rows: seq<GlDetailRow>, journal: nat)
    ensures journal in JournalsOf(rows) <==> exists i :: 0 <= i < |rows| && rows[i].journal == journal
  {
    if rows != [] {
      var n := |rows| - 1;
      JournalsAreTheRows(rows[..n], journal);
      assert forall i :: 0 <= i < n ==> rows[..n][i] == rows[i];
      assert rows == rows[..n] + [rows[n]];
    }
  }

  // ---------------------------------------------------------------------------
  // The order of labels
  // ---------------------------------------------------------------------------

  /** They part at `n`: there the first ends, or has the smaller character. */
  ghost predicate PartsAt(x: string, y: string, n: nat) {
    && n <= |x| && n < |y| && x[..n] == y[..n]
    && (n < |x| ==> x[n] < y[n])
  }

  lemma {:induction false} PartsAfterFirst(x: string, y: string, n: nat)
    requires x != [] && y != [] && x[0] == y[0]
    ensures PartsAt(x[1..], y[1..], n) <==> PartsAt(x, y, n + 1)
  {
    if n < |x| && n < |y| {
      assert x[..n + 1] == [x[0]] + x[1..][..n] && y[..n + 1] == [y[0]] + y[1..][..n];
    }
  }

  lemma CommonFirst(x: string, y: string, n: nat)
    requires PartsAt(x, y, n) && n > 0
    ensures x != [] && y != [] && x[0] == y[0]
  {
    assert x[..n][0] == x[0] && y[..n][0] == y[0];
  }

  /** Text comes before other text when it is a shorter beginning of it, or has the smaller character first. */
  lemma {:induction false} TextBeforeIff(x: string, y: string)
    ensures TextBefore(x, y) <==> exists n: nat :: PartsAt(x, y, n)
  {
    if x != [] && y != [] && x[0] == y[0] {
      TextBeforeIff(x[1..], y[1..]);
      if n: nat :| PartsAt(x[1..], y[1..], n) {
        PartsAfterFirst(x, y, n);
      }
      if n: nat :| PartsAt(x, y, n) {
        assert n > 0;
        PartsAfterFirst(x, y, n - 1);
      }
    } else {
      if TextBefore(x, y) {
        assert PartsAt(x, y, 0);
      }
      forall n: nat | PartsAt(x, y, n) ensures n == 0 {
        if n > 0 {
          CommonFirst(x, y, n);
        }
      }
    }
  }

  /** Accounts are written by label; those of one label by id. */
  lemma {:induction false} AccountsAreByLabel(labels: AccountId -> string, a: AccountId, b: AccountId)
    ensures ByLabel(labels)(a, b)
            <==> (exists n: nat :: PartsAt(labels(a), labels(b), n)) || (labels(a) == labels(b) && a < b)
  {
    TextBeforeIff(labels(a), labels(b));
  }
}
