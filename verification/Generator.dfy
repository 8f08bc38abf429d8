/**
 Generated ledgers: random entries closed by a balancing plug, and balances computed by an
 accumulator that knows nothing of the aggregate.
 */
module Generator {
  import opened Wrappers
  import opened CoreMoney
  import opened Decimals
  import opened Ledger
  import opened EntryLaws
  import opened BalanceLaws
  import opened LedgerLaws
  import opened SplitMix

  datatype GeneratorSpec = GeneratorSpec(
    accounts: seq<string>,
    currency: Currency,
    entries: nat,
    minLines: nat,
    maxLines: nat,
    maxMinorUnits: nat,
    scale: nat)

  function Max(x: nat, y: nat): nat {
    if x < y then y else x
  }

  /** One side at a positive or zero magnitude, as the generator writes its lines. */
  function Side(account: AccountId, isDebit: bool, m: Money): JournalLine {
    if isDebit then JournalLine(account, Some(m), None, []) else JournalLine(account, None, Some(m), [])
  }

  predicate AllIn(lines: seq<JournalLine>, c: Currency) {
    forall i :: 0 <= i < |lines| ==> LineIn(lines[i], c)
  }

  /** One line more, if there is one. */
  function Added(lines: seq<JournalLine>, line: Option<JournalLine>): seq<JournalLine> {
    if line.Some? then lines + [line.value] else lines
  }

  function AmountOf(line: Option<JournalLine>, c: Currency): real {
    if line.Some? then LineAmount(line.value, c) else 0.0
  }

  lemma {:induction false} AddedSum(lines: seq<JournalLine>, line: Option<JournalLine>, c: Currency)
    ensures CurrencySum(Added(lines, line), c) == CurrencySum(lines, c) + AmountOf(line, c)
  {
    if line.Some? {
      assert (lines + [line.value])[..|lines|] == lines;
    }
  }

  /** Counts and bounds the source holds in 64 bits. */
  predicate Fits(spec: GeneratorSpec) {
    && |spec.accounts| <= U64_MAX && spec.maxMinorUnits <= U64_MAX
    && spec.minLines <= U64_MAX && spec.maxLines <= U64_MAX
  }

  /** What decides a ledger: the stream its seed draws, the specification, the account ids. */
  datatype Generation = Generation(draws: nat -> nat, spec: GeneratorSpec, accountId: string -> AccountId)

  // ---------------------------------------------------------------------------
  // What a stream of draws generates
  // ---------------------------------------------------------------------------

  function AccountAt(g: Generation, i: nat): Drawn<nat> {
    BelowAt(g.draws, i, Max(|g.spec.accounts|, 2))
  }

  /** The draw for an account hits one: there are two to draw from even when there are fewer. */
  predicate Hits(g: Generation, i: nat) {
    AccountAt(g, i).value < |g.spec.accounts|
  }

  function Magnitude(minor: nat, scale: nat): real {
    DecimalOf(if minor <= I64_MAX then minor else I64_MAX, scale)
  }

  /** One random line, unless the draw misses the accounts. */
  function LineAt(g: Generation, i: nat): (r: Drawn<Option<JournalLine>>)
    ensures r.value.Some? <==> Hits(g, i)
    ensures r.value.Some? ==> LineIn(r.value.value, g.spec.currency)
  {
    var index := AccountAt(g, i);
    if index.value >= |g.spec.accounts| then Drawn(None, index.next)
    else
      var minor := BetweenAt(g.draws, index.next, 1, Max(g.spec.maxMinorUnits, 1));
      var line := Side(
                    g.accountId(g.spec.accounts[index.value]),
                    Even(g.draws(minor.next)),
                    Money(Magnitude(minor.value, g.spec.scale), g.spec.currency));
      Drawn(Some(line), minor.next + 1)
  }

  /** Wherever a draw for a line may start, the line it gives, if any, and where the next one starts. */
  type LineSource = nat -> Drawn<Option<JournalLine>>

  function Lines(g: Generation): LineSource {
    (i: nat) => LineAt(g, i)
  }

  /** The lines of `k` draws. */
  function LinesAt(source: LineSource, i: nat, k: nat): (r: Drawn<seq<JournalLine>>)
    ensures |r.value| <= k
  {
    if k == 0 then Drawn([], i)
    else
      var lines := LinesAt(source, i, k - 1);
      var line := source(lines.next);
      Drawn(Added(lines.value, line.value), line.next)
  }

  /** What the lines of `k` draws come to in `c`, added up one at a time. */
  function RunningAt(source: LineSource, c: Currency, i: nat, k: nat): real {
    if k == 0 then 0.0
    else RunningAt(source, c, i, k - 1) + AmountOf(source(LinesAt(source, i, k - 1).next).value, c)
  }

  lemma {:induction false} OneDrawMore(
      g: Generation, i: nat, k: nat, lines: Drawn<seq<JournalLine>>, running: real, line: Drawn<Option<JournalLine>>)
    requires lines == LinesAt(Lines(g), i, k) && running == RunningAt(Lines(g), g.spec.currency, i, k)
    requires line == LineAt(g, lines.next)
    ensures Drawn(Added(lines.value, line.value), line.next) == LinesAt(Lines(g), i, k + 1)
    ensures running + AmountOf(line.value, g.spec.currency) == RunningAt(Lines(g), g.spec.currency, i, k + 1)
  {
    assert line == Lines(g)(lines.next);
  }

  lemma {:induction false} RunningIsSum(source: LineSource, c: Currency, i: nat, k: nat)
    ensures RunningAt(source, c, i, k) == CurrencySum(LinesAt(source, i, k).value, c)
  {
    if k > 0 {
      var lines := LinesAt(source, i, k - 1);
      RunningIsSum(source, c, i, k - 1);
      AddedSum(lines.value, source(lines.next).value, c);
    }
  }

  lemma {:induction false} LinesAreIn(source: LineSource, c: Currency, i: nat, k: nat)
    requires forall j :: source(j).value.Some? ==> LineIn(source(j).value.value, c)
    ensures AllIn(LinesAt(source, i, k).value, c)
  {
    if k > 0 {
      LinesAreIn(source, c, i, k - 1);
    }
  }

  lemma {:induction false} EveryDrawIsALine(source: LineSource, i: nat, k: nat)
    requires forall j :: source(j).value.Some?
    ensures |LinesAt(source, i, k).value| == k
  {
    if k > 0 {
      EveryDrawIsALine(source, i, k - 1);
    }
  }

  lemma {:induction false} NoDrawIsALine(source: LineSource, i: nat, k: nat)
    requires forall j :: source(j).value.None?
    ensures LinesAt(source, i, k).value == []
  {
    if k > 0 {
      NoDrawIsALine(source, i, k - 1);
    }
  }

  /** The plug: a line of the opposite of what the others come to, unless its draw misses. */
  function PlugAt(g: Generation, i: nat, running: real): (r: Drawn<Option<JournalLine>>)
    ensures r.value.Some? <==> Hits(g, i)
    ensures r.value.Some? ==>
              && LineIn(r.value.value, g.spec.currency)
              && LineAmount(r.value.value, g.spec.currency) == -running
  {
    var index := AccountAt(g, i);
    if index.value >= |g.spec.accounts| then Drawn(None, index.next)
    else
      var account := g.accountId(g.spec.accounts[index.value]);
      Drawn(Some(Side(account, running < 0.0, Money(Abs(running), g.spec.currency))), index.next)
  }

  function EntryAt(g: Generation, i: nat, count: nat): Drawn<seq<JournalLine>>
    requires count >= 1
  {
    var lines := LinesAt(Lines(g), i, count - 1);
    var plug := PlugAt(g, lines.next, RunningAt(Lines(g), g.spec.currency, i, count - 1));
    Drawn(Added(lines.value, plug.value), plug.next)
  }

  lemma {:induction false} EntryOfParts(
      g: Generation, i: nat, count: nat, lines: Drawn<seq<JournalLine>>, plug: Drawn<Option<JournalLine>>)
    requires count >= 1 && lines == LinesAt(Lines(g), i, count - 1)
    requires plug == PlugAt(g, lines.next, RunningAt(Lines(g), g.spec.currency, i, count - 1))
    ensures EntryAt(g, i, count) == Drawn(Added(lines.value, plug.value), plug.next)
  {
  }

  function LeastLines(spec: GeneratorSpec): nat {
    Max(spec.minLines, 2)
  }

  function MostLines(spec: GeneratorSpec): nat {
    Max(spec.maxLines, LeastLines(spec))
  }

  function LineCountAt(g: Generation, i: nat): (r: Drawn<nat>)
    ensures LeastLines(g.spec) <= r.value <= MostLines(g.spec)
  {
    BetweenAt(g.draws, i, LeastLines(g.spec), MostLines(g.spec))
  }

  /** One entry, its number of lines drawn first. */
  function EntryFrom(g: Generation, i: nat): Drawn<seq<JournalLine>> {
    var count := LineCountAt(g, i);
    EntryAt(g, count.next, count.value)
  }

  /** The first `k` entries. */
  function EntriesAt(g: Generation, k: nat): (r: Drawn<seq<seq<JournalLine>>>)
    ensures |r.value| == k
  {
    if k == 0 then Drawn([], 0)
    else
      var entries := EntriesAt(g, k - 1);
      var entry := EntryFrom(g, entries.next);
      Drawn(entries.value + [entry.value], entry.next)
  }

  /** The ledger of a seed. */
  function Generated(seed: bv64, spec: GeneratorSpec, accountId: string -> AccountId): seq<seq<JournalLine>> {
    EntriesAt(Generation(Outputs(seed), spec, accountId), spec.entries).value
  }

  // ---------------------------------------------------------------------------
  // The loops
  // ---------------------------------------------------------------------------

  /** A random line with its signed amount. */
  method RandomLine(rng: Rng, spec: GeneratorSpec, accountId: string -> AccountId)
    returns (r: Option<JournalLine>, signed: real)
    requires rng.Valid() && Fits(spec)
    modifies rng
    ensures rng.Valid() && Drawn(r, rng.drawn) == LineAt(Generation(rng.draws, spec, accountId), old(rng.drawn))
    ensures signed == AmountOf(r, spec.currency)
  {
    r, signed := None, 0.0;
    var index := rng.Below(Max(|spec.accounts|, 2));
    if index < |spec.accounts| {
      var minor := rng.Between(1, Max(spec.maxMinorUnits, 1));
      var capped := if minor <= I64_MAX then minor else I64_MAX;
      var magnitude := DecimalOf(capped, spec.scale);
      var coin := rng.NextU64();
      signed := if Even(coin) then magnitude else -magnitude;
      r := Some(Side(accountId(spec.accounts[index]), Even(coin), Money(magnitude, spec.currency)));
    }
  }

  method ClosingLine(rng: Rng, spec: GeneratorSpec, accountId: string -> AccountId, running: real)
    returns (r: Option<JournalLine>)
    requires rng.Valid() && Fits(spec)
    modifies rng
    ensures rng.Valid()
    ensures Drawn(r, rng.drawn) == PlugAt(Generation(rng.draws, spec, accountId), old(rng.drawn), running)
  {
    r := None;
    var index := rng.Below(Max(|spec.accounts|, 2));
    if index < |spec.accounts| {
      var magnitude := if running < 0.0 then -running else running;
      r := Some(Side(accountId(spec.accounts[index]), running < 0.0, Money(magnitude, spec.currency)));
    }
  }

  /** The drawn lines of an entry, and what they come to. */
  method RandomLines(rng: Rng, spec: GeneratorSpec, accountId: string -> AccountId, count: nat)
    returns (lines: seq<JournalLine>, running: real)
    requires rng.Valid() && Fits(spec)
    modifies rng
    ensures rng.Valid()
    ensures Drawn(lines, rng.drawn) == LinesAt(Lines(Generation(rng.draws, spec, accountId)), old(rng.drawn), count)
    ensures running == RunningAt(
                         Lines(Generation(rng.draws, spec, accountId)), spec.currency, old(rng.drawn), count)
  {
    ghost var g, i, next := Generation(rng.draws, spec, accountId), rng.drawn, rng.drawn;
    lines, running := [], 0.0;
    for k := 0 to count
      invariant rng.Valid() && next == rng.drawn
      invariant Drawn(lines, next) == LinesAt(Lines(g), i, k)
      invariant running == RunningAt(Lines(g), spec.currency, i, k)
    {
      var line, signed := RandomLine(rng, spec, accountId);
      OneDrawMore(g, i, k, Drawn(lines, next), running, Drawn(line, rng.drawn));
      running, lines, next := running + signed, Added(lines, line), rng.drawn;
    }
  }

  /** `count - 1` random lines and a plug. */
  method BalanceLines(rng: Rng, spec: GeneratorSpec, accountId: string -> AccountId, count: nat)
    returns (lines: seq<JournalLine>)
    requires rng.Valid() && Fits(spec) && count >= 1
    modifies rng
    ensures rng.Valid()
    ensures Drawn(lines, rng.drawn) == EntryAt(Generation(rng.draws, spec, accountId), old(rng.drawn), count)
  {
    ghost var g, i := Generation(rng.draws, spec, accountId), rng.drawn;
    var drawn, running := RandomLines(rng, spec, accountId, count - 1);
    ghost var next := rng.drawn;
    var plug := ClosingLine(rng, spec, accountId, running);
    EntryOfParts(g, i, count, Drawn(drawn, next), Drawn(plug, rng.drawn));
    lines := Added(drawn, plug);
  }

  /** One entry: how many lines, then the lines. */
  method GenerateEntry(rng: Rng, spec: GeneratorSpec, accountId: string -> AccountId)
    returns (lines: seq<JournalLine>)
    requires rng.Valid() && Fits(spec)
    modifies rng
    ensures rng.Valid()
    ensures Drawn(lines, rng.drawn) == EntryFrom(Generation(rng.draws, spec, accountId), old(rng.drawn))
  {
    var count := rng.Between(LeastLines(spec), MostLines(spec));
    lines := BalanceLines(rng, spec, accountId, count);
  }

  method GenerateEntries(rng: Rng, spec: GeneratorSpec, accountId: string -> AccountId)
    returns (entries: seq<seq<JournalLine>>)
    requires rng.Valid() && rng.drawn == 0 && Fits(spec)
    modifies rng
    ensures entries == EntriesAt(Generation(rng.draws, spec, accountId), spec.entries).value
  {
    ghost var g := Generation(rng.draws, spec, accountId);
    entries := [];
    for k := 0 to spec.entries
      invariant rng.Valid() && Drawn(entries, rng.drawn) == EntriesAt(g, k)
    {
      var entry := GenerateEntry(rng, spec, accountId);
      entries := entries + [entry];
    }
  }

  /** A ledger is a function of its seed and its specification. */
  method Generate(seed: bv64, spec: GeneratorSpec, accountId: string -> AccountId)
    returns (entries: seq<seq<JournalLine>>)
    requires Fits(spec)
    ensures entries == Generated(seed, spec, accountId)
  {
    var rng := new Rng(seed);
    entries := GenerateEntries(rng, spec, accountId);
  }

  // ---------------------------------------------------------------------------
  // What a draw becomes
  // ---------------------------------------------------------------------------

  /** A value in `low..=high`, from the draw at `i`. */
  function InRange(g: Generation, i: nat, low: nat, high: nat): nat {
    if high <= low then low else low + g.draws(i) % (high - low + 1)
  }

  lemma {:induction false} DrawnInRange(g: Generation, i: nat, low: nat, high: nat)
    ensures BetweenAt(g.draws, i, low, high)
            == Drawn(InRange(g, i, low, high), if high <= low then i else i + 1)
  {
    if high > low {
      RemainderIsModulo(g.draws(i), high - low + 1);
    }
  }

  lemma {:induction false} DrawnAccount(g: Generation, i: nat)
    ensures AccountAt(g, i) == Drawn(g.draws(i) % (if |g.spec.accounts| < 2 then 2 else |g.spec.accounts|), i + 1)
  {
    RemainderIsModulo(g.draws(i), Max(|g.spec.accounts|, 2));
  }

  /**
   A line, from three draws, or two where every amount is one minor unit: an account, so many minor
   units of at most the largest, and a debit when the coin is even, a credit when it is odd.
   */
  lemma {:induction false} LineOfDraws(g: Generation, i: nat)
    requires g.draws(i) % (if |g.spec.accounts| < 2 then 2 else |g.spec.accounts|) < |g.spec.accounts|
    ensures var spec := g.spec;
            var index := g.draws(i) % (if |spec.accounts| < 2 then 2 else |spec.accounts|);
            var account := g.accountId(spec.accounts[index]);
            var largest := if spec.maxMinorUnits < 1 then 1 else spec.maxMinorUnits;
            var minor := InRange(g, i + 1, 1, largest);
            var coin := if largest == 1 then i + 1 else i + 2;
            var m := Money(DecimalOf(if minor <= I64_MAX then minor else I64_MAX, spec.scale), spec.currency);
            LineAt(g, i)
            == Drawn(
                 Some(if g.draws(coin) % 2 == 0 then JournalLine(account, Some(m), None, [])
                      else JournalLine(account, None, Some(m), [])),
                 coin + 1)
  {
    DrawnAccount(g, i);
    DrawnInRange(g, i + 1, 1, Max(g.spec.maxMinorUnits, 1));
  }

  /** Where the draw misses the accounts, no line, and one draw less. */
  lemma {:induction false} NoLineOfDraw(g: Generation, i: nat)
    requires g.draws(i) % (if |g.spec.accounts| < 2 then 2 else |g.spec.accounts|) >= |g.spec.accounts|
    ensures LineAt(g, i) == Drawn(None, i + 1)
  {
    DrawnAccount(g, i);
  }

  /** The plug: what the others come to, on the other side. */
  lemma {:induction false} PlugOfDraw(g: Generation, i: nat, running: real)
    ensures var spec := g.spec;
            var index := g.draws(i) % (if |spec.accounts| < 2 then 2 else |spec.accounts|);
            PlugAt(g, i, running)
            == Drawn(
                 if index >= |spec.accounts| then None
                 else if running < 0.0 then
                   Some(JournalLine(g.accountId(spec.accounts[index]), Some(Money(-running, spec.currency)), None, []))
                 else
                   Some(JournalLine(g.accountId(spec.accounts[index]), None, Some(Money(running, spec.currency)), [])),
                 i + 1)
  {
    DrawnAccount(g, i);
  }

  lemma AddedIsLast(lines: seq<JournalLine>, line: Option<JournalLine>)
    ensures Added(lines, line) == lines + if line.Some? then [line.value] else []
  {
    assert lines + [] == lines;
  }

  /** Lines stand in the order they were drawn, the plug last. */
  lemma {:induction false} LinesStandAsDrawn(g: Generation, i: nat, k: nat)
    ensures LinesAt(Lines(g), i, 0) == Drawn([], i)
    ensures var front := LinesAt(Lines(g), i, k);
            var line := LineAt(g, front.next);
            LinesAt(Lines(g), i, k + 1)
            == Drawn(front.value + (if line.value.Some? then [line.value.value] else []), line.next)
    ensures var front := LinesAt(Lines(g), i, k);
            var plug := PlugAt(g, front.next, RunningAt(Lines(g), g.spec.currency, i, k));
            EntryAt(g, i, k + 1)
            == Drawn(front.value + (if plug.value.Some? then [plug.value.value] else []), plug.next)
  {
    var front := LinesAt(Lines(g), i, k);
    assert Lines(g)(front.next) == LineAt(g, front.next);
    AddedIsLast(front.value, LineAt(g, front.next).value);
    AddedIsLast(front.value, PlugAt(g, front.next, RunningAt(Lines(g), g.spec.currency, i, k)).value);
  }

  /** How many lines an entry is asked for, drawn first; and the entries, one after another. */
  lemma {:induction false} EntriesStandAsDrawn(g: Generation, i: nat, k: nat)
    ensures var spec := g.spec;
            var least := if spec.minLines < 2 then 2 else spec.minLines;
            var most := if spec.maxLines < least then least else spec.maxLines;
            var count := InRange(g, i, least, most);
            count >= 1 && EntryFrom(g, i) == EntryAt(g, if most <= least then i else i + 1, count)
    ensures EntriesAt(g, 0) == Drawn([], 0)
    ensures var front := EntriesAt(g, k);
            var entry := EntryFrom(g, front.next);
            EntriesAt(g, k + 1) == Drawn(front.value + [entry.value], entry.next)
  {
    DrawnInRange(g, i, LeastLines(g.spec), MostLines(g.spec));
  }

  // ---------------------------------------------------------------------------
  // When an entry balances
  // ---------------------------------------------------------------------------

  /** Lines and their opposite balance; without it, lines that cancel by themselves do. */
  lemma {:induction false} AddedBalancesIff(lines: seq<JournalLine>, plug: Option<JournalLine>, c: Currency)
    requires AllIn(lines, c)
    requires plug.Some? ==> LineIn(plug.value, c) && LineAmount(plug.value, c) == -CurrencySum(lines, c)
    ensures BalancedIn(Added(lines, plug), c) <==> plug.Some? || (lines != [] && CurrencySum(lines, c) == 0.0)
  {
    AddedSum(lines, plug, c);
  }

  lemma {:induction false} SourceIsIn(g: Generation)
    ensures forall j :: Lines(g)(j).value.Some? ==> LineIn(Lines(g)(j).value.value, g.spec.currency)
  {
    forall j: nat ensures Lines(g)(j).value.Some? ==> LineIn(Lines(g)(j).value.value, g.spec.currency) {
      assert Lines(g)(j) == LineAt(g, j);
    }
  }

  lemma {:induction false} ClosedBalancesIff(
      source: LineSource, c: Currency, i: nat, k: nat, plug: Option<JournalLine>)
    requires forall j :: source(j).value.Some? ==> LineIn(source(j).value.value, c)
    requires plug.Some? ==> LineIn(plug.value, c) && LineAmount(plug.value, c) == -RunningAt(source, c, i, k)
    ensures var lines := LinesAt(source, i, k).value;
            BalancedIn(Added(lines, plug), c) <==> plug.Some? || (lines != [] && CurrencySum(lines, c) == 0.0)
  {
    RunningIsSum(source, c, i, k);
    LinesAreIn(source, c, i, k);
    AddedBalancesIff(LinesAt(source, i, k).value, plug, c);
  }

  /** An entry balances exactly when its plug hits an account, or its drawn lines cancel by themselves. */
  lemma {:induction false} EntryBalancesIff(g: Generation, i: nat, count: nat)
    requires count >= 1
    ensures var lines := LinesAt(Lines(g), i, count - 1);
            BalancedIn(EntryAt(g, i, count).value, g.spec.currency)
            <==> Hits(g, lines.next) || (lines.value != [] && CurrencySum(lines.value, g.spec.currency) == 0.0)
  {
    var source, c := Lines(g), g.spec.currency;
    SourceIsIn(g);
    var plug := PlugAt(g, LinesAt(source, i, count - 1).next, RunningAt(source, c, i, count - 1));
    ClosedBalancesIff(source, c, i, count - 1, plug.value);
  }

  /** From two accounts on every draw hits; with one, exactly the even ones; with none, no draw does. */
  lemma {:induction false} HitsIff(g: Generation, i: nat)
    ensures |g.spec.accounts| >= 2 ==> Hits(g, i)
    ensures |g.spec.accounts| == 1 ==> (Hits(g, i) <==> Even(g.draws(i)))
    ensures |g.spec.accounts| == 0 ==> !Hits(g, i)
  {
    RemainderIsModulo(g.draws(i), 2);
  }

  lemma {:induction false} EverySourceHits(g: Generation)
    requires |g.spec.accounts| >= 2
    ensures forall j :: Lines(g)(j).value.Some?
  {
    forall j: nat ensures Lines(g)(j).value.Some? {
      HitsIff(g, j);
      assert Lines(g)(j) == LineAt(g, j);
    }
  }

  lemma {:induction false} NoSourceHits(g: Generation)
    requires g.spec.accounts == []
    ensures forall j :: Lines(g)(j).value.None?
  {
    forall j: nat ensures Lines(g)(j).value.None? {
      HitsIff(g, j);
      assert Lines(g)(j) == LineAt(g, j);
    }
  }

  /** With one account, exactly when the plug's draw is even, or lines were drawn and cancel. */
  lemma {:induction false} OneAccountBalancesIff(g: Generation, i: nat, count: nat)
    requires |g.spec.accounts| == 1 && count >= 1
    ensures var lines := LinesAt(Lines(g), i, count - 1);
            BalancedIn(EntryAt(g, i, count).value, g.spec.currency)
            <==> || Even(g.draws(lines.next))
                 || (lines.value != [] && CurrencySum(lines.value, g.spec.currency) == 0.0)
  {
    EntryBalancesIff(g, i, count);
    HitsIff(g, LinesAt(Lines(g), i, count - 1).next);
  }

  lemma {:induction false} EntryLength(g: Generation, i: nat, count: nat)
    requires count >= 1
    ensures var lines := LinesAt(Lines(g), i, count - 1);
            |EntryAt(g, i, count).value| == |lines.value| + if Hits(g, lines.next) then 1 else 0
  {
    var lines := LinesAt(Lines(g), i, count - 1);
    var plug := PlugAt(g, lines.next, RunningAt(Lines(g), g.spec.currency, i, count - 1));
    assert plug.value.Some? <==> Hits(g, lines.next);
  }

  lemma {:induction false} EntryOfTwoAccounts(g: Generation, i: nat, count: nat)
    requires |g.spec.accounts| >= 2 && count >= 1
    ensures BalancedIn(EntryAt(g, i, count).value, g.spec.currency) && |EntryAt(g, i, count).value| == count
  {
    AllHit(g, i, count - 1);
    EntryBalancesIff(g, i, count);
    EntryLength(g, i, count);
  }

  lemma {:induction false} AllHit(g: Generation, i: nat, k: nat)
    requires |g.spec.accounts| >= 2
    ensures |LinesAt(Lines(g), i, k).value| == k && Hits(g, LinesAt(Lines(g), i, k).next)
  {
    EverySourceHits(g);
    EveryDrawIsALine(Lines(g), i, k);
    HitsIff(g, LinesAt(Lines(g), i, k).next);
  }

  lemma {:induction false} EntryOfNoAccounts(g: Generation, i: nat, count: nat)
    requires g.spec.accounts == [] && count >= 1
    ensures EntryAt(g, i, count).value == []
  {
    EntryLength(g, i, count);
    NoSourceHits(g);
    NoDrawIsALine(Lines(g), i, count - 1);
    HitsIff(g, LinesAt(Lines(g), i, count - 1).next);
  }

  /** Where an entry comes from. */
  lemma {:induction false} EntryOfLedger(g: Generation, k: nat, e: nat) returns (i: nat)
    requires e < k
    ensures EntriesAt(g, k).value[e] == EntryFrom(g, i).value
  {
    if e < k - 1 {
      i := EntryOfLedger(g, k - 1, e);
    } else {
      i := EntriesAt(g, k - 1).next;
    }
  }

  /**
   Whatever the seed: from two accounts on every entry balances, with as many lines as were asked
   for; with none every entry is empty, so none does.
   */
  lemma {:induction false} GeneratedBalances(seed: bv64, spec: GeneratorSpec, accountId: string -> AccountId, e: nat)
    requires e < spec.entries
    ensures |Generated(seed, spec, accountId)| == spec.entries
    ensures var entry := Generated(seed, spec, accountId)[e];
            && (|spec.accounts| >= 2 ==>
                  BalancedIn(entry, spec.currency) && LeastLines(spec) <= |entry| <= MostLines(spec))
            && (|spec.accounts| == 0 ==> entry == [])
  {
    var g := Generation(Outputs(seed), spec, accountId);
    var i := EntryOfLedger(g, spec.entries, e);
    var count := LineCountAt(g, i);
    if |spec.accounts| >= 2 {
      EntryOfTwoAccounts(g, count.next, count.value);
    } else if |spec.accounts| == 0 {
      EntryOfNoAccounts(g, count.next, count.value);
    }
  }

  /** A draw that hits, a coin, and a plug that misses: one line, which does not balance. */
  lemma {:induction false} MissedPlug(g: Generation)
    requires |g.spec.accounts| == 1 && g.spec.minLines == g.spec.maxLines == 2 && g.spec.maxMinorUnits == 1
    requires Even(g.draws(0)) && !Even(g.draws(2))
    ensures |EntriesAt(g, 1).value[0]| == 1 && !BalancedEntry(EntriesAt(g, 1).value[0])
  {
    HitsIff(g, 0);
    HitsIff(g, 2);
    var line := LineAt(g, 0);
    assert LinesAt(Lines(g), 0, 0) == Drawn([], 0);
    assert line.next == 2 && [] + [line.value.value] == [line.value.value];
    assert LinesAt(Lines(g), 0, 1) == Drawn([line.value.value], 2);
    assert EntryAt(g, 0, 2).value == [line.value.value];
    assert EntriesAt(g, 0) == Drawn([], 0) && LineCountAt(g, 0) == Drawn(2, 0);
    assert EntriesAt(g, 1).value == [EntryFrom(g, 0).value];
    OneLineNeverBalances(line.value.value, g.spec.currency);
  }

  /** With one account, seed 5 draws a line and then misses with the plug. */
  lemma {:induction false} OneAccountCanMiss(accountId: string -> AccountId)
    ensures !BalancedEntry(Generated(5, GeneratorSpec(["1000"], Usd, 1, 2, 2, 1, 2), accountId)[0])
  {
    FirstDrawsOfFive();
    MissedPlug(Generation(Outputs(5), GeneratorSpec(["1000"], Usd, 1, 2, 2, 1, 2), accountId));
  }

  lemma {:induction false} OneLineNeverBalances(line: JournalLine, c: Currency)
    requires LineIn(line, c)
    ensures BalancedEntry([line]) ==> LineAmount(line, c) == 0.0
  {
    assert [line][..0] == [] && CurrencySum([line], c) == LineAmount(line, c);
    if d :| BalancedIn([line], d) {
      assert LineIn([line][0], d);
    }
  }

  // ---------------------------------------------------------------------------
  // Ground truth
  // ---------------------------------------------------------------------------

  function Flat(entries: seq<seq<JournalLine>>): seq<JournalLine> {
    if entries == [] then [] else Flat(entries[..|entries| - 1]) + entries[|entries| - 1]
  }

  /** The accounts touched, each with everything written on it, whatever the currency. */
  ghost predicate IsGroundTruth(truth: map<AccountId, real>, lines: seq<JournalLine>) {
    && (forall a :: a in truth <==> Mentions(lines, a))
    && (forall a :: a in truth ==> truth[a] == AccountTotal(lines, a))
  }

  lemma GroundTruthStep(truth: map<AccountId, real>, lines: seq<JournalLine>, line: JournalLine)
    requires IsGroundTruth(truth, lines)
    ensures line.SignedAmount() == None ==> IsGroundTruth(truth, lines + [line])
    ensures line.SignedAmount().Some? ==>
              var held := if line.account in truth then truth[line.account] else 0.0;
              IsGroundTruth(truth[line.account := held + line.SignedAmount().value.amount], lines + [line])
  {
    var more := lines + [line];
    assert more[..|lines|] == lines;
    forall a ensures Mentions(more, a) <==> Mentions(lines, a) || Touches(line, a) {
      assert more[|lines|] == line;
      if Mentions(lines, a) {
        var i :| 0 <= i < |lines| && Touches(lines[i], a);
        assert Touches(more[i], a);
      }
    }
    forall a | !Mentions(lines, a) ensures AccountTotal(lines, a) == 0.0 {
      UnmentionedTotalsZero(lines, a);
    }
  }

  lemma {:induction false} UnmentionedTotalsZero(lines: seq<JournalLine>, a: AccountId)
    requires !Mentions(lines, a)
    ensures AccountTotal(lines, a) == 0.0
  {
    if lines != [] {
      var front := lines[..|lines| - 1];
      forall i | 0 <= i < |front| ensures !Touches(front[i], a) {
        assert front[i] == lines[i];
      }
      assert !Touches(lines[|lines| - 1], a);
      UnmentionedTotalsZero(front, a);
    }
  }

  /** One entry's lines, on what the others come to. */
  method AddEntry(truth0: map<AccountId, real>, lines: seq<JournalLine>, ghost done: seq<JournalLine>)
    returns (truth: map<AccountId, real>)
    requires IsGroundTruth(truth0, done)
    ensures IsGroundTruth(truth, done + lines)
  {
    truth := truth0;
    assert done + lines[..0] == done;
    for i := 0 to |lines|
      invariant IsGroundTruth(truth, done + lines[..i])
    {
      GroundTruthStep(truth, done + lines[..i], lines[i]);
      assert done + lines[..i] + [lines[i]] == done + lines[..i + 1];
      var delta := lines[i].SignedAmount();
      if delta.Some? {
        var held := if lines[i].account in truth then truth[lines[i].account] else 0.0;
        truth := truth[lines[i].account := held + delta.value.amount];
      }
    }
    assert lines[..|lines|] == lines;
  }

  /** An accumulator per account: no aggregate, no currencies, no projection. */
  method GroundTruth(entries: seq<seq<JournalLine>>) returns (truth: map<AccountId, real>)
    ensures IsGroundTruth(truth, Flat(entries))
  {
    truth := map[];
    for k := 0 to |entries|
      invariant IsGroundTruth(truth, Flat(entries[..k]))
    {
      truth := AddEntry(truth, entries[k], Flat(entries[..k]));
      assert entries[..k + 1][..k] == entries[..k];
    }
    assert entries[..|entries|] == entries;
  }

  // ---------------------------------------------------------------------------
  // Refinement
  // ---------------------------------------------------------------------------

  /** The log of posting the entries one after another. */
  function PostAll(entries: seq<seq<JournalLine>>, ids: seq<EntryId>): seq<LedgerEvent>
    requires |ids| == |entries|
  {
    if entries == [] then []
    else
      var n := |entries| - 1;
      PostAll(entries[..n], ids[..n]) + [JournalEntryPosted(ids[n], entries[n])]
  }

  lemma {:induction false} PostOneMore(front: seq<LedgerEvent>, id: EntryId, lines: seq<JournalLine>)
    requires Legal(front) && id !in Replay(front).entries && BalancedEntry(lines)
    ensures var e := JournalEntryPosted(id, lines);
            && Legal(front + [e])
            && AllLines(front + [e]) == AllLines(front) + lines
            && Replay(front + [e]).entries.Keys == Replay(front).entries.Keys + {id}
  {
    var e := JournalEntryPosted(id, lines);
    LegalAppend(front, e);
    ProducedIsAllowed(Replay(front), e, id);
  }

  lemma LastIdIsNew(ids: seq<EntryId>)
    requires Distinct(ids) && ids != []
    ensures Distinct(ids[..|ids| - 1]) && ids[|ids| - 1] !in ids[..|ids| - 1]
  {
  }

  /** Every balanced entry is accepted in turn, and the lines posted are the entries' lines. */
  lemma {:induction false} PostAllIsLegal(entries: seq<seq<JournalLine>>, ids: seq<EntryId>)
    requires |ids| == |entries| && Distinct(ids)
    requires forall k :: 0 <= k < |entries| ==> BalancedEntry(entries[k])
    ensures Legal(PostAll(entries, ids))
    ensures AllLines(PostAll(entries, ids)) == Flat(entries)
    ensures forall id :: id in Replay(PostAll(entries, ids)).entries.Keys ==> id in ids
  {
    if entries != [] {
      var n := |entries| - 1;
      var front := PostAll(entries[..n], ids[..n]);
      LastIdIsNew(ids);
      PostAllIsLegal(entries[..n], ids[..n]);
      PostOneMore(front, ids[n], entries[n]);
    }
  }

  /**
   Entries accepted one by one, in any mix of currencies: the aggregate has the accounts of the
   ground truth, and the same balances exactly when what posting dropped cancels per account.
   */
  lemma {:induction false} GroundTruthIsBalancesIff(
      entries: seq<seq<JournalLine>>, ids: seq<EntryId>, truth: map<AccountId, real>)
    requires |ids| == |entries| && Distinct(ids)
    requires forall k :: 0 <= k < |entries| ==> BalancedEntry(entries[k])
    requires IsGroundTruth(truth, Flat(entries))
    ensures var b := Replay(PostAll(entries, ids)).balances;
            && b.Keys == truth.Keys
            && ((forall a :: a in truth ==> b[a].amount == truth[a])
                <==> forall a :: a in truth ==> AccountTotal(DroppedLines(map[], Flat(entries)), a) == 0.0)
  {
    var lines := Flat(entries);
    PostAllIsLegal(entries, ids);
    ReplayBalances(PostAll(entries, ids));
    forall a
      ensures a in BalancesOf(lines) <==> a in truth
      ensures AmountOr0(BalancesOf(lines), a) + AccountTotal(DroppedLines(map[], lines), a) == AccountTotal(lines, a)
    {
      BalanceIsAccountSum(lines, a);
      BalancePlusDropped(lines, a);
    }
  }

  lemma {:induction false} FlatAllIn(entries: seq<seq<JournalLine>>, c: Currency)
    requires forall k :: 0 <= k < |entries| ==> BalancedIn(entries[k], c)
    ensures AllIn(Flat(entries), c)
  {
    if entries != [] {
      FlatAllIn(entries[..|entries| - 1], c);
      assert BalancedIn(entries[|entries| - 1], c);
    }
  }

  /** Generated ledgers: posting everything gives the ground truth, accounts included. */
  lemma {:induction false} GeneratedLedgerMatchesGroundTruth(
      entries: seq<seq<JournalLine>>, ids: seq<EntryId>, c: Currency, truth: map<AccountId, real>)
    requires |ids| == |entries| && Distinct(ids)
    requires forall k :: 0 <= k < |entries| ==> BalancedIn(entries[k], c)
    requires IsGroundTruth(truth, Flat(entries))
    ensures Legal(PostAll(entries, ids))
    ensures Replay(PostAll(entries, ids)).balances.Keys == truth.Keys
    ensures forall a :: a in truth ==> Replay(PostAll(entries, ids)).balances[a] == Money(truth[a], c)
  {
    var lines := Flat(entries);
    FlatAllIn(entries, c);
    assert OneCurrencyPerAccount(lines);
    NothingDroppedIffOneCurrency(lines);
    PostAllIsLegal(entries, ids);
    GroundTruthIsBalancesIff(entries, ids, truth);
    ReplayBalances(PostAll(entries, ids));
    forall a | a in truth ensures BalancesOf(lines)[a].currency == c {
      CurrencyComesFromALine(lines, a);
    }
  }

  /**
   From the seed to the balances: with two accounts or more the whole ledger is accepted, and posting
   it gives the ground truth, accounts included.
   */
  lemma {:induction false} SeedMatchesGroundTruth(
      seed: bv64, spec: GeneratorSpec, accountId: string -> AccountId, ids: seq<EntryId>, truth: map<AccountId, real>)
    requires |spec.accounts| >= 2 && |ids| == spec.entries && Distinct(ids)
    requires IsGroundTruth(truth, Flat(Generated(seed, spec, accountId)))
    ensures |Generated(seed, spec, accountId)| == |ids|
    ensures var log := PostAll(Generated(seed, spec, accountId), ids);
            && Legal(log)
            && Replay(log).balances.Keys == truth.Keys
            && forall a :: a in truth ==> Replay(log).balances[a] == Money(truth[a], spec.currency)
  {
    var entries := Generated(seed, spec, accountId);
    assert |entries| == spec.entries;
    forall e | 0 <= e < |entries| ensures BalancedIn(entries[e], spec.currency) {
      GeneratedBalances(seed, spec, accountId, e);
    }
    GeneratedLedgerMatchesGroundTruth(entries, ids, spec.currency, truth);
  }
}
