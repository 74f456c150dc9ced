/** `analyzeCommander`: one pass that builds a table of per-card sums, then
    one card statistic per card listed in enough decks, each tested against
    the decks without the card. */
module Commander {
  import opened Wrappers
  import opened Types
  import opened Metrics
  import opened Significance

  /** The running sums the table keeps per card name. */
  datatype CardTally = CardTally(
    wins: int,
    losses: int,
    draws: int,
    inclusionCount: int,
    decksWithGames: int,
    totalGames: int)

  const NoCardTally := CardTally(0, 0, 0, 0, 0, 0)

  /** What one deck listing the card adds: its results, one inclusion, and
      one deck with games and its games if it has any. */
  function CardTallyStep(t: CardTally, e: DeckEntry): CardTally {
    CardTally(
      t.wins + e.wins,
      t.losses + e.losses,
      t.draws + e.draws,
      t.inclusionCount + 1,
      if HasGames(e) then t.decksWithGames + 1 else t.decksWithGames,
      if HasGames(e) then t.totalGames + Games(e) else t.totalGames)
  }

  /** The sums over `decks`, all of which list the card. */
  function CardTallyOf(decks: seq<DeckEntry>): CardTally {
    if decks == [] then NoCardTally
    else CardTallyStep(CardTallyOf(decks[..|decks| - 1]), decks[|decks| - 1])
  }

  /** The deck lists `name` in its maindeck: raw names, compared exactly. */
  function ListsCard(name: string): DeckEntry -> bool {
    (e: DeckEntry) => name in e.maindeck
  }

  /** The sums the table holds for `name` once every deck has been read. */
  function CardTallyFor(entries: seq<DeckEntry>, name: string): CardTally {
    CardTallyOf(Select(entries, ListsCard(name)))
  }

  /** `new Set(names)`: the names without repeats, in order of first
      occurrence. */
  function Distinct(names: seq<string>): seq<string> {
    if names == [] then []
    else
      var init, last := names[..|names| - 1], names[|names| - 1];
      Distinct(init) + (if last in init then [] else [last])
  }

  /** The names of a list, as a set. */
  function NameSet(names: seq<string>): set<string> {
    set n | n in names
  }

  /** Every name listed in some maindeck of `entries`. */
  function NamesIn(entries: seq<DeckEntry>): set<string> {
    if entries == [] then {}
    else NamesIn(entries[..|entries| - 1]) + NameSet(entries[|entries| - 1].maindeck)
  }

  /** The names of `names` that are not in `seen`, in order. */
  function Unseen(names: seq<string>, seen: set<string>): seq<string> {
    if names == [] then []
    else
      var last := names[|names| - 1];
      Unseen(names[..|names| - 1], seen) + (if last in seen then [] else [last])
  }

  /** The table's keys in insertion order: each deck adds its new names in
      the order they first occur in its maindeck. */
  function KeyOrder(entries: seq<DeckEntry>): seq<string> {
    if entries == [] then []
    else
      var init := entries[..|entries| - 1];
      KeyOrder(init) + Unseen(Distinct(entries[|entries| - 1].maindeck), NamesIn(init))
  }

  /** `part / whole * 100`, or 0 for an empty whole: the 0-100 scale of the
      per-card rates. */
  function PercentOrZero(part: int, whole: int): real {
    if whole > 0 then (part as real / whole as real) * 100.0 else 0.0
  }

  function InclusionPercentage(inclusionCount: int, deckCount: int): real
    requires deckCount > 0
  {
    (inclusionCount as real / deckCount as real) * 100.0
  }

  /** The statistic reported for a card with sums `t`, tested against the
      rest of `overall`. */
  function CardStatOf(prims: Primitives, name: string, t: CardTally, deckCount: int, overall: PerformanceMetrics): CardStat
    requires deckCount > 0
  {
    CardStat(
      name,
      t.inclusionCount,
      InclusionPercentage(t.inclusionCount, deckCount),
      t.wins,
      t.losses,
      t.draws,
      t.decksWithGames,
      t.totalGames,
      PercentOrZero(t.wins, t.wins + t.losses),
      PercentOrZero(t.wins, t.totalGames),
      ChiSquaredOf(prims, t.wins, t.losses + t.draws,
                   overall.wins - t.wins, (overall.losses - t.losses) + (overall.draws - t.draws)))
  }

  /** The card is listed in at least `minInclusionPercentage` percent of the
      decks. */
  predicate Retained(entries: seq<DeckEntry>, name: string, minInclusionPercentage: real)
    requires |entries| > 0
  {
    InclusionPercentage(CardTallyFor(entries, name).inclusionCount, |entries|) >= minInclusionPercentage
  }

  /** The statistics of the retained cards among `names`, in order. */
  function Emitted(prims: Primitives, entries: seq<DeckEntry>, minInclusionPercentage: real, names: seq<string>): seq<CardStat>
    requires |entries| > 0 || names == []
  {
    if names == [] then []
    else
      var name := names[|names| - 1];
      Emitted(prims, entries, minInclusionPercentage, names[..|names| - 1]) +
        (if Retained(entries, name, minInclusionPercentage)
         then [CardStatOf(prims, name, CardTallyFor(entries, name), |entries|, MetricsOf(entries))]
         else [])
  }

  /** What the analysis reports for `entries`. */
  function CommanderOf(prims: Primitives, entries: seq<DeckEntry>, minInclusionPercentage: real): CommanderAnalysis {
    CommanderAnalysis(Emitted(prims, entries, minInclusionPercentage, KeyOrder(entries)), MetricsOf(entries))
  }

  /** The analysis of lib/analysis.ts: the table is filled deck by deck and
      card by card in place, then read in key order. */
  method AnalyzeCommander(prims: Primitives, entries: seq<DeckEntry>, minInclusionPercentage: real)
    returns (r: CommanderAnalysis)
    ensures r == CommanderOf(prims, entries, minInclusionPercentage)
  {
    var overallMetrics := CalculatePerformanceMetrics(entries);
    var cardAggregation, keys := AggregateCards(entries);
    KeyOrderNames(entries);
    NamesInNonEmpty(entries);
    var cardStats := EmitCardStats(prims, entries, minInclusionPercentage, overallMetrics, cardAggregation, keys);
    r := CommanderAnalysis(cardStats, overallMetrics);
  }

  /** The first loop of the analysis: every deck's distinct names added to
      the table in place, new names appended to the key order. */
  method AggregateCards(entries: seq<DeckEntry>) returns (cardAggregation: map<string, CardTally>, keys: seq<string>)
    ensures keys == KeyOrder(entries)
    ensures Aggregated(cardAggregation, entries)
  {
    cardAggregation, keys := map[], [];
    var i := 0;
    while i < |entries|
      invariant 0 <= i <= |entries|
      invariant keys == KeyOrder(entries[..i])
      invariant Aggregated(cardAggregation, entries[..i])
    {
      var entry := entries[i];
      ghost var before := entries[..i];
      assert entries[..i + 1] == before + [entry];
      StartAdding(cardAggregation, before, entry);
      ghost var keysBefore := keys;
      cardAggregation, keys := AggregateDeck(cardAggregation, keys, before, entry);
      AggregatedDeck(cardAggregation, keys, keysBefore, before, entry, entries[..i + 1]);
      i := i + 1;
    }
    assert entries[..i] == entries;
  }

  /** The second loop of the analysis: read the table in key order, skip
      the cards below the threshold, and test each other card against the
      rest of the pool. */
  method EmitCardStats(prims: Primitives, entries: seq<DeckEntry>, minInclusionPercentage: real,
                       overallMetrics: PerformanceMetrics, cardAggregation: map<string, CardTally>, keys: seq<string>)
    returns (cardStats: seq<CardStat>)
    requires overallMetrics == MetricsOf(entries)
    requires |entries| > 0 || keys == []
    requires forall n :: n in keys ==> n in cardAggregation
    requires Aggregated(cardAggregation, entries)
    ensures cardStats == Emitted(prims, entries, minInclusionPercentage, keys)
  {
    cardStats := [];
    var k := 0;
    while k < |keys|
      invariant 0 <= k <= |keys|
      invariant cardStats == Emitted(prims, entries, minInclusionPercentage, keys[..k])
    {
      var cardName := keys[k];
      var stats := cardAggregation[cardName];
      var inclusionPercentage := (stats.inclusionCount as real / |entries| as real) * 100.0;
      EmittedSnocFromTable(prims, entries, minInclusionPercentage, overallMetrics, cardAggregation, keys, k);
      if inclusionPercentage >= minInclusionPercentage {
        var cardStat := BuildCardStat(prims, cardName, stats, |entries|, overallMetrics);
        cardStats := cardStats + [cardStat];
      }
      k := k + 1;
    }
    assert keys[..k] == keys;
  }

  /** One card's statistic: its sums, its rates, and the test of its decks
      against the rest of the pool. */
  method BuildCardStat(prims: Primitives, cardName: string, stats: CardTally, deckCount: int, overallMetrics: PerformanceMetrics)
    returns (cardStat: CardStat)
    requires deckCount > 0
    ensures cardStat == CardStatOf(prims, cardName, stats, deckCount, overallMetrics)
  {
    var winsWithCard := stats.wins;
    var nonWinsWithCard := stats.losses + stats.draws;
    var winsWithoutCard := overallMetrics.wins - winsWithCard;
    var nonWinsWithoutCard := (overallMetrics.losses - stats.losses) + (overallMetrics.draws - stats.draws);
    var statSig := RunChiSquaredTest(prims, winsWithCard, nonWinsWithCard, winsWithoutCard, nonWinsWithoutCard);
    cardStat := CardStat(
      cardName,
      stats.inclusionCount,
      (stats.inclusionCount as real / deckCount as real) * 100.0,
      stats.wins,
      stats.losses,
      stats.draws,
      stats.decksWithGames,
      stats.totalGames,
      if stats.wins + stats.losses > 0 then (stats.wins as real / (stats.wins + stats.losses) as real) * 100.0 else 0.0,
      if stats.totalGames > 0 then (stats.wins as real / stats.totalGames as real) * 100.0 else 0.0,
      statSig);
  }

  /** The emitted statistics of one more name. */
  lemma EmittedSnoc(prims: Primitives, entries: seq<DeckEntry>, minInclusionPercentage: real, names: seq<string>, k: nat)
    requires k < |names| && |entries| > 0
    ensures Emitted(prims, entries, minInclusionPercentage, names[..k + 1]) ==
      Emitted(prims, entries, minInclusionPercentage, names[..k]) +
        (if Retained(entries, names[k], minInclusionPercentage)
         then [CardStatOf(prims, names[k], CardTallyFor(entries, names[k]), |entries|, MetricsOf(entries))]
         else [])
  {
    assert names[..k + 1][..k] == names[..k];
  }

  /** The same step, read off the finished table. */
  lemma EmittedSnocFromTable(prims: Primitives, entries: seq<DeckEntry>, minInclusionPercentage: real,
                             overallMetrics: PerformanceMetrics, table: map<string, CardTally>, names: seq<string>, k: nat)
    requires k < |names| && |entries| > 0
    requires overallMetrics == MetricsOf(entries)
    requires names[k] in table && Aggregated(table, entries)
    ensures var stats := table[names[k]];
      Emitted(prims, entries, minInclusionPercentage, names[..k + 1]) ==
      Emitted(prims, entries, minInclusionPercentage, names[..k]) +
        (if (stats.inclusionCount as real / |entries| as real) * 100.0 >= minInclusionPercentage
         then [CardStatOf(prims, names[k], stats, |entries|, overallMetrics)]
         else [])
  {
    EmittedSnoc(prims, entries, minInclusionPercentage, names, k);
    TableLookup(table, entries, names[k]);
  }

  lemma TableLookup(table: map<string, CardTally>, entries: seq<DeckEntry>, name: string)
    requires name in table && Aggregated(table, entries)
    ensures table[name] == CardTallyFor(entries, name)
  {
  }

  /** The inner loop of the aggregation: one deck's distinct card names,
      each creating its table entry if new and then adding the deck to it. */
  method AggregateDeck(table: map<string, CardTally>, keys: seq<string>, ghost before: seq<DeckEntry>, entry: DeckEntry)
    returns (table': map<string, CardTally>, keys': seq<string>)
    requires PartlyAdded(table, before, entry, [])
    ensures Adding(table', keys', keys, before, entry, Distinct(entry.maindeck))
  {
    var uniqueCards := Distinct(entry.maindeck);
    assert uniqueCards[..0] == [];
    table', keys' := table, keys;
    var j := 0;
    while j < |uniqueCards|
      invariant 0 <= j <= |uniqueCards|
      invariant Adding(table', keys', keys, before, entry, uniqueCards[..j])
    {
      ghost var table0, keys0 := table', keys';
      table', keys' := AddCard(table', keys', entry, uniqueCards[j]);
      AddCardStep(table0, keys0, keys, before, entry, j, table', keys');
      j := j + 1;
    }
    assert uniqueCards[..j] == uniqueCards;
  }

  /** The table holds the sums over `before` with `entry` added for the
      names `done`, and the keys gained the new ones among them. */
  predicate Adding(table: map<string, CardTally>, keys': seq<string>, keys: seq<string>,
                   before: seq<DeckEntry>, entry: DeckEntry, done: seq<string>) {
    && keys' == keys + Unseen(done, NamesIn(before))
    && PartlyAdded(table, before, entry, done)
  }

  /** One name of the deck: its table entry is created if new, then the deck
      is added to it. */
  method AddCard(table: map<string, CardTally>, keys: seq<string>, entry: DeckEntry, cardName: string)
    returns (table': map<string, CardTally>, keys': seq<string>)
    ensures table' == table[cardName := CardTallyStep(if cardName in table then table[cardName] else NoCardTally, entry)]
    ensures keys' == keys + (if cardName in table then [] else [cardName])
  {
    table', keys' := table, keys;
    if cardName !in table' {
      table' := table'[cardName := NoCardTally];
      keys' := keys' + [cardName];
    }
    var stats := AddDeck(table'[cardName], entry);
    table' := table'[cardName := stats];
  }

  /** Creating the entry of the next name if it is new and adding the deck
      to it keeps the table and the keys in step. */
  lemma AddCardStep(table: map<string, CardTally>, keys': seq<string>, keys: seq<string>,
                    before: seq<DeckEntry>, entry: DeckEntry, j: nat,
                    table'': map<string, CardTally>, keys'': seq<string>)
    requires j < |Distinct(entry.maindeck)|
    requires Adding(table, keys', keys, before, entry, Distinct(entry.maindeck)[..j])
    requires var c := Distinct(entry.maindeck)[j];
      && table'' == table[c := CardTallyStep(if c in table then table[c] else NoCardTally, entry)]
      && keys'' == keys' + (if c in table then [] else [c])
    ensures Adding(table'', keys'', keys, before, entry, Distinct(entry.maindeck)[..j + 1])
  {
    var names := Distinct(entry.maindeck);
    var c, done := names[j], names[..j];
    PrefixSnoc(entry.maindeck, NamesIn(before), j);
    TableAddStep(table, before, entry, done, c, table'');
    KeysAddStep(keys'', keys', keys, done, c, NamesIn(before));
  }

  /** The keys part of one step: a name not seen before is appended. */
  lemma KeysAddStep(keys'': seq<string>, keys': seq<string>, keys: seq<string>, done: seq<string>, c: string, seen: set<string>)
    requires keys' == keys + Unseen(done, seen)
    requires keys'' == keys' + (if c in seen then [] else [c])
    ensures keys'' == keys + Unseen(done + [c], seen)
  {
    assert (done + [c])[..|done|] == done;
  }

  /** The table part of one step: the new name's sums gain the deck. */
  lemma TableAddStep(table: map<string, CardTally>, before: seq<DeckEntry>, entry: DeckEntry,
                     done: seq<string>, c: string, table'': map<string, CardTally>)
    requires c !in done
    requires PartlyAdded(table, before, entry, done)
    requires table'' == table[c := CardTallyStep(if c in table then table[c] else NoCardTally, entry)]
    ensures PartlyAdded(table'', before, entry, done + [c])
  {
    assert c !in NameSet(done);
    if c !in table {
      NotListedMeansEmpty(before, c);
    }
    var stats := CardTallyStep(CardTallyFor(before, c), entry);
    TableStep(table, before, entry, done, c, stats);
    assert NameSet(done + [c]) == NameSet(done) + {c};
  }

  /** One deck added to one card's sums: an inclusion, the deck's results,
      and its games when it has any. */
  method AddDeck(stats: CardTally, entry: DeckEntry) returns (stats': CardTally)
    ensures stats' == CardTallyStep(stats, entry)
  {
    var hasGames := entry.wins + entry.losses + entry.draws > 0;
    stats' := stats.(inclusionCount := stats.inclusionCount + 1);
    stats' := stats'.(wins := stats'.wins + entry.wins);
    stats' := stats'.(losses := stats'.losses + entry.losses);
    stats' := stats'.(draws := stats'.draws + entry.draws);
    if hasGames {
      stats' := stats'.(decksWithGames := stats'.decksWithGames + 1);
      stats' := stats'.(totalGames := stats'.totalGames + entry.wins + entry.losses + entry.draws);
    }
  }

  // ---- facts the loops rely on ----

  /** The sums the table holds for `n` after the names `done` of `entry`
      have been added. */
  function TallyAfter(before: seq<DeckEntry>, entry: DeckEntry, done: seq<string>, n: string): CardTally {
    if n in done then CardTallyStep(CardTallyFor(before, n), entry) else CardTallyFor(before, n)
  }

  /** Once all of a deck's distinct names have been added, the table holds
      the sums over the decks read so far and the new deck. */
  lemma AggregatedDeck(table: map<string, CardTally>, keys': seq<string>, keys: seq<string>,
                       before: seq<DeckEntry>, entry: DeckEntry, after: seq<DeckEntry>)
    requires Adding(table, keys', keys, before, entry, Distinct(entry.maindeck))
    requires keys == KeyOrder(before)
    requires after == before + [entry]
    ensures keys' == KeyOrder(after)
    ensures Aggregated(table, after)
  {
    DistinctNames(entry.maindeck);
    forall n | n in table ensures table[n] == CardTallyFor(after, n) {
      CardTallyForSnoc(before, entry, n);
    }
    assert NameSet(Distinct(entry.maindeck)) == NameSet(entry.maindeck);
    assert after[..|before|] == before;
  }

  /** One more of a deck's distinct names: it is new to the prefix, and the
      prefix's set and unseen names grow by it. */
  lemma PrefixSnoc(maindeck: seq<string>, seen: set<string>, j: nat)
    requires j < |Distinct(maindeck)|
    ensures var names := Distinct(maindeck);
      && names[..j + 1] == names[..j] + [names[j]]
      && names[j] !in names[..j]
      && NameSet(names[..j + 1]) == NameSet(names[..j]) + {names[j]}
      && Unseen(names[..j + 1], seen) == Unseen(names[..j], seen) + (if names[j] in seen then [] else [names[j]])
  {
    var names := Distinct(maindeck);
    DistinctNames(maindeck);
    assert names[..j + 1] == names[..j] + [names[j]];
    assert names[..j + 1][..j] == names[..j];
  }

  /** The table holds, for every name the decks list, its sums over the
      decks. */
  predicate Aggregated(table: map<string, CardTally>, decks: seq<DeckEntry>) {
    && table.Keys == NamesIn(decks)
    && forall n :: n in table ==> table[n] == CardTallyFor(decks, n)
  }

  /** Before any name of a deck is added, the table holds the sums over the
      decks read before it. */
  lemma StartAdding(table: map<string, CardTally>, before: seq<DeckEntry>, entry: DeckEntry)
    requires Aggregated(table, before)
    ensures PartlyAdded(table, before, entry, [])
  {
  }

  /** The table holds the sums over `before` with `entry` added for the
      names `done`. */
  predicate PartlyAdded(table: map<string, CardTally>, before: seq<DeckEntry>, entry: DeckEntry, done: seq<string>) {
    && table.Keys == NamesIn(before) + NameSet(done)
    && forall n :: n in table ==> table[n] == TallyAfter(before, entry, done, n)
  }

  /** Adding the deck to one more name keeps the table in step. */
  lemma TableStep(table: map<string, CardTally>, before: seq<DeckEntry>, entry: DeckEntry,
                  done: seq<string>, cardName: string, stats: CardTally)
    requires cardName !in done
    requires forall n :: n in table && n != cardName ==> table[n] == TallyAfter(before, entry, done, n)
    requires stats == CardTallyStep(CardTallyFor(before, cardName), entry)
    ensures forall n :: n in table[cardName := stats] ==>
      table[cardName := stats][n] == TallyAfter(before, entry, done + [cardName], n)
  {
  }

  /** `Distinct` keeps exactly the names of its input, each once. */
  lemma {:induction false} DistinctNames(names: seq<string>)
    ensures forall n :: n in Distinct(names) <==> n in names
    ensures forall a, b :: 0 <= a < b < |Distinct(names)| ==> Distinct(names)[a] != Distinct(names)[b]
  {
    if names != [] {
      var init, last := names[..|names| - 1], names[|names| - 1];
      DistinctNames(init);
      assert names == init + [last];
    }
  }

  /** `Unseen` keeps exactly the names not seen before, without repeats if
      its input has none. */
  lemma {:induction false} UnseenNames(names: seq<string>, seen: set<string>)
    requires forall a, b :: 0 <= a < b < |names| ==> names[a] != names[b]
    ensures forall n :: n in Unseen(names, seen) <==> n in names && n !in seen
    ensures forall a, b :: 0 <= a < b < |Unseen(names, seen)| ==> Unseen(names, seen)[a] != Unseen(names, seen)[b]
  {
    if names != [] {
      var init, last := names[..|names| - 1], names[|names| - 1];
      UnseenNames(init, seen);
      assert names == init + [last];
    }
  }

  /** A name no deck of `decks` lists has empty sums. */
  lemma {:induction false} NotListedMeansEmpty(decks: seq<DeckEntry>, name: string)
    requires name !in NamesIn(decks)
    ensures CardTallyFor(decks, name) == NoCardTally
  {
    if decks != [] {
      var init := decks[..|decks| - 1];
      var last := decks[|decks| - 1];
      assert name !in NameSet(last.maindeck);
      assert name !in last.maindeck;
      NotListedMeansEmpty(init, name);
      assert !ListsCard(name)(last);
      var sel := Select(init, ListsCard(name));
      assert Select(decks, ListsCard(name)) == sel + [];
      assert sel + [] == sel;
    }
  }

  /** Reading one more deck adds it to the sums of exactly the names it
      lists. */
  lemma CardTallyForSnoc(before: seq<DeckEntry>, entry: DeckEntry, name: string)
    ensures CardTallyFor(before + [entry], name) ==
      if name in entry.maindeck then CardTallyStep(CardTallyFor(before, name), entry) else CardTallyFor(before, name)
  {
    var all := before + [entry];
    assert all[..|all| - 1] == before;
    var sel := Select(before, ListsCard(name));
    if name in entry.maindeck {
      assert Select(all, ListsCard(name)) == sel + [entry];
      assert (sel + [entry])[..|sel|] == sel;
    } else {
      assert Select(all, ListsCard(name)) == sel + [];
      assert sel + [] == sel;
    }
  }

  /** The key order lists every name some deck lists, each once. */
  lemma {:induction false} KeyOrderNames(entries: seq<DeckEntry>)
    ensures forall n :: n in KeyOrder(entries) <==> n in NamesIn(entries)
    ensures forall a, b :: 0 <= a < b < |KeyOrder(entries)| ==> KeyOrder(entries)[a] != KeyOrder(entries)[b]
  {
    if entries != [] {
      var init, last := entries[..|entries| - 1], entries[|entries| - 1];
      KeyOrderNames(init);
      var newNames := Unseen(Distinct(last.maindeck), NamesIn(init));
      DistinctNames(last.maindeck);
      UnseenNames(Distinct(last.maindeck), NamesIn(init));
      var ko := KeyOrder(init);
      assert KeyOrder(entries) == ko + newNames;
      AppendDistinct(ko, newNames, NamesIn(init));
    }
  }

  /** Two lists without repeats, the first inside `seen` and the second
      outside it, concatenate to a list without repeats. */
  lemma AppendDistinct(xs: seq<string>, ys: seq<string>, seen: set<string>)
    requires forall a, b :: 0 <= a < b < |xs| ==> xs[a] != xs[b]
    requires forall a, b :: 0 <= a < b < |ys| ==> ys[a] != ys[b]
    requires forall x :: x in xs ==> x in seen
    requires forall y :: y in ys ==> y !in seen
    ensures forall a, b :: 0 <= a < b < |xs + ys| ==> (xs + ys)[a] != (xs + ys)[b]
  {
    forall a, b | 0 <= a < b < |xs + ys| ensures (xs + ys)[a] != (xs + ys)[b] {
      if a < |xs| && b >= |xs| {
        assert (xs + ys)[a] in seen;
        assert ys[b - |xs|] in ys;
      } else if a >= |xs| {
        assert (xs + ys)[a] == ys[a - |xs|];
      }
    }
  }

  /** Some deck lists a name only if there are decks. */
  lemma NamesInNonEmpty(entries: seq<DeckEntry>)
    ensures NamesIn(entries) != {} ==> |entries| > 0
  {
  }

  // ---- properties of the analysis ----

  /** A card's sums count one inclusion per deck listing it, and the decks
      with games among them. */
  lemma {:induction false} CardTallyCounts(decks: seq<DeckEntry>)
    ensures CardTallyOf(decks).inclusionCount == |decks|
    ensures 0 <= CardTallyOf(decks).decksWithGames <= |decks|
  {
    if decks != [] {
      CardTallyCounts(decks[..|decks| - 1]);
    }
  }

  /** With non-negative counts a card's sums are the overall metrics' sums
      over the decks that list it: the same results, one inclusion per deck,
      and the decks with games counted alike. */
  lemma {:induction false} CardTallyAgrees(decks: seq<DeckEntry>)
    requires NonNegative(decks)
    ensures var c, t := CardTallyOf(decks), TallyOf(decks);
      && c.wins == t.wins && c.losses == t.losses && c.draws == t.draws
      && c.decksWithGames == t.decks
      && c.totalGames == t.wins + t.losses + t.draws
  {
    if decks != [] {
      var init := decks[..|decks| - 1];
      assert NonNegative(init) by {
        forall i | 0 <= i < |init| ensures init[i] == decks[i] { }
      }
      CardTallyAgrees(init);
    }
  }

  /** Some deck lists a name exactly when the decks listing it are not
      empty. */
  lemma {:induction false} ListedMeansSelected(entries: seq<DeckEntry>, name: string)
    ensures name in NamesIn(entries) <==> Select(entries, ListsCard(name)) != []
  {
    if entries != [] {
      var init, last := entries[..|entries| - 1], entries[|entries| - 1];
      ListedMeansSelected(init, name);
      assert name in NameSet(last.maindeck) <==> ListsCard(name)(last);
    }
  }

  /** With non-negative counts, a card's results are those of the decks
      listing it, and the rest of the overall results are those of the decks
      that do not list it, and non-negative. */
  lemma CardComplement(entries: seq<DeckEntry>, name: string)
    requires NonNegative(entries)
    ensures var t, m := CardTallyFor(entries, name), MetricsOf(entries);
      var w, o := TallyOf(Select(entries, ListsCard(name))), TallyOf(Reject(entries, ListsCard(name)));
      && t.wins == w.wins && t.losses == w.losses && t.draws == w.draws
      && m.wins - t.wins == o.wins
      && m.losses - t.losses == o.losses
      && m.draws - t.draws == o.draws
      && o.wins >= 0 && o.losses >= 0 && o.draws >= 0
  {
    var p := ListsCard(name);
    TallyPartition(entries, p);
    NonNegativeSides(entries, p);
    CardTallyAgrees(Select(entries, p));
    TallyNonNegative(Reject(entries, p));
  }

  /** A percentage of a part of a whole lies in [0, 100], and is 0 for an
      empty whole. */
  lemma PercentOrZeroBounds(part: int, whole: int)
    requires 0 <= part <= whole
    ensures 0.0 <= PercentOrZero(part, whole) <= 100.0
    ensures whole == 0 ==> PercentOrZero(part, whole) == 0.0
  {
    if part >= 1 {
      PercentageBounds(part, whole);
    }
  }

  /** The statistic of a card some deck lists counts it in between one and
      all of the decks, a share in (0, 100], with its decks with games among
      them and its games its wins, losses and draws. */
  lemma CardStatCounts(prims: Primitives, entries: seq<DeckEntry>, name: string)
    requires NonNegative(entries)
    requires name in NamesIn(entries)
    ensures |entries| > 0
    ensures var s := CardStatOf(prims, name, CardTallyFor(entries, name), |entries|, MetricsOf(entries));
      && s.cardName == name
      && s.inclusionCount == |Select(entries, ListsCard(name))|
      && 1 <= s.inclusionCount <= |entries|
      && 0.0 < s.inclusionPercentage <= 100.0
      && 0 <= s.decksWithGames <= s.inclusionCount
      && s.totalGamesWithCard == s.wins + s.losses + s.draws
  {
    var p := ListsCard(name);
    var sel := Select(entries, p);
    ListedMeansSelected(entries, name);
    NonNegativeSides(entries, p);
    CardTallyCounts(sel);
    CardTallyAgrees(sel);
    PercentageBounds(|sel|, |entries|);
  }

  /** Both rates of a card's statistic are percentages, 0 on an empty
      denominator. */
  lemma CardStatRates(prims: Primitives, entries: seq<DeckEntry>, name: string)
    requires NonNegative(entries)
    requires |entries| > 0
    ensures var s := CardStatOf(prims, name, CardTallyFor(entries, name), |entries|, MetricsOf(entries));
      && 0.0 <= s.winRateIgnoringDraws <= 100.0
      && 0.0 <= s.winRateOverall <= 100.0
      && (s.wins + s.losses == 0 ==> s.winRateIgnoringDraws == 0.0)
      && (s.totalGamesWithCard == 0 ==> s.winRateOverall == 0.0)
  {
    var p := ListsCard(name);
    var sel := Select(entries, p);
    NonNegativeSides(entries, p);
    CardTallyAgrees(sel);
    TallyNonNegative(sel);
    var t := CardTallyFor(entries, name);
    PercentOrZeroBounds(t.wins, t.wins + t.losses);
    PercentOrZeroBounds(t.wins, t.totalGames);
  }

  /** A card's test compares the decks listing it with the decks that do
      not: wins against losses plus draws on each side, `w` and `o` being the
      metrics of the two sides. */
  lemma CardStatTest(prims: Primitives, entries: seq<DeckEntry>, name: string, w: PerformanceMetrics, o: PerformanceMetrics)
    requires NonNegative(entries)
    requires |entries| > 0
    requires w == MetricsOf(Select(entries, ListsCard(name)))
    requires o == MetricsOf(Reject(entries, ListsCard(name)))
    ensures CardStatOf(prims, name, CardTallyFor(entries, name), |entries|, MetricsOf(entries)).statSig ==
      ChiSquaredOf(prims, w.wins, w.losses + w.draws, o.wins, o.losses + o.draws)
  {
    CardComplement(entries, name);
    TestOfCells(prims, name, CardTallyFor(entries, name), |entries|, MetricsOf(entries), w, o);
  }

  /** A card's test is the test of any two metrics its cells agree with. */
  lemma TestOfCells(prims: Primitives, name: string, t: CardTally, deckCount: int, m: PerformanceMetrics,
                    w: PerformanceMetrics, o: PerformanceMetrics)
    requires deckCount > 0
    requires t.wins == w.wins && t.losses == w.losses && t.draws == w.draws
    requires m.wins - t.wins == o.wins && m.losses - t.losses == o.losses && m.draws - t.draws == o.draws
    ensures CardStatOf(prims, name, t, deckCount, m).statSig ==
      ChiSquaredOf(prims, w.wins, w.losses + w.draws, o.wins, o.losses + o.draws)
  {
  }

  /** The emitted statistics are exactly those of the retained names: each
      emitted statistic belongs to a retained name and is that name's
      statistic, and each name is retained exactly when its statistic is
      emitted. */
  lemma {:induction false} EmittedExactlyRetained(prims: Primitives, entries: seq<DeckEntry>, minInclusionPercentage: real, names: seq<string>)
    requires |entries| > 0 || names == []
    ensures var e := Emitted(prims, entries, minInclusionPercentage, names);
      forall s :: s in e ==>
        && s.cardName in names
        && Retained(entries, s.cardName, minInclusionPercentage)
        && s == CardStatOf(prims, s.cardName, CardTallyFor(entries, s.cardName), |entries|, MetricsOf(entries))
    ensures var e := Emitted(prims, entries, minInclusionPercentage, names);
      forall n :: n in names ==>
        (Retained(entries, n, minInclusionPercentage) <==>
         CardStatOf(prims, n, CardTallyFor(entries, n), |entries|, MetricsOf(entries)) in e)
  {
    if names != [] {
      var init, last := names[..|names| - 1], names[|names| - 1];
      EmittedExactlyRetained(prims, entries, minInclusionPercentage, init);
      assert names == init + [last];
    }
  }

  /** Distinct names give statistics with distinct card names. */
  lemma {:induction false} EmittedDistinct(prims: Primitives, entries: seq<DeckEntry>, minInclusionPercentage: real, names: seq<string>)
    requires |entries| > 0 || names == []
    requires forall a, b :: 0 <= a < b < |names| ==> names[a] != names[b]
    ensures var e := Emitted(prims, entries, minInclusionPercentage, names);
      forall a, b :: 0 <= a < b < |e| ==> e[a].cardName != e[b].cardName
  {
    if names != [] {
      var init, last := names[..|names| - 1], names[|names| - 1];
      EmittedDistinct(prims, entries, minInclusionPercentage, init);
      EmittedExactlyRetained(prims, entries, minInclusionPercentage, init);
      var e := Emitted(prims, entries, minInclusionPercentage, init);
      assert last !in init;
      forall s | s in e ensures s.cardName != last { }
    }
  }

  /** The analysis reports the overall metrics of all decks and, once each,
      the statistic of exactly the listed cards whose share reaches the
      threshold. */
  lemma CommanderReport(prims: Primitives, entries: seq<DeckEntry>, minInclusionPercentage: real)
    ensures var r := CommanderOf(prims, entries, minInclusionPercentage);
      && r.overallMetrics == MetricsOf(entries)
      && (forall s :: s in r.cardStats ==>
            && s.cardName in NamesIn(entries)
            && Retained(entries, s.cardName, minInclusionPercentage)
            && s == CardStatOf(prims, s.cardName, CardTallyFor(entries, s.cardName), |entries|, MetricsOf(entries)))
      && (forall n :: n in NamesIn(entries) ==>
            (Retained(entries, n, minInclusionPercentage) <==>
             CardStatOf(prims, n, CardTallyFor(entries, n), |entries|, MetricsOf(entries)) in r.cardStats))
      && (forall a, b :: 0 <= a < b < |r.cardStats| ==> r.cardStats[a].cardName != r.cardStats[b].cardName)
  {
    var keys := KeyOrder(entries);
    KeyOrderNames(entries);
    NamesInNonEmpty(entries);
    EmittedExactlyRetained(prims, entries, minInclusionPercentage, keys);
    EmittedDistinct(prims, entries, minInclusionPercentage, keys);
  }

  /** Raising the threshold only drops cards: every statistic reported at
      the higher threshold is reported at the lower one. */
  lemma ThresholdOnlyFilters(prims: Primitives, entries: seq<DeckEntry>, lower: real, higher: real)
    requires lower <= higher
    ensures forall s :: s in CommanderOf(prims, entries, higher).cardStats ==>
      s in CommanderOf(prims, entries, lower).cardStats
  {
    CommanderReport(prims, entries, lower);
    CommanderReport(prims, entries, higher);
  }

  /** A threshold of zero or less keeps every listed card. */
  lemma ZeroThresholdKeepsAll(prims: Primitives, entries: seq<DeckEntry>, minInclusionPercentage: real, name: string)
    requires minInclusionPercentage <= 0.0
    requires name in NamesIn(entries)
    ensures |entries| > 0
    ensures CardStatOf(prims, name, CardTallyFor(entries, name), |entries|, MetricsOf(entries))
      in CommanderOf(prims, entries, minInclusionPercentage).cardStats
  {
    CommanderReport(prims, entries, minInclusionPercentage);
    ListedMeansSelected(entries, name);
    var sel := Select(entries, ListsCard(name));
    CardTallyCounts(sel);
    PercentageBounds(|sel|, |entries|);
  }
}
