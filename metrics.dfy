/** `calculatePerformanceMetrics`: win/loss/draw totals over the decks that
    played at least one game, and the two win-rate ratios. */
module Metrics {
  import opened Types

  function Games(e: DeckEntry): int {
    e.wins + e.losses + e.draws
  }

  /** A deck with no recorded games is left out of every rate. */
  predicate HasGames(e: DeckEntry) {
    Games(e) > 0
  }

  /** The running sums of the fold. */
  datatype Tally = Tally(wins: int, losses: int, draws: int, decks: int)

  const NoTally := Tally(0, 0, 0, 0)

  function Plus(x: Tally, y: Tally): Tally {
    Tally(x.wins + y.wins, x.losses + y.losses, x.draws + y.draws, x.decks + y.decks)
  }

  /** One step of the fold: a deck with games adds its counts and itself. */
  function TallyStep(t: Tally, e: DeckEntry): Tally {
    if HasGames(e) then Tally(t.wins + e.wins, t.losses + e.losses, t.draws + e.draws, t.decks + 1)
    else t
  }

  /** The sums over the decks with games, folded from the first deck on. */
  function TallyOf(entries: seq<DeckEntry>): Tally
  {
    if entries == [] then NoTally
    else TallyStep(TallyOf(entries[..|entries| - 1]), entries[|entries| - 1])
  }

  /** A division whose zero (or negative) denominator gives 0. */
  function Ratio(n: int, d: int): (r: real)
    ensures d <= 0 ==> r == 0.0
    ensures d > 0 ==> r * d as real == n as real
    ensures 0 <= n <= d ==> 0.0 <= r <= 1.0
  {
    if d > 0 then n as real / d as real else 0.0
  }

  /** Every counted deck is one of the input decks. */
  lemma {:induction false} TallyDecksBound(entries: seq<DeckEntry>)
    ensures 0 <= TallyOf(entries).decks <= |entries|
  {
    if entries != [] {
      TallyDecksBound(entries[..|entries| - 1]);
    }
  }

  function MetricsOf(entries: seq<DeckEntry>): (m: PerformanceMetrics)
    ensures m.totalGames == m.wins + m.losses + m.draws
    ensures 0 <= m.deckCountWithGames <= |entries|
  {
    TallyDecksBound(entries);
    var t := TallyOf(entries);
    var totalGames := t.wins + t.losses + t.draws;
    PerformanceMetrics(t.wins, t.losses, t.draws, totalGames, t.decks,
                       Ratio(t.wins, t.wins + t.losses), Ratio(t.wins, totalGames))
  }

  /** The loop of lib/analysis.ts: sums in place, then derives the rates. */
  method CalculatePerformanceMetrics(entries: seq<DeckEntry>) returns (m: PerformanceMetrics)
    ensures m == MetricsOf(entries)
  {
    var wins, losses, draws, deckCountWithGames := 0, 0, 0, 0;
    var i := 0;
    while i < |entries|
      invariant 0 <= i <= |entries|
      invariant Tally(wins, losses, draws, deckCountWithGames) == TallyOf(entries[..i])
    {
      var entry := entries[i];
      if entry.wins + entry.losses + entry.draws > 0 {
        wins := wins + entry.wins;
        losses := losses + entry.losses;
        draws := draws + entry.draws;
        deckCountWithGames := deckCountWithGames + 1;
      }
      assert entries[..i + 1][..i] == entries[..i];
      i := i + 1;
    }
    assert entries[..i] == entries;
    var totalGames := wins + losses + draws;
    var winRateIgnoringDraws := if wins + losses > 0 then wins as real / (wins + losses) as real else 0.0;
    var winRateOverall := if totalGames > 0 then wins as real / totalGames as real else 0.0;
    m := PerformanceMetrics(wins, losses, draws, totalGames, deckCountWithGames,
                            winRateIgnoringDraws, winRateOverall);
  }

  /** With non-negative counts the sums are non-negative, and there are games
      exactly when some deck with games was counted. */
  lemma {:induction false} TallyNonNegative(entries: seq<DeckEntry>)
    requires NonNegative(entries)
    ensures var t := TallyOf(entries);
      t.wins >= 0 && t.losses >= 0 && t.draws >= 0 &&
      (t.decks == 0 <==> t.wins + t.losses + t.draws == 0)
  {
    if entries != [] {
      var init := entries[..|entries| - 1];
      assert NonNegative(init) by {
        forall i | 0 <= i < |init| ensures init[i] == entries[i] { }
      }
      TallyNonNegative(init);
      TallyDecksBound(init);
    }
  }

  /** Both rates are ratios in [0, 1]; the ignoring-draws rate is W/(W+L) and
      the overall rate W/(W+L+D) whenever those denominators are positive, and
      0 when they are zero. */
  lemma MetricsRates(entries: seq<DeckEntry>)
    requires NonNegative(entries)
    ensures var m := MetricsOf(entries);
      && 0.0 <= m.winRateIgnoringDraws <= 1.0
      && 0.0 <= m.winRateOverall <= 1.0
      && (m.wins + m.losses == 0 ==> m.winRateIgnoringDraws == 0.0)
      && (m.totalGames == 0 ==> m.winRateOverall == 0.0)
      && (m.wins + m.losses > 0 ==> m.winRateIgnoringDraws == m.wins as real / (m.wins + m.losses) as real)
      && (m.totalGames > 0 ==> m.winRateOverall == m.wins as real / m.totalGames as real)
      && (m.totalGames == 0 <==> m.deckCountWithGames == 0)
  {
    TallyNonNegative(entries);
  }

  /** The fold over a concatenation is the sum of the folds. */
  lemma {:induction false} TallyOfAppend(a: seq<DeckEntry>, b: seq<DeckEntry>)
    ensures TallyOf(a + b) == Plus(TallyOf(a), TallyOf(b))
    decreases |b|
  {
    if b == [] {
      assert a + b == a;
      var ta, tb := TallyOf(a), TallyOf(b);
      assert tb == NoTally;
      assert Plus(ta, tb) == ta;
    } else {
      var init, last := b[..|b| - 1], b[|b| - 1];
      assert b == init + [last];
      assert a + b == (a + init) + [last];
      TallyOfSnoc(a + init, last);
      TallyOfSnoc(init, last);
      var ta, ti, tai := TallyOf(a), TallyOf(init), TallyOf(a + init);
      assert TallyOf(a + b) == TallyStep(tai, last);
      assert TallyOf(b) == TallyStep(ti, last);
      TallyOfAppend(a, init);
      PlusStep(ta, ti, tai, last);
    }
  }

  /** Appending one deck is one step of the fold. */
  lemma TallyOfSnoc(s: seq<DeckEntry>, e: DeckEntry)
    ensures TallyOf(s + [e]) == TallyStep(TallyOf(s), e)
  {
    assert (s + [e])[..|s|] == s;
  }

  /** The fold does not depend on the order of the decks. */
  lemma {:induction false} TallyOfPermutation(a: seq<DeckEntry>, b: seq<DeckEntry>)
    requires multiset(a) == multiset(b)
    ensures TallyOf(a) == TallyOf(b)
    decreases |a|
  {
    if a == [] {
      assert b == [];
    } else {
      var last, init := a[|a| - 1], a[..|a| - 1];
      assert a == init + [last];
      var k := RemoveOne(init, last, b);
      var front, back := b[..k], b[k + 1..];
      TallyOfPermutation(init, front + back);
      TallyOfSnoc(init, last);
      assert b == (front + [last]) + back;
      TallyOfAppend(front + [last], back);
      TallyOfSnoc(front, last);
      TallyOfAppend(front, back);
    }
  }

  /** Where `b` holds the element that `init + [last]` ends with, and what
      is left of `b` without it. */
  lemma RemoveOne(init: seq<DeckEntry>, last: DeckEntry, b: seq<DeckEntry>) returns (k: nat)
    requires multiset(init + [last]) == multiset(b)
    ensures k < |b| && b[k] == last
    ensures multiset(init) == multiset(b[..k] + b[k + 1..])
  {
    assert multiset(init + [last]) == multiset(init) + multiset{last};
    assert last in multiset(b);
    k :| 0 <= k < |b| && b[k] == last;
    var front, back := b[..k], b[k + 1..];
    assert b == front + [last] + back;
    assert multiset(b) == multiset(front) + multiset{last} + multiset(back);
    assert multiset(front + back) == multiset(front) + multiset(back);
    assert multiset(init) == multiset(init) + multiset{last} - multiset{last};
  }

  /** Decks without games contribute nothing: the fold over all decks equals
      the fold over the decks with games, and the decks without games fold to
      nothing. */
  lemma OnlyDecksWithGamesCount(entries: seq<DeckEntry>)
    ensures TallyOf(Select(entries, HasGames)) == TallyOf(entries)
    ensures TallyOf(Reject(entries, HasGames)) == NoTally
  {
    TallyPartition(entries, HasGames);
    RejectedWithoutGames(entries);
  }

  lemma {:induction false} RejectedWithoutGames(entries: seq<DeckEntry>)
    ensures TallyOf(Reject(entries, HasGames)) == NoTally
  {
    if entries != [] {
      var init, last := entries[..|entries| - 1], entries[|entries| - 1];
      RejectedWithoutGames(init);
      if HasGames(last) {
        assert Reject(entries, HasGames) == Reject(init, HasGames) + [];
        assert Reject(init, HasGames) + [] == Reject(init, HasGames);
      } else {
        assert Reject(entries, HasGames) == Reject(init, HasGames) + [last];
        TallyOfSnoc(Reject(init, HasGames), last);
      }
    }
  }

  /** The sums over the two sides of a partition add up to the sums over all
      decks. */
  lemma {:induction false} TallyPartition(entries: seq<DeckEntry>, p: DeckEntry -> bool)
    ensures Plus(TallyOf(Select(entries, p)), TallyOf(Reject(entries, p))) == TallyOf(entries)
  {
    if entries != [] {
      TallyPartition(entries[..|entries| - 1], p);
      TallyPartitionStep(entries, p);
    }
  }

  /** Adding the last deck to the side `p` sends it to keeps the sums
      adding up. */
  lemma TallyPartitionStep(entries: seq<DeckEntry>, p: DeckEntry -> bool)
    requires entries != []
    requires var init := entries[..|entries| - 1];
      Plus(TallyOf(Select(init, p)), TallyOf(Reject(init, p))) == TallyOf(init)
    ensures Plus(TallyOf(Select(entries, p)), TallyOf(Reject(entries, p))) == TallyOf(entries)
  {
    var init, last := entries[..|entries| - 1], entries[|entries| - 1];
    var sel, rej := Select(init, p), Reject(init, p);
    var sel2, rej2 := Select(entries, p), Reject(entries, p);
    var ts, tr, ti := TallyOf(sel), TallyOf(rej), TallyOf(init);
    var ts2, tr2, te := TallyOf(sel2), TallyOf(rej2), TallyOf(entries);
    assert te == TallyStep(ti, last);
    PlusStep(ts, tr, ti, last);
    if p(last) {
      assert sel2 == sel + [last];
      assert rej2 == rej by { assert rej + [] == rej; }
      TallyOfSnoc(sel, last);
      assert ts2 == TallyStep(ts, last);
    } else {
      assert sel2 == sel by { assert sel + [] == sel; }
      assert rej2 == rej + [last];
      TallyOfSnoc(rej, last);
      assert tr2 == TallyStep(tr, last);
    }
    assert Plus(ts2, tr2) == te;
  }

  /** A fold step on either side of a sum is a fold step on the sum. */
  lemma PlusStep(x: Tally, y: Tally, sum: Tally, e: DeckEntry)
    requires Plus(x, y) == sum
    ensures Plus(TallyStep(x, e), y) == TallyStep(sum, e)
    ensures Plus(x, TallyStep(y, e)) == TallyStep(sum, e)
  {
  }

  /** A share of a positive whole, as a percentage, lies in (0, 100]. */
  lemma PercentageBounds(part: int, whole: int)
    requires 1 <= part <= whole
    ensures 0.0 < (part as real / whole as real) * 100.0 <= 100.0
  {
    var k, n := part as real, whole as real;
    assert k / n <= 1.0 by {
      assert k / n * n == k;
    }
  }
}
