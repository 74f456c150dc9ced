/** The records the analysis engine consumes and produces (types.ts). */
module Types {
  import opened Wrappers

  /** One submitted deck's results. `maindeck` holds the names of the
      maindeck cards in list order (duplicates possible); the card preview
      image and the commander cards are not used by the engine. */
  datatype DeckEntry = DeckEntry(
    id: string,
    wins: int,
    losses: int,
    draws: int,
    decklist: Option<string>,
    maindeck: seq<string>)

  datatype PerformanceMetrics = PerformanceMetrics(
    wins: int,
    losses: int,
    draws: int,
    totalGames: int,
    deckCountWithGames: int,
    winRateIgnoringDraws: real,
    winRateOverall: real)

  /** `pValue == None` stands for JavaScript `null`, `warning == None` for
      an absent warning. */
  datatype ChiSquaredResult = ChiSquaredResult(
    pValue: Option<real>,
    isStatisticallySignificant: bool,
    text: string,
    warning: Option<string>)

  datatype CardStat = CardStat(
    cardName: string,
    inclusionCount: int,
    inclusionPercentage: real,
    wins: int,
    losses: int,
    draws: int,
    decksWithGames: int,
    totalGamesWithCard: int,
    winRateIgnoringDraws: real,
    winRateOverall: real,
    statSig: ChiSquaredResult)

  datatype SingleCardAnalysis = SingleCardAnalysis(
    decksWithCardCount: int,
    inclusionPercentage: real,
    metricsWithCard: PerformanceMetrics,
    metricsWithoutCard: PerformanceMetrics,
    winRateDiffIgnoringDraws: real,
    winRateDiffOverall: real,
    decklistLinksWithCard: seq<string>,
    chiSquaredOverall: ChiSquaredResult,
    chiSquaredIgnoringDraws: ChiSquaredResult)

  datatype CommanderAnalysis = CommanderAnalysis(
    cardStats: seq<CardStat>,
    overallMetrics: PerformanceMetrics)

  /** The error `analyzeSingleCard` throws. */
  datatype AnalysisError = CardNotFoundInPool(message: string)

  /** The numeric library routines the engine calls but does not define:
      `jStat.chisquare.cdf(x, degreesOfFreedom)` and
      `Number.prototype.toFixed(digits)`. */
  datatype Primitives = Primitives(
    chiSquareCdf: (real, nat) -> real,
    toFixed: (real, nat) -> string)

  /** Every deck has non-negative win, loss and draw counts, as the
      tournament data source supplies them. */
  predicate NonNegative(entries: seq<DeckEntry>) {
    forall i :: 0 <= i < |entries| ==>
      entries[i].wins >= 0 && entries[i].losses >= 0 && entries[i].draws >= 0
  }

  /** The decks of `entries` that satisfy `p`, in order. */
  function Select(entries: seq<DeckEntry>, p: DeckEntry -> bool): (r: seq<DeckEntry>)
    ensures |r| <= |entries|
  {
    if entries == [] then []
    else
      var last := entries[|entries| - 1];
      Select(entries[..|entries| - 1], p) + (if p(last) then [last] else [])
  }

  /** The decks of `entries` that do not satisfy `p`, in order. */
  function Reject(entries: seq<DeckEntry>, p: DeckEntry -> bool): (r: seq<DeckEntry>)
    ensures |r| <= |entries|
  {
    if entries == [] then []
    else
      var last := entries[|entries| - 1];
      Reject(entries[..|entries| - 1], p) + (if p(last) then [] else [last])
  }

  /** Selecting and rejecting split the decks: every deck goes to exactly one
      side, so the two sides together are a permutation of the input. */
  lemma {:induction false} SelectRejectPartition(entries: seq<DeckEntry>, p: DeckEntry -> bool)
    ensures |Select(entries, p)| + |Reject(entries, p)| == |entries|
    ensures multiset(Select(entries, p)) + multiset(Reject(entries, p)) == multiset(entries)
  {
    if entries != [] {
      var init, last := entries[..|entries| - 1], entries[|entries| - 1];
      SelectRejectPartition(init, p);
      assert entries == init + [last];
      assert multiset(entries) == multiset(init) + multiset{last};
      if p(last) {
        assert Select(entries, p) == Select(init, p) + [last];
        assert Reject(entries, p) == Reject(init, p);
      } else {
        assert Select(entries, p) == Select(init, p);
        assert Reject(entries, p) == Reject(init, p) + [last];
      }
    }
  }

  /** A deck is on the selected side exactly when it is one of the decks and
      satisfies `p`. */
  lemma {:induction false} SelectMembers(entries: seq<DeckEntry>, p: DeckEntry -> bool, e: DeckEntry)
    ensures e in Select(entries, p) <==> e in entries && p(e)
  {
    if entries != [] {
      var init, last := entries[..|entries| - 1], entries[|entries| - 1];
      SelectMembers(init, p, e);
      assert entries == init + [last];
    }
  }

  /** A deck is on the rejected side exactly when it is one of the
      decks and does not satisfy `p`. */
  lemma {:induction false} RejectMembers(entries: seq<DeckEntry>, p: DeckEntry -> bool, e: DeckEntry)
    ensures e in Reject(entries, p) <==> e in entries && !p(e)
  {
    if entries != [] {
      var init, last := entries[..|entries| - 1], entries[|entries| - 1];
      RejectMembers(init, p, e);
      assert entries == init + [last];
    }
  }

  /** Both sides of a split keep the counts non-negative. */
  lemma NonNegativeSides(entries: seq<DeckEntry>, p: DeckEntry -> bool)
    requires NonNegative(entries)
    ensures NonNegative(Select(entries, p)) && NonNegative(Reject(entries, p))
  {
    var sel, rej := Select(entries, p), Reject(entries, p);
    forall i | 0 <= i < |sel| ensures sel[i].wins >= 0 && sel[i].losses >= 0 && sel[i].draws >= 0 {
      SelectMembers(entries, p, sel[i]);
    }
    forall i | 0 <= i < |rej| ensures rej[i].wins >= 0 && rej[i].losses >= 0 && rej[i].draws >= 0 {
      RejectMembers(entries, p, rej[i]);
    }
  }
}
