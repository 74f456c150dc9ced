/** `analyzeSingleCard`: splits the decks by whether they hold one card,
    compares the two sides' win rates, and tests both comparisons. */
module SingleCard {
  import opened Wrappers
  import opened Types
  import opened JsStrings
  import opened CardMatcher
  import opened Metrics
  import opened Significance

  /** The decks whose maindeck answers to `cardName`. */
  function HoldsCard(cardName: string): DeckEntry -> bool {
    (e: DeckEntry) => MaindeckHasCard(Some(e.maindeck), cardName)
  }

  /** The two host names a kept decklist link must contain. */
  const MoxfieldHost: string := "moxfield.com"
  const TopdeckHost: string := "topdeck.gg"

  /** A decklist link that is present, not empty, and contains
      `moxfield.com` or `topdeck.gg` somewhere. */
  predicate IsKeptLink(url: Option<string>) {
    url.Some? && url.value != "" && (Includes(url.value, MoxfieldHost) || Includes(url.value, TopdeckHost))
  }

  /** The kept decklist links of `decks`, in deck order. */
  function DecklistLinks(decks: seq<DeckEntry>): seq<string> {
    if decks == [] then []
    else
      var last := decks[|decks| - 1];
      DecklistLinks(decks[..|decks| - 1]) + (if IsKeptLink(last.decklist) then [last.decklist.value] else [])
  }

  function NotFoundMessage(cardName: string): string {
    "The card '" + cardName + "' was not found in any submitted decks with the current filters."
  }

  /** What the analysis reports for `cardName` over `entries`. */
  function SingleCardOf(prims: Primitives, cardName: string, entries: seq<DeckEntry>): Result<SingleCardAnalysis, AnalysisError> {
    var withCard := Select(entries, HoldsCard(cardName));
    var withoutCard := Reject(entries, HoldsCard(cardName));
    if |withCard| == 0 then Failure(CardNotFoundInPool(NotFoundMessage(cardName)))
    else
      var mw, mo := MetricsOf(withCard), MetricsOf(withoutCard);
      Success(SingleCardAnalysis(
        |withCard|,
        if |entries| > 0 then (|withCard| as real / |entries| as real) * 100.0 else 0.0,
        mw,
        mo,
        (mw.winRateIgnoringDraws - mo.winRateIgnoringDraws) * 100.0,
        (mw.winRateOverall - mo.winRateOverall) * 100.0,
        DecklistLinks(withCard),
        ChiSquaredOf(prims, mw.wins, mw.losses + mw.draws, mo.wins, mo.losses + mo.draws),
        ChiSquaredOf(prims, mw.wins, mw.losses, mo.wins, mo.losses)))
  }

  /** The analysis of lib/analysis.ts: one pass pushing each deck onto one of
      two lists, then metrics, links and the two tests. */
  method AnalyzeSingleCard(prims: Primitives, cardName: string, entries: seq<DeckEntry>)
    returns (r: Result<SingleCardAnalysis, AnalysisError>)
    ensures r == SingleCardOf(prims, cardName, entries)
  {
    var decksWithCard, decksWithoutCard := PartitionByCard(cardName, entries);

    if |decksWithCard| == 0 {
      return Failure(CardNotFoundInPool(NotFoundMessage(cardName)));
    }

    var metricsWithCard := CalculatePerformanceMetrics(decksWithCard);
    var metricsWithoutCard := CalculatePerformanceMetrics(decksWithoutCard);
    var decklistLinks := DecklistLinks(decksWithCard);

    var chiSquaredOverall := RunChiSquaredTest(prims,
      metricsWithCard.wins, metricsWithCard.losses + metricsWithCard.draws,
      metricsWithoutCard.wins, metricsWithoutCard.losses + metricsWithoutCard.draws);
    var chiSquaredIgnoringDraws := RunChiSquaredTest(prims,
      metricsWithCard.wins, metricsWithCard.losses,
      metricsWithoutCard.wins, metricsWithoutCard.losses);

    r := Success(SingleCardAnalysis(
      |decksWithCard|,
      if |entries| > 0 then (|decksWithCard| as real / |entries| as real) * 100.0 else 0.0,
      metricsWithCard,
      metricsWithoutCard,
      (metricsWithCard.winRateIgnoringDraws - metricsWithoutCard.winRateIgnoringDraws) * 100.0,
      (metricsWithCard.winRateOverall - metricsWithoutCard.winRateOverall) * 100.0,
      decklistLinks,
      chiSquaredOverall,
      chiSquaredIgnoringDraws));
  }

  /** The pass of the analysis: each deck is pushed onto the with-card list
      or the without-card list, in deck order. */
  method PartitionByCard(cardName: string, entries: seq<DeckEntry>)
    returns (decksWithCard: seq<DeckEntry>, decksWithoutCard: seq<DeckEntry>)
    ensures decksWithCard == Select(entries, HoldsCard(cardName))
    ensures decksWithoutCard == Reject(entries, HoldsCard(cardName))
  {
    decksWithCard, decksWithoutCard := [], [];
    var i := 0;
    while i < |entries|
      invariant 0 <= i <= |entries|
      invariant decksWithCard == Select(entries[..i], HoldsCard(cardName))
      invariant decksWithoutCard == Reject(entries[..i], HoldsCard(cardName))
    {
      var entry := entries[i];
      assert entries[..i + 1][..i] == entries[..i];
      var found := CheckCardInMaindeck(Some(entry.maindeck), cardName);
      if found {
        decksWithCard := decksWithCard + [entry];
      } else {
        decksWithoutCard := decksWithoutCard + [entry];
      }
      i := i + 1;
    }
    assert entries[..i] == entries;
  }

  // ---- properties of the analysis ----

  /** The analysis fails exactly when no deck holds the card. */
  lemma FailsExactlyWhenCardAbsent(prims: Primitives, cardName: string, entries: seq<DeckEntry>)
    ensures SingleCardOf(prims, cardName, entries).Failure? <==>
      forall e :: e in entries ==> !MaindeckHasCard(Some(e.maindeck), cardName)
    ensures SingleCardOf(prims, cardName, entries).Failure? ==>
      SingleCardOf(prims, cardName, entries).error == CardNotFoundInPool(NotFoundMessage(cardName))
  {
    var withCard := Select(entries, HoldsCard(cardName));
    if |withCard| == 0 {
      forall e | e in entries ensures !MaindeckHasCard(Some(e.maindeck), cardName) {
        SelectMembers(entries, HoldsCard(cardName), e);
      }
    } else {
      SelectMembers(entries, HoldsCard(cardName), withCard[0]);
    }
  }

  /** On success the two sides split the decks: their sizes add up to the
      number of decks and the with-card count is the share reported, a
      percentage in (0, 100]. */
  lemma InclusionSplitsTheDecks(prims: Primitives, cardName: string, entries: seq<DeckEntry>)
    requires SingleCardOf(prims, cardName, entries).Success?
    ensures var a := SingleCardOf(prims, cardName, entries).value;
      && a.decksWithCardCount + |Reject(entries, HoldsCard(cardName))| == |entries|
      && 1 <= a.decksWithCardCount <= |entries|
      && a.inclusionPercentage == (a.decksWithCardCount as real / |entries| as real) * 100.0
      && 0.0 < a.inclusionPercentage <= 100.0
  {
    var p := HoldsCard(cardName);
    SelectRejectPartition(entries, p);
    var a := SingleCardOf(prims, cardName, entries).value;
    assert a.decksWithCardCount == |Select(entries, p)|;
    PercentageBounds(a.decksWithCardCount, |entries|);
  }

  /** On success the two sides' game counts add up to those of all decks:
      no game is lost or counted twice by the split. */
  lemma MetricsAddUp(prims: Primitives, cardName: string, entries: seq<DeckEntry>)
    requires SingleCardOf(prims, cardName, entries).Success?
    ensures var a := SingleCardOf(prims, cardName, entries).value;
      var all := MetricsOf(entries);
      && a.metricsWithCard.wins + a.metricsWithoutCard.wins == all.wins
      && a.metricsWithCard.losses + a.metricsWithoutCard.losses == all.losses
      && a.metricsWithCard.draws + a.metricsWithoutCard.draws == all.draws
      && a.metricsWithCard.deckCountWithGames + a.metricsWithoutCard.deckCountWithGames == all.deckCountWithGames
  {
    TallyPartition(entries, HoldsCard(cardName));
  }

  /** On success the differences are the with-card rate minus the
      without-card rate in percentage points, and with non-negative counts
      they lie in [-100, 100]. */
  lemma DifferencesInPoints(prims: Primitives, cardName: string, entries: seq<DeckEntry>)
    requires SingleCardOf(prims, cardName, entries).Success?
    requires NonNegative(entries)
    ensures var a := SingleCardOf(prims, cardName, entries).value;
      && a.winRateDiffOverall == (a.metricsWithCard.winRateOverall - a.metricsWithoutCard.winRateOverall) * 100.0
      && a.winRateDiffIgnoringDraws ==
           (a.metricsWithCard.winRateIgnoringDraws - a.metricsWithoutCard.winRateIgnoringDraws) * 100.0
      && -100.0 <= a.winRateDiffOverall <= 100.0
      && -100.0 <= a.winRateDiffIgnoringDraws <= 100.0
  {
    var p := HoldsCard(cardName);
    NonNegativeSides(entries, p);
    MetricsRates(Select(entries, p));
    MetricsRates(Reject(entries, p));
  }

  /** On success the overall test compares wins against losses plus draws,
      and the other test wins against losses, so their tables cover every
      counted game and every counted decisive game of the pool. */
  lemma TablesCoverThePool(prims: Primitives, cardName: string, entries: seq<DeckEntry>)
    requires SingleCardOf(prims, cardName, entries).Success?
    ensures var a := SingleCardOf(prims, cardName, entries).value;
      var w, o := a.metricsWithCard, a.metricsWithoutCard;
      var all := MetricsOf(entries);
      && a.chiSquaredOverall == ChiSquaredOf(prims, w.wins, w.losses + w.draws, o.wins, o.losses + o.draws)
      && a.chiSquaredIgnoringDraws == ChiSquaredOf(prims, w.wins, w.losses, o.wins, o.losses)
      && w.wins + (w.losses + w.draws) + o.wins + (o.losses + o.draws) == all.totalGames
      && w.wins + w.losses + o.wins + o.losses == all.wins + all.losses
  {
    MetricsAddUp(prims, cardName, entries);
  }

  /** A link is kept exactly when it belongs to a deck on the list, is not
      empty and contains `moxfield.com` or `topdeck.gg`; there are no more
      links than decks. */
  lemma {:induction false} DecklistLinksKept(decks: seq<DeckEntry>, url: string)
    ensures |DecklistLinks(decks)| <= |decks|
    ensures url in DecklistLinks(decks) <==>
      exists e :: e in decks && e.decklist == Some(url) && IsKeptLink(e.decklist)
  {
    if decks != [] {
      var init, last := decks[..|decks| - 1], decks[|decks| - 1];
      DecklistLinksKept(init, url);
      assert decks == init + [last];
      if url in DecklistLinks(decks) && url !in DecklistLinks(init) {
        assert last.decklist == Some(url);
      }
    }
  }

  /** On success the links are exactly the non-empty links containing
      `moxfield.com` or `topdeck.gg` of the decks holding the card. */
  lemma LinksComeFromDecksWithCard(prims: Primitives, cardName: string, entries: seq<DeckEntry>, url: string)
    requires SingleCardOf(prims, cardName, entries).Success?
    ensures var links := SingleCardOf(prims, cardName, entries).value.decklistLinksWithCard;
      url in links <==>
        (exists e :: e in entries && MaindeckHasCard(Some(e.maindeck), cardName) && e.decklist == Some(url)) &&
        url != "" && (Includes(url, MoxfieldHost) || Includes(url, TopdeckHost))
  {
    var p := HoldsCard(cardName);
    var withCard := Select(entries, p);
    DecklistLinksKept(withCard, url);
    forall e ensures e in withCard <==> e in entries && MaindeckHasCard(Some(e.maindeck), cardName) {
      SelectMembers(entries, p, e);
    }
  }
}
