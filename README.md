# Deck-performance analysis engine, in Dafny

This project models the analysis engine of a cEDH metagame tool. The engine
takes tournament decks (each with its win, loss and draw counts, an optional
decklist link and its maindeck card names) and answers two questions:

- **Single card**: how do the decks that play a given card perform against
  the decks that do not?
- **Commander**: for every card that appears in at least a chosen share of a
  commander's decks, how do its decks perform against the rest of the pool?

Both answers rest on three routines:

- a card-name matcher that ignores case and surrounding whitespace and
  understands split and double-faced names ("Fire // Ice");
- a fold that totals the results of the decks that played at least one game;
- a 2x2 chi-squared test of independence with Yates' continuity correction.

The HTML report adds a small decision layer, also modelled here:

- escaping of text;
- the "significant?" and "trend" pills;
- the interpretation card;
- the display name of the selected time period.

Modules:

- `Types`: the records (`DeckEntry`, `PerformanceMetrics`,
  `ChiSquaredResult`, `CardStat`, the two analysis results), and `Select` and
  `Reject`, which split a list of decks by a predicate.
- `JsStrings`: the JavaScript string built-ins the engine relies on
  (`toLowerCase`, `trim`, `indexOf`/`includes`, `split`).
- `CardMatcher`: `checkCardInMaindeck`.
- `Metrics`: `calculatePerformanceMetrics`.
- `Significance`: `runChiSquaredTest`.
- `SingleCard`: `analyzeSingleCard`.
- `Commander`: `analyzeCommander`.
- `Report`: `htmlEscape`, the pills, the interpretation card and the
  time-period lookup.

Each loop of the source is a method. Each method is proved equal to a
specification function, and the properties are lemmas about those
functions. Two numeric library routines are parameters of every member that
uses them, bundled in a `Primitives` value:

- the chi-square distribution function (`jStat.chisquare.cdf`);
- `Number.prototype.toFixed`.

No axiom is assumed about either. The one lemma that needs the distribution
function to be 0 at 0 (`IdenticalGroupsNotSignificant`) takes that as a
precondition.

## Model

| member | source | states |
|---|---|---|
| `CardMatcher.CheckCardInMaindeck` | lib/analysis.ts:4-15 | true exactly when some maindeck name, lower-cased and trimmed, equals the lower-cased and trimmed query, or contains `//` and has a trimmed `//`-part equal to it; a missing or empty maindeck gives false. The string built-ins it relies on are modelled by `JsStrings.ToLower`, `JsStrings.Trim`, `JsStrings.Split` and `JsStrings.Normalize` (lower-case then trim), whose properties are the `JsStrings` rows |
| `CardMatcher.QueryNormalizationInvariant` | lib/analysis.ts:6 | lower-casing and trimming the query beforehand never changes the answer |
| `CardMatcher.NameMatchesByFaces` | lib/analysis.ts:9-10 | the `includes('//')` guard excludes no match: a card answers exactly when the query is its name or one of its trimmed faces |
| `JsStrings.ToLowerChar` | lib/analysis.ts:6 | the lower-cased character is not upper-case, is the letter 32 code points on for an upper-case letter and the character itself otherwise, and is whitespace exactly when the input is |
| `JsStrings.IndexOf` | lib/analysis.ts:10 | the result is the first index where the needle occurs, and none means it occurs nowhere |
| `JsStrings.JoinSplit` | lib/analysis.ts:10 | joining the parts of `split(sep)` with `sep` gives back the string |
| `JsStrings.SplitPartsExcludeSeparator` | lib/analysis.ts:10 | no part of a split contains the separator |
| `JsStrings.SplitWithoutSeparator` | lib/analysis.ts:10 | a string without the separator splits into itself alone |
| `JsStrings.TrimStartShape` | lib/analysis.ts:8 | trimming the start removes only a whitespace prefix, and what is kept does not start with whitespace |
| `JsStrings.TrimEndShape` | lib/analysis.ts:8 | trimming the end removes only a whitespace suffix, and what is kept does not end with whitespace |
| `JsStrings.TrimStartEndCommute` | lib/analysis.ts:8 | trimming the start and trimming the end commute |
| `JsStrings.TrimIdempotent` | lib/analysis.ts:8 | `trim` is idempotent |
| `JsStrings.LowerTrimStartCommute` | lib/analysis.ts:6 | lower-casing commutes with trimming the start |
| `JsStrings.LowerTrimEndCommute` | lib/analysis.ts:6 | lower-casing commutes with trimming the end |
| `JsStrings.NormalizeIdempotent` | lib/analysis.ts:6 | `toLowerCase().trim()` applied twice is applied once |
| `Metrics.CalculatePerformanceMetrics` | lib/analysis.ts:17-37 | the loop's result is the fold `MetricsOf` over all decks |
| `Metrics.MetricsOf` | lib/analysis.ts:32-36 | total games are wins plus losses plus draws, and the count of decks with games lies between 0 and the number of decks |
| `Metrics.Ratio` | lib/analysis.ts:33-34 | a zero denominator gives 0; otherwise the ratio times the denominator is the numerator; a part of a whole lies in [0, 1] |
| `Metrics.TallyDecksBound` | lib/analysis.ts:23-30 | the decks counted are at most the decks given |
| `Metrics.TallyNonNegative` | lib/analysis.ts:23-30 | with non-negative counts the sums are non-negative, and there are games exactly when some deck was counted |
| `Metrics.MetricsRates` | lib/analysis.ts:32-34 | with non-negative counts both rates lie in [0, 1], are W/(W+L) and W/(W+L+D) when those are positive, and are 0 when they are zero |
| `Metrics.OnlyDecksWithGamesCount` | lib/analysis.ts:24 | the decks without games change nothing: the fold over all decks equals the fold over the decks with games |
| `Metrics.TallyPartition` | lib/analysis.ts:23-30 | the sums over the two sides of any split add up to the sums over all decks |
| `Metrics.TallyOfAppend` | lib/analysis.ts:23-30 | the fold over a concatenation is the sum of the folds |
| `Metrics.TallyOfPermutation` | lib/analysis.ts:23-30 | the fold does not depend on the order of the decks |
| `Metrics.PercentageBounds` | lib/analysis.ts:123 | a share of one to all of a positive whole, as a percentage, lies in (0, 100] |
| `Types.SelectRejectPartition` | lib/analysis.ts:86-92 | the with and without sides together have every deck once: their sizes add up and their multisets add up to the input |
| `Types.SelectMembers` | lib/analysis.ts:86-92 | a deck is on the with side exactly when it is one of the decks and satisfies the test |
| `Types.RejectMembers` | lib/analysis.ts:86-92 | a deck is on the without side exactly when it is one of the decks and fails the test |
| `Types.NonNegativeSides` | lib/analysis.ts:86-92 | both sides of a split keep the counts non-negative |
| `Significance.RunChiSquaredTest` | lib/analysis.ts:39-80 | the method's result is `ChiSquaredOf`, the test stated as a function |
| `Significance.SumCorrectedContributions` | lib/analysis.ts:61-68 | the nested loop sums the corrected contributions of all four cells in row-major order |
| `Significance.PartialStatisticComplete` | lib/analysis.ts:61-68 | summing the four cells in loop order gives the statistic |
| `Significance.NullExactlyWhenDegenerate` | lib/analysis.ts:44-52 | the p-value is null exactly when the total or a margin is zero; then the result is not significant, has no warning, and reads "N/A (insufficient data)" |
| `Significance.PValueIsUpperTail` | lib/analysis.ts:71-76 | otherwise the p-value is 1 - cdf(statistic, 1), and the result is significant exactly when it is below 0.05 |
| `Significance.WarningExactlyWhenLowExpected` | lib/analysis.ts:59 | without a zero margin the warning is set exactly when some expected count is below 5 |
| `Significance.ExpectedKeepsMargins` | lib/analysis.ts:54-57 | each expected cell is row total times column total over the total, so rows, columns and all four cells sum to the observed margins and total |
| `Significance.ExpectedPositive` | lib/analysis.ts:54-57 | with non-negative counts and no zero margin every expected cell is positive |
| `Significance.ContributionNonNegative` | lib/analysis.ts:65-66 | a cell with a positive expected count contributes a non-negative amount |
| `Significance.ContributionZeroWhenClose` | lib/analysis.ts:65-66 | a cell within 0.5 of its expected count contributes nothing |
| `Significance.StatisticNonNegative` | lib/analysis.ts:61-68 | with non-negative counts the statistic is non-negative |
| `Significance.StatisticZeroWhenClose` | lib/analysis.ts:61-68 | the statistic is 0 when every observed count lies within 0.5 of its expected count |
| `Significance.IdenticalGroupsStatisticZero` | lib/analysis.ts:54-68 | two groups with equal counts give statistic 0, whatever the distribution function |
| `Significance.IdenticalGroupsNotSignificant` | lib/analysis.ts:54-76 | where cdf(0) = 0, two groups with equal counts give p-value 1 and no significance |
| `Significance.GroupOrderIrrelevant` | lib/analysis.ts:39-80 | swapping the two groups gives the same result |
| `SingleCard.AnalyzeSingleCard` | lib/analysis.ts:82-132 | the method's result is `SingleCardOf`, the analysis stated as a function |
| `SingleCard.PartitionByCard` | lib/analysis.ts:86-92 | the loop pushes exactly the decks that match onto the with list and the others onto the without list, in deck order |
| `SingleCard.FailsExactlyWhenCardAbsent` | lib/analysis.ts:94-96 | the analysis fails, with the "was not found" message, exactly when no deck matches the card |
| `SingleCard.InclusionSplitsTheDecks` | lib/analysis.ts:122-123 | on success the with and without counts add up to the number of decks, and the inclusion percentage is count / decks * 100, in (0, 100] |
| `SingleCard.MetricsAddUp` | lib/analysis.ts:98-99 | the two sides' wins, losses, draws and decks with games add up to those of all decks |
| `SingleCard.DifferencesInPoints` | lib/analysis.ts:126-127 | both differences are (with - without) * 100 and, with non-negative counts, lie in [-100, 100] |
| `SingleCard.TablesCoverThePool` | lib/analysis.ts:105-119 | the overall test compares W with L+D and the other W with L, and their tables add up to all games and all decisive games |
| `SingleCard.DecklistLinksKept` | lib/analysis.ts:101-103 | a link is kept exactly when some deck has it, it is not empty and it contains `moxfield.com` or `topdeck.gg` anywhere; there are no more links than decks |
| `SingleCard.LinksComeFromDecksWithCard` | lib/analysis.ts:101-103 | the reported links are exactly the kept links of the decks that hold the card |
| `Commander.AnalyzeCommander` | lib/analysis.ts:135-192 | the method's result is `CommanderOf`, the analysis stated as a function |
| `Commander.AggregateCards` | lib/analysis.ts:143-160 | after the aggregation loop the table holds, for every name some deck lists, the sums over the decks that list it, and the keys are in insertion order |
| `Commander.AggregateDeck` | lib/analysis.ts:144-159 | one deck's distinct names each get the deck added to their entry, and new names are appended to the keys |
| `Commander.AddCard` | lib/analysis.ts:148-158 | a name's entry is created empty if missing, then gets the deck added; a new name is appended to the keys |
| `Commander.AddDeck` | lib/analysis.ts:151-158 | an entry gains the deck's results and one inclusion, and one deck with games and its games when it has any |
| `Commander.EmitCardStats` | lib/analysis.ts:162-189 | the emission loop yields, in key order, the statistic of exactly the names whose inclusion percentage reaches the threshold |
| `Commander.BuildCardStat` | lib/analysis.ts:168-188 | one card's statistic: its sums, its rates on a 0-100 scale, and the test of its decks against the rest of the pool |
| `Commander.DistinctNames` | lib/analysis.ts:144 | `new Set(names)` keeps exactly the names of the list, each once |
| `Commander.KeyOrderNames` | lib/analysis.ts:143-160 | the keys are every name some deck lists, each once |
| `Commander.CardTallyCounts` | lib/analysis.ts:151 | folding a card's decks counts each deck as exactly one inclusion, however often it lists the card, and its decks with games are at most its inclusions |
| `Commander.CardTallyAgrees` | lib/analysis.ts:152-158 | with non-negative counts a card's wins, losses, draws and decks with games are those of the metrics fold over its decks, and its total games are W+L+D |
| `Commander.ListedMeansSelected` | lib/analysis.ts:143-148 | a name is in the table exactly when some deck lists it |
| `Commander.CardComplement` | lib/analysis.ts:171-172 | overall minus card is exactly the sums of the decks without the card, hence non-negative, and card plus complement is the overall total |
| `Commander.CardStatCounts` | lib/analysis.ts:176-184 | a listed card's inclusion count lies between 1 and the number of decks, its percentage in (0, 100], its decks with games at most its inclusions, and its total games are W+L+D |
| `Commander.CardStatRates` | lib/analysis.ts:185-186 | both per-card rates lie in [0, 100], and are 0 on a zero denominator |
| `Commander.CardStatTest` | lib/analysis.ts:168-174 | a card's test compares W against L+D of the decks with the card and of the decks without it |
| `Commander.EmittedExactlyRetained` | lib/analysis.ts:163-166 | every emitted statistic is that of a retained name, and a name is retained exactly when its statistic is emitted |
| `Commander.EmittedDistinct` | lib/analysis.ts:163-188 | distinct keys give statistics with distinct card names |
| `Commander.CommanderReport` | lib/analysis.ts:135-192 | the analysis reports the overall metrics and, once each, the statistic of exactly the listed cards whose share reaches the threshold |
| `Commander.ThresholdOnlyFilters` | lib/analysis.ts:166 | raising the threshold only drops statistics |
| `Commander.ZeroThresholdKeepsAll` | lib/analysis.ts:165-166 | a threshold of 0 or less keeps every listed card |
| `Report.HtmlEscape` | lib/generateHtmlReport.ts:4-11 | the result is each character escaped on its own (`&` goes first, so no inserted entity is escaped again; the empty string stays empty), and it holds no `<`, `>` or `"` |
| `Report.ReplaceChainIsPerCharacter` | lib/generateHtmlReport.ts:6-10 | the chain of four global replacements equals escaping character by character |
| `Report.ReplaceChainChar` | lib/generateHtmlReport.ts:7-10 | on one character the chain gives `&amp;`, `&lt;`, `&gt;`, `&#039;` for `&`, `<`, `>`, `"`, and the character itself otherwise |
| `Report.ReplaceAllAppend` | lib/generateHtmlReport.ts:7-10 | a global replace distributes over concatenation |
| `Report.EscapedHasNoMarkup` | lib/generateHtmlReport.ts:7-10 | escaped text holds no `<`, `>` or `"` |
| `Report.EscapedPlainText` | lib/generateHtmlReport.ts:6-10 | text with none of the four characters is unchanged |
| `Report.DecodeEscaped` | lib/generateHtmlReport.ts:4-11 | decoding the four entities gives back the input, except that `"` comes back as an apostrophe |
| `Report.SignificancePill` | lib/generateHtmlReport.ts:144-160 | "No Data" in gray exactly without a p-value, "Yes" in green exactly when significant, "No" in yellow otherwise; the tooltip is the escaped result text (or "No data for test"), followed by the warning in parentheses exactly when there is one |
| `Report.PillHtml` | lib/generateHtmlReport.ts:159 | the markup opens with `<div class="pill ` and the pill's class, and closes with its label and `</div>` |
| `Report.SignificancePillHtml` | lib/generateHtmlReport.ts:144-160 | the markup is a gray "No Data" pill without a p-value, a green "Yes" pill when significant, and a yellow "No" pill otherwise |
| `Report.PillOfTest` | lib/generateHtmlReport.ts:144-158 | on a computed test the pill says "No Data" exactly for a zero margin, and "Yes" exactly when 1 - cdf(statistic, 1) < 0.05 |
| `Report.InsufficientDataIsPlain` | lib/generateHtmlReport.ts:147 | escaping "N/A (insufficient data)" leaves it unchanged |
| `Report.PillTitleOfDegenerateTest` | lib/generateHtmlReport.ts:147-148 | with a zero margin the tooltip is "N/A (insufficient data)" |
| `Report.TrendPill` | lib/generateHtmlReport.ts:163-176 | "Higher" in green exactly above 0.5, "Lower" in red exactly below -0.5, "Similar" in gray otherwise; the tooltip is the difference to two decimals |
| `Report.TrendPillHtml` | lib/generateHtmlReport.ts:163-176 | the markup is a green "▲ Higher" pill above 0.5, a red "▼ Lower" pill below -0.5, and a gray "⬌ Similar" pill otherwise |
| `Report.InterpretationOf` | lib/generateHtmlReport.ts:178-218 | the tone is positive exactly above 0.01, negative exactly below -0.01, neutral otherwise; without a p-value the card reads "Insufficient data…" whatever the difference and repeats the result text; with one the sentence says higher, lower or no notable difference by the same thresholds, and the line is green "significant" exactly when significant and carries ", low E.F." exactly with a warning |
| `Report.InterpretationHtml` | lib/generateHtmlReport.ts:224-226 | the card's three text fields are `HtmlEscape` of the title, the main sentence and the significance line of `InterpretationOf` (built by the `CardFields` helper), so none of them holds a markup character |
| `Report.FindKey` | lib/generateHtmlReport.ts:477 | a key found has the value sought; none found means no key has it |
| `Report.FindKeyFirst` | lib/generateHtmlReport.ts:477 | the first key in declaration order with the value is the one found |
| `Report.TimePeriodDisplayName` | lib/generateHtmlReport.ts:477 | a value some option has is shown as the display name of the first such option; any other value is shown as it is |
| `Report.TimePeriodOptionsDistinct` | constants.ts:5-12 | no two options share a display name or an API value |
| `Report.TimePeriodRoundTrip` | constants.ts:5-12 | every API value is shown as its own display name, and looking that name up in the same table gives the value back |
| `Report.TimePeriodInverse` | lib/generateHtmlReport.ts:477 | the display-name lookup inverts the option map |

## Left out

- The chi-square distribution function and `toFixed` are parameters (`Primitives`). Nothing is assumed about them. Properties that depend on their values are stated in terms of them.
- Numbers are modelled as mathematical integers and reals, not IEEE doubles. Rounding in the rates and the expected counts, NaN and infinities are not modelled.
- JsStrings.ToLowerChar: lower-cases only the upper-case letters of Basic Latin and Latin-1. JavaScript's `toLowerCase` covers all of Unicode. The comparison with the card name is otherwise modelled as written.
- Commander.AggregateCards: the table is a map plus a list of keys in insertion order. A JavaScript object enumerates integer-like keys first, in numeric order, so a card whose name is a number would be reported earlier than modelled.
- Commander.AddCard: in the source, names inherited from `Object.prototype` (for example "constructor") already look present in the table. The model treats every name as absent until it is added.
- A deck entry's maindeck is a list of card names. The card objects' other field, the preview image URL, is not used by the engine.
- `analyzeCommander` reads `entry.maindeck.map` without a guard. The model always has a maindeck list; an absent one is modelled only for the matcher, where the source checks for it.
- `htmlEscape` of `null` or `undefined` is not modelled: only strings are passed to it. The falsy empty string is modelled.
- The HTML around the decisions is not modelled beyond the pills: the interpretation card's markup, styles, SVG icons, and the image and chart sections. The interpretation card's style and icon are reduced to `Tone`.
- Report.PillHtml: builds the whole pill markup, but its contract states only the opening class attribute and the closing label. The title attribute in between is stated about the `Pill` value (`SignificancePill`, `TrendPill`), not about the markup.
- The in-place sort of `cardStats` before the commander report is rendered (lib/generateHtmlReport.ts:422) is not modelled. The UI's sorting and top-N filtering are not modelled either.
- The data services are not modelled: the GraphQL and Scryfall clients, the HTTP server, SQLite logging, the local cache and the React UI.
