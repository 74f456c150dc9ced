/** `checkCardInMaindeck`: does a deck's maindeck hold a named card? */
module CardMatcher {
  import opened Wrappers
  import opened JsStrings

  /** The separator of split and double-faced card names ("Fire // Ice"). */
  const FaceSeparator: string := "//"

  /** The trimmed faces of a normalized card name. */
  function Faces(normalizedName: string): seq<string> {
    var parts := Split(normalizedName, FaceSeparator);
    seq(|parts|, i requires 0 <= i < |parts| => Trim(parts[i]))
  }

  /** One maindeck card answers to the normalized query: its normalized
      name equals the query, or the name contains `//` and one of its trimmed
      faces equals the query. */
  predicate NameMatches(apiName: string, normalizedQuery: string) {
    var n := Normalize(apiName);
    normalizedQuery == n || (Includes(n, FaceSeparator) && normalizedQuery in Faces(n))
  }

  /** The maindeck is present and one of its cards answers to the query. */
  predicate MaindeckHasCard(maindeck: Option<seq<string>>, cardName: string) {
    maindeck.Some? &&
    exists i :: 0 <= i < |maindeck.value| && NameMatches(maindeck.value[i], Normalize(cardName))
  }

  /** The matcher of lib/analysis.ts: a scan with an early return. */
  method CheckCardInMaindeck(maindeck: Option<seq<string>>, cardName: string) returns (found: bool)
    ensures found <==> MaindeckHasCard(maindeck, cardName)
    ensures maindeck == None || maindeck == Some([]) ==> !found
  {
    if maindeck.None? {
      return false;
    }
    var cards := maindeck.value;
    var normalizedCard := Normalize(cardName);
    var i := 0;
    while i < |cards|
      invariant 0 <= i <= |cards|
      invariant forall k :: 0 <= k < i ==> !NameMatches(cards[k], normalizedCard)
    {
      var apiCardName := Normalize(cards[i]);
      if normalizedCard == apiCardName {
        assert NameMatches(cards[i], normalizedCard);
        return true;
      }
      if Includes(apiCardName, FaceSeparator) && normalizedCard in Faces(apiCardName) {
        assert NameMatches(cards[i], normalizedCard);
        return true;
      }
      i := i + 1;
    }
    return false;
  }

  /** Matching is insensitive to the case and the surrounding whitespace of
      the query: normalizing the query first changes nothing. */
  lemma QueryNormalizationInvariant(maindeck: Option<seq<string>>, cardName: string)
    ensures MaindeckHasCard(maindeck, Normalize(cardName)) <==> MaindeckHasCard(maindeck, cardName)
  {
    NormalizeIdempotent(cardName);
  }

  /** The `//` guard never excludes a match: a card answers exactly when the
      query is its normalized name or one of its trimmed faces (a name with no
      `//` has itself as its only face). */
  lemma NameMatchesByFaces(apiName: string, normalizedQuery: string)
    ensures NameMatches(apiName, normalizedQuery) <==>
      (normalizedQuery == Normalize(apiName) || normalizedQuery in Faces(Normalize(apiName)))
  {
    var n := Normalize(apiName);
    if !Includes(n, FaceSeparator) {
      SplitWithoutSeparator(n, FaceSeparator);
      TrimIdempotent(ToLower(apiName));
      assert Faces(n) == [Trim(n)];
    }
  }
}
