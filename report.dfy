/** The decision logic of the HTML report: escaping, the significance and
    trend pills, the interpretation card, and the display name of a time
    period. */
module Report {
  import opened Wrappers
  import opened Types
  import opened Significance

  // ---- htmlEscape ----

  /** `s.replace(/c/g, r)`: every occurrence of the character `c` replaced by
      `r`, read from the first character on. */
  function ReplaceAll(s: string, c: char, r: string): string {
    if s == [] then []
    else (if s[0] == c then r else [s[0]]) + ReplaceAll(s[1..], c, r)
  }

  /** The four replacements, `&` first. */
  function ReplaceChain(s: string): string {
    ReplaceAll(ReplaceAll(ReplaceAll(ReplaceAll(s, '&', "&amp;"), '<', "&lt;"), '>', "&gt;"), '"', "&#039;")
  }

  /** `htmlEscape`: the empty string stays empty, any other string goes
      through the replacement chain. Because `&` is replaced first, no entity
      is escaped twice: the result is each character escaped on its own, and
      it holds no markup character. */
  function HtmlEscape(s: string): (r: string)
    ensures r == Escaped(s)
    ensures NoMarkup(r)
  {
    ReplaceChainIsPerCharacter(s);
    EscapedHasNoMarkup(s);
    if s == "" then "" else ReplaceChain(s)
  }

  /** What one character becomes: the three markup characters their
      entities, the double quote the apostrophe's entity, every other
      character itself. */
  function EscapeChar(c: char): string {
    match c
    case '&' => "&amp;"
    case '<' => "&lt;"
    case '>' => "&gt;"
    case '"' => "&#039;"
    case _ => [c]
  }

  /** The character-by-character reference: each character escaped on its
      own. */
  function Escaped(s: string): string {
    if s == [] then [] else EscapeChar(s[0]) + Escaped(s[1..])
  }

  /** Replacing distributes over concatenation. */
  lemma {:induction false} ReplaceAllAppend(a: string, b: string, c: char, r: string)
    ensures ReplaceAll(a + b, c, r) == ReplaceAll(a, c, r) + ReplaceAll(b, c, r)
  {
    if a != [] {
      assert (a + b)[0] == a[0] && (a + b)[1..] == a[1..] + b;
      ReplaceAllAppend(a[1..], b, c, r);
    } else {
      assert a + b == b;
    }
  }

  /** A string without `c` is left alone. */
  lemma {:induction false} ReplaceAllAbsent(s: string, c: char, r: string)
    requires c !in s
    ensures ReplaceAll(s, c, r) == s
  {
    if s != [] {
      ReplaceAllAbsent(s[1..], c, r);
    }
  }

  /** The chain distributes over concatenation. */
  lemma ReplaceChainAppend(a: string, b: string)
    ensures ReplaceChain(a + b) == ReplaceChain(a) + ReplaceChain(b)
  {
    var a1, b1 := ReplaceAll(a, '&', "&amp;"), ReplaceAll(b, '&', "&amp;");
    ReplaceAllAppend(a, b, '&', "&amp;");
    var a2, b2 := ReplaceAll(a1, '<', "&lt;"), ReplaceAll(b1, '<', "&lt;");
    ReplaceAllAppend(a1, b1, '<', "&lt;");
    var a3, b3 := ReplaceAll(a2, '>', "&gt;"), ReplaceAll(b2, '>', "&gt;");
    ReplaceAllAppend(a2, b2, '>', "&gt;");
    ReplaceAllAppend(a3, b3, '"', "&#039;");
  }

  /** The chain on one character is that character's escape: an entity
      inserted by one step holds no character a later step replaces. */
  lemma ReplaceChainChar(c: char)
    ensures ReplaceChain([c]) == EscapeChar(c)
  {
    if c == '&' {
      ReplaceChainOfAmpersand();
    } else if c == '<' {
      ReplaceChainOfLessThan();
    } else if c == '>' {
      ReplaceChainOfGreaterThan();
    } else if c == '"' {
      ReplaceChainOfQuote();
    } else {
      ReplaceAllOne(c, '&', "&amp;");
      ReplaceAllOne(c, '<', "&lt;");
      ReplaceAllOne(c, '>', "&gt;");
      ReplaceAllOne(c, '"', "&#039;");
    }
  }

  lemma ReplaceChainOfAmpersand()
    ensures ReplaceChain("&") == "&amp;"
  {
    ReplaceAllOne('&', '&', "&amp;");
    LaterReplacementsAbsent("&amp;");
  }

  /** Text without `<`, `>` and `"` goes through the last three
      replacements unchanged. */
  lemma LaterReplacementsAbsent(e: string)
    requires '<' !in e && '>' !in e && '"' !in e
    ensures ReplaceAll(ReplaceAll(ReplaceAll(e, '<', "&lt;"), '>', "&gt;"), '"', "&#039;") == e
  {
    ReplaceAllAbsent(e, '<', "&lt;");
    ReplaceAllAbsent(e, '>', "&gt;");
    ReplaceAllAbsent(e, '"', "&#039;");
  }

  lemma ReplaceChainOfLessThan()
    ensures ReplaceChain("<") == "&lt;"
  {
    ReplaceAllOne('<', '&', "&amp;");
    ReplaceAllOne('<', '<', "&lt;");
    ReplaceAllAbsent("&lt;", '>', "&gt;");
    ReplaceAllAbsent("&lt;", '"', "&#039;");
  }

  lemma ReplaceChainOfGreaterThan()
    ensures ReplaceChain(">") == "&gt;"
  {
    ReplaceAllOne('>', '&', "&amp;");
    ReplaceAllOne('>', '<', "&lt;");
    ReplaceAllOne('>', '>', "&gt;");
    ReplaceAllAbsent("&gt;", '"', "&#039;");
  }

  lemma ReplaceChainOfQuote()
    ensures ReplaceChain("\"") == "&#039;"
  {
    ReplaceAllOne('"', '&', "&amp;");
    ReplaceAllOne('"', '<', "&lt;");
    ReplaceAllOne('"', '>', "&gt;");
    ReplaceAllOne('"', '"', "&#039;");
  }

  lemma ReplaceAllOne(c: char, x: char, r: string)
    ensures ReplaceAll([c], x, r) == if c == x then r else [c]
  {
    assert [c][1..] == [];
  }

  /** The replacement chain escapes each character on its own. */
  lemma {:induction false} ReplaceChainIsPerCharacter(s: string)
    ensures ReplaceChain(s) == Escaped(s)
  {
    if s != [] {
      assert s == [s[0]] + s[1..];
      ReplaceChainAppend([s[0]], s[1..]);
      ReplaceChainChar(s[0]);
      ReplaceChainIsPerCharacter(s[1..]);
    }
  }

  /** Text holding no `<`, `>` or `"`: it cannot open or close a tag or
      end an attribute value. */
  predicate NoMarkup(s: string) {
    forall i :: 0 <= i < |s| ==> s[i] != '<' && s[i] != '>' && s[i] != '"'
  }

  /** The escaped text holds no markup character. */
  lemma {:induction false} EscapedHasNoMarkup(s: string)
    ensures NoMarkup(Escaped(s))
  {
    if s != [] {
      EscapedHasNoMarkup(s[1..]);
      var e, rest := EscapeChar(s[0]), Escaped(s[1..]);
      assert Escaped(s) == e + rest;
      forall i | 0 <= i < |e + rest| ensures (e + rest)[i] != '<' && (e + rest)[i] != '>' && (e + rest)[i] != '"' {
        if i >= |e| {
          assert (e + rest)[i] == rest[i - |e|];
        }
      }
    }
  }

  /** Text without any of the four special characters is unchanged. */
  lemma {:induction false} EscapedPlainText(s: string)
    requires '&' !in s && '<' !in s && '>' !in s && '"' !in s
    ensures Escaped(s) == s
  {
    if s != [] {
      assert s == [s[0]] + s[1..];
      EscapedPlainText(s[1..]);
    }
  }

  /** An HTML reader's decoding of the four entities `htmlEscape` writes;
      any other character is read as itself. */
  function Decode(s: string): string
    decreases |s|
  {
    if s == [] then []
    else if s[0] != '&' then [s[0]] + Decode(s[1..])
    else if "&amp;" <= s then "&" + Decode(s[5..])
    else if "&lt;" <= s then "<" + Decode(s[4..])
    else if "&gt;" <= s then ">" + Decode(s[4..])
    else if "&#039;" <= s then "'" + Decode(s[6..])
    else [s[0]] + Decode(s[1..])
  }

  /** What a reader sees for a character: the double quote comes back as
      an apostrophe, since `&#039;` is the apostrophe's entity. */
  function AsRead(s: string): string {
    if s == [] then [] else (if s[0] == '"' then "'" else [s[0]]) + AsRead(s[1..])
  }

  /** Decoding one escaped character and the rest. */
  lemma DecodeStep(c: char, rest: string)
    ensures Decode(EscapeChar(c) + rest) == (if c == '"' then "'" else [c]) + Decode(rest)
  {
    var s := EscapeChar(c) + rest;
    if c == '&' {
      assert "&amp;" <= s && s[5..] == rest;
    } else if c == '<' {
      assert s[1] == 'l' && "&lt;" <= s && s[4..] == rest;
    } else if c == '>' {
      assert s[1] == 'g' && "&gt;" <= s && s[4..] == rest;
    } else if c == '"' {
      assert s[1] == '#' && "&#039;" <= s && s[6..] == rest;
    } else {
      assert s[0] == c && s[1..] == rest;
    }
  }

  /** Decoding the escaped text gives the text back, except that a double
      quote is read as an apostrophe. */
  lemma {:induction false} DecodeEscaped(s: string)
    ensures Decode(HtmlEscape(s)) == AsRead(s)
  {
    DecodeEscapedRef(s);
  }

  lemma {:induction false} DecodeEscapedRef(s: string)
    ensures Decode(Escaped(s)) == AsRead(s)
  {
    if s != [] {
      DecodeStep(s[0], Escaped(s[1..]));
      DecodeEscapedRef(s[1..]);
    }
  }

  // ---- the pills ----

  /** A pill: its CSS class, its label and its tooltip. */
  datatype Pill = Pill(className: string, text: string, title: string)

  /** `s` ends with `t`. */
  predicate EndsWith(s: string, t: string) {
    |t| <= |s| && s[|s| - |t|..] == t
  }

  /** The opening of a pill's markup up to the end of its class attribute. */
  function PillOpening(className: string): string {
    "<div class=\"pill " + className + "\""
  }

  /** The markup `html` opens with the pill class `className` and closes
      with the label `text`. */
  predicate Shows(html: string, className: string, text: string) {
    PillOpening(className) <= html && EndsWith(html, text + "</div>")
  }

  /** `<div class="pill …" title="…">…</div>`: the markup opens with the
      pill's class and closes with its label. */
  function PillHtml(p: Pill): (r: string)
    ensures Shows(r, p.className, p.text)
  {
    var r := "<div class=\"pill " + p.className + "\" title=\"" + p.title + "\">" + p.text + "</div>";
    assert r == PillOpening(p.className) + (" title=\"" + p.title + "\">") + (p.text + "</div>");
    r
  }

  const NoDataTitle: string := "No data for test"

  /** JavaScript truthiness of an optional string: present and not empty. */
  predicate Truthy(s: Option<string>) {
    s.Some? && s.value != ""
  }

  /** `getSignificancePillHtml`'s choices: "No Data" exactly without a
      p-value, "Yes" exactly when there is one and the result is significant,
      "No" exactly when there is one and it is not; each label has its own
      colour; the tooltip starts with the escaped result text (or a fixed
      note when there is none) and ends with the warning in parentheses when
      there is one. */
  function SignificancePill(cs: ChiSquaredResult): (p: Pill)
    ensures p.text == "No Data" <==> cs.pValue.None?
    ensures p.text == "Yes" <==> cs.pValue.Some? && cs.isStatisticallySignificant
    ensures p.text == "No" <==> cs.pValue.Some? && !cs.isStatisticallySignificant
    ensures p.className == "pill-sig-gray" <==> p.text == "No Data"
    ensures p.className == "pill-sig-green" <==> p.text == "Yes"
    ensures p.className == "pill-sig-yellow" <==> p.text == "No"
    ensures var head := if cs.text != "" then HtmlEscape(cs.text) else NoDataTitle;
      && head <= p.title
      && (Truthy(cs.warning) ==> p.title == head + " (" + cs.warning.value + ")")
      && (!Truthy(cs.warning) ==> p.title == head)
  {
    var title0 := if cs.text != "" then HtmlEscape(cs.text) else NoDataTitle;
    var title := if Truthy(cs.warning) then title0 + " (" + cs.warning.value + ")" else title0;
    if cs.pValue.None? then Pill("pill-sig-gray", "No Data", title)
    else if cs.isStatisticallySignificant then Pill("pill-sig-green", "Yes", title)
    else Pill("pill-sig-yellow", "No", title)
  }

  /** `getSignificancePillHtml`: a gray "No Data" pill without a p-value, a
      green "Yes" pill when significant, a yellow "No" pill otherwise. */
  function SignificancePillHtml(cs: ChiSquaredResult): (r: string)
    ensures cs.pValue.None? ==>
      Shows(r, "pill-sig-gray", "No Data")
    ensures cs.pValue.Some? && cs.isStatisticallySignificant ==>
      Shows(r, "pill-sig-green", "Yes")
    ensures cs.pValue.Some? && !cs.isStatisticallySignificant ==>
      Shows(r, "pill-sig-yellow", "No")
  {
    PillHtml(SignificancePill(cs))
  }

  /** The pill of a test computed by the analysis: "No Data" exactly for a
      degenerate table, "Yes" exactly when the p-value is below the
      significance level. */
  lemma PillOfTest(prims: Primitives, a: int, b: int, c: int, d: int)
    ensures var p := SignificancePill(ChiSquaredOf(prims, a, b, c, d));
      && (p.text == "No Data" <==> Degenerate(a, b, c, d))
      && (p.text == "Yes" <==>
            !Degenerate(a, b, c, d) && 1.0 - prims.chiSquareCdf(Statistic(a, b, c, d), DegreesOfFreedom) < SignificanceLevel)
  {
    NullExactlyWhenDegenerate(prims, a, b, c, d);
    if !Degenerate(a, b, c, d) {
      PValueIsUpperTail(prims, a, b, c, d);
    }
  }

  /** The note the test gives for a degenerate table has nothing to escape. */
  lemma InsufficientDataIsPlain()
    ensures HtmlEscape(InsufficientDataText) == InsufficientDataText
  {
    EscapedPlainText(InsufficientDataText);
  }

  /** For a degenerate table the tooltip is the test's insufficient-data
      note, unchanged. */
  lemma PillTitleOfDegenerateTest(prims: Primitives, a: int, b: int, c: int, d: int)
    requires Degenerate(a, b, c, d)
    ensures SignificancePill(ChiSquaredOf(prims, a, b, c, d)).title == InsufficientDataText
  {
    NullExactlyWhenDegenerate(prims, a, b, c, d);
    InsufficientDataIsPlain();
  }

  /** `getTrendPillHtml`'s choices: "▲ Higher" exactly above half a point,
      "▼ Lower" exactly below minus half a point, "⬌ Similar" exactly in
      between, each with its own colour; the tooltip is the difference to two
      decimals. */
  function TrendPill(prims: Primitives, winRateDiff: real): (p: Pill)
    ensures p.text == "▲ Higher" <==> winRateDiff > 0.5
    ensures p.text == "▼ Lower" <==> winRateDiff < -0.5
    ensures p.text == "⬌ Similar" <==> -0.5 <= winRateDiff <= 0.5
    ensures p.className == "pill-sig-green" <==> p.text == "▲ Higher"
    ensures p.className == "pill-sig-red" <==> p.text == "▼ Lower"
    ensures p.className == "pill-sig-gray" <==> p.text == "⬌ Similar"
    ensures p.title == prims.toFixed(winRateDiff, 2) + "% vs avg"
  {
    var title := prims.toFixed(winRateDiff, 2) + "% vs avg";
    if winRateDiff > 0.5 then Pill("pill-sig-green", "▲ Higher", title)
    else if winRateDiff < -0.5 then Pill("pill-sig-red", "▼ Lower", title)
    else Pill("pill-sig-gray", "⬌ Similar", title)
  }

  /** `getTrendPillHtml`: a green "Higher" pill above half a point, a red
      "Lower" pill below minus half a point, a gray "Similar" pill otherwise. */
  function TrendPillHtml(prims: Primitives, winRateDiff: real): (r: string)
    ensures winRateDiff > 0.5 ==>
      Shows(r, "pill-sig-green", "▲ Higher")
    ensures winRateDiff < -0.5 ==>
      Shows(r, "pill-sig-red", "▼ Lower")
    ensures -0.5 <= winRateDiff <= 0.5 ==>
      Shows(r, "pill-sig-gray", "⬌ Similar")
  {
    PillHtml(TrendPill(prims, winRateDiff))
  }


  // ---- the interpretation card ----

  /** Which of the three card styles and icons is chosen. */
  datatype Tone = Positive | Negative | Neutral

  /** The card's choices: its tone, its main sentence, and its significance
      line with that line's class. */
  datatype Interpretation = Interpretation(
    tone: Tone,
    mainText: string,
    significanceText: string,
    significanceClass: string)

  const InsufficientDataSentence: string := "Insufficient data to perform a comparison."
  const NoDifferenceSentence: string := "No notable win rate difference observed."

  function Higher(diffText: string): string {
    "Associated with a " + diffText + "% higher win rate."
  }

  function Lower(diffText: string): string {
    "Associated with a " + diffText + "% lower win rate."
  }

  /** `getInterpretationHtml`'s choices. The tone is positive exactly above
      0.01, negative exactly below -0.01 and neutral in between, in every
      case. Without a p-value the card says there is not enough data, whatever
      the difference, and repeats the result text in parentheses. With a
      p-value the sentence says "higher", "lower" or "no notable difference"
      by the same thresholds, and the line says "significant" in green
      exactly when the result is significant, "not significant" in yellow
      otherwise, with the p-value and the low-frequency note exactly when
      there is a warning. */
  function InterpretationOf(prims: Primitives, winRateDiff: real, cs: ChiSquaredResult): (i: Interpretation)
    ensures i.tone == Positive <==> winRateDiff > 0.01
    ensures i.tone == Negative <==> winRateDiff < -0.01
    ensures i.tone == Neutral <==> -0.01 <= winRateDiff <= 0.01
    ensures cs.pValue.None? ==>
      && i.mainText == InsufficientDataSentence
      && i.significanceText == "(" + cs.text + ")"
      && i.significanceClass == "sig-text-yellow"
    ensures cs.pValue.Some? ==>
      var diffText := prims.toFixed(Abs(winRateDiff), 2);
      && (i.mainText == Higher(diffText) <==> winRateDiff > 0.01)
      && (i.mainText == Lower(diffText) <==> winRateDiff < -0.01)
      && (i.mainText == NoDifferenceSentence <==> -0.01 <= winRateDiff <= 0.01)
    ensures cs.pValue.Some? ==>
      var display := "(p=" + prims.toFixed(cs.pValue.value, 4) + (if Truthy(cs.warning) then ", low E.F." else "") + ")";
      && (i.significanceClass == "sig-text-green" <==> cs.isStatisticallySignificant)
      && (cs.isStatisticallySignificant ==> i.significanceText == "This is statistically significant. " + display)
      && (!cs.isStatisticallySignificant ==> i.significanceText == "This is not statistically significant. " + display)
  {
    var tone := if winRateDiff > 0.01 then Positive else if winRateDiff < -0.01 then Negative else Neutral;
    if cs.pValue.None? then
      Interpretation(tone, InsufficientDataSentence, "(" + cs.text + ")", "sig-text-yellow")
    else
      var diffText := prims.toFixed(Abs(winRateDiff), 2);
      assert |Higher(diffText)| != |Lower(diffText)|;
      assert Higher(diffText)[0] != NoDifferenceSentence[0];
      assert Lower(diffText)[0] != NoDifferenceSentence[0];
      var pValueDisplay := "(p=" + prims.toFixed(cs.pValue.value, 4) + (if Truthy(cs.warning) then ", low E.F." else "") + ")";
      var mainText :=
        if winRateDiff > 0.01 then Higher(diffText)
        else if winRateDiff < -0.01 then Lower(diffText)
        else NoDifferenceSentence;
      if cs.isStatisticallySignificant then
        Interpretation(tone, mainText, "This is statistically significant. " + pValueDisplay, "sig-text-green")
      else
        Interpretation(tone, mainText, "This is not statistically significant. " + pValueDisplay, "sig-text-yellow")
  }

  /** The card's text fields, each escaped, so that none holds a markup
      character. */
  function InterpretationHtml(prims: Primitives, title: string, winRateDiff: real, cs: ChiSquaredResult): (f: seq<string>)
    ensures |f| == 3 && NoMarkup(f[0]) && NoMarkup(f[1]) && NoMarkup(f[2])
  {
    CardFields(title, InterpretationOf(prims, winRateDiff, cs))
  }

  /** The title and the two sentences of a card, escaped. */
  function CardFields(title: string, i: Interpretation): (f: seq<string>)
    ensures |f| == 3 && NoMarkup(f[0]) && NoMarkup(f[1]) && NoMarkup(f[2])
  {
    [HtmlEscape(title), HtmlEscape(i.mainText), HtmlEscape(i.significanceText)]
  }

  // ---- the time-period display name ----

  /** `TIME_PERIOD_OPTIONS` of constants.ts, display name to API value, in
      declaration order. */
  const TimePeriodOptions: seq<(string, string)> := [
    ("Post Ban", "POST_BAN"),
    ("Last 3 Months", "THREE_MONTHS"),
    ("Last 6 Months", "SIX_MONTHS"),
    ("Last Year", "ONE_YEAR"),
    ("All Time", "ALL_TIME"),
    ("Last Month", "ONE_MONTH")]

  /** `Object.keys(options).find(key => options[key] === value)`: the first
      key, in order, whose value is `value`. */
  function FindKey(options: seq<(string, string)>, value: string): (r: Option<string>)
    ensures r.Some? ==> exists i :: 0 <= i < |options| && options[i] == (r.value, value)
    ensures r.None? ==> forall i :: 0 <= i < |options| ==> options[i].1 != value
  {
    if options == [] then None
    else if options[0].1 == value then Some(options[0].0)
    else
      var r := FindKey(options[1..], value);
      assert r.Some? ==> options[1..][0] == options[1];
      r
  }

  /** The options with each pair turned round, API value to display name. */
  function Swapped(options: seq<(string, string)>): (r: seq<(string, string)>)
    ensures |r| == |options|
    ensures forall i :: 0 <= i < |options| ==> r[i] == (options[i].1, options[i].0)
  {
    seq(|options|, i requires 0 <= i < |options| => (options[i].1, options[i].0))
  }

  /** `… || result.timePeriod`: the display name found, or the raw value when
      there is none (or it is empty). A value some option has is shown as the
      first such option's display name; any other value is shown as it is. */
  function TimePeriodDisplayName(timePeriod: string): (name: string)
    ensures forall i :: 0 <= i < |TimePeriodOptions| && TimePeriodOptions[i].1 == timePeriod ==>
      exists j :: 0 <= j <= i && TimePeriodOptions[j] == (name, timePeriod)
    ensures (forall i :: 0 <= i < |TimePeriodOptions| ==> TimePeriodOptions[i].1 != timePeriod) ==>
      name == timePeriod
  {
    assert forall i :: 0 <= i < |TimePeriodOptions| ==> TimePeriodOptions[i].0 != "";
    match FindKey(TimePeriodOptions, timePeriod)
    case Some(key) => if key != "" then key else timePeriod
    case None => timePeriod
  }

  /** `TIME_PERIOD_OPTIONS[key]`: the value of a display name, read off the
      same table. */
  function TimePeriodValue(key: string): Option<string> {
    FindKey(Swapped(TimePeriodOptions), key)
  }

  /** The first match wins: a key before it has another value. */
  lemma {:induction false} FindKeyFirst(options: seq<(string, string)>, value: string, i: nat)
    requires i < |options| && options[i].1 == value
    requires forall j :: 0 <= j < i ==> options[j].1 != value
    ensures FindKey(options, value) == Some(options[i].0)
  {
    if i > 0 {
      FindKeyFirst(options[1..], value, i - 1);
    }
  }

  /** No two options share a display name or an API value. */
  lemma TimePeriodOptionsDistinct()
    ensures forall i, j :: 0 <= i < j < |TimePeriodOptions| ==>
      TimePeriodOptions[i].0 != TimePeriodOptions[j].0 && TimePeriodOptions[i].1 != TimePeriodOptions[j].1
  {
  }

  /** Every API value is shown under its own display name, and the display
      name maps back to it. */
  lemma TimePeriodRoundTrip(i: nat)
    requires i < |TimePeriodOptions|
    ensures TimePeriodDisplayName(TimePeriodOptions[i].1) == TimePeriodOptions[i].0
    ensures TimePeriodValue(TimePeriodDisplayName(TimePeriodOptions[i].1)) == Some(TimePeriodOptions[i].1)
  {
    TimePeriodOptionsDistinct();
    FindKeyFirst(TimePeriodOptions, TimePeriodOptions[i].1, i);
    FindKeyFirst(Swapped(TimePeriodOptions), TimePeriodOptions[i].0, i);
  }

  /** The lookup is the inverse of the option map: a display name whose
      value is `v` is what `v` is shown as. */
  lemma TimePeriodInverse(key: string)
    requires TimePeriodValue(key).Some?
    ensures TimePeriodDisplayName(TimePeriodValue(key).value) == key
  {
    var i :| 0 <= i < |TimePeriodOptions| && Swapped(TimePeriodOptions)[i] == (TimePeriodValue(key).value, key);
    TimePeriodRoundTrip(i);
  }
}
