/** The JavaScript string built-ins the analysis engine relies on:
    `toLowerCase`, `trim`, `includes` and `split` with a string separator. */
module JsStrings {
  import opened Wrappers

  /** The characters `String.prototype.trim` removes: ECMAScript WhiteSpace
      (tab, vertical tab, form feed, space, no-break space, byte order mark and
      the Unicode space separators) and LineTerminator. */
  predicate IsWhitespace(c: char) {
    || c == '\t' || c == '\n' || c == '\U{000B}' || c == '\U{000C}' || c == '\r'
    || c == ' ' || c == '\U{00A0}' || c == '\U{1680}'
    || ('\U{2000}' <= c <= '\U{200A}')
    || c == '\U{2028}' || c == '\U{2029}' || c == '\U{202F}' || c == '\U{205F}'
    || c == '\U{3000}' || c == '\U{FEFF}'
  }

  /** An upper-case letter of Basic Latin or Latin-1 (the only letters this
      model lower-cases). */
  predicate IsUpper(c: char) {
    ('A' <= c <= 'Z') || ('\U{00C0}' <= c <= '\U{00DE}' && c != '\U{00D7}')
  }

  /** `toLowerCase` on one character. */
  function ToLowerChar(c: char): (l: char)
    ensures !IsUpper(l)
    ensures IsUpper(c) ==> l as int == c as int + 32
    ensures !IsUpper(c) ==> l == c
    ensures IsWhitespace(l) <==> IsWhitespace(c)
  {
    if IsUpper(c) then (c as int + 32) as char else c
  }

  function ToLower(s: string): string
  {
    seq(|s|, i requires 0 <= i < |s| => ToLowerChar(s[i]))
  }

  /** Removes leading whitespace. */
  function TrimStart(s: string): string {
    if |s| > 0 && IsWhitespace(s[0]) then TrimStart(s[1..]) else s
  }

  /** What `TrimStart` removes is a whitespace prefix, and what it keeps does
      not start with whitespace. */
  lemma {:induction false} TrimStartShape(s: string)
    ensures var r := TrimStart(s);
      && |r| <= |s| && r == s[|s| - |r|..]
      && (r == [] || !IsWhitespace(r[0]))
      && forall i :: 0 <= i < |s| - |r| ==> IsWhitespace(s[i])
  {
    if |s| > 0 && IsWhitespace(s[0]) {
      TrimStartShape(s[1..]);
    }
  }

  /** Removes trailing whitespace. */
  function TrimEnd(s: string): string {
    if |s| > 0 && IsWhitespace(s[|s| - 1]) then TrimEnd(s[..|s| - 1]) else s
  }

  /** What `TrimEnd` removes is a whitespace suffix, and what it keeps does
      not end with whitespace. */
  lemma {:induction false} TrimEndShape(s: string)
    ensures var r := TrimEnd(s);
      && |r| <= |s| && r == s[..|r|]
      && (r == [] || !IsWhitespace(r[|r| - 1]))
      && forall i :: |r| <= i < |s| ==> IsWhitespace(s[i])
  {
    if |s| > 0 && IsWhitespace(s[|s| - 1]) {
      TrimEndShape(s[..|s| - 1]);
    }
  }

  /** `trim`. */
  function Trim(s: string): string {
    TrimEnd(TrimStart(s))
  }

  /** `t` occurs in `s` starting at index `k`. */
  predicate OccursAt(s: string, t: string, k: nat) {
    k + |t| <= |s| && s[k..k + |t|] == t
  }

  /** `indexOf`: the first index at which `t` occurs in `s`, if any. */
  function IndexOf(s: string, t: string): (r: Option<nat>)
    ensures r.Some? ==> OccursAt(s, t, r.value)
    ensures r.Some? ==> forall k: nat :: k < r.value ==> !OccursAt(s, t, k)
    ensures r.None? ==> forall k: nat :: !OccursAt(s, t, k)
  {
    if |s| < |t| then None
    else if s[..|t|] == t then Some(0)
    else
      var r := IndexOf(s[1..], t);
      OccursShift(s, t);
      if r.None? then None else Some(r.value + 1)
  }

  /** An occurrence after the first character is an occurrence in the rest. */
  lemma OccursShift(s: string, t: string)
    requires |s| > 0
    ensures forall k: nat :: 0 < k ==> (OccursAt(s, t, k) <==> OccursAt(s[1..], t, k - 1))
  {
    forall k: nat | 0 < k
      ensures OccursAt(s, t, k) <==> OccursAt(s[1..], t, k - 1)
    {
      OccursShiftAt(s, t, k);
    }
  }

  lemma OccursShiftAt(s: string, t: string, k: nat)
    requires |s| > 0 && 0 < k
    ensures OccursAt(s, t, k) <==> OccursAt(s[1..], t, k - 1)
  {
    var j := k - 1;
    if k + |t| <= |s| {
      var rest := s[1..];
      assert s[k..k + |t|] == rest[j..j + |t|] by {
        forall i | k <= i < k + |t| ensures rest[i - 1] == s[i] { }
      }
    }
  }

  /** `includes`. */
  predicate Includes(s: string, t: string) {
    IndexOf(s, t).Some?
  }

  /** `split` with a non-empty string separator: the pieces between the
      non-overlapping occurrences of `sep`, found from left to right. */
  function Split(s: string, sep: string): (parts: seq<string>)
    requires |sep| > 0
    ensures |parts| >= 1
    decreases |s|
  {
    match IndexOf(s, sep)
    case None => [s]
    case Some(i) => [s[..i]] + Split(s[i + |sep|..], sep)
  }

  /** `join`, the inverse of `Split`. */
  function Join(parts: seq<string>, sep: string): string
    requires |parts| >= 1
  {
    if |parts| == 1 then parts[0] else parts[0] + sep + Join(parts[1..], sep)
  }

  /** Joining the pieces of a split with the separator gives back the string. */
  lemma {:induction false} JoinSplit(s: string, sep: string)
    requires |sep| > 0
    ensures Join(Split(s, sep), sep) == s
    decreases |s|
  {
    if IndexOf(s, sep).Some? {
      var i := IndexOf(s, sep).value;
      var head, rest := s[..i], s[i + |sep|..];
      SplitAtFirst(s, sep);
      JoinSplit(rest, sep);
      JoinCons(head, Split(rest, sep), sep);
    }
  }

  /** Where the separator first occurs, the string is cut into the piece
      before it and the rest after it. */
  lemma SplitAtFirst(s: string, sep: string)
    requires |sep| > 0 && IndexOf(s, sep).Some?
    ensures var i := IndexOf(s, sep).value;
      && Split(s, sep) == [s[..i]] + Split(s[i + |sep|..], sep)
      && s == s[..i] + sep + s[i + |sep|..]
  {
    var i := IndexOf(s, sep).value;
    CutInThree(s, i, i + |sep|);
  }

  lemma CutInThree(s: string, i: nat, j: nat)
    requires i <= j <= |s|
    ensures s == s[..i] + s[i..j] + s[j..]
  {
  }

  lemma JoinCons(head: string, tail: seq<string>, sep: string)
    requires |tail| >= 1
    ensures Join([head] + tail, sep) == head + sep + Join(tail, sep)
  {
    assert ([head] + tail)[1..] == tail;
  }

  /** No piece of a split contains the separator. */
  lemma {:induction false} SplitPartsExcludeSeparator(s: string, sep: string)
    requires |sep| > 0
    ensures forall p :: p in Split(s, sep) ==> !Includes(p, sep)
    decreases |s|
  {
    match IndexOf(s, sep)
    case None =>
    case Some(i) =>
      var rest := s[i + |sep|..];
      SplitPartsExcludeSeparator(rest, sep);
      var head := s[..i];
      if Includes(head, sep) {
        var k := IndexOf(head, sep).value;
        assert head[k..k + |sep|] == s[k..k + |sep|];
        assert OccursAt(s, sep, k);
        assert false;
      }
      assert Split(s, sep) == [head] + Split(rest, sep);
  }

  /** A string with no occurrence of the separator splits into itself. */
  lemma SplitWithoutSeparator(s: string, sep: string)
    requires |sep| > 0 && !Includes(s, sep)
    ensures Split(s, sep) == [s]
  {
  }

  // ---- properties of lower-casing and trimming ----

  lemma {:induction false} TrimStartOfTrimmed(s: string)
    requires s == [] || !IsWhitespace(s[0])
    ensures TrimStart(s) == s
  {
  }

  lemma {:induction false} TrimEndOfTrimmed(s: string)
    requires s == [] || !IsWhitespace(s[|s| - 1])
    ensures TrimEnd(s) == s
  {
  }

  /** Trimming either end does not disturb the other end. */
  lemma {:induction false} TrimStartEndCommute(s: string)
    ensures TrimStart(TrimEnd(s)) == TrimEnd(TrimStart(s))
    decreases |s|
  {
    if |s| > 0 && IsWhitespace(s[0]) {
      var e := TrimEnd(s);
      TrimEndShape(s);
      TrimStartEndCommute(s[1..]);
      if |e| > 0 {
        TrimEndDropFirst(s);
      } else {
        TrimStartOfWhitespace(s[1..]);
      }
    } else {
      var e := TrimEnd(s);
      TrimEndShape(s);
      if |e| > 0 {
        assert e[0] == s[0];
      }
    }
  }

  lemma {:induction false} TrimStartOfWhitespace(s: string)
    requires forall i :: 0 <= i < |s| ==> IsWhitespace(s[i])
    ensures TrimStart(s) == []
  {
    if |s| > 0 {
      TrimStartOfWhitespace(s[1..]);
    }
  }

  lemma {:induction false} TrimEndDropFirst(s: string)
    requires |s| > 0 && |TrimEnd(s)| > 0
    ensures TrimEnd(s[1..]) == TrimEnd(s)[1..]
    decreases |s|
  {
    if IsWhitespace(s[|s| - 1]) {
      assert s[1..][..|s| - 2] == s[..|s| - 1][1..];
      TrimEndDropFirst(s[..|s| - 1]);
    }
  }

  /** `trim` is idempotent. */
  lemma TrimIdempotent(s: string)
    ensures Trim(Trim(s)) == Trim(s)
  {
    var t := TrimStart(s);
    var u := TrimEnd(t);
    TrimStartShape(s);
    TrimEndShape(t);
    if |u| > 0 {
      assert u[0] == t[0];
    }
    TrimStartOfTrimmed(u);
    TrimEndOfTrimmed(u);
  }

  /** Lower-casing never turns a character into whitespace or back, so it
      commutes with trimming. */
  lemma {:induction false} LowerTrimStartCommute(s: string)
    ensures ToLower(TrimStart(s)) == TrimStart(ToLower(s))
    decreases |s|
  {
    if |s| > 0 && IsWhitespace(s[0]) {
      assert ToLower(s)[1..] == ToLower(s[1..]);
      LowerTrimStartCommute(s[1..]);
    }
  }

  lemma {:induction false} LowerTrimEndCommute(s: string)
    ensures ToLower(TrimEnd(s)) == TrimEnd(ToLower(s))
    decreases |s|
  {
    if |s| > 0 && IsWhitespace(s[|s| - 1]) {
      assert ToLower(s)[..|s| - 1] == ToLower(s[..|s| - 1]);
      LowerTrimEndCommute(s[..|s| - 1]);
    }
  }

  lemma LowerIdempotent(s: string)
    ensures ToLower(ToLower(s)) == ToLower(s)
  {
  }

  /** The normal form the card matcher compares: `s.toLowerCase().trim()`. */
  function Normalize(s: string): string {
    Trim(ToLower(s))
  }

  /** Normalizing twice is normalizing once. */
  lemma NormalizeIdempotent(s: string)
    ensures Normalize(Normalize(s)) == Normalize(s)
  {
    var l := ToLower(s);
    calc {
      Normalize(Normalize(s));
      Trim(ToLower(TrimEnd(TrimStart(l))));
      { LowerTrimEndCommute(TrimStart(l)); }
      Trim(TrimEnd(ToLower(TrimStart(l))));
      { LowerTrimStartCommute(l); }
      Trim(TrimEnd(TrimStart(ToLower(l))));
      { LowerIdempotent(s); }
      Trim(Trim(l));
      { TrimIdempotent(l); }
      Trim(l);
    }
  }
}
