/** `parse_since_date`: an absolute date, a relative phrase
    `<digits> <unit>[s] ago` / `a|an <unit> ago`, or a free-form date.
    Instants are integer microseconds; the two foreign date parsers and the
    calendar month arithmetic are supplied by the caller. */
module RelativeDate {
  import opened Common

  datatype TimeUnit = Second | Minute | Hour | Day | Week | Month | Year

  /** The date library the parser relies on: the strict ISO parser, the
      free-form fallback parser (both already defaulting to UTC), and
      calendar-aware subtraction of a number of months from an instant,
      which yields None when the year leaves the calendar's range. */
  datatype DateLibrary = DateLibrary(
    fromIso: string -> Option<int>,
    freeForm: string -> Option<int>,
    minusMonths: (int, nat) -> Option<int>)

  /** Empty text, text no parser accepts, and a relative phrase reaching
      before the first instant a `datetime` can hold. */
  datatype DateError = EmptyDate | Unparseable(text: string) | OutOfRange

  /** 0001-01-01T00:00:00 UTC, the earliest `datetime`: 62135596800
      seconds before the epoch. */
  const MinInstant: int := -62135596800000000

  function UnitName(u: TimeUnit): string {
    match u
    case Second => "second"
    case Minute => "minute"
    case Hour => "hour"
    case Day => "day"
    case Week => "week"
    case Month => "month"
    case Year => "year"
  }

  /** The alternatives of the unit group, in the order the pattern lists them. */
  const Units: seq<TimeUnit> := [Second, Minute, Hour, Day, Week, Month, Year]

  predicate IsFixed(u: TimeUnit) {
    u != Month && u != Year
  }

  /** Microseconds in one fixed-length unit. */
  function UnitMicros(u: TimeUnit): nat
    requires IsFixed(u)
  {
    match u
    case Second => 1000000
    case Minute => 60 * 1000000
    case Hour => 60 * 60 * 1000000
    case Day => 24 * 60 * 60 * 1000000
    case Week => 7 * 24 * 60 * 60 * 1000000
  }

  /** The first unit among `units` whose name starts `s`. */
  function UnitPrefix(s: string, units: seq<TimeUnit>): (r: Option<TimeUnit>)
    ensures r.Some? ==> r.value in units && UnitName(r.value) <= s
    ensures r.None? ==> forall u :: u in units ==> !(UnitName(u) <= s)
  {
    if units == [] then None
    else if UnitName(units[0]) <= s then Some(units[0])
    else UnitPrefix(s, units[1..])
  }

  /** The text ends in `ago`. */
  predicate EndsWithAgo(s: string) {
    |s| >= 3 && s[|s| - 3..] == "ago"
  }

  lemma EndsWithAgoOfSuffix(s: string, k: nat)
    requires k <= |s| && EndsWithAgo(s[k..])
    ensures EndsWithAgo(s)
  {
    assert s[k..][|s[k..]| - 3..] == s[|s| - 3..];
  }

  /** Matches `s?` (when `plural`), `\s+`, `ago` and the end of the text. */
  predicate AgoTail(rest: string, plural: bool) {
    var rest' := if plural && rest != [] && rest[0] == 's' then rest[1..] else rest;
    rest' != [] && IsSpace(rest'[0]) && DropSpaces(rest') == "ago"
  }

  lemma AgoTailEnds(rest: string, plural: bool)
    requires AgoTail(rest, plural)
    ensures EndsWithAgo(rest)
  {
    if plural && rest != [] && rest[0] == 's' {
      DropSpacesAgo(rest[1..]);
      EndsWithAgoOfSuffix(rest, 1);
    } else {
      DropSpacesAgo(rest);
    }
  }

  lemma DropSpacesAgo(t: string)
    requires DropSpaces(t) == "ago"
    ensures EndsWithAgo(t)
  {
    DropSpacesRun(t);
    assert t[|t| - 3..] == DropSpaces(t);
  }

  /** Matches `<unit>`, then the tail above. */
  function MatchUnitAgo(s: string, plural: bool): (r: Option<TimeUnit>)
    ensures r.Some? ==> UnitName(r.value) <= s && EndsWithAgo(s)
  {
    match UnitPrefix(s, Units)
    case None => None
    case Some(u) =>
      if AgoTail(s[|UnitName(u)|..], plural) then
        AgoTailEnds(s[|UnitName(u)|..], plural);
        EndsWithAgoOfSuffix(s, |UnitName(u)|);
        Some(u)
      else None
  }

  /** Length of a leading `a` or `an` that is followed by whitespace, else 0. */
  function ArticleLength(s: string): nat {
    if |s| >= 2 && s[0] == 'a' && IsSpace(s[1]) then 1
    else if |s| >= 3 && s[..2] == "an" && IsSpace(s[2]) then 2
    else 0
  }

  /** `(\d+)\s+<unit>s?\s+ago`, once the text is known to start with `d` digits. */
  function ParseNumeric(s: string, d: nat): (r: Option<(nat, TimeUnit)>)
    requires 0 < d <= |s| && AllDigits(s[..d])
    ensures r.Some? ==> r.value.0 == DigitsValue(s[..d]) && EndsWithAgo(s)
  {
    if d == |s| || !IsSpace(s[d]) then None
    else match MatchUnitAgo(DropSpaces(s[d..]), true)
      case Some(u) =>
        DropSpacesRun(s[d..]);
        assert s[d..][|s[d..]| - |DropSpaces(s[d..])|..] == s[|s| - |DropSpaces(s[d..])|..];
        EndsWithAgoOfSuffix(s, |s| - |DropSpaces(s[d..])|);
        Some((DigitsValue(s[..d]), u))
      case None => None
  }

  /** `(a|an)\s+<unit>\s+ago`, the article being `k` characters long (and
      followed by whitespace). */
  function ParseArticle(s: string, k: nat): (r: Option<(nat, TimeUnit)>)
    requires k <= |s|
    ensures r.Some? ==> r.value.0 == 1 && EndsWithAgo(s)
  {
    match MatchUnitAgo(DropSpaces(s[k..]), false)
    case Some(u) =>
      DropSpacesRun(s[k..]);
      assert s[k..][|s[k..]| - |DropSpaces(s[k..])|..] == s[|s| - |DropSpaces(s[k..])|..];
      EndsWithAgoOfSuffix(s, |s| - |DropSpaces(s[k..])|);
      Some((1, u))
    case None => None
  }

  /** The two relative-date patterns, applied to already lower-cased and
      stripped text: the amount and the unit, or None when neither matches.
      A match ends in `ago`; one not led by a digit has the amount one. */
  function ParseRelative(s: string): (r: Option<(nat, TimeUnit)>)
    ensures r.Some? ==> EndsWithAgo(s)
    ensures r.Some? && (s == [] || !IsDigit(s[0])) ==> r.value.0 == 1
  {
    var d := DigitSpan(s);
    if d > 0 then
      assert AllDigits(s[..d]);
      ParseNumeric(s, d)
    else
      var k := ArticleLength(s);
      if k == 0 then None else ParseArticle(s, k)
  }

  /** `now - relativedelta(<unit>s=amount)`, or None when the instant falls
      before `MinInstant`. A year delta equals a delta of twelve months
      (the delta normalises months into years). */
  function Before(lib: DateLibrary, now: int, amount: nat, u: TimeUnit): (t: Option<int>)
    ensures IsFixed(u) ==> (t.Some? <==> now - amount * UnitMicros(u) >= MinInstant)
    ensures IsFixed(u) && t.Some? ==> t.value == now - amount * UnitMicros(u) && t.value <= now
    ensures u == Month ==> t == lib.minusMonths(now, amount)
    ensures u == Year ==> t == lib.minusMonths(now, 12 * amount)
  {
    match u
    case Month => lib.minusMonths(now, amount)
    case Year => lib.minusMonths(now, 12 * amount)
    case _ =>
      var t := now - amount * UnitMicros(u);
      if t >= MinInstant then Some(t) else None
  }

  /** The outcome of a recognised relative phrase. */
  function FromRelative(lib: DateLibrary, now: int, amount: nat, u: TimeUnit): (r: Result<int, DateError>)
    ensures r.Ok? <==> Before(lib, now, amount, u).Some?
    ensures r.Err? ==> r.error == OutOfRange
  {
    match Before(lib, now, amount, u)
    case Some(t) => Ok(t)
    case None => Err(OutOfRange)
  }

  /** `parse_since_date(text)` evaluated at the instant `now`: the ISO
      parser first, then the relative patterns on the lower-cased, stripped
      text, then the free-form parser. */
  function ParseSinceDate(lib: DateLibrary, now: int, text: string): (r: Result<int, DateError>)
    ensures r == Err(EmptyDate) <==> text == ""
    ensures r == Err(Unparseable(text)) <==>
      text != "" && lib.fromIso(text).None? && ParseRelative(Strip(Lower(text))).None? && lib.freeForm(text).None?
    ensures r == Err(OutOfRange) <==>
      text != "" && lib.fromIso(text).None? && ParseRelative(Strip(Lower(text))).Some?
      && Before(lib, now, ParseRelative(Strip(Lower(text))).value.0, ParseRelative(Strip(Lower(text))).value.1).None?
    ensures r.Err? ==> r.error in {EmptyDate, Unparseable(text), OutOfRange}
    ensures text != "" && lib.fromIso(text).Some? ==> r == Ok(lib.fromIso(text).value)
    ensures text != "" && lib.fromIso(text).None? && ParseRelative(Strip(Lower(text))).Some? ==>
      r == FromRelative(lib, now, ParseRelative(Strip(Lower(text))).value.0, ParseRelative(Strip(Lower(text))).value.1)
    ensures text != "" && lib.fromIso(text).None? && ParseRelative(Strip(Lower(text))).None? && lib.freeForm(text).Some? ==>
      r == Ok(lib.freeForm(text).value)
  {
    if text == "" then Err(EmptyDate)
    else match lib.fromIso(text)
      case Some(t) => Ok(t)
      case None =>
        match ParseRelative(Strip(Lower(text)))
        case Some((amount, u)) => FromRelative(lib, now, amount, u)
        case None =>
          match lib.freeForm(text)
          case Some(t) => Ok(t)
          case None => Err(Unparseable(text))
  }

  // The grammar of the relative patterns, written as text.

  function Plural(plural: bool): string {
    if plural then "s" else ""
  }

  /** `<digits><spaces><unit>[s]<spaces>ago` */
  function NumericText(ds: string, w1: string, u: TimeUnit, plural: bool, w2: string): string {
    ds + (w1 + (UnitName(u) + (Plural(plural) + (w2 + "ago"))))
  }

  /** `<a|an><spaces><unit><spaces>ago` */
  function ArticleText(article: string, w1: string, u: TimeUnit, w2: string): string {
    article + (w1 + (UnitName(u) + (w2 + "ago")))
  }

  predicate IsArticle(article: string) {
    article == "a" || article == "an"
  }

  predicate IsRun(w: string) {
    w != [] && AllSpaces(w)
  }

  /** s is an instance of the numeric pattern denoting amount n and unit u. */
  ghost predicate NumericPhraseOf(s: string, n: nat, u: TimeUnit) {
    exists ds, w1, plural, w2 ::
      ds != [] && AllDigits(ds) && IsRun(w1) && IsRun(w2)
      && s == NumericText(ds, w1, u, plural, w2) && n == DigitsValue(ds)
  }

  /** s is an instance of the article pattern with unit u. */
  ghost predicate ArticlePhraseOf(s: string, u: TimeUnit) {
    exists article, w1, w2 :: IsArticle(article) && IsRun(w1) && IsRun(w2) && s == ArticleText(article, w1, u, w2)
  }

  /** The canonical phrase `<n> <unit>[s] ago`. */
  function Phrase(n: nat, u: TimeUnit, plural: bool): string {
    NumericText(NatToDigits(n), " ", u, plural, " ")
  }

  /** Unit names are told apart by their first two letters. */
  lemma UnitInitials(u: TimeUnit, v: TimeUnit)
    requires UnitName(u)[0] == UnitName(v)[0] && UnitName(u)[1] == UnitName(v)[1]
    ensures u == v
  {
    match u
    case Second =>
    case Minute =>
    case Hour =>
    case Day =>
    case Week =>
    case Month =>
    case Year =>
  }

  lemma UnitPrefixOfName(u: TimeUnit, rest: string)
    ensures UnitPrefix(UnitName(u) + rest, Units) == Some(u)
  {
    var s := UnitName(u) + rest;
    assert UnitName(u) <= s;
    assert u in Units;
    var r := UnitPrefix(s, Units);
    assert UnitName(r.value) <= s;
    assert |UnitName(u)| >= 3 && |UnitName(r.value)| >= 3;
    assert UnitName(r.value)[0] == s[0] == UnitName(u)[0];
    assert UnitName(r.value)[1] == s[1] == UnitName(u)[1];
    UnitInitials(u, r.value);
  }

  /** Unit names are non-empty runs of lower-case letters. */
  lemma UnitNameLetters(u: TimeUnit)
    ensures UnitName(u) != []
    ensures forall i :: 0 <= i < |UnitName(u)| ==> 'a' <= UnitName(u)[i] <= 'z'
  {
  }

  lemma MatchUnitAgoOfName(u: TimeUnit, suffix: string, plural: bool)
    requires AgoTail(suffix, plural)
    ensures MatchUnitAgo(UnitName(u) + suffix, plural) == Some(u)
  {
    UnitPrefixOfName(u, suffix);
    assert (UnitName(u) + suffix)[|UnitName(u)|..] == suffix;
  }

  lemma MatchUnitAgoRejects(u: TimeUnit, suffix: string, plural: bool)
    requires !AgoTail(suffix, plural)
    ensures MatchUnitAgo(UnitName(u) + suffix, plural) == None
  {
    UnitPrefixOfName(u, suffix);
    assert (UnitName(u) + suffix)[|UnitName(u)|..] == suffix;
  }

  /** Dropping the leading whitespace of a run followed by a non-space
      leaves exactly what follows the run. */
  lemma {:induction false} DropSpacesOfRun(w: string, t: string)
    requires AllSpaces(w) && t != [] && !IsSpace(t[0])
    ensures DropSpaces(w + t) == t
    decreases |w|
  {
    if w == [] {
      assert w + t == t;
    } else {
      assert (w + t)[1..] == w[1..] + t;
      DropSpacesOfRun(w[1..], t);
    }
  }

  /** `[s]<spaces>ago` is accepted by the tail of the numeric pattern, and
      `<spaces>ago` by the tail of the article pattern. */
  lemma AgoTailOfRun(p: bool, w: string)
    requires IsRun(w)
    ensures AgoTail(Plural(p) + (w + "ago"), true)
    ensures AgoTail(w + "ago", false)
  {
    var rest := w + "ago";
    DropSpacesOfRun(w, "ago");
    if p {
      assert (Plural(p) + rest)[1..] == rest;
    } else {
      assert Plural(p) + rest == rest;
    }
  }

  lemma {:induction false} DigitSpanOfDigits(ds: string, rest: string)
    requires AllDigits(ds)
    requires rest != [] && !IsDigit(rest[0])
    ensures DigitSpan(ds + rest) == |ds|
    decreases |ds|
  {
    if ds != [] {
      assert (ds + rest)[1..] == ds[1..] + rest;
      DigitSpanOfDigits(ds[1..], rest);
    }
  }

  /** The numeric branch of the patterns, unfolded. */
  lemma NumericUnfold(s: string, d: nat)
    requires 0 < d < |s| && DigitSpan(s) == d && IsSpace(s[d])
    ensures ParseRelative(s)
         == match MatchUnitAgo(DropSpaces(s[d..]), true)
            case Some(u) => Some((DigitsValue(s[..d]), u))
            case None => None
  {
  }

  /** The article branch of the patterns, unfolded. */
  lemma ArticleUnfold(s: string, k: nat)
    requires DigitSpan(s) == 0 && 0 < k < |s| && ArticleLength(s) == k
    ensures ParseRelative(s)
         == match MatchUnitAgo(DropSpaces(s[k..]), false)
            case Some(u) => Some((1, u))
            case None => None
  {
  }

  /** Digits and a whitespace run, read off: the rest decides through the
      numeric unit clause. */
  lemma NumericParse(ds: string, w1: string, t: string)
    requires ds != [] && AllDigits(ds) && IsRun(w1)
    requires t != [] && !IsSpace(t[0])
    ensures ParseRelative(ds + (w1 + t))
         == match MatchUnitAgo(t, true)
            case Some(u) => Some((DigitsValue(ds), u))
            case None => None
  {
    var s := ds + (w1 + t);
    var d := |ds|;
    DigitSpanOfDigits(ds, w1 + t);
    assert s[d..] == w1 + t;
    DropSpacesOfRun(w1, t);
    assert s[..d] == ds;
    NumericUnfold(s, d);
  }

  /** An article and a whitespace run, read off: the rest decides through
      the singular unit clause. */
  lemma ArticleParse(article: string, w1: string, t: string)
    requires IsArticle(article) && IsRun(w1)
    requires t != [] && !IsSpace(t[0])
    ensures ParseRelative(article + (w1 + t))
         == match MatchUnitAgo(t, false)
            case Some(u) => Some((1, u))
            case None => None
  {
    var s := article + (w1 + t);
    var k := |article|;
    assert DigitSpan(s) == 0 by {
      assert s[0] == 'a';
    }
    assert ArticleLength(s) == k by {
      if article == "a" {
        assert s[0] == 'a' && s[1] == w1[0];
      } else {
        assert s[..2] == "an" && s[2] == w1[0];
        assert s[1] == 'n';
      }
    }
    assert s[k..] == w1 + t;
    DropSpacesOfRun(w1, t);
    ArticleUnfold(s, k);
  }

  /** Every instance of the numeric pattern (any digit string, leading zeros
      included, and any whitespace runs) parses to the digits' value and
      the unit. */
  lemma NumericGrammar(ds: string, w1: string, u: TimeUnit, p: bool, w2: string)
    requires ds != [] && AllDigits(ds) && IsRun(w1) && IsRun(w2)
    ensures ParseRelative(NumericText(ds, w1, u, p, w2)) == Some((DigitsValue(ds), u))
  {
    var suffix := Plural(p) + (w2 + "ago");
    var t := UnitName(u) + suffix;
    assert NumericText(ds, w1, u, p, w2) == ds + (w1 + t);
    UnitNameLetters(u);
    assert t[0] == UnitName(u)[0];
    AgoTailOfRun(p, w2);
    MatchUnitAgoOfName(u, suffix, true);
    NumericParse(ds, w1, t);
  }

  /** Every instance of the article pattern parses to amount one and the unit. */
  lemma ArticleGrammar(article: string, w1: string, u: TimeUnit, w2: string)
    requires IsArticle(article) && IsRun(w1) && IsRun(w2)
    ensures ParseRelative(ArticleText(article, w1, u, w2)) == Some((1, u))
  {
    var suffix := w2 + "ago";
    var t := UnitName(u) + suffix;
    assert ArticleText(article, w1, u, w2) == article + (w1 + t);
    UnitNameLetters(u);
    assert t[0] == UnitName(u)[0];
    AgoTailOfRun(false, w2);
    MatchUnitAgoOfName(u, suffix, false);
    ArticleParse(article, w1, t);
  }

  /** What an accepted tail is made of. */
  lemma AgoTailParts(suffix: string, plural: bool) returns (p: bool, w2: string)
    requires AgoTail(suffix, plural)
    ensures IsRun(w2) && (p ==> plural)
    ensures suffix == Plural(p) + (w2 + "ago")
  {
    p := plural && suffix != [] && suffix[0] == 's';
    var rest := if p then suffix[1..] else suffix;
    w2 := RunOf(rest);
    if p {
      assert suffix == [suffix[0]] + rest;
    } else {
      assert Plural(p) + rest == rest;
    }
  }

  /** What a matched unit clause is made of. */
  lemma MatchUnitAgoParts(t: string, plural: bool) returns (p: bool, w2: string)
    requires MatchUnitAgo(t, plural).Some?
    ensures IsRun(w2) && (p ==> plural)
    ensures t == UnitName(MatchUnitAgo(t, plural).value) + (Plural(p) + (w2 + "ago"))
  {
    var u := MatchUnitAgo(t, plural).value;
    MatchUnitAgoUnfold(t, plural);
    var n := |UnitName(u)|;
    p, w2 := AgoTailParts(t[n..], plural);
    assert t[..n] == UnitName(u);
    assert t == t[..n] + t[n..];
  }

  lemma MatchUnitAgoUnfold(t: string, plural: bool)
    requires MatchUnitAgo(t, plural).Some?
    ensures UnitName(MatchUnitAgo(t, plural).value) <= t
    ensures AgoTail(t[|UnitName(MatchUnitAgo(t, plural).value)|..], plural)
  {
  }

  /** Text that starts with whitespace is a run followed by the rest. */
  lemma RunOf(s: string) returns (w: string)
    requires s != [] && IsSpace(s[0])
    ensures IsRun(w) && s == w + DropSpaces(s)
  {
    DropSpacesRun(s);
    w := s[..|s| - |DropSpaces(s)|];
    assert DropSpaces(s) != s;
  }

  /** What an accepted numeric text consists of, at the level of the parser. */
  lemma NumericSome(s: string) returns (d: nat, t: string, u: TimeUnit)
    requires DigitSpan(s) > 0 && ParseRelative(s).Some?
    ensures d == DigitSpan(s) && d < |s| && IsSpace(s[d]) && t == DropSpaces(s[d..])
    ensures MatchUnitAgo(t, true) == Some(u)
    ensures ParseRelative(s) == Some((DigitsValue(s[..d]), u))
  {
    d := DigitSpan(s);
    t := DropSpaces(s[d..]);
    u := MatchUnitAgo(t, true).value;
  }

  /** What an accepted article text consists of, at the level of the parser. */
  lemma ArticleSome(s: string) returns (k: nat, t: string, u: TimeUnit)
    requires DigitSpan(s) == 0 && ParseRelative(s).Some?
    ensures k == ArticleLength(s) && 0 < k < |s| && IsSpace(s[k]) && t == DropSpaces(s[k..])
    ensures MatchUnitAgo(t, false) == Some(u)
    ensures ParseRelative(s) == Some((1, u))
  {
    k := ArticleLength(s);
    t := DropSpaces(s[k..]);
    u := MatchUnitAgo(t, false).value;
  }

  lemma NumericShape(s: string)
    requires DigitSpan(s) > 0 && ParseRelative(s).Some?
    ensures NumericPhraseOf(s, ParseRelative(s).value.0, ParseRelative(s).value.1)
  {
    var d, t, u := NumericSome(s);
    NumericShapeOf(s, d, t, u);
  }

  lemma NumericShapeOf(s: string, d: nat, t: string, u: TimeUnit)
    requires 0 < d < |s| && AllDigits(s[..d]) && IsSpace(s[d]) && t == DropSpaces(s[d..])
    requires MatchUnitAgo(t, true) == Some(u)
    ensures NumericPhraseOf(s, DigitsValue(s[..d]), u)
  {
    var ds := s[..d];
    var w1 := RunOf(s[d..]);
    var p, w2 := MatchUnitAgoParts(t, true);
    assert s == ds + (w1 + t) by {
      assert s == ds + s[d..];
    }
    NumericWitness(s, ds, w1, u, p, w2);
  }

  lemma NumericWitness(s: string, ds: string, w1: string, u: TimeUnit, p: bool, w2: string)
    requires ds != [] && AllDigits(ds) && IsRun(w1) && IsRun(w2)
    requires s == ds + (w1 + (UnitName(u) + (Plural(p) + (w2 + "ago"))))
    ensures NumericPhraseOf(s, DigitsValue(ds), u)
  {
    assert s == NumericText(ds, w1, u, p, w2);
  }

  lemma ArticleShape(s: string)
    requires DigitSpan(s) == 0 && ParseRelative(s).Some?
    ensures ParseRelative(s).value.0 == 1 && ArticlePhraseOf(s, ParseRelative(s).value.1)
  {
    var k, t, u := ArticleSome(s);
    var article := s[..k];
    assert IsArticle(article);
    var w1 := RunOf(s[k..]);
    var p, w2 := MatchUnitAgoParts(t, false);
    assert Plural(p) == "";
    assert t == UnitName(u) + (w2 + "ago");
    assert s == article + (w1 + t) by {
      assert s == article + s[k..];
    }
    assert s == ArticleText(article, w1, u, w2);
  }

  /** The relative patterns, exactly: text parses to (n, u) if and only if it
      is an instance of the numeric pattern denoting n and u, or n is one and
      it is an instance of the article pattern with u. */
  lemma RelativeGrammar(s: string, n: nat, u: TimeUnit)
    ensures ParseRelative(s) == Some((n, u)) <==> NumericPhraseOf(s, n, u) || (n == 1 && ArticlePhraseOf(s, u))
  {
    if ParseRelative(s) == Some((n, u)) {
      if DigitSpan(s) > 0 {
        NumericShape(s);
      } else {
        ArticleShape(s);
      }
    }
    if NumericPhraseOf(s, n, u) {
      var ds, w1, p, w2 :| ds != [] && AllDigits(ds) && IsRun(w1) && IsRun(w2)
        && s == NumericText(ds, w1, u, p, w2) && n == DigitsValue(ds);
      NumericGrammar(ds, w1, u, p, w2);
    }
    if n == 1 && ArticlePhraseOf(s, u) {
      var article, w1, w2 :| IsArticle(article) && IsRun(w1) && IsRun(w2) && s == ArticleText(article, w1, u, w2);
      ArticleGrammar(article, w1, u, w2);
    }
  }

  /** Every canonical phrase parses back to its amount and unit. */
  lemma PhraseRoundTrip(n: nat, u: TimeUnit, plural: bool)
    ensures ParseRelative(Phrase(n, u, plural)) == Some((n, u))
  {
    NumericGrammar(NatToDigits(n), " ", u, plural, " ");
    DigitsRoundTrip(n);
  }

  /** `a <unit> ago` and `an <unit> ago` mean an amount of one. */
  lemma ArticleRoundTrip(u: TimeUnit, article: string)
    requires IsArticle(article)
    ensures ParseRelative(ArticleText(article, " ", u, " ")) == Some((1, u))
  {
    ArticleGrammar(article, " ", u, " ");
  }

  /** The article form takes the singular only: `a weeks ago` is not relative. */
  lemma ArticleRejectsPlural(u: TimeUnit)
    ensures ParseRelative("a " + UnitName(u) + "s ago") == None
  {
    var tail := UnitName(u) + "s ago";
    assert "a " + UnitName(u) + "s ago" == "a" + (" " + tail);
    UnitNameLetters(u);
    assert tail[0] == UnitName(u)[0];
    assert !AgoTail("s ago", false);
    MatchUnitAgoRejects(u, "s ago", false);
    ArticleParse("a", " ", tail);
  }

  predicate NoUpper(s: string) {
    forall i :: 0 <= i < |s| ==> !IsUpper(s[i])
  }

  lemma NoUpperConcat(a: string, b: string)
    requires NoUpper(a) && NoUpper(b)
    ensures NoUpper(a + b)
  {
    forall i | 0 <= i < |a + b| ensures !IsUpper((a + b)[i]) {
      if i >= |a| { assert (a + b)[i] == b[i - |a|]; }
    }
  }

  /** Text already lower-cased and without surrounding whitespace comes
      through the normalisation unchanged. */
  lemma PhraseIsNormal(s: string)
    requires s != [] && !IsSpace(s[0]) && !IsSpace(s[|s| - 1])
    requires NoUpper(s)
    ensures Strip(Lower(s)) == s
  {
    LowerOfLowerCase(s);
  }

  lemma RunNoUpper(w: string)
    requires AllSpaces(w)
    ensures NoUpper(w)
  {
    forall i | 0 <= i < |w| ensures !IsUpper(w[i]) {
      assert IsSpace(w[i]);
    }
  }

  /** The lower-case tail `<unit>[s]<spaces>ago` of both patterns. */
  lemma ClauseNoUpper(u: TimeUnit, p: bool, w2: string)
    requires AllSpaces(w2)
    ensures NoUpper(UnitName(u) + (Plural(p) + (w2 + "ago")))
  {
    UnitNameLetters(u);
    assert NoUpper(UnitName(u));
    RunNoUpper(w2);
    NoUpperConcat(w2, "ago");
    NoUpperConcat(Plural(p), w2 + "ago");
    NoUpperConcat(UnitName(u), Plural(p) + (w2 + "ago"));
  }

  /** Any instance of the numeric pattern evaluates to `now` minus that many
      units (or the range error), whenever the ISO parser does not claim it. */
  lemma UnitsAgo(lib: DateLibrary, now: int, ds: string, w1: string, u: TimeUnit, p: bool, w2: string)
    requires ds != [] && AllDigits(ds) && IsRun(w1) && IsRun(w2)
    requires lib.fromIso(NumericText(ds, w1, u, p, w2)).None?
    ensures ParseSinceDate(lib, now, NumericText(ds, w1, u, p, w2)) == FromRelative(lib, now, DigitsValue(ds), u)
  {
    var s := NumericText(ds, w1, u, p, w2);
    var clause := UnitName(u) + (Plural(p) + (w2 + "ago"));
    assert s == ds + (w1 + clause);
    assert Strip(Lower(s)) == s by {
      assert NoUpper(ds) by {
        forall i | 0 <= i < |ds| ensures !IsUpper(ds[i]) {
          assert IsDigit(ds[i]);
        }
      }
      ClauseNoUpper(u, p, w2);
      RunNoUpper(w1);
      NoUpperConcat(w1, clause);
      NoUpperConcat(ds, w1 + clause);
      assert s[0] == ds[0];
      assert s[|s| - 1] == 'o';
      PhraseIsNormal(s);
    }
    NumericGrammar(ds, w1, u, p, w2);
  }

  /** "2 weeks ago" is exactly fourteen days before now, or the range error. */
  lemma TwoWeeksAgo(lib: DateLibrary, now: int)
    requires lib.fromIso("2 weeks ago").None?
    ensures ParseSinceDate(lib, now, "2 weeks ago")
         == if now - 14 * 86400 * 1000000 >= MinInstant then Ok(now - 14 * 86400 * 1000000) else Err(OutOfRange)
  {
    FourteenDays(lib, now);
    assert DigitsValue("2") == 2 by {
      assert "2"[..0] == [];
    }
    assert NumericText("2", " ", Week, true, " ") == "2 weeks ago";
    UnitsAgo(lib, now, "2", " ", Week, true, " ");
  }

  lemma FourteenDays(lib: DateLibrary, now: int)
    ensures FromRelative(lib, now, 2, Week)
         == if now - 14 * 86400 * 1000000 >= MinInstant then Ok(now - 14 * 86400 * 1000000) else Err(OutOfRange)
  {
  }

  /** Any instance of the article pattern evaluates like `1 <unit> ago`. */
  lemma ArticleMeansOne(lib: DateLibrary, now: int, article: string, w1: string, u: TimeUnit, w2: string)
    requires IsArticle(article) && IsRun(w1) && IsRun(w2)
    requires lib.fromIso(ArticleText(article, w1, u, w2)).None?
    requires lib.fromIso(Phrase(1, u, false)).None?
    ensures ParseSinceDate(lib, now, ArticleText(article, w1, u, w2))
         == ParseSinceDate(lib, now, Phrase(1, u, false))
  {
    ArticleEval(lib, now, article, w1, u, w2);
    UnitsAgo(lib, now, NatToDigits(1), " ", u, false, " ");
    DigitsRoundTrip(1);
  }

  lemma ArticleEval(lib: DateLibrary, now: int, article: string, w1: string, u: TimeUnit, w2: string)
    requires IsArticle(article) && IsRun(w1) && IsRun(w2)
    requires lib.fromIso(ArticleText(article, w1, u, w2)).None?
    ensures ParseSinceDate(lib, now, ArticleText(article, w1, u, w2)) == FromRelative(lib, now, 1, u)
  {
    var s := ArticleText(article, w1, u, w2);
    var clause := UnitName(u) + (Plural(false) + (w2 + "ago"));
    assert s == article + (w1 + clause);
    assert Strip(Lower(s)) == s by {
      ClauseNoUpper(u, false, w2);
      RunNoUpper(w1);
      NoUpperConcat(w1, clause);
      assert NoUpper(article);
      NoUpperConcat(article, w1 + clause);
      assert s[0] == 'a';
      assert s[|s| - 1] == 'o';
      PhraseIsNormal(s);
    }
    ArticleGrammar(article, w1, u, w2);
  }

  /** The units nest: a minute is 60 seconds, an hour 60 minutes, a day 24
      hours, a week 7 days, and a year 12 months. */
  lemma UnitConversions(lib: DateLibrary, now: int, n: nat)
    ensures Before(lib, now, n, Minute) == Before(lib, now, 60 * n, Second)
    ensures Before(lib, now, n, Hour) == Before(lib, now, 60 * n, Minute)
    ensures Before(lib, now, n, Day) == Before(lib, now, 24 * n, Hour)
    ensures Before(lib, now, n, Week) == Before(lib, now, 7 * n, Day)
    ensures Before(lib, now, n, Year) == Before(lib, now, 12 * n, Month)
  {
    assert n * UnitMicros(Minute) == (60 * n) * UnitMicros(Second);
    assert n * UnitMicros(Hour) == (60 * n) * UnitMicros(Minute);
    assert n * UnitMicros(Day) == (24 * n) * UnitMicros(Hour);
    assert n * UnitMicros(Week) == (7 * n) * UnitMicros(Day);
  }

  /** For fixed units, `a + b` units ago is `b` units before `a` units ago. */
  lemma BeforeAdds(lib: DateLibrary, now: int, a: nat, b: nat, u: TimeUnit)
    requires IsFixed(u)
    ensures Before(lib, now, a + b, u)
         == match Before(lib, now, a, u)
            case Some(t) => Before(lib, t, b, u)
            case None => None
  {
    assert (a + b) * UnitMicros(u) == a * UnitMicros(u) + b * UnitMicros(u);
    assert b * UnitMicros(u) >= 0;
  }
}
