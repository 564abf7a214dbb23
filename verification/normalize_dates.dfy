/**
 `normalize_date`: turns the date strings the news sources publish (RSS
 dates, "July 11, 2025 21:59 IST", "3 days ago", "4 hours") into an ISO 8601
 UTC string without microseconds, or the empty string when that fails.

 The free-form parser (`dateutil.parser.parse`) is a parameter: a partial
 function from a string to a naive or timezone-aware reading, `None` when it
 raises. The current time is a parameter too.
 */
module NormalizeDates {
  import opened Wrappers
  import opened PyStrings
  import opened Instants

  /** The time units the relative forms accept. */
  datatype Unit = Minute | Hour | Day | Week

  function UnitWord(u: Unit): string {
    match u
    case Minute => "minute"
    case Hour => "hour"
    case Day => "day"
    case Week => "week"
  }

  /** The length of one unit in seconds. */
  function UnitSeconds(u: Unit): (n: nat)
    ensures n > 0
  {
    match u
    case Minute => 60
    case Hour => 3600
    case Day => 86400
    case Week => 604800
  }

  /** The length of one unit: `timedelta(minutes=1)` and so on. */
  function UnitMicros(u: Unit): (d: int)
    ensures d > 0 && d % MicrosPerSecond == 0
  {
    var d := UnitSeconds(u) * MicrosPerSecond;
    ModUnique(d, UnitSeconds(u), 0, MicrosPerSecond);
    d
  }

  /** `timedelta(<unit>s=n)` for a whole number `n`, in microseconds. */
  function Units(n: nat, u: Unit): (d: nat)
    ensures d == n * UnitMicros(u)
    ensures d % MicrosPerSecond == 0
  {
    var d := (n * UnitSeconds(u)) * MicrosPerSecond;
    ModUnique(d, n * UnitSeconds(u), 0, MicrosPerSecond);
    d
  }

  /** A character of the amount class `[\d\.]`. */
  predicate IsAmountChar(c: char) {
    IsDigit(c) || c == '.'
  }

  predicate AllAmount(s: string) {
    forall i :: 0 <= i < |s| ==> IsAmountChar(s[i])
  }

  /** Every character of `s[i..j]` satisfies `p`. */
  predicate AllIn(s: string, i: nat, j: nat, p: char -> bool)
    requires i <= j <= |s|
  {
    forall k :: i <= k < j ==> p(s[k])
  }

  /** The end of the run of `p` characters that starts at index `i` (a greedy
      regex repetition). */
  function RunEnd(s: string, i: nat, p: char -> bool): (j: nat)
    requires i <= |s|
    ensures i <= j <= |s|
    ensures AllIn(s, i, j, p)
    ensures j < |s| ==> !p(s[j])
    decreases |s| - i
  {
    if i == |s| || !p(s[i]) then i else RunEnd(s, i + 1, p)
  }

  /** A run is determined by where it starts: any `j` with the two properties
      of `RunEnd` is `RunEnd`. */
  lemma RunEndUnique(s: string, i: nat, j: nat, p: char -> bool)
    requires i <= j <= |s|
    requires AllIn(s, i, j, p)
    requires j < |s| ==> !p(s[j])
    ensures RunEnd(s, i, p) == j
  {
  }

  /** The unit word that occurs in `s` at index `i`; the four words start
      with four different letters. */
  function UnitAt(s: string, i: nat): (r: Option<Unit>)
    ensures r.Some? ==> OccursAt(UnitWord(r.value), s, i)
    ensures forall u :: OccursAt(UnitWord(u), s, i) ==> r == Some(u)
  {
    UnitWordsExclusive(s, i);
    if OccursAt("minute", s, i) then Some(Minute)
    else if OccursAt("hour", s, i) then Some(Hour)
    else if OccursAt("day", s, i) then Some(Day)
    else if OccursAt("week", s, i) then Some(Week)
    else None
  }

  /** At most one unit word occurs at a given index. */
  lemma UnitWordsExclusive(s: string, i: nat)
    ensures forall u, v :: OccursAt(UnitWord(u), s, i) && OccursAt(UnitWord(v), s, i) ==> u == v
  {
    forall u, v | OccursAt(UnitWord(u), s, i) && OccursAt(UnitWord(v), s, i)
      ensures u == v
    {
      assert s[i..i + |UnitWord(u)|][0] == s[i] == s[i..i + |UnitWord(v)|][0];
    }
  }

  /** The groups of a match of `([\d\.]+)\s+(minute|hour|day|week)s?\s+ago`. */
  datatype AgoMatch = AgoMatch(amount: string, unit: Unit)

  /** `l` starts with a non-empty run `l[..a]` of `p` characters, then the
      non-empty whitespace `l[a..b]`, then the unit word at `b`. */
  ghost predicate HeadSplit(l: string, a: nat, b: nat, u: Unit, p: char -> bool) {
    && 0 < a < b <= |l| && AllIn(l, 0, a, p) && AllIn(l, a, b, IsSpace)
    && OccursAt(UnitWord(u), l, b)
  }

  /** After a unit word ending at `w`: an optional plural `s` ending at `c`,
      the non-empty whitespace `l[c..e]`, then `ago`. */
  ghost predicate AgoTail(l: string, w: nat, c: nat, e: nat) {
    && (c == w || (c == w + 1 && w < |l| && l[w] == 's'))
    && c < e <= |l| && AllIn(l, c, e, IsSpace)
    && AgoAt(l, e)
  }

  /** `l` has the relative shape at its start: the amount `l[..a]`, the
      whitespace `l[a..b]`, the unit word at `b`, an optional plural `s`
      ending at `c`, the whitespace `l[c..e]`, then `ago`. */
  ghost predicate AgoSplit(l: string, a: nat, u: Unit, b: nat, c: nat, e: nat) {
    HeadSplit(l, a, b, u, IsAmountChar) && AgoTail(l, b + |UnitWord(u)|, c, e)
  }

  /** The word `ago` occurs in `l` at index `e`. */
  predicate AgoAt(l: string, e: nat) {
    OccursAt("ago", l, e)
  }

  /** Where the optional plural `s` after a unit word ending at `w` ends. */
  function PluralEnd(l: string, w: nat): (c: nat)
    requires w <= |l|
    ensures c == w || (c == w + 1 && w < |l| && l[w] == 's')
    ensures c <= |l|
  {
    if w < |l| && l[w] == 's' then w + 1 else w
  }

  ghost predicate AgoShape(l: string, m: AgoMatch) {
    exists a: nat, b: nat, c: nat, e: nat {:trigger AgoSplit(l, a, m.unit, b, c, e)} ::
      AgoSplit(l, a, m.unit, b, c, e) && m.amount == l[..a]
  }

  /** `re.match(r"([\d\.]+)\s+(minute|hour|day|week)s?\s+ago", l)`. The
      character classes of neighbouring items do not overlap, so each greedy
      run has exactly one way to succeed and no backtracking is needed. */
  function MatchAgo(l: string): (r: Option<AgoMatch>)
    ensures r.Some? ==> |r.value.amount| > 0 && AllAmount(r.value.amount)
  {
    var a := RunEnd(l, 0, IsAmountChar);
    var b := RunEnd(l, a, IsSpace);
    if a == 0 || b == a then None
    else
      match UnitAt(l, b)
      case None => None
      case Some(u) =>
        if AgoFollows(l, b + |UnitWord(u)|) then Some(AgoMatch(l[..a], u)) else None
  }

  /** The rest of the relative pattern matches after a unit word ending at
      `w`: the optional plural, whitespace, then `ago`. */
  predicate AgoFollows(l: string, w: nat)
    requires w <= |l|
  {
    var c := PluralEnd(l, w);
    var e := RunEnd(l, c, IsSpace);
    e != c && AgoAt(l, e)
  }

  /** Every string of the relative shape is matched, with those groups. */
  lemma MatchAgoComplete(l: string, a: nat, u: Unit, b: nat, c: nat, e: nat)
    requires AgoSplit(l, a, u, b, c, e)
    ensures MatchAgo(l) == Some(AgoMatch(l[..a], u))
  {
    assert IsSpace(l[a]);
    HeadRuns(l, a, b, u, IsAmountChar);
    AgoFollowsComplete(l, b + |UnitWord(u)|, c, e);
  }

  /** The greedy runs of a head of the given shape end where the shape says,
      and the unit word is the one found there. */
  lemma HeadRuns(l: string, a: nat, b: nat, u: Unit, p: char -> bool)
    requires HeadSplit(l, a, b, u, p) && !p(l[a])
    ensures RunEnd(l, 0, p) == a && RunEnd(l, a, IsSpace) == b && UnitAt(l, b) == Some(u)
  {
    RunEndUnique(l, 0, a, p);
    CharOfOccurrence(UnitWord(u), l, b, 0);
    UnitWordStart(u);
    RunEndUnique(l, a, b, IsSpace);
  }

  /** The unit words start with a lower-case letter. */
  lemma UnitWordStart(u: Unit)
    ensures |UnitWord(u)| > 0 && 'a' <= UnitWord(u)[0] <= 'z'
  {
  }

  /** After a unit word, the optional plural, whitespace and `ago` are
      accepted wherever they occur. */
  lemma AgoFollowsComplete(l: string, w: nat, c: nat, e: nat)
    requires w <= |l| && AgoTail(l, w, c, e)
    ensures AgoFollows(l, w)
  {
    assert IsSpace(l[c]);
    CharOfOccurrence("ago", l, e, 0);
    RunEndUnique(l, c, e, IsSpace);
  }

  /** The matcher accepts exactly the strings of the relative shape. */
  lemma MatchAgoExact(l: string, m: AgoMatch)
    ensures MatchAgo(l) == Some(m) <==> AgoShape(l, m)
  {
    MatchAgoSound(l);
    if AgoShape(l, m) {
      var a: nat, b: nat, c: nat, e: nat :| AgoSplit(l, a, m.unit, b, c, e) && m.amount == l[..a];
      MatchAgoComplete(l, a, m.unit, b, c, e);
    }
  }

  /** What the matcher accepts has the relative shape. */
  lemma MatchAgoSound(l: string)
    ensures MatchAgo(l).Some? ==> AgoShape(l, MatchAgo(l).value)
  {
    var a := RunEnd(l, 0, IsAmountChar);
    var b := RunEnd(l, a, IsSpace);
    if a != 0 && b != a && UnitAt(l, b).Some? {
      var u := UnitAt(l, b).value;
      var w := b + |UnitWord(u)|;
      var c, e := AgoFollowsSound(l, w);
      if AgoFollows(l, w) {
        assert AgoSplit(l, a, u, b, c, e);
      }
    }
  }

  /** What `AgoFollows` accepts completes the relative shape; `c` and `e`
      are where the plural and the whitespace before `ago` end. */
  lemma AgoFollowsSound(l: string, w: nat) returns (c: nat, e: nat)
    requires w <= |l|
    ensures AgoFollows(l, w) ==> AgoTail(l, w, c, e)
  {
    c := PluralEnd(l, w);
    e := RunEnd(l, c, IsSpace);
  }


  /** The groups of a match of `(\d+)\s+(minute|hour|day|week)s?$`. */
  datatype BareMatch = BareMatch(digits: string, unit: Unit)

  /** After a unit word ending at `w`: an optional plural `s` ending at `c`,
      then the end of the string or a final newline (Python's `$` also
      matches just before a trailing `\n`). */
  ghost predicate BareTail(l: string, w: nat, c: nat) {
    && (c == w || (c == w + 1 && w < |l| && l[w] == 's'))
    && (c == |l| || (c == |l| - 1 && l[c] == '\n'))
  }

  /** `l` has the bare shape: the digits `l[..d]`, the whitespace `l[d..b]`,
      the unit word at `b`, an optional plural `s` ending at `c`, then the
      end. */
  ghost predicate BareSplit(l: string, d: nat, u: Unit, b: nat, c: nat) {
    HeadSplit(l, d, b, u, IsDigit) && BareTail(l, b + |UnitWord(u)|, c)
  }

  ghost predicate BareShape(l: string, m: BareMatch) {
    exists d: nat, b: nat, c: nat {:trigger BareSplit(l, d, m.unit, b, c)} ::
      BareSplit(l, d, m.unit, b, c) && m.digits == l[..d]
  }

  /** `re.match(r"(\d+)\s+(minute|hour|day|week)s?$", l)`. */
  function MatchBare(l: string): (r: Option<BareMatch>)
    ensures r.Some? ==> |r.value.digits| > 0 && AllDigits(r.value.digits)
  {
    var d := RunEnd(l, 0, IsDigit);
    var b := RunEnd(l, d, IsSpace);
    if d == 0 || b == d then None
    else
      match UnitAt(l, b)
      case None => None
      case Some(u) =>
        if BareEnds(l, b + |UnitWord(u)|) then Some(BareMatch(l[..d], u)) else None
  }

  /** `s?$` matches after a unit word ending at `w`: the plural is taken when
      the end follows it, and otherwise the end must follow the word. */
  predicate BareEnds(l: string, w: nat)
    requires w <= |l|
  {
    var c := if w < |l| && l[w] == 's' && (w + 1 == |l| || (w + 2 == |l| && l[w + 1] == '\n'))
             then w + 1 else w;
    c == |l| || (c == |l| - 1 && l[c] == '\n')
  }

  /** Every string of the bare shape is matched, with those groups. */
  lemma MatchBareComplete(l: string, d: nat, u: Unit, b: nat, c: nat)
    requires BareSplit(l, d, u, b, c)
    ensures MatchBare(l) == Some(BareMatch(l[..d], u))
  {
    assert IsSpace(l[d]);
    HeadRuns(l, d, b, u, IsDigit);
    assert BareEnds(l, b + |UnitWord(u)|);
  }

  /** What the bare matcher accepts has the bare shape. */
  lemma MatchBareSound(l: string)
    ensures MatchBare(l).Some? ==> BareShape(l, MatchBare(l).value)
  {
    var d := RunEnd(l, 0, IsDigit);
    var b := RunEnd(l, d, IsSpace);
    if d != 0 && b != d && UnitAt(l, b).Some? {
      var u := UnitAt(l, b).value;
      var w := b + |UnitWord(u)|;
      var c := if w < |l| && l[w] == 's' && (w + 1 == |l| || (w + 2 == |l| && l[w + 1] == '\n'))
               then w + 1 else w;
      if BareEnds(l, w) {
        assert BareSplit(l, d, u, b, c);
      }
    }
  }

  /** The bare matcher accepts exactly the strings of the bare shape. */
  lemma MatchBareExact(l: string, m: BareMatch)
    ensures MatchBare(l) == Some(m) <==> BareShape(l, m)
  {
    MatchBareSound(l);
    if BareShape(l, m) {
      var d: nat, b: nat, c: nat :| BareSplit(l, d, m.unit, b, c) && m.digits == l[..d];
      MatchBareComplete(l, d, m.unit, b, c);
    }
  }


  /** A decimal number `digits / 10^scale`. */
  datatype Decimal = Decimal(digits: nat, scale: nat)

  /** Which strings of digits and dots Python's `float(a)` accepts (at most
      one dot and at least one digit, otherwise `ValueError`), with the value
      read as an exact decimal. `float` rounds that value to the nearest
      double, which this reading does not do. */
  function ParseAmount(a: string): (r: Option<Decimal>)
    requires AllAmount(a)
    ensures |a| > 0 && AllDigits(a) ==> r == Some(Decimal(DigitsValue(a), 0))
    ensures forall k :: 0 <= k < |a| && a[k] == '.' && AllDigits(a[..k]) && AllDigits(a[k + 1..]) ==>
              r == (if |a| == 1 then None else Some(Decimal(DigitsValue(a[..k] + a[k + 1..]), |a| - k - 1)))
    ensures (exists j, k :: 0 <= j < k < |a| && a[j] == '.' && a[k] == '.') ==> r == None
  {
    var i := RunEnd(a, 0, IsDigit);
    assert AllDigits(a[..i]);
    if i == |a| then
      assert a[..i] == a;
      if i > 0 then Some(Decimal(DigitsValue(a), 0)) else None
    else
      assert a[i] == '.';
      var frac := a[i + 1..];
      forall k | i < k <= |a|
        ensures !AllDigits(a[..k])
      {
        assert a[..k][i] == '.';
      }
      if !AllDigits(frac) then
        None
      else if i == 0 && |frac| == 0 then
        None
      else
        Some(Decimal(DigitsValue(a[..i] + frac), |frac|))
  }

  /** `n / d` rounded to the nearest integer, ties to even (how `timedelta`
      rounds a fractional number of microseconds). */
  function RoundHalfEven(n: nat, d: nat): (q: nat)
    requires d > 0
    ensures 2 * n - d <= 2 * q * d <= 2 * n + d
    ensures 2 * q * d == 2 * n - d || 2 * q * d == 2 * n + d ==> q % 2 == 0
  {
    var q, r := n / d, n % d;
    RoundCandidates(n, d, q, r);
    if 2 * r > d || (2 * r == d && q % 2 == 1) then q + 1 else q
  }

  /** The two candidates for a rounded quotient, against the exact one. */
  lemma RoundCandidates(n: int, d: int, q: int, r: int)
    requires d > 0 && n == q * d + r && 0 <= r < d
    ensures 2 * q * d == 2 * n - 2 * r
    ensures 2 * (q + 1) * d == 2 * n + 2 * d - 2 * r
  {
  }

  /** `timedelta(<unit>s=amount)`, in microseconds. */
  function Delta(amount: Decimal, u: Unit): (d: nat) {
    RoundHalfEven(amount.digits * UnitMicros(u), Pow10(amount.scale))
  }

  /** A whole amount needs no rounding: `timedelta(<unit>s=n)` is `n` units. */
  lemma DeltaWhole(n: nat, u: Unit)
    ensures Delta(Decimal(n, 0), u) == Units(n, u)
  {
    var x := n * UnitMicros(u);
    var q := RoundHalfEven(x, 1);
    assert 2 * x - 1 <= 2 * q <= 2 * x + 1;
  }

  /** `now - delta`, or `None` for the `OverflowError` of leaving the
      `datetime` range. */
  function Before(now: Instant, delta: nat): (r: Option<Instant>)
    ensures r.Some? ==> r.value == now - delta
    ensures InRange(now - delta) ==> r.Some?
  {
    if InRange(now - delta) then Some(now - delta) else None
  }

  /** Lines 57-62: a naive reading is taken as UTC, an aware one is converted
      to UTC (which can overflow), then the microseconds are dropped. */
  function ToUtcSecond(dt: ParsedTime): (r: Option<Instant>)
    ensures dt.Naive? ==> r == Some(TruncateToSecond(dt.wall))
    ensures dt.Aware? && InRange(dt.wall - dt.offset) ==>
              r == Some(TruncateToSecond(dt.wall - dt.offset))
    ensures dt.Aware? && !InRange(dt.wall - dt.offset) ==> r == None
  {
    match dt
    case Naive(w) => Some(TruncateToSecond(w))
    case Aware(w, off) =>
      if InRange(w - off) then Some(TruncateToSecond(w - off)) else None
  }

  /** The five cases, tried in this order. */
  datatype Form =
    | RssForm                 // contains both "," and "+"
    | IstForm                 // contains "IST"
    | AgoForm(ago: AgoMatch)    // "N unit(s) ago", any case, N may have a decimal point
    | BareForm(bare: BareMatch)  // "N unit(s)" and nothing after, any case
    | OtherForm

  function Classify(s: string): (f: Form)
    ensures f.AgoForm? ==> AllAmount(f.ago.amount)
    ensures f.BareForm? ==> AllDigits(f.bare.digits)
  {
    if ',' in s && '+' in s then RssForm
    else if IsSubstring("IST", s) then IstForm
    else if MatchAgo(Lower(s)).Some? then AgoForm(MatchAgo(Lower(s)).value)
    else if MatchBare(Lower(s)).Some? then BareForm(MatchBare(Lower(s)).value)
    else OtherForm
  }

  /** The whole-second UTC instant `normalize_date(s)` renders, or `None` when
      it returns "". */
  function NormalizeInstant(s: string, now: Instant,
                            parse: string -> Option<ParsedTime>): (r: Option<Instant>)
    // Every result has a zero microsecond field, and the relative forms
    // never give an instant after `now`.
    ensures r.Some? ==> r.value % MicrosPerSecond == 0
    ensures (Classify(s).AgoForm? || Classify(s).BareForm?) && r.Some? ==> r.value <= now
  {
    match Classify(s)
    case RssForm => ParseToUtc(parse(s))
    case IstForm => ParseToUtc(parse(ReplaceAll(s, "IST", "+05:30")))
    case AgoForm(m) => AgoInstant(m, now)
    case BareForm(m) => BareInstant(m, now)
    case OtherForm => ParseToUtc(parse(s))
  }

  /** Lines 24-41: `now - timedelta(<unit>s=float(amount))`, or `None` when
      the amount is not a number or the result leaves the `datetime` range. */
  function AgoInstant(m: AgoMatch, now: Instant): (r: Option<Instant>)
    requires AllAmount(m.amount)
    ensures r.Some? ==> r.value <= now && r.value % MicrosPerSecond == 0
  {
    match ParseAmount(m.amount)
    case None => None
    case Some(amount) => RelativeToUtc(Before(now, Delta(amount, m.unit)))
  }

  /** Lines 43-50: `now - timedelta(<unit>s=int(digits))`. */
  function BareInstant(m: BareMatch, now: Instant): (r: Option<Instant>)
    requires AllDigits(m.digits)
    ensures r.Some? ==> r.value <= now && r.value % MicrosPerSecond == 0
  {
    RelativeToUtc(Before(now, Units(DigitsValue(m.digits), m.unit)))
  }

  function ParseToUtc(dt: Option<ParsedTime>): (r: Option<Instant>)
    ensures r.Some? ==> r.value % MicrosPerSecond == 0
  {
    match dt
    case None => None
    case Some(p) => ToUtcSecond(p)
  }

  /** A relative result is already UTC; only its microseconds are dropped. */
  function RelativeToUtc(t: Option<Instant>): Option<Instant> {
    match t
    case None => None
    case Some(v) => Some(TruncateToSecond(v))
  }

  /** `normalize_date(date_str)`: the ISO 8601 UTC rendering, or "" for any
      failure. */
  function NormalizeDate(s: string, now: Instant, parse: string -> Option<ParsedTime>): (r: string)
    ensures NormalizeInstant(s, now, parse).None? <==> r == ""
    ensures r != "" ==> |r| == 25 && r[19..] == "+00:00"
    ensures r != "" ==> r == IsoFormat(NormalizeInstant(s, now, parse).value)
  {
    match NormalizeInstant(s, now, parse)
    case None => ""
    case Some(t) =>
      assert t % MicrosPerSecond == 0;
      IsoFormatWholeSecond(t);
      IsoFormat(t)
  }

  /** The dispatch order of lines 14-54: which reading of `s` decides the
      result. */
  lemma DispatchOrder(s: string, now: Instant, parse: string -> Option<ParsedTime>)
    ensures ',' in s && '+' in s ==>
              NormalizeInstant(s, now, parse) == ParseToUtc(parse(s))
    ensures !(',' in s && '+' in s) && IsSubstring("IST", s) ==>
              NormalizeInstant(s, now, parse) == ParseToUtc(parse(ReplaceAll(s, "IST", "+05:30")))
    ensures !(',' in s && '+' in s) && !IsSubstring("IST", s) && MatchAgo(Lower(s)).Some? ==>
              NormalizeInstant(s, now, parse) == AgoInstant(MatchAgo(Lower(s)).value, now)
    ensures !(',' in s && '+' in s) && !IsSubstring("IST", s)
            && MatchAgo(Lower(s)).None? && MatchBare(Lower(s)).Some? ==>
              NormalizeInstant(s, now, parse) == BareInstant(MatchBare(Lower(s)).value, now)
    ensures !(',' in s && '+' in s) && !IsSubstring("IST", s)
            && MatchAgo(Lower(s)).None? && MatchBare(Lower(s)).None? ==>
              NormalizeInstant(s, now, parse) == ParseToUtc(parse(s))
  {
  }

  /** The relative forms do not consult the parser. */
  lemma RelativeIgnoresParser(s: string, now: Instant,
                              p1: string -> Option<ParsedTime>, p2: string -> Option<ParsedTime>)
    requires Classify(s).AgoForm? || Classify(s).BareForm?
    ensures NormalizeInstant(s, now, p1) == NormalizeInstant(s, now, p2)
  {
  }

  /** `now - n` units, truncated to the second, or `None` past year 1. */
  function Ago(now: Instant, n: nat, u: Unit): Option<Instant> {
    if InRange(now - Units(n, u)) then Some(TruncateToSecond(now - Units(n, u))) else None
  }

  /** Text with no ",", "+" or capital letter reaches the relative cases,
      unchanged by lower-casing. */
  lemma ReachesRelative(s: string)
    requires forall i :: 0 <= i < |s| ==> s[i] != ',' && !('A' <= s[i] <= 'Z')
    ensures !(',' in s && '+' in s) && !IsSubstring("IST", s)
    ensures Lower(s) == s
  {
    forall i | 0 <= i <= |s| - 3
      ensures !OccursAt("IST", s, i)
    {
      assert s[i..i + 3][0] == s[i];
    }
  }

  /** The plural ending, when there is one. */
  function Plural(plural: bool): string {
    if plural then "s" else ""
  }

  /** The rendered bare phrase `str(n) + " " + word + sfx`. */
  function BarePhrase(n: nat, u: Unit, plural: bool): string {
    NatToString(n) + (" " + (UnitWord(u) + Plural(plural)))
  }

  /** The rendered relative phrase `str(n) + " " + word + sfx + " ago"`. */
  function AgoPhrase(n: nat, u: Unit, plural: bool): string {
    BarePhrase(n, u, plural) + " ago"
  }

  /** Where the parts of `digits + " " + word + sfx` sit. */
  lemma Layout(digits: string, word: string, sfx: string)
    requires AllDigits(digits)
    ensures var s, d := digits + (" " + (word + sfx)), |digits|;
      && |s| == d + 1 + |word| + |sfx|
      && s[..d] == digits
      && AllIn(s, 0, d, IsDigit) && AllIn(s, 0, d, IsAmountChar)
      && s[d] == ' '
      && OccursAt(word, s, d + 1)
      && (|sfx| > 0 ==> s[d + 1 + |word|] == sfx[0])
  {
    var t2 := word + sfx;
    var t1 := " " + t2;
    var s := digits + t1;
    OccursAtExtend(word, word, sfx, 0);
    OccursAtConcat(word, " ", t2, 0);
    OccursAtConcat(word, digits, t1, 1);
    assert s[|digits|] == t1[0];
    assert |sfx| > 0 ==> s[|digits| + 1 + |word|] == t1[1 + |word|] == t2[|word|];
    assert forall k :: 0 <= k < |digits| ==> s[k] == digits[k];
  }

  /** Where the parts of a rendered bare phrase sit. */
  lemma BarePhraseLayout(n: nat, u: Unit, plural: bool)
    ensures var s, d, w := BarePhrase(n, u, plural), |NatToString(n)|, UnitWord(u);
      && |s| == d + 1 + |w| + |Plural(plural)|
      && s[..d] == NatToString(n)
      && AllIn(s, 0, d, IsDigit) && AllIn(s, 0, d, IsAmountChar)
      && s[d] == ' '
      && OccursAt(w, s, d + 1)
      && (plural ==> s[d + 1 + |w|] == 's')
  {
    Layout(NatToString(n), UnitWord(u), Plural(plural));
  }

  /** A prefix of `x` is a prefix of `x + y`. */
  lemma PrefixOfConcat(x: string, y: string, k: nat)
    requires k <= |x|
    ensures (x + y)[..k] == x[..k]
  {
  }

  /** A run inside `x` is a run inside `x + y`. */
  lemma AllInConcat(x: string, y: string, i: nat, j: nat, p: char -> bool)
    requires i <= j <= |x| && AllIn(x, i, j, p)
    ensures AllIn(x + y, i, j, p)
  {
    assert forall k :: i <= k < j ==> (x + y)[k] == x[k];
  }

  /** The bare pattern matches a rendered phrase, with the digits and the
      unit as its groups. */
  lemma BarePhraseMatches(n: nat, u: Unit, plural: bool)
    ensures MatchBare(BarePhrase(n, u, plural)) == Some(BareMatch(NatToString(n), u))
  {
    var s, d := BarePhrase(n, u, plural), |NatToString(n)|;
    BarePhraseLayout(n, u, plural);
    assert BareSplit(s, d, u, d + 1, |s|);
    MatchBareComplete(s, d, u, d + 1, |s|);
  }

  /** Appending " ago" to a string laid out like a bare phrase gives the
      relative shape. */
  lemma AgoSplitOfBare(bare: string, d: nat, u: Unit, plural: bool)
    requires |bare| == d + 1 + |UnitWord(u)| + |Plural(plural)|
    requires AllIn(bare, 0, d, IsAmountChar) && 0 < d
    requires bare[d] == ' '
    requires OccursAt(UnitWord(u), bare, d + 1)
    requires plural ==> bare[d + 1 + |UnitWord(u)|] == 's'
    ensures AgoSplit(bare + " ago", d, u, d + 1, |bare|, |bare| + 1)
  {
    var s := bare + " ago";
    var w := UnitWord(u);
    AllInConcat(bare, " ago", 0, d, IsAmountChar);
    OccursAtExtend(w, bare, " ago", d + 1);
    assert OccursAt("ago", " ago", 1);
    OccursAtConcat("ago", bare, " ago", 1);
    assert s[d] == bare[d];
    assert plural ==> s[d + 1 + |w|] == bare[d + 1 + |w|];
  }

  /** The relative pattern matches a string laid out like a bare phrase
      followed by " ago", with the leading amount and the unit as groups. */
  lemma AgoOfBare(bare: string, d: nat, u: Unit, plural: bool)
    requires |bare| == d + 1 + |UnitWord(u)| + |Plural(plural)|
    requires AllIn(bare, 0, d, IsAmountChar) && 0 < d
    requires bare[d] == ' '
    requires OccursAt(UnitWord(u), bare, d + 1)
    requires plural ==> bare[d + 1 + |UnitWord(u)|] == 's'
    ensures MatchAgo(bare + " ago") == Some(AgoMatch(bare[..d], u))
  {
    AgoSplitOfBare(bare, d, u, plural);
    PrefixOfConcat(bare, " ago", d);
    MatchAgoComplete(bare + " ago", d, u, d + 1, |bare|, |bare| + 1);
  }

  /** The relative pattern matches a rendered phrase, with the digits and
      the unit as its groups. */
  lemma AgoPhraseMatches(n: nat, u: Unit, plural: bool)
    ensures MatchAgo(AgoPhrase(n, u, plural)) == Some(AgoMatch(NatToString(n), u))
  {
    BarePhraseLayout(n, u, plural);
    AgoOfBare(BarePhrase(n, u, plural), |NatToString(n)|, u, plural);
  }

  /** Lower-case text without a comma is decided by the relative patterns
      when one of them matches. */
  lemma RelativeDispatch(s: string, now: Instant, parse: string -> Option<ParsedTime>)
    requires forall i :: 0 <= i < |s| ==> s[i] != ',' && !('A' <= s[i] <= 'Z')
    ensures MatchAgo(s).Some? ==> NormalizeInstant(s, now, parse) == AgoInstant(MatchAgo(s).value, now)
    ensures MatchAgo(s).None? && MatchBare(s).Some? ==>
              NormalizeInstant(s, now, parse) == BareInstant(MatchBare(s).value, now)
  {
    ReachesRelative(s);
  }

  /** "N minutes ago", "N hour ago", ... with a whole number N gives
      `now - N * unit`, truncated to the second. */
  lemma IntegerAgo(n: nat, u: Unit, plural: bool, now: Instant, parse: string -> Option<ParsedTime>)
    ensures NormalizeInstant(AgoPhrase(n, u, plural), now, parse) == Ago(now, n, u)
  {
    var s := AgoPhrase(n, u, plural);
    WordChars(u);
    assert s == NatToString(n) + (" " + (UnitWord(u) + (Plural(plural) + " ago")));
    RenderedChars(s, NatToString(n), UnitWord(u), Plural(plural) + " ago");
    RelativeDispatch(s, now, parse);
    AgoPhraseMatches(n, u, plural);
    AgoInstantOf(n, u, now);
  }

  /** A rendered whole number reads back as itself in the relative form. */
  lemma AgoInstantOf(n: nat, u: Unit, now: Instant)
    ensures AgoInstant(AgoMatch(NatToString(n), u), now) == Ago(now, n, u)
  {
    assert ParseAmount(NatToString(n)) == Some(Decimal(n, 0));
    DeltaWhole(n, u);
  }

  /** "N minutes", "N hour", ... (the bare form) gives `now - N * unit`,
      truncated to the second. */
  lemma IntegerBare(n: nat, u: Unit, plural: bool, now: Instant, parse: string -> Option<ParsedTime>)
    ensures NormalizeInstant(BarePhrase(n, u, plural), now, parse) == Ago(now, n, u)
  {
    var s := BarePhrase(n, u, plural);
    WordChars(u);
    RenderedChars(s, NatToString(n), UnitWord(u), Plural(plural));
    RelativeDispatch(s, now, parse);
    BarePhraseMatches(n, u, plural);
    NoAgoWithoutG(s);
    BareInstantOf(n, u, now);
  }

  /** A rendered whole number reads back as itself in the bare form. */
  lemma BareInstantOf(n: nat, u: Unit, now: Instant)
    ensures BareInstant(BareMatch(NatToString(n), u), now) == Ago(now, n, u)
  {
    assert DigitsValue(NatToString(n)) == n;
  }

  /** The unit words are lower-case and have no `g`. */
  lemma WordChars(u: Unit)
    ensures forall i :: 0 <= i < |UnitWord(u)| ==> 'a' <= UnitWord(u)[i] <= 'z' && UnitWord(u)[i] != 'g'
  {
  }

  /** The characters of a rendered phrase `digits + " " + word + tail`:
      digits, spaces and lower-case letters, with a `g` only where `tail`
      has one. */
  lemma RenderedChars(s: string, digits: string, word: string, tail: string)
    requires s == digits + (" " + (word + tail))
    requires AllDigits(digits)
    requires forall i :: 0 <= i < |word| ==> 'a' <= word[i] <= 'z' && word[i] != 'g'
    requires forall i :: 0 <= i < |tail| ==> tail[i] == ' ' || 'a' <= tail[i] <= 'z'
    ensures forall i :: 0 <= i < |s| ==> s[i] != ',' && !('A' <= s[i] <= 'Z')
    ensures (forall i :: 0 <= i < |tail| ==> tail[i] != 'g') ==> forall i :: 0 <= i < |s| ==> s[i] != 'g'
  {
    var t2 := word + tail;
    var t1 := " " + t2;
    forall i | 0 <= i < |s|
      ensures s[i] != ',' && !('A' <= s[i] <= 'Z')
      ensures (forall i :: 0 <= i < |tail| ==> tail[i] != 'g') ==> s[i] != 'g'
    {
      if i < |digits| {
        assert s[i] == digits[i];
      } else if i > |digits| {
        var j := i - |digits| - 1;
        assert s[i] == t1[j + 1] == t2[j];
        if j >= |word| {
          assert t2[j] == tail[j - |word|];
        }
      }
    }
  }

  /** A string without the letter `g` cannot contain "ago", so the relative
      pattern does not match it. */
  lemma NoAgoWithoutG(s: string)
    requires forall i :: 0 <= i < |s| ==> s[i] != 'g'
    ensures MatchAgo(s).None?
  {
    MatchAgoSound(s);
    if MatchAgo(s).Some? {
      var m := MatchAgo(s).value;
      var a: nat, b: nat, c: nat, e: nat :| AgoSplit(s, a, m.unit, b, c, e) && m.amount == s[..a];
      CharOfOccurrence("ago", s, e, 1);
    }
  }

}
