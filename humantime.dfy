/**
 * The duration-to-English formatter of `src/humantime.rs`: the unit-chunk type
 * `TimePeriod` with its two rendering tables, the rough bucket selector, the
 * precise cascading splitter, tense derivation, and the joiner that wraps the
 * joined text by tense.
 */
module Humantime {
  import opened Wrappers
  import opened Numerals
  import opened Spans

  /** When the period lies relative to the moment of utterance. */
  datatype Tense = Past | Present | Future

  datatype Accuracy = Rough | Precise

  // Seconds in the time periods the rough table uses: a month is 30 days, a year 365.
  const S_MINUTE: int := 60
  const S_HOUR: int := S_MINUTE * 60
  const S_DAY: int := S_HOUR * 24
  const S_WEEK: int := S_DAY * 7
  const S_MONTH: int := S_DAY * 30
  const S_YEAR: int := S_DAY * 365

  /** The period lengths in seconds, as numbers. */
  lemma PeriodSeconds()
    ensures S_HOUR == 3_600 && S_DAY == 86_400 && S_WEEK == 604_800
    ensures S_MONTH == 2_592_000 && S_YEAR == 31_536_000
  {
  }

  const DAYS_IN_YEAR: int := 365
  const DAYS_IN_MONTH: int := 30

  /** One unit-chunk of the output. Counts never carry a sign. */
  datatype TimePeriod =
    | Now
    | Nanos(n: nat)
    | Micros(n: nat)
    | Millis(n: nat)
    | Seconds(n: nat)
    | Minutes(n: nat)
    | Hours(n: nat)
    | Days(n: nat)
    | Weeks(n: nat)
    | Months(n: nat)
    | Years(n: nat)
    | Eternity

  /** The count of a unit-chunk; `Now` and `Eternity` count nothing. */
  function Count(p: TimePeriod): nat {
    if p.Now? || p.Eternity? then 0 else p.n
  }

  /** Position of a unit in the order from the smallest to the largest. */
  function Rank(p: TimePeriod): nat {
    match p
    case Now => 0
    case Nanos(_) => 1
    case Micros(_) => 2
    case Millis(_) => 3
    case Seconds(_) => 4
    case Minutes(_) => 5
    case Hours(_) => 6
    case Days(_) => 7
    case Weeks(_) => 8
    case Months(_) => 9
    case Years(_) => 10
    case Eternity => 11
  }

  /** Rendering for the precise accuracy: always a number. */
  function ToTextPrecise(p: TimePeriod): string {
    match p
    case Now => "now"
    case Nanos(n) => NatToString(n) + " ns"
    case Micros(n) => NatToString(n) + " µs"
    case Millis(n) => NatToString(n) + " ms"
    case Seconds(n) => if n == 1 then "1 second" else NatToString(n) + " seconds"
    case Minutes(n) => if n == 1 then "1 minute" else NatToString(n) + " minutes"
    case Hours(n) => if n == 1 then "1 hour" else NatToString(n) + " hours"
    case Days(n) => if n == 1 then "1 day" else NatToString(n) + " days"
    case Weeks(n) => if n == 1 then "1 week" else NatToString(n) + " weeks"
    case Months(n) => if n == 1 then "1 month" else NatToString(n) + " months"
    case Years(n) => if n == 1 then "1 year" else NatToString(n) + " years"
    case Eternity => "eternity"
  }

  /** Rendering for the rough accuracy: an article for a single minute and up. */
  function ToTextRough(p: TimePeriod): string {
    match p
    case Now => "now"
    case Nanos(n) => NatToString(n) + " ns"
    case Micros(n) => NatToString(n) + " µs"
    case Millis(n) => NatToString(n) + " ms"
    case Seconds(n) => NatToString(n) + " seconds"
    case Minutes(n) => if n == 1 then "a minute" else NatToString(n) + " minutes"
    case Hours(n) => if n == 1 then "an hour" else NatToString(n) + " hours"
    case Days(n) => if n == 1 then "a day" else NatToString(n) + " days"
    case Weeks(n) => if n == 1 then "a week" else NatToString(n) + " weeks"
    case Months(n) => if n == 1 then "a month" else NatToString(n) + " months"
    case Years(n) => if n == 1 then "a year" else NatToString(n) + " years"
    case Eternity => "eternity"
  }

  function ToText(p: TimePeriod, accuracy: Accuracy): string {
    match accuracy
    case Rough => ToTextRough(p)
    case Precise => ToTextPrecise(p)
  }

  /** The wrapper around a span that is expressed in words. */
  datatype HumanTime = HumanTime(span: Span)

  predicate IsZeroTime(ht: HumanTime) {
    IsZero(ht.span)
  }

  // ---------------------------------------------------------------------------
  // Rough accuracy

  /** `span.total(Unit::Second).abs() as i64`: whole seconds of the magnitude. */
  function TotalSeconds(s: Span): (n: nat)
    ensures n * NANOS_PER_SECOND <= Abs(TotalNanos(s)) < (n + 1) * NANOS_PER_SECOND
  {
    Abs(TotalNanos(s)) / NANOS_PER_SECOND
  }

  /** The threshold table, largest bucket first; the first row that holds wins. */
  function RoughBucket(n: int): TimePeriod {
    if n > 547 * S_DAY then Years(Max(n / S_YEAR, 2))
    else if n > 345 * S_DAY then Years(1)
    else if n > 45 * S_DAY then Months(Max(n / S_MONTH, 2))
    else if n > 29 * S_DAY then Months(1)
    else if n > 10 * S_DAY + 12 * S_HOUR then Weeks(Max(n / S_WEEK, 2))
    else if n > 6 * S_DAY + 12 * S_HOUR then Weeks(1)
    else if n > 36 * S_HOUR then Days(Max(n / S_DAY, 2))
    else if n > 22 * S_HOUR then Days(1)
    else if n > 90 * S_MINUTE then Hours(Max(n / S_HOUR, 2))
    else if n > 45 * S_MINUTE then Hours(1)
    else if n > 90 then Minutes(Max(n / S_MINUTE, 2))
    else if n > 45 then Minutes(1)
    else if n > 10 then Seconds(n)
    else if 0 <= n then Now
    else Eternity
  }

  /** Exactly one period, and never the fallback `Eternity`. */
  function RoughPeriod(ht: HumanTime): (r: seq<TimePeriod>)
    ensures |r| == 1 && r[0] != Eternity
  {
    [RoughBucket(TotalSeconds(ht.span))]
  }

  // ---------------------------------------------------------------------------
  // Tense

  /** Rough accuracy calls anything under 11 seconds the present; otherwise the
      sign of the span decides. */
  function TenseOf(ht: HumanTime, accuracy: Accuracy): Tense {
    if accuracy == Rough && Abs(TotalNanos(ht.span)) < 11 * NANOS_PER_SECOND then Present
    else if CompareToZero(ht.span) == Greater then Future
    else if CompareToZero(ht.span) == Less then Past
    else Present
  }

  // ---------------------------------------------------------------------------
  // Precise accuracy: the cascading splitter

  /** A whole-unit count, or nothing when it is zero. */
  function Positive(k: nat): Option<nat> {
    if k > 0 then Some(k) else None
  }

  /** The count extracted by a split, zero when nothing was extracted. */
  function Extracted(o: Option<nat>): nat {
    if o.Some? then o.value else 0
  }

  /** Strips the sign from the count and drops a zero count. */
  function NormalizeSplit(wholes: int, reminder: Span): (r: (Option<nat>, HumanTime))
    ensures r.0 == None <==> wholes == 0
    ensures r.0.Some? ==> r.0.value > 0 && (r.0.value == wholes || r.0.value == -wholes)
    ensures r.1.span == reminder
  {
    (Positive(Abs(wholes)), HumanTime(reminder))
  }

  /** Whole 365-day years carved out of the days component. */
  function SplitYears(ht: HumanTime): (r: (Option<nat>, HumanTime))
    ensures r.0 == Positive(Abs(ht.span.days) / DAYS_IN_YEAR)
    ensures Abs(r.1.span.days) == Abs(ht.span.days) % DAYS_IN_YEAR
    ensures ht.span.days >= 0 ==> r.1.span.days >= 0
    ensures ht.span.days <= 0 ==> r.1.span.days <= 0
    ensures r.1.span == ht.span.(days := r.1.span.days)
    ensures SameSign(ht.span) ==> SameSign(r.1.span)
  {
    var years := TruncDiv(ht.span.days, DAYS_IN_YEAR);
    TruncDivMagnitude(ht.span.days, DAYS_IN_YEAR);
    NormalizeSplit(years, Sub(ht.span, FromDays(years * DAYS_IN_YEAR)))
  }

  /** Whole 30-day months carved out of the days component. */
  function SplitMonths(ht: HumanTime): (r: (Option<nat>, HumanTime))
    ensures r.0 == Positive(Abs(ht.span.days) / DAYS_IN_MONTH)
    ensures Abs(r.1.span.days) == Abs(ht.span.days) % DAYS_IN_MONTH
    ensures ht.span.days >= 0 ==> r.1.span.days >= 0
    ensures ht.span.days <= 0 ==> r.1.span.days <= 0
    ensures r.1.span == ht.span.(days := r.1.span.days)
    ensures SameSign(ht.span) ==> SameSign(r.1.span)
  {
    var months := TruncDiv(ht.span.days, DAYS_IN_MONTH);
    TruncDivMagnitude(ht.span.days, DAYS_IN_MONTH);
    NormalizeSplit(months, Sub(ht.span, FromDays(months * DAYS_IN_MONTH)))
  }

  function SplitWeeks(ht: HumanTime): (r: (Option<nat>, HumanTime))
    ensures r.0 == Positive(Abs(ht.span.weeks))
    ensures r.1.span == ht.span.(weeks := 0)
  {
    NormalizeSplit(ht.span.weeks, Sub(ht.span, FromWeeks(ht.span.weeks)))
  }

  function SplitDays(ht: HumanTime): (r: (Option<nat>, HumanTime))
    ensures r.0 == Positive(Abs(ht.span.days))
    ensures r.1.span == ht.span.(days := 0)
  {
    NormalizeSplit(ht.span.days, Sub(ht.span, FromDays(ht.span.days)))
  }

  function SplitHours(ht: HumanTime): (r: (Option<nat>, HumanTime))
    ensures r.0 == Positive(Abs(ht.span.hours))
    ensures r.1.span == ht.span.(hours := 0)
  {
    NormalizeSplit(ht.span.hours, Sub(ht.span, FromHours(ht.span.hours)))
  }

  function SplitMinutes(ht: HumanTime): (r: (Option<nat>, HumanTime))
    ensures r.0 == Positive(Abs(ht.span.minutes))
    ensures r.1.span == ht.span.(minutes := 0)
  {
    NormalizeSplit(ht.span.minutes, Sub(ht.span, FromMinutes(ht.span.minutes)))
  }

  function SplitSeconds(ht: HumanTime): (r: (Option<nat>, HumanTime))
    ensures r.0 == Positive(Abs(ht.span.seconds))
    ensures r.1.span == ht.span.(seconds := 0)
  {
    NormalizeSplit(ht.span.seconds, Sub(ht.span, FromSeconds(ht.span.seconds)))
  }

  function SplitMilliseconds(ht: HumanTime): (r: (Option<nat>, HumanTime))
    ensures r.0 == Positive(Abs(ht.span.millis))
    ensures r.1.span == ht.span.(millis := 0)
  {
    NormalizeSplit(ht.span.millis, Sub(ht.span, FromMillis(ht.span.millis)))
  }

  function SplitMicroseconds(ht: HumanTime): (r: (Option<nat>, HumanTime))
    ensures r.0 == Positive(Abs(ht.span.micros))
    ensures r.1.span == ht.span.(micros := 0)
  {
    NormalizeSplit(ht.span.micros, Sub(ht.span, FromMicros(ht.span.micros)))
  }

  function SplitNanoseconds(ht: HumanTime): (r: (Option<nat>, HumanTime))
    ensures r.0 == Positive(Abs(ht.span.nanos))
    ensures r.1.span == ht.span.(nanos := 0)
  {
    NormalizeSplit(ht.span.nanos, Sub(ht.span, FromNanos(ht.span.nanos)))
  }

  /** A chunk survives only when its count is not zero. */
  function Keep(p: TimePeriod): seq<TimePeriod> {
    if Count(p) > 0 then [p] else []
  }

  /** The number of units the precise splitter goes through. */
  const UNITS := 10

  /** The chunk for unit `i` of the table, from years (0) down to nanoseconds (9). */
  function UnitPeriod(i: nat, n: nat): (p: TimePeriod)
    requires i < UNITS
    ensures Count(p) == n && Rank(p) == UNITS - i
  {
    if i == 0 then Years(n)
    else if i == 1 then Months(n)
    else if i == 2 then Weeks(n)
    else if i == 3 then Days(n)
    else if i == 4 then Hours(n)
    else if i == 5 then Minutes(n)
    else if i == 6 then Seconds(n)
    else if i == 7 then Millis(n)
    else if i == 8 then Micros(n)
    else Nanos(n)
  }

  /** The split for unit `i` of the table. */
  function SplitUnit(ht: HumanTime, i: nat): (Option<nat>, HumanTime)
    requires i < UNITS
  {
    if i == 0 then SplitYears(ht)
    else if i == 1 then SplitMonths(ht)
    else if i == 2 then SplitWeeks(ht)
    else if i == 3 then SplitDays(ht)
    else if i == 4 then SplitHours(ht)
    else if i == 5 then SplitMinutes(ht)
    else if i == 6 then SplitSeconds(ht)
    else if i == 7 then SplitMilliseconds(ht)
    else if i == 8 then SplitMicroseconds(ht)
    else SplitNanoseconds(ht)
  }

  /** The count of unit `i` in the span, with years and months carved out of the
      magnitude of the days component at 365 and 30 days. */
  function UnitCount(s: Span, i: nat): nat
    requires i < UNITS
  {
    var d := Abs(s.days);
    if i == 0 then d / DAYS_IN_YEAR
    else if i == 1 then d % DAYS_IN_YEAR / DAYS_IN_MONTH
    else if i == 2 then Abs(s.weeks)
    else if i == 3 then d % DAYS_IN_YEAR % DAYS_IN_MONTH
    else if i == 4 then Abs(s.hours)
    else if i == 5 then Abs(s.minutes)
    else if i == 6 then Abs(s.seconds)
    else if i == 7 then Abs(s.millis)
    else if i == 8 then Abs(s.micros)
    else Abs(s.nanos)
  }

  function Candidate(s: Span, i: nat): TimePeriod
    requires i < UNITS
  {
    UnitPeriod(i, UnitCount(s, i))
  }

  /** The non-zero chunks among the first `k` units, in table order. */
  function KeptUpTo(s: Span, k: nat): seq<TimePeriod>
    requires k <= UNITS
  {
    if k == 0 then [] else KeptUpTo(s, k - 1) + Keep(Candidate(s, k - 1))
  }

  /** What the precise splitter produces: the non-zero counts, or "0 seconds". */
  function Breakdown(s: Span): seq<TimePeriod> {
    var kept := KeptUpTo(s, UNITS);
    if kept == [] then [Seconds(0)] else kept
  }

  /** `r` is what is left of `s` after the first `i` splits: the units already
      split are empty, the days hold what years and months left over (with the
      sign of the original days), and the other units are untouched. */
  ghost predicate RemainderAfter(r: Span, s: Span, i: nat) {
    var d := Abs(s.days);
    && r.weeks == (if i <= 2 then s.weeks else 0)
    && Abs(r.days) == (if i == 0 then d else if i == 1 then d % DAYS_IN_YEAR
                       else if i <= 3 then d % DAYS_IN_YEAR % DAYS_IN_MONTH else 0)
    && (s.days >= 0 ==> r.days >= 0) && (s.days <= 0 ==> r.days <= 0)
    && r.hours == (if i <= 4 then s.hours else 0)
    && r.minutes == (if i <= 5 then s.minutes else 0)
    && r.seconds == (if i <= 6 then s.seconds else 0)
    && r.millis == (if i <= 7 then s.millis else 0)
    && r.micros == (if i <= 8 then s.micros else 0)
    && r.nanos == (if i <= 9 then s.nanos else 0)
  }

  /** One split takes out exactly the count the table assigns to its unit. */
  lemma SplitUnitStep(ht: HumanTime, r: HumanTime, i: nat)
    requires i < UNITS && RemainderAfter(r.span, ht.span, i)
    ensures SplitUnit(r, i).0 == Positive(UnitCount(ht.span, i))
    ensures SplitUnit(r, i).0.Some? <==> UnitCount(ht.span, i) > 0
    ensures SplitUnit(r, i).0.Some? ==> SplitUnit(r, i).0.value == UnitCount(ht.span, i)
    ensures RemainderAfter(SplitUnit(r, i).1.span, ht.span, i + 1)
  {
    var d := Abs(ht.span.days);
    if i == 0 || i == 1 {
      TruncDivMagnitude(r.span.days, if i == 0 then DAYS_IN_YEAR else DAYS_IN_MONTH);
    }
    if i == 1 {
      assert d % DAYS_IN_YEAR % DAYS_IN_MONTH < DAYS_IN_MONTH;
    }
  }

  /** Peels the unit counts off the span one split at a time, from years down
      to nanoseconds, keeping the non-zero ones; once every unit has been
      split the remainder is empty. */
  method PrecisePeriod(ht: HumanTime) returns (periods: seq<TimePeriod>)
    ensures periods == Breakdown(ht.span)
  {
    periods := [];
    var reminder := ht;
    var i := 0;
    while i < UNITS
      invariant 0 <= i <= UNITS
      invariant periods == KeptUpTo(ht.span, i)
      invariant RemainderAfter(reminder.span, ht.span, i)
    {
      SplitUnitStep(ht, reminder, i);
      var split := SplitUnit(reminder, i);
      if split.0.Some? {
        periods := periods + [UnitPeriod(i, split.0.value)];
      }
      reminder := split.1;
      i := i + 1;
    }
    assert IsZeroTime(reminder);

    if periods == [] {
      periods := [Seconds(0)];
    }
  }

  // ---------------------------------------------------------------------------
  // Joining and tense wrapping

  function Texts(ps: seq<TimePeriod>, accuracy: Accuracy): seq<string> {
    seq(|ps|, i requires 0 <= i < |ps| => ToText(ps[i], accuracy))
  }

  /** The first `k` fragments separated by ", ", folded from the left. */
  function CommaJoin(frags: seq<string>, k: nat): string
    requires 1 <= k <= |frags|
  {
    if k == 1 then frags[0] else CommaJoin(frags, k - 1) + ", " + frags[k - 1]
  }

  /** "A", "A and B", "A, B and C", ...: the last fragment joins with " and ". */
  function JoinAnd(frags: seq<string>): string
    requires |frags| >= 1
  {
    if |frags| == 1 then frags[0]
    else CommaJoin(frags, |frags| - 1) + " and " + frags[|frags| - 1]
  }

  function Wrap(text: string, tense: Tense): string {
    match tense
    case Past => text + " ago"
    case Future => "in " + text
    case Present => text
  }

  /** The periods each accuracy produces; never empty. */
  function Periods(ht: HumanTime, accuracy: Accuracy): (r: seq<TimePeriod>)
    ensures |r| >= 1
  {
    match accuracy
    case Rough => RoughPeriod(ht)
    case Precise => Breakdown(ht.span)
  }

  /** The text `to_text_en` produces for the given accuracy and tense. */
  function TextEn(ht: HumanTime, accuracy: Accuracy, tense: Tense): string {
    Wrap(JoinAnd(Texts(Periods(ht, accuracy), accuracy)), tense)
  }

  /** English text for the span at the given accuracy and tense. */
  method ToTextEn(ht: HumanTime, accuracy: Accuracy, tense: Tense) returns (text: string)
    ensures text == TextEn(ht, accuracy, tense)
  {
    PeriodSeconds();
    var periods: seq<TimePeriod>;
    match accuracy {
      case Rough => periods := RoughPeriod(ht);
      case Precise => periods := PrecisePeriod(ht);
    }
    assert periods == Periods(ht, accuracy);
    ghost var frags := Texts(periods, accuracy);
    assert |frags| == |periods|;
    assert forall i :: 0 <= i < |periods| ==> frags[i] == ToText(periods[i], accuracy);

    var first := ToText(periods[0], accuracy);
    periods := periods[1..];
    var last: Option<string> := None;
    if |periods| > 0 {
      last := Some(ToText(periods[|periods| - 1], accuracy));
      periods := periods[..|periods| - 1];
    }
    assert |frags| == |periods| + 1 + (if last.Some? then 1 else 0);
    assert last.Some? ==> last.value == frags[|frags| - 1];
    assert forall i :: 0 <= i < |periods| ==> ToText(periods[i], accuracy) == frags[i + 1];

    text := first;
    var i := 0;
    while i < |periods|
      invariant 0 <= i <= |periods|
      invariant text == CommaJoin(frags, i + 1)
    {
      text := text + ", " + ToText(periods[i], accuracy);
      i := i + 1;
    }

    if last.Some? {
      text := text + " and " + last.value;
    }
    assert text == JoinAnd(frags);
    match tense {
      case Past => text := text + " ago";
      case Future => text := "in " + text;
      case Present =>
    }
  }

  /** English text with the tense derived from the span itself. */
  method LocaleEn(ht: HumanTime, accuracy: Accuracy) returns (text: string)
    ensures text == TextEn(ht, accuracy, TenseOf(ht, accuracy))
  {
    var tense := TenseOf(ht, accuracy);
    text := ToTextEn(ht, accuracy, tense);
  }

  /** `{}` formats roughly, the alternate flag `{:#}` precisely. */
  method Display(ht: HumanTime, alternate: bool) returns (text: string)
    ensures alternate ==> text == TextEn(ht, Precise, TenseOf(ht, Precise))
    ensures !alternate ==> text == TextEn(ht, Rough, TenseOf(ht, Rough))
  {
    var accuracy := if alternate then Precise else Rough;
    text := LocaleEn(ht, accuracy);
  }
}
